/** The commands of tShell.c as methods on the shell's global tables, each proved to make of them what
    the state functions say. */
module TinyShell {
  import opened Wrappers
  import opened ShellState
  import opened ShellRuns

  datatype Outcome = Continues | Exits

  /** The same processes with the same children. */
  predicate SameShape(a: seq<Process>, b: seq<Process>) {
    |a| == |b| && forall p :: 0 <= p < |a| ==> a[p].children == b[p].children
  }

  lemma {:induction false} KillAllJoins(s: State, a: seq<nat>, b: seq<nat>)
    requires |s.queues| == 3 && |s.free| == 4
    requires (forall i :: 0 <= i < |a| ==> a[i] < |s.processes|) && (forall i :: 0 <= i < |b| ==> b[i] < |s.processes|)
    ensures KillAll(s, a + b) == KillAll(KillAll(s, a), b)
  {
    if b == [] {
      assert a + b == a;
    } else {
      var n := |b| - 1;
      assert (a + b)[..|a + b| - 1] == a + b[..n];
      KillAllJoins(s, a, b[..n]);
    }
  }

  lemma {:induction false} KillAllKeepsShape(s: State, order: seq<nat>)
    requires |s.queues| == 3 && |s.free| == 4 && (forall i :: 0 <= i < |order| ==> order[i] < |s.processes|)
    ensures SameShape(KillAll(s, order).processes, s.processes)
  {
    if order != [] { KillAllKeepsShape(s, order[..|order| - 1]); }
  }

  ghost predicate Killable(s: State, tree: seq<Process>) {
    Tables(s) && GoodTree(tree) && SameShape(s.processes, tree)
  }

  /** After the trees of the first i children of p. */
  ghost predicate Killing(start: State, now: State, tree: seq<Process>, p: nat, i: nat) {
    && Killable(start, tree) && Killable(now, tree) && p < |tree| && i <= |tree[p].children|
    && now == KillAll(start, Descendants(tree, p, i))
  }

  lemma KillingStep(start: State, now: State, tree: seq<Process>, p: nat, i: nat)
    requires Killing(start, now, tree, p, i) && i < |now.processes[p].children|
    ensures now.processes[p].children == tree[p].children && p < tree[p].children[i] < |tree|
    ensures var order := PostOrder(tree, tree[p].children[i]);
      && (forall k :: 0 <= k < |order| ==> order[k] < |now.processes|)
      && Killing(start, KillAll(now, order), tree, p, i + 1)
  {
    var order := PostOrder(tree, tree[p].children[i]);
    KillAllJoins(start, Descendants(tree, p, i), order);
    KillAllKeeps(now, order);
    KillAllKeepsShape(now, order);
  }

  lemma PostOrderStep(s: State, tree: seq<Process>, p: nat)
    requires Killable(s, tree) && p < |tree|
    ensures var before := KillAll(s, Descendants(tree, p, |tree[p].children|));
      KillOne(before, p) == KillAll(s, PostOrder(tree, p)) && Killable(KillOne(before, p), tree)
  {
    var order := Descendants(tree, p, |tree[p].children|);
    KillAllKeeps(s, order);
    KillAllKeepsShape(s, order);
    KillOneKeeps(KillAll(s, order), p);
    assert (order + [p])[..|order + [p]| - 1] == order;
  }

  /** Release in its loop, about to look at the k-th waiter. */
  ghost predicate Serving(freed: State, now: State, p: nat, r: nat, k: nat) {
    && Tables(freed) && Tables(now) && 1 <= r <= 4 && p < |freed.processes| == |now.processes|
    && now.waiting == freed.waiting && k <= |now.waiting[r - 1]|
    && ServedFrom(now, p, r, k) == ServedFrom(freed, p, r, 0)
  }

  lemma ServingStep(freed: State, now: State, p: nat, r: nat, k: nat)
    requires Serving(freed, now, p, r, k) && Serves(now, r, k)
    ensures Serving(freed, Served(now, p, r, k), p, r, k + 1)
  {
    ServedKeeps(now, p, r, k);
  }

  lemma TakenSplits(list: seq<nat>, i: nat, r: nat, n: int)
    requires i < |list| && n > 0
    ensures list[i] == r ==> Taken(list[i..], r, n) == Taken(list[i + 1..], r, n - 1)
    ensures list[i] != r ==> Taken(list[i..], r, n) == [list[i]] + Taken(list[i + 1..], r, n)
  {
    assert list[i..][1..] == list[i + 1..];
  }

  class Shell {
    var processes: seq<Process>
    var queues: seq<seq<nat>>
    var free: seq<int>
    var waiting: seq<seq<nat>>
    var current: Option<nat>

    ghost function View(): State
      reads this
    {
      State(processes, queues, free, waiting, current)
    }

    /** init_resource and init_process. */
    constructor ()
      ensures View() == Start()
    {
      processes, queues := [], [[], [], []];
      free, waiting := [1, 2, 3, 4], [[], [], [], []];
      current := None;
      new;
      assert View() == Empty();
      Create("init", 0);
    }

    method InsertPriority(p: nat)
      requires p < |processes| && |queues| == 3
      modifies this`queues
      ensures queues == Appended(old(queues), processes[p].priority, p)
    {
      var k := processes[p].priority;
      if k == 2 || k == 1 || k == 0 {
        queues := queues[k := queues[k] + [p]];
      }
    }

    /** Delete_Node_List and, when the name is there, Remove_Ready_Single. */
    method DeleteNode(k: nat, pid: string)
      requires k < |queues| && (forall i :: 0 <= i < |queues[k]| ==> queues[k][i] < |processes|)
      modifies this`queues
      ensures queues == old(queues)[k := Without(old(queues)[k], processes, pid)]
    {
      var i := 0;
      while i < |queues[k]|
        invariant queues == old(queues) && i <= NamedAt(queues[k], processes, pid)
      {
        if processes[queues[k][i]].pid == pid {
          assert i == NamedAt(queues[k], processes, pid);
          queues := queues[k := queues[k][..i] + queues[k][i + 1..]];
          return;
        }
        i := i + 1;
      }
      assert queues[k := queues[k]] == queues;
    }

    /** Remove_Ready of the current process, which heads its list, so the search ends at once. */
    method RemoveReady(p: nat)
      requires Inv(View()) && current == Some(p)
      modifies this`queues
      ensures queues == old(queues)[processes[p].priority := old(queues)[processes[p].priority][1..]]
    {
      HeadIsFound(View());
      DeleteNode(processes[p].priority, processes[p].pid);
    }

    method FindPcb() returns (p: Option<nat>)
      requires |queues| == 3
      ensures p == Highest(queues)
    {
      var k := 2;
      while k >= 0
        invariant -1 <= k <= 2 && forall j :: k < j < 3 ==> queues[j] == []
      {
        if queues[k] != [] { return Some(queues[k][0]); }
        k := k - 1;
      }
      return None;
    }

    /** Scheduler: no process is ever marked running, so the found head is always switched to. */
    method Scheduler()
      requires |queues| == 3
      modifies this`current
      ensures View() == Scheduled(old(View()))
    {
      current := FindPcb();
    }

    method Create(pid: string, priority: int)
      requires Inv(View())
      modifies this
      ensures View() == Created(old(View()), pid, priority)
    {
      var p := |processes|;
      var now := Process(pid, priority, false, [], 0, current, [], []);
      if current.Some? {
        var creator := processes[current.value];
        processes := processes[current.value := creator.(children := creator.children + [p])];
      }
      processes := processes + [now];
      InsertPriority(p);
      Scheduler();
    }

    /** The loop that allocates n nodes. */
    method ResourceAlloc(r: nat, p: nat, n: int)
      requires p < |processes|
      modifies this`processes
      ensures processes ==
        old(processes)[p := old(processes)[p].(resources := Given(old(processes)[p].resources, r, n))]
    {
      var t := n;
      ghost var list := processes[p].resources;
      assert processes[p := processes[p].(resources := list)] == processes;
      while t > 0
        invariant n <= 0 ==> t == n
        invariant n > 0 ==> 0 <= t <= n
        invariant processes == old(processes)[p := old(processes)[p].(resources := Given(list, r, n - t))]
        decreases t
      {
        processes := processes[p := processes[p].(resources := processes[p].resources + [r])];
        t := t - 1;
      }
    }

    method ResourceFree(r: nat, p: nat, n: int) returns (outcome: Outcome)
      requires p < |processes|
      modifies this`processes
      ensures outcome == if old(processes)[p].resources == [] then Exits else Continues
      ensures processes ==
        old(processes)[p := old(processes)[p].(resources := Taken(old(processes)[p].resources, r, n))]
    {
      if processes[p].resources == [] { return Exits; }
      var list := RemoveNodes(processes[p].resources, r, n);
      processes := processes[p := processes[p].(resources := list)];
      return Continues;
    }

    /** The loop of Resource_Free: unlink nodes of r until n are gone or the list ends. */
    method RemoveNodes(all: seq<nat>, r: nat, n: int) returns (list: seq<nat>)
      ensures list == Taken(all, r, n)
    {
      list := all;
      var i, left := 0, n;
      while i < |list| && left > 0
        invariant 0 <= i <= |list| && Taken(all, r, n) == list[..i] + Taken(list[i..], r, left)
        decreases |list| - i
      {
        TakenSplits(list, i, r, left);
        if list[i] == r {
          ghost var rest := list[i + 1..];
          list, left := list[..i] + list[i + 1..], left - 1;
          assert list[i..] == rest;
        } else {
          i := i + 1;
        }
      }
      assert list[..i] + list[i..] == list;
    }

    method Request(r: nat, n: int) returns (outcome: Outcome)
      requires Ready(View(), Req(r, n))
      modifies this
      ensures outcome == if Requested(old(View()), r, n).None? then Exits else Continues
      ensures View() == if outcome.Exits? then old(View()) else Requested(old(View()), r, n).value
    {
      var p := current.value;
      if free[r - 1] - n >= 0 {
        free := free[r - 1 := free[r - 1] - n];
        ResourceAlloc(r, p, n);
      } else {
        if n > r { return Exits; }
        HeadIsFound(View());
        Block(r, p, n);
        Scheduler();
      }
      return Continues;
    }

    method Block(r: nat, p: nat, n: int)
      requires Inv(View()) && current == Some(p) && 1 <= r <= 4
      modifies this
      ensures View() == Blocked(old(View()), p, r, n)
    {
      HeadIsFound(View());
      RemoveReady(p);
      var now := processes[p].(blocked := true, blockedOn := processes[p].blockedOn + [r], blockedNum := n);
      processes := processes[p := now];
      waiting := waiting[r - 1 := waiting[r - 1] + [p]];
    }

    /** The release loop walks the wait list without shortening it. */
    method Release(r: nat, n: int) returns (outcome: Outcome)
      requires Ready(View(), Rel(r, n))
      modifies this
      ensures outcome == if Released(old(View()), r, n).None? then Exits else Continues
      ensures View() == if outcome.Exits? then old(View()) else Released(old(View()), r, n).value
    {
      var p := current.value;
      if processes[p].resources == [] { return Exits; }
      outcome := ResourceFree(r, p, n);
      free := free[r - 1 := free[r - 1] + n];
      ghost var freed := View();
      FreedKeeps(old(View()), p, r, n);
      ServeWaiters(p, r, freed);
      return Continues;
    }

    /** The loop of Release. */
    method ServeWaiters(p: nat, r: nat, ghost freed: State)
      requires freed == View() && Tables(freed) && 1 <= r <= 4 && p < |processes|
      modifies this
      ensures View() == ServedFrom(freed, p, r, 0)
    {
      var k := 0;
      while k < |waiting[r - 1]| && free[r - 1] >= processes[waiting[r - 1][k]].blockedNum
        invariant Serving(freed, View(), p, r, k)
        decreases |freed.waiting[r - 1]| - k
      {
        ServingStep(freed, View(), p, r, k);
        ServeWaiter(p, r, k);
        k := k + 1;
      }
    }

    method ServeWaiter(p: nat, r: nat, k: nat)
      requires Tables(View()) && p < |processes| && 1 <= r <= 4 && Serves(View(), r, k)
      modifies this
      ensures View() == Served(old(View()), p, r, k)
    {
      var n := processes[waiting[r - 1][k]].blockedNum;
      free := free[r - 1 := free[r - 1] - n];
      var q := waiting[r - 1][0];
      processes := processes[q := processes[q].(blocked := false)];
      ResourceAlloc(r, p, n);
      InsertPriority(p);
      Scheduler();
    }

    method TimeOut()
      requires Ready(View(), To)
      modifies this
      ensures View() == TimedOut(old(View()))
    {
      var p := current.value;
      HeadIsFound(View());
      RemoveReady(p);
      processes := processes[p := processes[p].(blocked := false)];
      InsertPriority(p);
      Scheduler();
    }

    /** The part of Kill_Tree that deals with one process, after its children. */
    method Kill(p: nat)
      requires Tables(View()) && p < |processes|
      modifies this
      ensures View() == KillOne(old(View()), p)
    {
      var process := processes[p];
      var list := process.resources;
      ghost var before := free;
      var i := 0;
      while i < |list|
        invariant 0 <= i <= |list| && free == Returned(before, list[..i])
        invariant processes == old(processes) && queues == old(queues)
        invariant waiting == old(waiting) && current == old(current)
      {
        assert list[..i + 1][..i] == list[..i] && OnlyKnown(list);
        free := free[list[i] - 1 := free[list[i] - 1] + 1];
        i := i + 1;
      }
      assert list[..i] == list;
      if process.priority == 0 || process.priority == 1 || process.priority == 2 {
        DeleteNode(process.priority, process.pid);
      }
      processes := processes[p := process.(resources := [])];
    }

    /** Kill_Tree. Children stay in their parents' lists, but a second visit finds nothing to return. */
    method KillTree(p: nat, ghost tree: seq<Process>)
      requires Killable(View(), tree) && p < |tree|
      modifies this
      ensures Killable(View(), tree)
      ensures View() == KillAll(old(View()), PostOrder(tree, p))
      decreases |tree| - p, 1
    {
      PostOrderStep(View(), tree, p);
      KillChildren(p, tree);
      Kill(p);
    }

    method KillChildren(p: nat, ghost tree: seq<Process>)
      requires Killable(View(), tree) && p < |tree|
      modifies this
      ensures Killable(View(), tree)
      ensures View() == KillAll(old(View()), Descendants(tree, p, |tree[p].children|))
      decreases |tree| - p, 0
    {
      ghost var start := View();
      var i := 0;
      while i < |processes[p].children|
        invariant Killing(start, View(), tree, p, i)
        decreases |tree[p].children| - i
      {
        KillingStep(start, View(), tree, p, i);
        var child := processes[p].children[i];
        KillTree(child, tree);
        i := i + 1;
      }
    }

    method FindNamePcb(pid: string) returns (p: Option<nat>)
      requires Tables(View())
      ensures p == FindNamed(View(), pid)
    {
      var k := 2;
      while k >= 0
        invariant -1 <= k <= 2
        invariant forall j :: k < j < 3 ==> NamedAt(queues[j], processes, pid) == |queues[j]|
      {
        var i := FindInQueue(k, pid);
        if i < |queues[k]| { return Some(queues[k][i]); }
        k := k - 1;
      }
      return None;
    }

    /** The inner loop of Find_Name_PCB, over one ready list. */
    method FindInQueue(k: nat, pid: string) returns (i: nat)
      requires k < |queues| && GoodQueue(queues[k], processes, k)
      ensures i == NamedAt(queues[k], processes, pid)
    {
      i := 0;
      while i < |queues[k]|
        invariant i <= NamedAt(queues[k], processes, pid)
      {
        if processes[queues[k][i]].pid == pid { return; }
        i := i + 1;
      }
    }

    method Destroy(pid: string)
      requires Inv(View())
      modifies this
      ensures View() == Destroyed(old(View()), pid)
    {
      var target := FindNamePcb(pid);
      if target.None? { return; }
      KillTree(target.value, processes);
      Scheduler();
    }

    method Execute(c: Command) returns (outcome: Outcome)
      requires Ready(View(), c)
      modifies this
      ensures outcome == if Do(old(View()), c).None? then Exits else Continues
      ensures View() == if outcome.Exits? then old(View()) else Do(old(View()), c).value
    {
      outcome := Continues;
      match c {
        case Cr(pid, priority) => Create(pid, priority);
        case De(pid) => Destroy(pid);
        case Req(r, n) => outcome := Request(r, n);
        case Rel(r, n) => outcome := Release(r, n);
        case To => TimeOut();
      }
    }
  }

  /** The main loop on any run of fair commands: every resource is accounted for at the end. */
  method Serve(commands: seq<Command>) returns (shell: Shell)
    requires Runs(Start(), commands)
    ensures fresh(shell) && shell.View() == After(Start(), commands)
    ensures Inv(shell.View()) && Conserved(shell.View())
  {
    shell := new Shell();
    StartIsConserved();
    EveryRunConserves(Start(), commands);
    var n := 0;
    while n < |commands|
      invariant 0 <= n <= |commands| && fresh(shell)
      invariant Inv(shell.View()) && Runs(shell.View(), commands[n..])
      invariant After(shell.View(), commands[n..]) == After(Start(), commands)
    {
      CommandConserves(shell.View(), commands[n]);
      assert commands[n..][1..] == commands[n + 1..];
      var outcome := shell.Execute(commands[n]);
      n := n + 1;
    }
  }
}
