/** The process and resource manager of qinke/tShell-Procss-Lab/tShell.c as values: what each command
    makes of the tables, and what every run of commands keeps. */
module ShellState {
  import opened Arithmetic
  import opened Wrappers

  datatype Process = Process(
    pid: string,
    priority: int,
    blocked: bool,
    blockedOn: seq<nat>,
    blockedNum: int,
    parent: Option<nat>,
    children: seq<nat>,
    resources: seq<nat>)

  /** Processes are numbered in creation order. queues[k] is the ready list of priority k; free[r - 1]
      and waiting[r - 1] are the status and wait list of resource Rr. current is None only after the
      scheduler found no ready process, where the source dereferences NULL. */
  datatype State = State(
    processes: seq<Process>,
    queues: seq<seq<nat>>,
    free: seq<int>,
    waiting: seq<seq<nat>>,
    current: Option<nat>)

  // Resource lists

  function CountOf(list: seq<nat>, r: nat): nat {
    if list == [] then 0 else CountOf(list[..|list| - 1], r) + if list[|list| - 1] == r then 1 else 0
  }

  /** The nodes of a resource in all processes' lists. */
  function Held(processes: seq<Process>, r: nat): nat {
    if processes == [] then 0
    else Held(processes[..|processes| - 1], r) + CountOf(processes[|processes| - 1].resources, r)
  }

  function Total(s: State, r: nat): int
    requires 1 <= r <= |s.free|
  {
    s.free[r - 1] + Held(s.processes, r)
  }

  /** The list after Resource_Free: its first n nodes of r are gone. */
  function Taken(list: seq<nat>, r: nat, n: int): seq<nat> {
    if list == [] || n <= 0 then list
    else if list[0] == r then Taken(list[1..], r, n - 1)
    else [list[0]] + Taken(list[1..], r, n)
  }

  function Given(list: seq<nat>, r: nat, n: int): seq<nat> {
    if n <= 0 then list else Given(list, r, n - 1) + [r]
  }

  lemma {:induction false} CountJoins(a: seq<nat>, b: seq<nat>, r: nat)
    ensures CountOf(a + b, r) == CountOf(a, r) + CountOf(b, r)
  {
    if b == [] {
      assert a + b == a;
    } else {
      assert (a + b)[..|a + b| - 1] == a + b[..|b| - 1];
      CountJoins(a, b[..|b| - 1], r);
    }
  }

  lemma {:induction false} CountGiven(list: seq<nat>, r: nat, n: int, x: nat)
    ensures CountOf(Given(list, r, n), x) == CountOf(list, x) + if x == r && n > 0 then n else 0
    decreases n
  {
    if n > 0 {
      CountGiven(list, r, n - 1, x);
      CountJoins(Given(list, r, n - 1), [r], x);
      assert CountOf([r], x) == if x == r then 1 else 0;
    }
  }

  lemma {:induction false} CountTaken(list: seq<nat>, r: nat, n: int, x: nat)
    ensures CountOf(Taken(list, r, n), x)
         == CountOf(list, x) - if x == r && n > 0 then Min(n, CountOf(list, r)) else 0
    decreases list
  {
    if list != [] && n > 0 {
      assert list == [list[0]] + list[1..];
      CountJoins([list[0]], list[1..], x);
      CountJoins([list[0]], list[1..], r);
      assert CountOf([list[0]], x) == if list[0] == x then 1 else 0;
      assert CountOf([list[0]], r) == if list[0] == r then 1 else 0;
      if list[0] == r {
        CountTaken(list[1..], r, n - 1, x);
      } else {
        CountTaken(list[1..], r, n, x);
        CountJoins([list[0]], Taken(list[1..], r, n), x);
      }
    }
  }

  /** Replacing one process's list changes what is held by the difference of the two counts. */
  lemma {:induction false} HeldAfter(processes: seq<Process>, p: nat, now: Process, r: nat)
    requires p < |processes|
    ensures Held(processes[p := now], r) ==
      Held(processes, r) - CountOf(processes[p].resources, r) + CountOf(now.resources, r)
    ensures CountOf(processes[p].resources, r) <= Held(processes, r)
    decreases |processes|
  {
    var n := |processes| - 1;
    if p < n {
      assert processes[p := now][..n] == processes[..n][p := now];
      HeldAfter(processes[..n], p, now, r);
    } else {
      assert processes[p := now][..n] == processes[..n];
    }
  }

  // Ready lists

  /** The index of the first process of that name, or the length of the list. */
  function NamedAt(queue: seq<nat>, processes: seq<Process>, pid: string): (i: nat)
    ensures i <= |queue|
    ensures i < |queue| ==> queue[i] < |processes| && processes[queue[i]].pid == pid
    ensures forall k :: 0 <= k < i ==> queue[k] >= |processes| || processes[queue[k]].pid != pid
  {
    if queue == [] then 0
    else if queue[0] < |processes| && processes[queue[0]].pid == pid then 0
    else
      var i := NamedAt(queue[1..], processes, pid);
      assert forall k :: 0 < k < i + 1 ==> queue[k] == queue[1..][k - 1];
      i + 1
  }

  /** A list without its first process of that name; names, not identities, are compared. */
  function Without(queue: seq<nat>, processes: seq<Process>, pid: string): seq<nat> {
    var i := NamedAt(queue, processes, pid);
    if i < |queue| then queue[..i] + queue[i + 1..] else queue
  }

  /** The ready list that holds a priority; other priorities are in none. */
  predicate Listed(priority: int) {
    0 <= priority < 3
  }

  function Appended(queues: seq<seq<nat>>, priority: int, p: nat): seq<seq<nat>>
    requires |queues| == 3
  {
    if Listed(priority) then queues[priority := queues[priority] + [p]] else queues
  }

  function Highest(queues: seq<seq<nat>>): Option<nat>
    requires |queues| == 3
  {
    if queues[2] != [] then Some(queues[2][0])
    else if queues[1] != [] then Some(queues[1][0])
    else if queues[0] != [] then Some(queues[0][0])
    else None
  }

  function Scheduled(s: State): State
    requires |s.queues| == 3
  {
    s.(current := Highest(s.queues))
  }

  // What every command keeps

  predicate GoodQueue(queue: seq<nat>, processes: seq<Process>, priority: int) {
    forall i :: 0 <= i < |queue| ==> queue[i] < |processes| && processes[queue[i]].priority == priority
  }

  predicate GoodWaiting(list: seq<nat>, processes: seq<Process>) {
    forall i :: 0 <= i < |list| ==> list[i] < |processes| && processes[list[i]].blockedNum > 0
  }

  /** Children are created after their parents, so the tree has no cycles. */
  predicate GoodTree(processes: seq<Process>) {
    forall p, i :: 0 <= p < |processes| && 0 <= i < |processes[p].children| ==>
      p < processes[p].children[i] < |processes|
  }

  predicate GoodResources(processes: seq<Process>) {
    forall p :: 0 <= p < |processes| ==> OnlyKnown(processes[p].resources)
  }

  predicate OnlyKnown(resources: seq<nat>) {
    forall i :: 0 <= i < |resources| ==> 1 <= resources[i] <= 4
  }

  predicate GoodQueues(queues: seq<seq<nat>>, processes: seq<Process>) {
    |queues| == 3 && forall k :: 0 <= k < 3 ==> GoodQueue(queues[k], processes, k)
  }

  predicate Tables(s: State) {
    && GoodQueues(s.queues, s.processes)
    && |s.free| == 4
    && |s.waiting| == 4 && (forall k :: 0 <= k < 4 ==> GoodWaiting(s.waiting[k], s.processes))
    && GoodTree(s.processes) && GoodResources(s.processes)
  }

  /** After a command the current process is the head of the highest ready list that is not empty. */
  predicate HeadRuns(s: State) {
    Tables(s) && s.current == Highest(s.queues)
  }

  predicate NonNegative(free: seq<int>) {
    forall k :: 0 <= k < |free| ==> free[k] >= 0
  }

  predicate Inv(s: State) {
    HeadRuns(s) && NonNegative(s.free)
  }

  /** Each resource's free units and nodes together are its initial amount, its own number. */
  ghost predicate Conserved(s: State)
    requires |s.free| == 4
  {
    forall r :: 1 <= r <= 4 ==> Total(s, r) == r
  }

  // Commands

  /** The process tree with a new last process under its creator. */
  function Linked(processes: seq<Process>, parent: Option<nat>, now: Process): seq<Process>
    requires parent.Some? ==> parent.value < |processes|
  {
    if parent.None? then processes + [now]
    else
      var creator := processes[parent.value];
      processes[parent.value := creator.(children := creator.children + [|processes|])] + [now]
  }

  function Created(s: State, pid: string, priority: int): State
    requires Inv(s)
  {
    var p := |s.processes|;
    var now := Process(pid, priority, false, [], 0, s.current, [], []);
    Scheduled(s.(processes := Linked(s.processes, s.current, now), queues := Appended(s.queues, priority, p)))
  }

  function Blocked(s: State, p: nat, r: nat, n: int): State
    requires Tables(s) && p < |s.processes| && 1 <= r <= 4
  {
    var process := s.processes[p].(blocked := true, blockedOn := s.processes[p].blockedOn + [r], blockedNum := n);
    var k := process.priority;
    s.(processes := s.processes[p := process],
       queues := if Listed(k) then s.queues[k := Without(s.queues[k], s.processes, process.pid)] else s.queues,
       waiting := s.waiting[r - 1 := s.waiting[r - 1] + [p]])
  }

  function Allocated(s: State, p: nat, r: nat, n: int): State
    requires p < |s.processes| && 1 <= r <= |s.free|
  {
    s.(free := s.free[r - 1 := s.free[r - 1] - n],
       processes := s.processes[p := s.processes[p].(resources := Given(s.processes[p].resources, r, n))])
  }

  /** Request by the current process; None where the source exits. */
  function Requested(s: State, r: nat, n: int): Option<State>
    requires Inv(s) && s.current.Some? && 1 <= r <= 4
  {
    if s.free[r - 1] - n >= 0 then Some(Allocated(s, s.current.value, r, n))
    else if n > r then None
    else Some(Scheduled(Blocked(s, s.current.value, r, n)))
  }

  function Freed(s: State, p: nat, r: nat, n: int): State
    requires p < |s.processes| && 1 <= r <= |s.free|
  {
    s.(free := s.free[r - 1 := s.free[r - 1] + n],
       processes := s.processes[p := s.processes[p].(resources := Taken(s.processes[p].resources, r, n))])
  }

  /** The guard of the loop in Release. */
  predicate Serves(s: State, r: nat, k: nat)
    requires Tables(s) && 1 <= r <= 4
  {
    k < |s.waiting[r - 1]| && s.free[r - 1] >= s.processes[s.waiting[r - 1][k]].blockedNum
  }

  /** One round of the loop in Release: the units the k-th waiter asked for go to the releaser, who
      enters the ready list once more; the first waiter is marked ready but stays where it is. */
  function Served(s: State, p: nat, r: nat, k: nat): State
    requires Tables(s) && 1 <= r <= 4 && p < |s.processes| && Serves(s, r, k)
  {
    var w, q := s.waiting[r - 1][k], s.waiting[r - 1][0];
    var n := s.processes[w].blockedNum;
    var woken := s.(processes := s.processes[q := s.processes[q].(blocked := false)]);
    var given := Allocated(woken, p, r, n);
    Scheduled(given.(queues := Appended(given.queues, given.processes[p].priority, p)))
  }

  lemma KeepsTables(s: State, p: nat, now: Process)
    requires Tables(s) && p < |s.processes| && OnlyKnown(now.resources)
    requires now.priority == s.processes[p].priority && now.children == s.processes[p].children
    requires now.blockedNum == s.processes[p].blockedNum || now.blockedNum > 0
    ensures Tables(s.(processes := s.processes[p := now]))
  {
  }

  lemma KeepsQueues(queues: seq<seq<nat>>, processes: seq<Process>, p: nat)
    requires GoodQueues(queues, processes) && p < |processes|
    ensures GoodQueues(Appended(queues, processes[p].priority, p), processes)
  {
  }

  lemma {:induction false} GivenIsKnown(list: seq<nat>, r: nat, n: int)
    requires OnlyKnown(list) && 1 <= r <= 4
    ensures OnlyKnown(Given(list, r, n))
    decreases n
  {
    if n > 0 { GivenIsKnown(list, r, n - 1); }
  }

  lemma {:induction false} TakenIsKnown(list: seq<nat>, r: nat, n: int)
    requires OnlyKnown(list)
    ensures OnlyKnown(Taken(list, r, n))
    decreases list
  {
    if list != [] && n > 0 {
      assert OnlyKnown(list[1..]);
      if list[0] == r { TakenIsKnown(list[1..], r, n - 1); } else { TakenIsKnown(list[1..], r, n); }
    }
  }

  lemma AllocatedKeeps(s: State, p: nat, r: nat, n: int)
    requires Tables(s) && p < |s.processes| && 1 <= r <= 4
    ensures Tables(Allocated(s, p, r, n))
    ensures NonNegative(s.free) && n <= s.free[r - 1] ==> NonNegative(Allocated(s, p, r, n).free)
  {
    GivenIsKnown(s.processes[p].resources, r, n);
    KeepsTables(s, p, s.processes[p].(resources := Given(s.processes[p].resources, r, n)));
  }

  /** Allocating moves units from the status into the process's list; a negative amount moves none. */
  lemma AllocatedTotal(s: State, p: nat, r: nat, n: int, x: nat)
    requires p < |s.processes| && 1 <= r <= |s.free| && 1 <= x <= |s.free|
    ensures Total(Allocated(s, p, r, n), x) == Total(s, x) - if x == r && n < 0 then n else 0
  {
    var now := s.processes[p].(resources := Given(s.processes[p].resources, r, n));
    CountGiven(s.processes[p].resources, r, n, x);
    HeldAfter(s.processes, p, now, x);
  }

  lemma FreedKeeps(s: State, p: nat, r: nat, n: int)
    requires Tables(s) && p < |s.processes| && 1 <= r <= 4
    ensures Tables(Freed(s, p, r, n))
    ensures NonNegative(s.free) && n >= 0 ==> NonNegative(Freed(s, p, r, n).free)
  {
    TakenIsKnown(s.processes[p].resources, r, n);
    KeepsTables(s, p, s.processes[p].(resources := Taken(s.processes[p].resources, r, n)));
  }

  lemma FreedTotal(s: State, p: nat, r: nat, n: int, x: nat)
    requires p < |s.processes| && 1 <= r <= |s.free| && 1 <= x <= |s.free|
    ensures Total(Freed(s, p, r, n), x) == Total(s, x) + if x == r then Unmatched(s.processes[p].resources, r, n) else 0
  {
    var now := s.processes[p].(resources := Taken(s.processes[p].resources, r, n));
    CountTaken(s.processes[p].resources, r, n, x);
    HeldAfter(s.processes, p, now, x);
  }

  /** The released units that came from nowhere. */
  function Unmatched(list: seq<nat>, r: nat, n: int): int {
    n - if n > 0 then Min(n, CountOf(list, r)) else 0
  }

  lemma ServedKeeps(s: State, p: nat, r: nat, k: nat)
    requires Tables(s) && 1 <= r <= 4 && p < |s.processes| && Serves(s, r, k)
    ensures HeadRuns(Served(s, p, r, k)) && Served(s, p, r, k).waiting == s.waiting
    ensures NonNegative(s.free) ==> NonNegative(Served(s, p, r, k).free)
    ensures |Served(s, p, r, k).processes| == |s.processes|
  {
    var w, q := s.waiting[r - 1][k], s.waiting[r - 1][0];
    var woken := s.(processes := s.processes[q := s.processes[q].(blocked := false)]);
    KeepsTables(s, q, s.processes[q].(blocked := false));
    AllocatedKeeps(woken, p, r, s.processes[w].blockedNum);
    KeepsQueues(s.queues, Allocated(woken, p, r, s.processes[w].blockedNum).processes, p);
  }

  lemma ServedTotal(s: State, p: nat, r: nat, k: nat, x: nat)
    requires Tables(s) && 1 <= r <= 4 && p < |s.processes| && Serves(s, r, k) && 1 <= x <= 4
    ensures |Served(s, p, r, k).free| == 4 && Total(Served(s, p, r, k), x) == Total(s, x)
  {
    var w, q := s.waiting[r - 1][k], s.waiting[r - 1][0];
    var woken := s.(processes := s.processes[q := s.processes[q].(blocked := false)]);
    HeldAfter(s.processes, q, s.processes[q].(blocked := false), x);
    AllocatedTotal(woken, p, r, s.processes[w].blockedNum, x);
  }

  /** The loop in Release from the k-th waiter on. */
  function ServedFrom(s: State, p: nat, r: nat, k: nat): State
    requires Tables(s) && 1 <= r <= 4 && p < |s.processes|
    decreases |s.waiting[r - 1]| - k
  {
    if Serves(s, r, k) then
      ServedKeeps(s, p, r, k);
      ServedFrom(Served(s, p, r, k), p, r, k + 1)
    else s
  }

  lemma {:induction false} ServedFromKeeps(s: State, p: nat, r: nat, k: nat)
    requires Tables(s) && 1 <= r <= 4 && p < |s.processes|
    ensures Tables(ServedFrom(s, p, r, k)) && ServedFrom(s, p, r, k).waiting == s.waiting
    ensures HeadRuns(s) ==> HeadRuns(ServedFrom(s, p, r, k))
    ensures NonNegative(s.free) ==> NonNegative(ServedFrom(s, p, r, k).free)
    decreases |s.waiting[r - 1]| - k
  {
    if Serves(s, r, k) {
      ServedKeeps(s, p, r, k);
      ServedFromKeeps(Served(s, p, r, k), p, r, k + 1);
    }
  }

  lemma {:induction false} ServedFromTotal(s: State, p: nat, r: nat, k: nat, x: nat)
    requires Tables(s) && 1 <= r <= 4 && p < |s.processes| && 1 <= x <= 4
    ensures |ServedFrom(s, p, r, k).free| == 4 && Total(ServedFrom(s, p, r, k), x) == Total(s, x)
    decreases |s.waiting[r - 1]| - k
  {
    if Serves(s, r, k) {
      ServedKeeps(s, p, r, k);
      ServedTotal(s, p, r, k, x);
      ServedFromTotal(Served(s, p, r, k), p, r, k + 1, x);
    }
  }

  /** Release by the current process; None where the source exits because it holds nothing at all. */
  function Released(s: State, r: nat, n: int): Option<State>
    requires Inv(s) && s.current.Some? && 1 <= r <= 4
  {
    var p := s.current.value;
    if s.processes[p].resources == [] then None
    else
      FreedKeeps(s, p, r, n);
      Some(ServedFrom(Freed(s, p, r, n), p, r, 0))
  }

  // Destroying a process tree

  /** The status counters once a whole resource list is returned, one unit a node. */
  function Returned(free: seq<int>, resources: seq<nat>): (r: seq<int>)
    ensures |r| == |free| && (forall i :: 0 <= i < |free| ==> r[i] == free[i] + CountOf(resources, i + 1))
  {
    seq(|free|, i requires 0 <= i < |free| => free[i] + CountOf(resources, i + 1))
  }

  function KillOne(s: State, p: nat): State
    requires |s.queues| == 3 && |s.free| == 4 && p < |s.processes|
  {
    var process := s.processes[p];
    var k := process.priority;
    s.(processes := s.processes[p := process.(resources := [])],
       free := Returned(s.free, process.resources),
       queues := if Listed(k) then s.queues[k := Without(s.queues[k], s.processes, process.pid)] else s.queues)
  }

  /** The order Kill_Tree works in: the children's trees first, then the process itself. */
  function PostOrder(processes: seq<Process>, p: nat): (order: seq<nat>)
    requires GoodTree(processes) && p < |processes|
    ensures forall i :: 0 <= i < |order| ==> order[i] < |processes|
    decreases |processes| - p, 1, 0
  {
    Descendants(processes, p, |processes[p].children|) + [p]
  }

  /** The trees of the first n children of a process. */
  function Descendants(processes: seq<Process>, p: nat, n: nat): (order: seq<nat>)
    requires GoodTree(processes) && p < |processes| && n <= |processes[p].children|
    ensures forall i :: 0 <= i < |order| ==> order[i] < |processes|
    decreases |processes| - p, 0, n
  {
    if n == 0 then []
    else Descendants(processes, p, n - 1) + PostOrder(processes, processes[p].children[n - 1])
  }

  function KillAll(s: State, order: seq<nat>): (r: State)
    requires |s.queues| == 3 && |s.free| == 4 && (forall i :: 0 <= i < |order| ==> order[i] < |s.processes|)
    ensures |r.queues| == 3 && |r.free| == 4 && |r.processes| == |s.processes|
  {
    if order == [] then s else KillOne(KillAll(s, order[..|order| - 1]), order[|order| - 1])
  }

  lemma WithoutIsGood(queue: seq<nat>, processes: seq<Process>, pid: string, k: int)
    requires GoodQueue(queue, processes, k)
    ensures GoodQueue(Without(queue, processes, pid), processes, k)
  {
    var i, rest := NamedAt(queue, processes, pid), Without(queue, processes, pid);
    forall j | 0 <= j < |rest|
      ensures rest[j] < |processes| && processes[rest[j]].priority == k
    {
      assert rest[j] == queue[if j < i then j else j + 1];
    }
  }

  lemma KillOneKeeps(s: State, p: nat)
    requires Tables(s) && p < |s.processes|
    ensures Tables(KillOne(s, p)) && KillOne(s, p).waiting == s.waiting && KillOne(s, p).current == s.current
    ensures NonNegative(s.free) ==> NonNegative(KillOne(s, p).free)
  {
    var process := s.processes[p];
    KeepsTables(s, p, process.(resources := []));
    if Listed(process.priority) {
      WithoutIsGood(s.queues[process.priority], s.processes, process.pid, process.priority);
    }
    assert KillOne(s, p).free == Returned(s.free, process.resources);
  }

  lemma KillOneTotal(s: State, p: nat, x: nat)
    requires |s.queues| == 3 && |s.free| == 4 && p < |s.processes| && 1 <= x <= 4
    ensures Total(KillOne(s, p), x) == Total(s, x)
  {
    HeldAfter(s.processes, p, s.processes[p].(resources := []), x);
  }

  lemma {:induction false} KillAllKeeps(s: State, order: seq<nat>)
    requires Tables(s) && (forall i :: 0 <= i < |order| ==> order[i] < |s.processes|)
    ensures Tables(KillAll(s, order))
    ensures KillAll(s, order).waiting == s.waiting && KillAll(s, order).current == s.current
    ensures NonNegative(s.free) ==> NonNegative(KillAll(s, order).free)
  {
    if order != [] {
      KillAllKeeps(s, order[..|order| - 1]);
      KillOneKeeps(KillAll(s, order[..|order| - 1]), order[|order| - 1]);
    }
  }

  lemma {:induction false} KillAllTotal(s: State, order: seq<nat>, x: nat)
    requires |s.queues| == 3 && |s.free| == 4 && (forall i :: 0 <= i < |order| ==> order[i] < |s.processes|)
    requires 1 <= x <= 4
    ensures Total(KillAll(s, order), x) == Total(s, x)
  {
    if order != [] {
      KillAllTotal(s, order[..|order| - 1], x);
      KillOneTotal(KillAll(s, order[..|order| - 1]), order[|order| - 1], x);
    }
  }

  /** Find_Name_PCB: the first ready process of that name, the highest list first. */
  function FindNamed(s: State, pid: string): Option<nat>
    requires Tables(s)
  {
    var i, j := NamedAt(s.queues[2], s.processes, pid), NamedAt(s.queues[1], s.processes, pid);
    var k := NamedAt(s.queues[0], s.processes, pid);
    if i < |s.queues[2]| then Some(s.queues[2][i])
    else if j < |s.queues[1]| then Some(s.queues[1][j])
    else if k < |s.queues[0]| then Some(s.queues[0][k])
    else None
  }

  function Destroyed(s: State, pid: string): State
    requires Inv(s)
  {
    var target := FindNamed(s, pid);
    if target.None? then s else Scheduled(KillAll(s, PostOrder(s.processes, target.value)))
  }

  function TimedOut(s: State): State
    requires Inv(s) && s.current.Some?
  {
    var p := s.current.value;
    var k := s.processes[p].priority;
    var removed := s.queues[k := Without(s.queues[k], s.processes, s.processes[p].pid)];
    Scheduled(s.(processes := s.processes[p := s.processes[p].(blocked := false)], queues := Appended(removed, k, p)))
  }
}
