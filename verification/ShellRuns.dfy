/** Whole runs of tShell commands: resource conservation, who runs, and what becomes of waiters. */
module ShellRuns {
  import opened Wrappers
  import opened ShellState

  datatype Command = Cr(pid: string, priority: int) | De(pid: string) | Req(r: nat, n: int) | Rel(r: nat, n: int) | To

  /** A command of a shell that still has a current process, naming one of the four resources. */
  predicate Ready(s: State, c: Command) {
    Inv(s) && s.current.Some? && (c.Req? || c.Rel? ==> 1 <= c.r <= 4)
  }

  function Do(s: State, c: Command): Option<State>
    requires Ready(s, c)
  {
    match c
    case Cr(pid, priority) => Some(Created(s, pid, priority))
    case De(pid) => Some(Destroyed(s, pid))
    case Req(r, n) => Requested(s, r, n)
    case Rel(r, n) => Released(s, r, n)
    case To => Some(TimedOut(s))
  }

  /** A request of no negative amount, a release of no more than the caller holds. */
  predicate Fair(s: State, c: Command)
    requires Ready(s, c)
  {
    match c
    case Req(_, n) => n >= 0
    case Rel(r, n) => 0 <= n <= CountOf(s.processes[s.current.value].resources, r)
    case _ => true
  }

  /** Inserting and removing go by the current process, which heads its own ready list. */
  lemma HeadIsFound(s: State)
    requires Inv(s) && s.current.Some?
    ensures s.current.value < |s.processes| && Listed(s.processes[s.current.value].priority)
    ensures var p := s.current.value; var queue := s.queues[s.processes[p].priority];
      && queue != [] && queue[0] == p
      && NamedAt(queue, s.processes, s.processes[p].pid) == 0
      && Without(queue, s.processes, s.processes[p].pid) == queue[1..]
      && forall k :: s.processes[p].priority < k < 3 ==> s.queues[k] == []
  {
  }

  // Each command

  lemma LinkedKeeps(s: State, now: Process)
    requires Inv(s) && now.children == [] && now.resources == []
    ensures var processes := Linked(s.processes, s.current, now);
      && |processes| == |s.processes| + 1 && processes[|s.processes|] == now
      && GoodTree(processes) && GoodResources(processes)
      && GoodQueues(s.queues, processes)
      && forall k :: 0 <= k < 4 ==> GoodWaiting(s.waiting[k], processes)
  {
  }

  lemma {:induction false} LinkedHeld(processes: seq<Process>, parent: Option<nat>, now: Process, x: nat)
    requires (parent.Some? ==> parent.value < |processes|) && now.resources == []
    ensures Held(Linked(processes, parent, now), x) == Held(processes, x)
  {
    var all := Linked(processes, parent, now);
    assert CountOf([], x) == 0;
    if parent.None? {
      assert all[..|all| - 1] == processes;
    } else {
      var creator := processes[parent.value];
      var older := processes[parent.value := creator.(children := creator.children + [|processes|])];
      assert all[..|all| - 1] == older;
      HeldAfter(processes, parent.value, creator.(children := creator.children + [|processes|]), x);
    }
  }

  lemma CreatedKeeps(s: State, pid: string, priority: int)
    requires Inv(s)
    ensures Inv(Created(s, pid, priority))
    ensures forall x :: 1 <= x <= 4 ==> Total(Created(s, pid, priority), x) == Total(s, x)
  {
    var now := Process(pid, priority, false, [], 0, s.current, [], []);
    LinkedKeeps(s, now);
    KeepsQueues(s.queues, Linked(s.processes, s.current, now), |s.processes|);
    forall x | 1 <= x <= 4
      ensures Total(Created(s, pid, priority), x) == Total(s, x)
    {
      LinkedHeld(s.processes, s.current, now, x);
    }
  }

  lemma DestroyedKeeps(s: State, pid: string)
    requires Inv(s)
    ensures Inv(Destroyed(s, pid))
    ensures forall x :: 1 <= x <= 4 ==> Total(Destroyed(s, pid), x) == Total(s, x)
  {
    var target := FindNamed(s, pid);
    if target.Some? {
      var order := PostOrder(s.processes, target.value);
      KillAllKeeps(s, order);
      forall x | 1 <= x <= 4
        ensures Total(Destroyed(s, pid), x) == Total(s, x)
      {
        KillAllTotal(s, order, x);
      }
    }
  }

  lemma BlockedKeeps(s: State, p: nat, r: nat, n: int)
    requires Tables(s) && p < |s.processes| && 1 <= r <= 4 && n > 0
    ensures Tables(Blocked(s, p, r, n)) && Blocked(s, p, r, n).free == s.free
    ensures forall x :: 1 <= x <= 4 ==> Total(Blocked(s, p, r, n), x) == Total(s, x)
  {
    var process := s.processes[p];
    var now := process.(blocked := true, blockedOn := process.blockedOn + [r], blockedNum := n);
    KeepsTables(s, p, now);
    if Listed(process.priority) {
      WithoutIsGood(s.queues[process.priority], s.processes, process.pid, process.priority);
    }
    forall x | 1 <= x <= 4
      ensures Total(Blocked(s, p, r, n), x) == Total(s, x)
    {
      BlockedTotal(s, p, r, n, x);
    }
  }

  lemma BlockedTotal(s: State, p: nat, r: nat, n: int, x: nat)
    requires Tables(s) && p < |s.processes| && 1 <= r <= 4 && 1 <= x <= 4
    ensures Total(Blocked(s, p, r, n), x) == Total(s, x)
  {
    var process := s.processes[p];
    HeldAfter(s.processes, p, process.(blocked := true, blockedOn := process.blockedOn + [r], blockedNum := n), x);
  }

  lemma RequestedKeeps(s: State, r: nat, n: int)
    requires Inv(s) && s.current.Some? && 1 <= r <= 4 && Requested(s, r, n).Some?
    ensures Inv(Requested(s, r, n).value)
    ensures forall x :: 1 <= x <= 4 ==>
      Total(Requested(s, r, n).value, x) == Total(s, x) - if x == r && n < 0 then n else 0
  {
    var p := s.current.value;
    if s.free[r - 1] - n >= 0 {
      AllocatedKeeps(s, p, r, n);
      forall x | 1 <= x <= 4
        ensures Total(Requested(s, r, n).value, x) == Total(s, x) - if x == r && n < 0 then n else 0
      {
        AllocatedTotal(s, p, r, n, x);
      }
    } else {
      BlockedKeeps(s, p, r, n);
    }
  }

  lemma ReleasedKeeps(s: State, r: nat, n: int)
    requires Inv(s) && s.current.Some? && 1 <= r <= 4 && Released(s, r, n).Some?
    ensures HeadRuns(Released(s, r, n).value)
    ensures n >= 0 ==> NonNegative(Released(s, r, n).value.free)
    ensures forall x :: 1 <= x <= 4 ==>
      Total(Released(s, r, n).value, x) ==
        Total(s, x) + if x == r then Unmatched(s.processes[s.current.value].resources, r, n) else 0
  {
    var p := s.current.value;
    FreedKeeps(s, p, r, n);
    ServedFromKeeps(Freed(s, p, r, n), p, r, 0);
    forall x | 1 <= x <= 4
      ensures Total(Released(s, r, n).value, x) ==
        Total(s, x) + if x == r then Unmatched(s.processes[p].resources, r, n) else 0
    {
      FreedTotal(s, p, r, n, x);
      ServedFromTotal(Freed(s, p, r, n), p, r, 0, x);
    }
  }

  lemma TimedOutKeeps(s: State)
    requires Inv(s) && s.current.Some?
    ensures Inv(TimedOut(s))
    ensures forall x :: 1 <= x <= 4 ==> Total(TimedOut(s), x) == Total(s, x)
  {
    var p := s.current.value;
    var now := s.processes[p].(blocked := false);
    HeadIsFound(s);
    KeepsTables(s, p, now);
    WithoutIsGood(s.queues[now.priority], s.processes, now.pid, now.priority);
    KeepsQueues(s.queues[now.priority := Without(s.queues[now.priority], s.processes, now.pid)], s.processes[p := now],
                p);
    forall x | 1 <= x <= 4
      ensures Total(TimedOut(s), x) == Total(s, x)
    {
      HeldAfter(s.processes, p, now, x);
    }
  }

  /** No command creates or loses a unit of any resource, and afterwards the head of the highest ready
      list runs, exactly when it is fair. */
  lemma CommandConserves(s: State, c: Command)
    requires Ready(s, c) && Do(s, c).Some?
    ensures HeadRuns(Do(s, c).value)
    ensures Fair(s, c) ==> Inv(Do(s, c).value)
    ensures Fair(s, c) <==> forall x :: 1 <= x <= 4 ==> Total(Do(s, c).value, x) == Total(s, x)
  {
    match c {
      case Cr(pid, priority) => CreatedKeeps(s, pid, priority);
      case De(pid) => DestroyedKeeps(s, pid);
      case Req(r, n) =>
        RequestedKeeps(s, r, n);
        assert Total(Requested(s, r, n).value, r) == Total(s, r) <==> n >= 0;
      case Rel(r, n) =>
        ReleasedKeeps(s, r, n);
        assert Total(Released(s, r, n).value, r) == Total(s, r) <==> Fair(s, c);
      case To => TimedOutKeeps(s);
    }
  }

  // Whole runs

  function Start(): State {
    Created(Empty(), "init", 0)
  }

  function Empty(): (s: State)
    ensures Inv(s) && s.processes == []
  {
    var s := State([], [[], [], []], [1, 2, 3, 4], [[], [], [], []], None);
    assert (forall k :: 0 <= k < 3 ==> s.queues[k] == []) && (forall k :: 0 <= k < 4 ==> s.waiting[k] == []);
    s
  }

  /** A run in which every command is fair and none exits or leaves the shell without a process. */
  predicate Runs(s: State, commands: seq<Command>)
    decreases commands
  {
    commands == [] || (Ready(s, commands[0]) && Fair(s, commands[0]) && Do(s, commands[0]).Some?
                       && Runs(Do(s, commands[0]).value, commands[1..]))
  }

  function After(s: State, commands: seq<Command>): State
    requires Runs(s, commands)
    decreases commands
  {
    if commands == [] then s else After(Do(s, commands[0]).value, commands[1..])
  }

  lemma {:induction false} EveryRunConserves(s: State, commands: seq<Command>)
    requires Inv(s) && Conserved(s) && Runs(s, commands)
    ensures Inv(After(s, commands)) && Conserved(After(s, commands))
    decreases commands
  {
    if commands != [] {
      CommandConserves(s, commands[0]);
      EveryRunConserves(Do(s, commands[0]).value, commands[1..]);
    }
  }

  lemma StartIsConserved()
    ensures Inv(Start()) && Conserved(Start()) && Start().current == Some(0)
  {
    CreatedKeeps(Empty(), "init", 0);
    assert forall r :: 1 <= r <= 4 ==> Total(Empty(), r) == r;
  }

  // Waiters

  /** Not in any ready list. */
  predicate Out(s: State, q: nat)
    requires |s.queues| == 3
  {
    forall k :: 0 <= k < 3 ==> q !in s.queues[k]
  }

  lemma WithoutAddsNone(queue: seq<nat>, processes: seq<Process>, pid: string, q: nat)
    requires q !in queue
    ensures q !in Without(queue, processes, pid)
  {
  }

  lemma {:induction false} KillAllKeepsOut(s: State, order: seq<nat>, q: nat)
    requires Tables(s) && (forall i :: 0 <= i < |order| ==> order[i] < |s.processes|) && Out(s, q)
    ensures Out(KillAll(s, order), q)
  {
    if order != [] {
      var before, p := KillAll(s, order[..|order| - 1]), order[|order| - 1];
      KillAllKeepsOut(s, order[..|order| - 1], q);
      var k := before.processes[p].priority;
      if Listed(k) { WithoutAddsNone(before.queues[k], before.processes, before.processes[p].pid, q); }
    }
  }

  lemma {:induction false} ServedFromKeepsOut(s: State, p: nat, r: nat, k: nat, q: nat)
    requires Tables(s) && 1 <= r <= 4 && p < |s.processes| && Out(s, q) && q != p
    ensures |ServedFrom(s, p, r, k).queues| == 3 && Out(ServedFrom(s, p, r, k), q)
    decreases |s.waiting[r - 1]| - k
  {
    if Serves(s, r, k) {
      ServedKeeps(s, p, r, k);
      ServedFromKeepsOut(Served(s, p, r, k), p, r, k + 1, q);
    }
  }

  /** A process that has left the ready lists never enters one again: a release hands the units to the
      releaser and requeues the releaser instead of the waiter. */
  lemma WaitersStayOut(s: State, c: Command, q: nat)
    requires Ready(s, c) && Do(s, c).Some? && q < |s.processes| && Out(s, q)
    ensures HeadRuns(Do(s, c).value) && Out(Do(s, c).value, q)
  {
    CommandConserves(s, c);
    HeadIsFound(s);
    var p := s.current.value;
    var k := s.processes[p].priority;
    WithoutAddsNone(s.queues[k], s.processes, s.processes[p].pid, q);
    match c {
      case Cr(_, _) =>
      case De(pid) =>
        var target := FindNamed(s, pid);
        if target.Some? { KillAllKeepsOut(s, PostOrder(s.processes, target.value), q); }
      case Req(_, _) =>
      case Rel(r, n) =>
        FreedKeeps(s, p, r, n);
        ServedFromKeepsOut(Freed(s, p, r, n), p, r, 0, q);
      case To =>
    }
  }

  lemma {:induction false} WaitersStarve(s: State, commands: seq<Command>, q: nat)
    requires Inv(s) && Runs(s, commands) && q < |s.processes| && Out(s, q)
    ensures Inv(After(s, commands)) && Out(After(s, commands), q) && After(s, commands).current != Some(q)
    decreases commands
  {
    if commands != [] {
      CommandConserves(s, commands[0]);
      WaitersStayOut(s, commands[0], q);
      ProcessesStay(s, commands[0]);
      WaitersStarve(Do(s, commands[0]).value, commands[1..], q);
    }
  }

  lemma ProcessesStay(s: State, c: Command)
    requires Ready(s, c) && Do(s, c).Some?
    ensures |Do(s, c).value.processes| >= |s.processes|
  {
    if c.Rel? {
      FreedKeeps(s, s.current.value, c.r, c.n);
      ServedFromSize(Freed(s, s.current.value, c.r, c.n), s.current.value, c.r, 0);
    }
  }

  lemma {:induction false} ServedFromSize(s: State, p: nat, r: nat, k: nat)
    requires Tables(s) && 1 <= r <= 4 && p < |s.processes|
    ensures |ServedFrom(s, p, r, k).processes| == |s.processes|
    decreases |s.waiting[r - 1]| - k
  {
    if Serves(s, r, k) {
      ServedKeeps(s, p, r, k);
      ServedFromSize(Served(s, p, r, k), p, r, k + 1);
    }
  }

  // Blocking

  /** Blocking takes the head of a ready list away, and the process with it exactly when it was not queued
      there a second time. */
  lemma BlockedIsOut(s: State, r: nat, n: int)
    requires Inv(s) && s.current.Some? && 1 <= r <= 4
    ensures var p := s.current.value;
      Out(Blocked(s, p, r, n), p) <==> p !in s.queues[s.processes[p].priority][1..]
  {
    HeadIsFound(s);
    var p := s.current.value;
    var k := s.processes[p].priority;
    assert Blocked(s, p, r, n).queues[k] == s.queues[k][1..];
    forall j | 0 <= j < 3 && j != k ensures p !in s.queues[j] {
      assert GoodQueue(s.queues[j], s.processes, j);
    }
  }

  /** So a request that blocks a process queued once is the end of it: over every run that follows it never
      runs again. */
  lemma BlockedStarves(s: State, r: nat, n: int, commands: seq<Command>)
    requires Ready(s, Req(r, n)) && s.free[r - 1] < n <= r
    requires s.current.value !in s.queues[s.processes[s.current.value].priority][1..]
    requires Runs(Requested(s, r, n).value, commands)
    ensures Out(Requested(s, r, n).value, s.current.value)
    ensures After(Requested(s, r, n).value, commands).current != s.current
  {
    HeadIsFound(s);
    BlockedIsOut(s, r, n);
    RequestedKeeps(s, r, n);
    WaitersStarve(Requested(s, r, n).value, commands, s.current.value);
  }

  // A run in which the waiter's units go to the releaser

  function User(pid: string, priority: nat, children: seq<nat>, resources: seq<nat>): Process {
    Process(pid, priority, false, [], 0, if priority == 0 then None else Some(priority - 1), children, resources)
  }

  function Waiter(blocked: bool): Process {
    User("b", 2, [], []).(blocked := blocked, blockedOn := [1], blockedNum := 1)
  }

  /** Who holds R1, with the ready lists and the processes as given. */
  function Snapshot(processes: seq<Process>, queues: seq<seq<nat>>, free: int, waiting: seq<nat>, current: nat): State {
    State(processes, queues, [free, 2, 3, 4], [waiting, [], [], []], Some(current))
  }

  function ACreated(): State {
    Snapshot([User("init", 0, [1], []), User("a", 1, [], [])], [[0], [1], []], 1, [], 1)
  }

  function AHolds(): State {
    Snapshot([User("init", 0, [1], []), User("a", 1, [], [1])], [[0], [1], []], 0, [], 1)
  }

  function BRuns(): State {
    Snapshot([User("init", 0, [1], []), User("a", 1, [2], [1]), User("b", 2, [], [])], [[0], [1], [2]], 0, [], 2)
  }

  /** a holds R1 and b has blocked on it. */
  function AWaitedFor(): State {
    Snapshot([User("init", 0, [1], []), User("a", 1, [2], [1]), Waiter(true)], [[0], [1], []], 0, [2], 1)
  }

  /** After a's release a holds R1 all the same, is queued twice, and b counts as woken. */
  function AServed(): State {
    Snapshot([User("init", 0, [1], []), User("a", 1, [2], [1]), Waiter(false)], [[0], [1, 1], []], 0, [2], 1)
  }

  lemma CreateA()
    ensures Inv(Start()) && Created(Start(), "a", 1) == ACreated()
  {
    StartIsConserved();
    var s := Start();
    assert Empty().queues[0] + [0] == [0];
    assert s.queues == [[0], [], []];
    assert s.processes == [User("init", 0, [], [])];
    assert s.processes[0].children + [1] == [1];
    var t := Created(s, "a", 1);
    assert s.queues[1] + [1] == [1];
    assert t.queues == [[0], [1], []];
    assert t.processes == [User("init", 0, [1], []), User("a", 1, [], [])];
  }

  lemma TakeByA()
    requires Inv(ACreated())
    ensures Requested(ACreated(), 1, 1) == Some(AHolds())
  {
    var s := ACreated();
    var t := Allocated(s, 1, 1, 1);
    assert Given([], 1, 0) == [];
    assert Given([], 1, 1) == [1];
    assert t.processes == [User("init", 0, [1], []), User("a", 1, [], [1])];
    assert t.free == [0, 2, 3, 4];
  }

  lemma CreateB()
    requires Inv(AHolds())
    ensures Created(AHolds(), "b", 2) == BRuns()
  {
    var s := AHolds();
    var t := Created(s, "b", 2);
    assert s.queues[2] + [2] == [2] && s.processes[1].children + [2] == [2];
    assert t.queues == [[0], [1], [2]];
    assert t.processes == [User("init", 0, [1], []), User("a", 1, [2], [1]), User("b", 2, [], [])];
  }

  lemma BlockB()
    requires Inv(BRuns())
    ensures Requested(BRuns(), 1, 1) == Some(AWaitedFor())
  {
    var s := BRuns();
    HeadIsFound(s);
    var t := Blocked(s, 2, 1, 1);
    assert [] + [1] == [1] && s.waiting[0] + [2] == [2] && s.queues[2][1..] == [];
    assert t.queues == [[0], [1], []];
    assert t.waiting == [[2], [], [], []];
    assert t.processes == [User("init", 0, [1], []), User("a", 1, [2], [1]), Waiter(true)];
  }

  function AFreed(): State {
    Snapshot([User("init", 0, [1], []), User("a", 1, [2], []), Waiter(true)], [[0], [1], []], 1, [2], 1)
  }

  lemma FreeByA()
    requires Inv(AWaitedFor())
    ensures Freed(AWaitedFor(), 1, 1, 1) == AFreed() && Tables(AFreed())
  {
    FreedKeeps(AWaitedFor(), 1, 1, 1);
    assert Taken([1], 1, 1) == [] by { assert [1][1..] == []; }
    assert Freed(AWaitedFor(), 1, 1, 1).processes == AFreed().processes;
  }

  lemma ServeA()
    requires Tables(AFreed())
    ensures Serves(AFreed(), 1, 0) && Served(AFreed(), 1, 1, 0) == AServed()
  {
    var t := Served(AFreed(), 1, 1, 0);
    assert Given([], 1, 0) == [];
    assert Given([], 1, 1) == [1];
    assert AFreed().queues[1] + [1] == [1, 1];
    assert t.queues == [[0], [1, 1], []];
    assert t.free == [0, 2, 3, 4];
    assert t.processes == AServed().processes;
  }

  lemma ReleaseByA()
    requires Inv(AWaitedFor())
    ensures Released(AWaitedFor(), 1, 1) == Some(AServed())
  {
    FreeByA();
    ServeA();
    ServedKeeps(AFreed(), 1, 1, 0);
  }

  /** One command in front of a run. */
  lemma RunsFrom(s: State, c: Command, t: State, rest: seq<Command>, end: State)
    requires Ready(s, c) && Fair(s, c) && Do(s, c) == Some(t) && Runs(t, rest) && After(t, rest) == end
    ensures Runs(s, [c] + rest) && After(s, [c] + rest) == end
  {
    assert ([c] + rest)[1..] == rest;
  }

  lemma HandoverStates()
    ensures Inv(Start()) && Inv(AHolds()) && Inv(BRuns()) && Inv(AWaitedFor()) && Inv(AServed())
    ensures Do(Start(), Cr("a", 1)) == Some(ACreated()) && Inv(ACreated())
    ensures Do(ACreated(), Req(1, 1)) == Some(AHolds())
    ensures Do(AHolds(), Cr("b", 2)) == Some(BRuns())
    ensures Do(BRuns(), Req(1, 1)) == Some(AWaitedFor())
    ensures Do(AWaitedFor(), Rel(1, 1)) == Some(AServed())
  {
    CreateA();
    CreatedKeeps(Start(), "a", 1);
    TakeByA();
    RequestedKeeps(ACreated(), 1, 1);
    CreateB();
    CreatedKeeps(AHolds(), "b", 2);
    BlockB();
    RequestedKeeps(BRuns(), 1, 1);
    ReleaseByA();
    ReleasedKeeps(AWaitedFor(), 1, 1);
  }

  /** From the start: a takes the one unit of R1, b of higher priority blocks on it, a releases it.  The unit
      is a's again and b is marked ready. */
  lemma UnitsGoToReleaser()
    ensures Runs(Start(), [Cr("a", 1)] + ([Req(1, 1)] + ([Cr("b", 2)] + ([Req(1, 1)] + ([Rel(1, 1)] + [])))))
    ensures After(Start(), [Cr("a", 1)] + ([Req(1, 1)] + ([Cr("b", 2)] + ([Req(1, 1)] + ([Rel(1, 1)] + []))))) ==
      AServed()
  {
    HandoverStates();
    assert CountOf([1], 1) == 1;
    RunsFrom(AWaitedFor(), Rel(1, 1), AServed(), [], AServed());
    RunsFrom(BRuns(), Req(1, 1), AWaitedFor(), [Rel(1, 1)] + [], AServed());
    RunsFrom(AHolds(), Cr("b", 2), BRuns(), [Req(1, 1)] + ([Rel(1, 1)] + []), AServed());
    RunsFrom(ACreated(), Req(1, 1), AHolds(), [Cr("b", 2)] + ([Req(1, 1)] + ([Rel(1, 1)] + [])), AServed());
    RunsFrom(Start(), Cr("a", 1), ACreated(), [Req(1, 1)] + ([Cr("b", 2)] + ([Req(1, 1)] + ([Rel(1, 1)] + []))),
             AServed());
  }

  /** Whatever commands follow, b never runs. */
  lemma WokenWaiterStarves(commands: seq<Command>)
    requires Runs(AServed(), commands)
    ensures Inv(AServed()) && !AServed().processes[2].blocked
    ensures After(AServed(), commands).current != Some(2)
  {
    HandoverStates();
    WaitersStarve(AServed(), commands, 2);
  }

  function ABlocked(): State {
    Snapshot([User("init", 0, [1], []), User("a", 1, [2], [1]).(blocked := true, blockedOn := [1], blockedNum := 1),
              Waiter(false)], [[0], [1], []], 0, [2, 1], 1)
  }

  /** But a, queued twice, stays current when it blocks. */
  lemma BlockedTwiceQueuedStays()
    ensures Inv(AServed()) && Requested(AServed(), 1, 1) == Some(ABlocked())
    ensures ABlocked().current == Some(1) && ABlocked().processes[1].blocked
  {
    HandoverStates();
    BlockA();
  }

  lemma BlockA()
    requires Inv(AServed())
    ensures Requested(AServed(), 1, 1) == Some(ABlocked())
  {
    var s := AServed();
    HeadIsFound(s);
    var t := Blocked(s, 1, 1, 1);
    assert [] + [1] == [1] && s.waiting[0] + [1] == [2, 1] && s.queues[1][1..] == [1];
    assert t.queues == [[0], [1], []];
    assert t.waiting == [[2, 1], [], [], []];
    assert t.processes == ABlocked().processes;
  }
}
