/** What each tShell command does to the lists of the tables, said without the command functions: who moves where,
    who runs next, and which units change hands. */
module ShellEffects {
  import opened Arithmetic
  import opened Wrappers
  import opened ShellState
  import opened ShellRuns

  // Time-outs

  /** The current process heads the highest list that is not empty. */
  ghost predicate Heads(s: State, k: nat) {
    && s.current.Some? && |s.queues| == 3 && k < 3 && s.queues[k] != [] && s.queues[k][0] == s.current.value
    && forall j :: k < j < 3 ==> s.queues[j] == []
  }

  /** The same processes, but for whether they count as blocked. */
  ghost predicate SameButBlocked(a: seq<Process>, b: seq<Process>) {
    |a| == |b| && forall p :: 0 <= p < |a| ==> a[p] == b[p].(blocked := a[p].blocked)
  }

  /** A time-out moves the head of the highest list behind the others of that list, and the next one runs. */
  lemma TimedOutRotates(s: State)
    requires Inv(s) && s.current.Some?
    ensures var k, t := s.processes[s.current.value].priority, TimedOut(s);
      && 0 <= k && Heads(s, k) && Heads(t, k)
      && t.queues == s.queues[k := s.queues[k][1..] + [s.queues[k][0]]]
      && (|s.queues[k]| > 1 ==> t.current == Some(s.queues[k][1]))
      && t.free == s.free && t.waiting == s.waiting && SameButBlocked(t.processes, s.processes)
  {
    HeadIsFound(s);
  }

  function TimeOuts(s: State, n: nat): (t: State)
    requires Inv(s) && s.current.Some?
    ensures Inv(t) && t.current.Some?
  {
    if n == 0 then s
    else
      var u := TimeOuts(s, n - 1);
      TimedOutKeeps(u);
      TimedOutRotates(u);
      TimedOut(u)
  }

  /** The list after the first n have gone behind the others. */
  function Rotated(queue: seq<nat>, n: nat): seq<nat>
    requires n <= |queue|
  {
    queue[n..] + queue[..n]
  }

  lemma RotatedMore(queue: seq<nat>, n: nat)
    requires n < |queue|
    ensures Rotated(queue, n)[0] == queue[n]
    ensures Rotated(queue, n)[1..] + [Rotated(queue, n)[0]] == Rotated(queue, n + 1)
  {
  }

  /** n of the entries of list k have had their turn since s. */
  ghost predicate Turned(s: State, t: State, k: nat, n: nat) {
    && |s.queues| == 3 && k < 3 && n <= |s.queues[k]|
    && Heads(t, k) && t.queues == s.queues[k := Rotated(s.queues[k], n)]
    && t.free == s.free && t.waiting == s.waiting
  }

  lemma NoTurns(s: State, k: nat)
    requires Inv(s) && Heads(s, k)
    ensures Turned(s, s, k, 0)
  {
    assert Rotated(s.queues[k], 0) == s.queues[k];
  }

  lemma OneTurn(s: State, t: State, k: nat, n: nat)
    requires Inv(t) && Turned(s, t, k, n) && n < |s.queues[k]|
    ensures Turned(s, TimedOut(t), k, n + 1)
  {
    TimedOutRotates(t);
    assert t.processes[t.current.value].priority == k;
    RotatedMore(s.queues[k], n);
  }

  lemma {:induction false} TurnsGoOn(s: State, k: nat, n: nat)
    requires Inv(s) && Heads(s, k) && n <= |s.queues[k]|
    ensures Turned(s, TimeOuts(s, n), k, n)
  {
    hide Inv, Turned;
    if n == 0 {
      NoTurns(s, k);
    } else {
      TurnsGoOn(s, k, n - 1);
      OneTurn(s, TimeOuts(s, n - 1), k, n - 1);
    }
  }

  /** The entries of the highest list run in turn, once each, and as many time-outs as it has entries leave every
      list as it was. */
  lemma EveryEntryRuns(s: State, k: nat, n: nat)
    requires Inv(s) && Heads(s, k) && n <= |s.queues[k]|
    ensures n < |s.queues[k]| ==> TimeOuts(s, n).current == Some(s.queues[k][n])
    ensures n == |s.queues[k]| ==> TimeOuts(s, n).queues == s.queues && TimeOuts(s, n).current == s.current
  {
    hide TimeOuts;
    TurnsGoOn(s, k, n);
    assert n == |s.queues[k]| ==> Rotated(s.queues[k], n) == s.queues[k];
  }

  // Creating

  /** The new process is queued last in its list and linked last under its creator; it runs at once exactly
      when its list is above the creator's, and otherwise the creator goes on. */
  lemma CreatedJoins(s: State, pid: string, priority: int)
    requires Inv(s) && s.current.Some?
    ensures var t, p, c := Created(s, pid, priority), |s.processes|, s.current.value;
      && |t.processes| == p + 1
      && t.processes[p] == Process(pid, priority, false, [], 0, Some(c), [], [])
      && t.processes[c] == s.processes[c].(children := s.processes[c].children + [p])
      && (forall q :: 0 <= q < p && q != c ==> t.processes[q] == s.processes[q])
      && |t.queues| == 3
      && (forall k :: 0 <= k < 3 ==> t.queues[k] == if k == priority then s.queues[k] + [p] else s.queues[k])
      && t.current == Some(if s.processes[c].priority < priority <= 2 then p else c)
      && t.free == s.free && t.waiting == s.waiting
  {
    HeadIsFound(s);
  }

  // Requesting

  function Units(r: nat, n: int): (units: seq<nat>)
    ensures |units| == if n > 0 then n else 0
    ensures forall i :: 0 <= i < |units| ==> units[i] == r
  {
    seq(if n > 0 then n else 0, i => r)
  }

  lemma {:induction false} GivenIsBehind(list: seq<nat>, r: nat, n: int)
    ensures Given(list, r, n) == list + Units(r, n)
    decreases n
  {
    if n > 0 {
      GivenIsBehind(list, r, n - 1);
      assert Units(r, n) == Units(r, n - 1) + [r];
    }
  }

  /** Units that are there go to the current process, which goes on. Otherwise a request for more than there ever
      were ends the shell, and any other takes the process from the head of its list to the end of the resource's
      wait list, and the head of the highest list runs. */
  lemma RequestedMoves(s: State, r: nat, n: int)
    requires Inv(s) && s.current.Some? && 1 <= r <= 4
    ensures Requested(s, r, n).None? <==> s.free[r - 1] < n && r < n
    ensures n <= s.free[r - 1] ==> TakesUnits(s, Requested(s, r, n).value, s.current.value, r, n)
    ensures s.free[r - 1] < n <= r ==> Waits(s, Requested(s, r, n).value, s.current.value, r, n)
  {
    HeadIsFound(s);
    GivenIsBehind(s.processes[s.current.value].resources, r, n);
  }

  ghost predicate TakesUnits(s: State, t: State, p: nat, r: nat, n: int) {
    && |s.free| == 4 && 1 <= r <= 4 && p < |s.processes|
    && t.free == s.free[r - 1 := s.free[r - 1] - n]
    && t.processes == s.processes[p := s.processes[p].(resources := s.processes[p].resources + Units(r, n))]
    && t.queues == s.queues && t.waiting == s.waiting && t.current == s.current
  }

  ghost predicate Waits(s: State, t: State, p: nat, r: nat, n: int) {
    && |s.queues| == 3 == |t.queues| && |s.waiting| == 4 && 1 <= r <= 4 && p < |s.processes|
    && (forall k :: 0 <= k < 3 ==>
         t.queues[k] == if k == s.processes[p].priority && s.queues[k] != [] then s.queues[k][1..] else s.queues[k])
    && t.waiting == s.waiting[r - 1 := s.waiting[r - 1] + [p]]
    && t.processes == s.processes[p := s.processes[p].(blocked := true, blockedNum := n,
                                                        blockedOn := s.processes[p].blockedOn + [r])]
    && t.free == s.free && t.current == Highest(t.queues)
  }

  // Releasing

  /** A list without its nodes of r. */
  function Others(list: seq<nat>, r: nat): seq<nat> {
    if list == [] then [] else (if list[0] == r then [] else [list[0]]) + Others(list[1..], r)
  }

  /** Freeing n units takes the first n nodes of the resource out of the list, or all there are, and leaves every
      other node in its place. */
  lemma {:induction false} TakenIsCut(list: seq<nat>, r: nat, n: nat) returns (i: nat)
    ensures i <= |list| && Taken(list, r, n) == Others(list[..i], r) + list[i..]
    ensures CountOf(list[..i], r) == Min(n, CountOf(list, r))
    decreases list
  {
    if list == [] || n == 0 {
      i := 0;
    } else {
      i := TakenIsCut(list[1..], r, if list[0] == r then n - 1 else n);
      CutOneMore(list, r, i);
      i := i + 1;
    }
  }

  lemma CutOneMore(list: seq<nat>, r: nat, i: nat)
    requires list != [] && i < |list|
    ensures list[i + 1..] == list[1..][i..]
    ensures Others(list[..i + 1], r) == (if list[0] == r then [] else [list[0]]) + Others(list[1..][..i], r)
    ensures CountOf(list[..i + 1], r) == (if list[0] == r then 1 else 0) + CountOf(list[1..][..i], r)
    ensures CountOf(list, r) == (if list[0] == r then 1 else 0) + CountOf(list[1..], r)
  {
    assert list[..i + 1][1..] == list[1..][..i];
    assert list[..i + 1] == [list[0]] + list[1..][..i] && list == [list[0]] + list[1..];
    CountJoins([list[0]], list[1..][..i], r);
    CountJoins([list[0]], list[1..], r);
    assert CountOf([list[0]], r) == if list[0] == r then 1 else 0;
  }

  /** What the waiters of a resource asked for. */
  function Wanted(s: State, r: nat): seq<int>
    requires Tables(s) && 1 <= r <= 4
  {
    seq(|s.waiting[r - 1]|, i requires 0 <= i < |s.waiting[r - 1]| => s.processes[s.waiting[r - 1][i]].blockedNum)
  }

  function Sum(wanted: seq<int>, from: nat, end: nat): int
    requires from <= end <= |wanted|
    decreases end
  {
    if from == end then 0 else Sum(wanted, from, end - 1) + wanted[end - 1]
  }

  lemma {:induction false} SumSplits(wanted: seq<int>, from: nat, end: nat)
    requires from < end <= |wanted|
    ensures Sum(wanted, from, end) == wanted[from] + Sum(wanted, from + 1, end)
    decreases end
  {
    if from + 1 < end {
      SumSplits(wanted, from, end - 1);
    }
  }

  /** The waiters from..end are served, and end is the first whose wish exceeds what is left. */
  ghost predicate Suffices(wanted: seq<int>, free: int, from: nat, end: nat) {
    && from <= end <= |wanted|
    && (forall j :: from <= j < end ==> Sum(wanted, from, j) + wanted[j] <= free)
    && (end < |wanted| ==> free < Sum(wanted, from, end) + wanted[end])
  }

  lemma SufficesOneMore(wanted: seq<int>, free: int, from: nat, end: nat)
    requires from < |wanted| && wanted[from] <= free && Suffices(wanted, free - wanted[from], from + 1, end)
    ensures Suffices(wanted, free, from, end) && Sum(wanted, from, end) == wanted[from] + Sum(wanted, from + 1, end)
  {
    SumSplits(wanted, from, end);
    forall j | from <= j < end
      ensures Sum(wanted, from, j) + wanted[j] <= free
    {
      if from < j {
        SumSplits(wanted, from, j);
      }
    }
  }

  /** The same process but for its units and for whether it counts as blocked. */
  predicate SameButUnits(a: Process, b: Process) {
    b == a.(resources := b.resources, blocked := b.blocked)
  }

  /** List k has m more entries of p at its end. */
  predicate Requeued(a: seq<seq<nat>>, b: seq<seq<nat>>, k: int, p: nat, m: nat) {
    && |a| == |b| == 3
    && forall j :: 0 <= j < 3 ==> b[j] == if j == k then a[j] + Units(p, m) else a[j]
  }

  /** Process p has more units of r, and process q counts as ready. */
  predicate Receives(a: seq<Process>, b: seq<Process>, p: nat, r: nat, units: nat, q: Option<nat>) {
    && p < |a| == |b|
    && b[p].resources == a[p].resources + Units(r, units)
    && forall i :: 0 <= i < |a| ==>
        && SameButUnits(a[i], b[i])
        && (i != p ==> b[i].resources == a[i].resources)
        && b[i].blocked == (a[i].blocked && q != Some(i))
  }

  /** m waiters are served: their units go to the releaser, who is queued once more for each; the first waiter
      counts as ready. */
  ghost predicate Hands(s: State, t: State, p: nat, r: nat, units: nat, m: nat) {
    && Tables(s) && p < |s.processes| && 1 <= r <= 4
    && t.free == s.free[r - 1 := s.free[r - 1] - units]
    && Requeued(s.queues, t.queues, s.processes[p].priority, p, m)
    && Receives(s.processes, t.processes, p, r, units, if m == 0 then None else HeadOf(s.waiting[r - 1]))
    && t.waiting == s.waiting && t.current == if m == 0 then s.current else Highest(t.queues)
  }

  function HeadOf(list: seq<nat>): Option<nat> {
    if list == [] then None else Some(list[0])
  }

  lemma UnitsJoin(r: nat, a: nat, b: nat)
    ensures Units(r, a) + Units(r, b) == Units(r, a + b)
  {
  }

  lemma NothingHanded(s: State, p: nat, r: nat)
    requires Tables(s) && p < |s.processes| && 1 <= r <= 4
    ensures Hands(s, s, p, r, 0, 0)
  {
    assert Units(p, 0) == [] && Units(r, 0) == [];
    assert forall k :: 0 <= k < 3 ==> s.queues[k] + [] == s.queues[k];
  }

  lemma OneHanded(s: State, p: nat, r: nat, k: nat)
    requires Tables(s) && p < |s.processes| && 1 <= r <= 4 && ShellState.Serves(s, r, k)
    ensures Wanted(s, r)[k] > 0 && Tables(Served(s, p, r, k)) && Hands(s, Served(s, p, r, k), p, r, Wanted(s, r)[k], 1)
  {
    ServedKeeps(s, p, r, k);
    assert GoodWaiting(s.waiting[r - 1], s.processes);
    GivenIsBehind(s.processes[p].resources, r, Wanted(s, r)[k]);
    assert Units(p, 1) == [p];
  }

  lemma RequeuedJoin(a: seq<seq<nat>>, b: seq<seq<nat>>, c: seq<seq<nat>>, k: int, p: nat, m: nat, n: nat)
    requires Requeued(a, b, k, p, m) && Requeued(b, c, k, p, n)
    ensures Requeued(a, c, k, p, m + n)
  {
    UnitsJoin(p, m, n);
    if 0 <= k < 3 {
      assert (a[k] + Units(p, m)) + Units(p, n) == a[k] + (Units(p, m) + Units(p, n));
    }
  }

  lemma ReceivesJoin(a: seq<Process>, b: seq<Process>, c: seq<Process>, p: nat, r: nat, m: nat, n: nat,
                     q: Option<nat>, q': Option<nat>)
    requires Receives(a, b, p, r, m, q) && Receives(b, c, p, r, n, q') && (q' == None || q' == q)
    ensures Receives(a, c, p, r, m + n, q)
  {
    UnitsJoin(r, m, n);
    assert (a[p].resources + Units(r, m)) + Units(r, n) == a[p].resources + (Units(r, m) + Units(r, n));
  }

  lemma HandsJoin(s: State, u: State, t: State, p: nat, r: nat, a: nat, b: nat, n: nat)
    requires Hands(s, u, p, r, a, 1) && Hands(u, t, p, r, b, n)
    ensures Hands(s, t, p, r, a + b, 1 + n)
  {
    hide Tables, Requeued, Receives, Highest;
    PriorityStays(s, u, p, r, a, 1);
    RequeuedJoin(s.queues, u.queues, t.queues, s.processes[p].priority, p, 1, n);
    ReceivesJoin(s.processes, u.processes, t.processes, p, r, a, b, HeadOf(s.waiting[r - 1]),
                 if n == 0 then None else HeadOf(u.waiting[r - 1]));
    SameQueues(u.queues, t.queues, s.processes[p].priority, p, n);
  }

  lemma SameQueues(a: seq<seq<nat>>, b: seq<seq<nat>>, k: int, p: nat, n: nat)
    requires Requeued(a, b, k, p, n)
    ensures |a| == |b| == 3 && (n == 0 ==> a == b)
  {
    if n == 0 && 0 <= k < 3 {
      assert a[k] + Units(p, 0) == a[k];
    }
  }

  lemma PriorityStays(s: State, u: State, p: nat, r: nat, a: nat, m: nat)
    requires Hands(s, u, p, r, a, m)
    ensures p < |s.processes| == |u.processes| && u.processes[p].priority == s.processes[p].priority
    ensures |s.free| == |s.waiting| == 4 && 1 <= r <= 4
  {
  }

  /** One round of the loop, and the rounds behind it. */
  lemma OneRound(s: State, p: nat, r: nat, k: nat)
    requires Tables(s) && p < |s.processes| && 1 <= r <= 4 && ShellState.Serves(s, r, k)
    ensures k < |Wanted(s, r)| && 0 < Wanted(s, r)[k] <= s.free[r - 1]
    ensures var u := Served(s, p, r, k);
      && Tables(u) && |u.processes| == |s.processes| && |u.waiting[r - 1]| == |s.waiting[r - 1]|
      && ServedFrom(s, p, r, k) == ServedFrom(u, p, r, k + 1)
      && Wanted(u, r) == Wanted(s, r) && u.free[r - 1] == s.free[r - 1] - Wanted(s, r)[k]
      && Hands(s, u, p, r, Wanted(s, r)[k], 1)
  {
    ServedKeeps(s, p, r, k);
    OneHanded(s, p, r, k);
  }

  lemma NoRound(s: State, p: nat, r: nat, k: nat)
    requires Tables(s) && p < |s.processes| && 1 <= r <= 4 && k <= |s.waiting[r - 1]| && !ShellState.Serves(s, r, k)
    ensures ServedFrom(s, p, r, k) == s && Hands(s, s, p, r, 0, 0)
    ensures Suffices(Wanted(s, r), s.free[r - 1], k, k) && Sum(Wanted(s, r), k, k) == 0
  {
    NothingHanded(s, p, r);
  }

  lemma {:induction false} ServedFromHands(s: State, p: nat, r: nat, k: nat) returns (m: nat, units: nat)
    requires Tables(s) && p < |s.processes| && 1 <= r <= 4 && k <= |s.waiting[r - 1]|
    ensures Suffices(Wanted(s, r), s.free[r - 1], k, k + m) && units == Sum(Wanted(s, r), k, k + m)
    ensures Hands(s, ServedFrom(s, p, r, k), p, r, units, m)
    decreases |s.waiting[r - 1]| - k
  {
    hide Hands, Wanted, ServedFrom, Suffices, Served;
    if ShellState.Serves(s, r, k) {
      var u := Served(s, p, r, k);
      OneRound(s, p, r, k);
      m, units := ServedFromHands(u, p, r, k + 1);
      HandsJoin(s, u, ServedFrom(u, p, r, k + 1), p, r, Wanted(s, r)[k], units, m);
      SufficesOneMore(Wanted(s, r), s.free[r - 1], k, k + 1 + m);
      m, units := 1 + m, Wanted(s, r)[k] + units;
    } else {
      m, units := 0, 0;
      NoRound(s, p, r, k);
    }
  }

  /** A release by a process that holds anything: the units freed, and those of as many waiters as they suffice
      for in the order of the list, go back to the releaser. The shell ends exactly when it holds nothing. */
  lemma ReleasedMoves(s: State, r: nat, n: int) returns (m: nat, units: nat)
    requires Inv(s) && s.current.Some? && 1 <= r <= 4
    ensures Released(s, r, n).None? <==> s.processes[s.current.value].resources == []
    ensures Released(s, r, n).Some? ==>
      && Suffices(Wanted(s, r), s.free[r - 1] + n, 0, m) && units == Sum(Wanted(s, r), 0, m)
      && GivesBack(s, Released(s, r, n).value, s.current.value, r, n, units, m)
  {
    m, units := 0, 0;
    var p := s.current.value;
    if s.processes[p].resources != [] {
      m, units := ServedAfterFreeing(s, p, r, n);
    }
  }

  lemma ServedAfterFreeing(s: State, p: nat, r: nat, n: int) returns (m: nat, units: nat)
    requires Tables(s) && p < |s.processes| && 1 <= r <= 4
    ensures Tables(Freed(s, p, r, n))
    ensures Suffices(Wanted(s, r), s.free[r - 1] + n, 0, m) && units == Sum(Wanted(s, r), 0, m)
    ensures GivesBack(s, ServedFrom(Freed(s, p, r, n), p, r, 0), p, r, n, units, m)
  {
    hide ServedFrom, Hands, Suffices, GivesBack, Sum;
    FreedKeeps(s, p, r, n);
    assert Wanted(Freed(s, p, r, n), r) == Wanted(s, r);
    m, units := ServedFromHands(Freed(s, p, r, n), p, r, 0);
    HandsAfterFreeing(s, ServedFrom(Freed(s, p, r, n), p, r, 0), p, r, n, units, m);
  }

  /** Of the releaser's units n are freed and then those of m waiters added. */
  ghost predicate GivesBack(s: State, t: State, p: nat, r: nat, n: int, units: nat, m: nat) {
    && p < |s.processes| && 1 <= r <= 4 == |s.free| == |s.waiting|
    && t.free == s.free[r - 1 := s.free[r - 1] + n - units]
    && Requeued(s.queues, t.queues, s.processes[p].priority, p, m)
    && var mine := s.processes[p].(resources := Taken(s.processes[p].resources, r, n));
    && Receives(s.processes[p := mine], t.processes, p, r, units, if m == 0 then None else HeadOf(s.waiting[r - 1]))
    && t.waiting == s.waiting && t.current == if m == 0 then s.current else Highest(t.queues)
  }

  lemma HandsAfterFreeing(s: State, t: State, p: nat, r: nat, n: int, units: nat, m: nat)
    requires Tables(s) && p < |s.processes| && 1 <= r <= 4 && Hands(Freed(s, p, r, n), t, p, r, units, m)
    ensures GivesBack(s, t, p, r, n, units, m)
  {
    hide Receives, Requeued, Highest;
  }

  // Destroying

  /** A chain of children. */
  ghost predicate Path(processes: seq<Process>, path: seq<nat>) {
    && path != [] && (forall i :: 0 <= i < |path| ==> path[i] < |processes|)
    && forall i :: 0 < i < |path| ==> path[i] in processes[path[i - 1]].children
  }

  ghost predicate Descends(processes: seq<Process>, p: nat, q: nat) {
    exists path :: Path(processes, path) && path[0] == p && path[|path| - 1] == q
  }

  lemma OneBelow(processes: seq<Process>, p: nat, c: nat, q: nat)
    requires p < |processes| && c in processes[p].children && Descends(processes, c, q)
    ensures Descends(processes, p, q)
  {
    var path :| Path(processes, path) && path[0] == c && path[|path| - 1] == q;
    var longer := [p] + path;
    assert forall i :: 0 < i < |longer| ==> longer[i] == path[i - 1];
    assert Path(processes, longer);
  }

  lemma {:induction false} OrderDescends(processes: seq<Process>, p: nat, q: nat)
    requires GoodTree(processes) && p < |processes| && q in PostOrder(processes, p)
    ensures Descends(processes, p, q)
    decreases |processes| - p, 1, 0
  {
    if q in Descendants(processes, p, |processes[p].children|) {
      ChildrenDescend(processes, p, |processes[p].children|, q);
    } else {
      assert Path(processes, [p]);
    }
  }

  lemma {:induction false} ChildrenDescend(processes: seq<Process>, p: nat, n: nat, q: nat)
    requires GoodTree(processes) && p < |processes| && n <= |processes[p].children|
    requires q in Descendants(processes, p, n)
    ensures Descends(processes, p, q)
    decreases |processes| - p, 0, n
  {
    if q in Descendants(processes, p, n - 1) {
      ChildrenDescend(processes, p, n - 1, q);
    } else {
      OrderDescends(processes, processes[p].children[n - 1], q);
      OneBelow(processes, p, processes[p].children[n - 1], q);
    }
  }

  lemma {:induction false} ChildsTreeIsIn(processes: seq<Process>, p: nat, i: nat, n: nat, q: nat)
    requires GoodTree(processes) && p < |processes| && i < n <= |processes[p].children|
    requires q in PostOrder(processes, processes[p].children[i])
    ensures q in Descendants(processes, p, n)
    decreases n
  {
    if i < n - 1 {
      ChildsTreeIsIn(processes, p, i, n - 1, q);
    }
  }

  lemma {:induction false} PathIsInOrder(processes: seq<Process>, path: seq<nat>)
    requires GoodTree(processes) && Path(processes, path)
    ensures path[|path| - 1] in PostOrder(processes, path[0])
    decreases |path|
  {
    if |path| > 1 {
      assert path[1] in processes[path[0]].children;
      var i :| 0 <= i < |processes[path[0]].children| && processes[path[0]].children[i] == path[1];
      PathIsInOrder(processes, path[1..]);
      ChildsTreeIsIn(processes, path[0], i, |processes[path[0]].children|, path[|path| - 1]);
    }
  }

  /** Kill_Tree visits exactly the process, its children, their children and so on. */
  lemma OrderIsExact(processes: seq<Process>, p: nat, q: nat)
    requires GoodTree(processes) && p < |processes|
    ensures q in PostOrder(processes, p) <==> Descends(processes, p, q)
  {
    if q in PostOrder(processes, p) {
      OrderDescends(processes, p, q);
    }
    if Descends(processes, p, q) {
      var path :| Path(processes, path) && path[0] == p && path[|path| - 1] == q;
      PathIsInOrder(processes, path);
    }
  }

  function Names(processes: seq<Process>): seq<string> {
    seq(|processes|, i requires 0 <= i < |processes| => processes[i].pid)
  }

  predicate IsNamed(p: nat, names: seq<string>, pid: string) {
    p < |names| && names[p] == pid
  }

  /** How many entries of a list have a name. */
  function Entries(queue: seq<nat>, names: seq<string>, pid: string): nat {
    if queue == [] then 0 else (if IsNamed(queue[0], names, pid) then 1 else 0) + Entries(queue[1..], names, pid)
  }

  /** The entries of a list whose names are not among those gone, in their order. */
  function Spared(queue: seq<nat>, names: seq<string>, gone: set<string>): seq<nat> {
    if queue == [] then []
    else (if queue[0] < |names| && names[queue[0]] in gone then [] else [queue[0]]) + Spared(queue[1..], names, gone)
  }

  /** One entry of the name goes, if there is one; all others stay in their order. */
  lemma {:induction false} WithoutTakesOne(queue: seq<nat>, processes: seq<Process>, pid: string)
    ensures var rest, names := Without(queue, processes, pid), Names(processes);
      && (forall x :: Entries(rest, names, x) ==
           if x == pid && Entries(queue, names, x) > 0 then Entries(queue, names, x) - 1 else Entries(queue, names, x))
      && forall gone: set<string> :: pid in gone ==> Spared(rest, names, gone) == Spared(queue, names, gone)
    decreases queue
  {
    var names := Names(processes);
    if queue != [] {
      if IsNamed(queue[0], names, pid) {
        assert Without(queue, processes, pid) == queue[1..];
      } else {
        WithoutTakesOne(queue[1..], processes, pid);
        WithoutBehind(queue, processes, pid);
        assert ([queue[0]] + Without(queue[1..], processes, pid))[1..] == Without(queue[1..], processes, pid);
      }
    }
  }

  lemma WithoutBehind(queue: seq<nat>, processes: seq<Process>, pid: string)
    requires queue != [] && !IsNamed(queue[0], Names(processes), pid)
    ensures Without(queue, processes, pid) == [queue[0]] + Without(queue[1..], processes, pid)
  {
    NamedBehind(queue, processes, pid);
    CutBehind(queue, NamedAt(queue[1..], processes, pid));
    hide NamedAt;
  }

  lemma NamedBehind(queue: seq<nat>, processes: seq<Process>, pid: string)
    requires queue != [] && !IsNamed(queue[0], Names(processes), pid)
    ensures NamedAt(queue, processes, pid) == NamedAt(queue[1..], processes, pid) + 1
  {
  }

  lemma CutBehind(queue: seq<nat>, i: nat)
    requires queue != []
    ensures queue == [queue[0]] + queue[1..]
    ensures i + 1 < |queue| ==> queue[..i + 1] + queue[i + 2..] == [queue[0]] + (queue[1..][..i] + queue[1..][i + 1..])
  {
  }

  /** How often the order comes to a process of that name and priority. */
  function Visits(order: seq<nat>, processes: seq<Process>, k: int, pid: string): nat {
    if order == [] then 0
    else
      var p := order[|order| - 1];
      Visits(order[..|order| - 1], processes, k, pid)
        + if p < |processes| && processes[p].priority == k && processes[p].pid == pid then 1 else 0
  }

  function Less(a: nat, b: nat): nat {
    if a < b then 0 else a - b
  }

  /** The names of the processes of one priority that the order comes to. */
  function Gone(order: seq<nat>, processes: seq<Process>, k: int): set<string> {
    set i | 0 <= i < |order| && order[i] < |processes| && processes[order[i]].priority == k :: processes[order[i]].pid
  }

  /** Every process the order comes to has nothing left, and every other is as it was. */
  lemma {:induction false} KillAllProcesses(s: State, order: seq<nat>, q: nat)
    requires |s.queues| == 3 && |s.free| == 4 && (forall i :: 0 <= i < |order| ==> order[i] < |s.processes|)
    requires q < |s.processes|
    ensures KillAll(s, order).processes[q] ==
      if q in order then s.processes[q].(resources := []) else s.processes[q]
    ensures KillAll(s, order).waiting == s.waiting
  {
    if order != [] {
      KillAllProcesses(s, order[..|order| - 1], q);
      KillAllProcesses(s, order[..|order| - 1], order[|order| - 1]);
      assert order == order[..|order| - 1] + [order[|order| - 1]];
    }
  }

  lemma KillAllNames(s: State, order: seq<nat>)
    requires |s.queues| == 3 && |s.free| == 4 && (forall i :: 0 <= i < |order| ==> order[i] < |s.processes|)
    ensures Names(KillAll(s, order).processes) == Names(s.processes)
  {
    forall q | 0 <= q < |s.processes|
      ensures KillAll(s, order).processes[q].pid == s.processes[q].pid
    {
      KillAllProcesses(s, order, q);
    }
  }

  /** For each visit one entry of the process's name leaves the list of its priority, while there is one; the
      entries of other names stay in their order. */
  lemma {:induction false} KillAllLists(s: State, order: seq<nat>, k: nat, pid: string)
    requires |s.queues| == 3 && |s.free| == 4 && (forall i :: 0 <= i < |order| ==> order[i] < |s.processes|) && k < 3
    ensures var names, t := Names(s.processes), KillAll(s, order);
      && Entries(t.queues[k], names, pid) ==
           Less(Entries(s.queues[k], names, pid), Visits(order, s.processes, k, pid))
      && Spared(t.queues[k], names, Gone(order, s.processes, k)) ==
           Spared(s.queues[k], names, Gone(order, s.processes, k))
  {
    if order != [] {
      var less, p := order[..|order| - 1], order[|order| - 1];
      KillAllLists(s, less, k, pid);
      KillAllNames(s, less);
      KillAllProcesses(s, less, p);
      var u := KillAll(s, less);
      WithoutTakesOne(u.queues[k], u.processes, u.processes[p].pid);
      SparedMore(u.queues[k], s.queues[k], Names(s.processes), Gone(less, s.processes, k), Gone(order, s.processes, k));
    }
  }

  lemma SparedMore(a: seq<nat>, b: seq<nat>, names: seq<string>, gone: set<string>, more: set<string>)
    requires Spared(a, names, gone) == Spared(b, names, gone) && gone <= more
    ensures Spared(a, names, more) == Spared(b, names, more)
  {
    SparedTwice(a, names, gone, more);
    SparedTwice(b, names, gone, more);
  }

  lemma {:induction false} SparedTwice(a: seq<nat>, names: seq<string>, gone: set<string>, more: set<string>)
    requires gone <= more
    ensures Spared(Spared(a, names, gone), names, more) == Spared(a, names, more)
  {
    if a != [] {
      SparedTwice(a[1..], names, gone, more);
      var rest := Spared(a[1..], names, gone);
      assert ([a[0]] + rest)[1..] == rest && [] + rest == rest;
      if a[0] < |names| && names[a[0]] in gone {
        assert Spared(a, names, gone) == rest && Spared(a, names, more) == Spared(a[1..], names, more);
      } else {
        assert Spared(a, names, gone) == [a[0]] + rest;
      }
    }
  }

  /** No entry of the list has the name. */
  ghost predicate Clear(queue: seq<nat>, names: seq<string>, pid: string) {
    forall i :: 0 <= i < |queue| ==> !IsNamed(queue[i], names, pid)
  }

  /** Find_Name_PCB takes the highest list with an entry of the name, and its first such entry. */
  lemma FoundIsFirst(s: State, pid: string) returns (k: nat, i: nat)
    requires Tables(s)
    ensures FindNamed(s, pid).None? <==> forall j :: 0 <= j < 3 ==> Clear(s.queues[j], Names(s.processes), pid)
    ensures FindNamed(s, pid).Some? ==>
      k < 3 && FirstNamed(s, pid, k, i) && s.queues[k][i] == FindNamed(s, pid).value
  {
    NamedAtIsFirst(s.queues[2], s.processes, pid);
    NamedAtIsFirst(s.queues[1], s.processes, pid);
    NamedAtIsFirst(s.queues[0], s.processes, pid);
    hide NamedAt, Names, IsNamed, Tables, Clear;
    k := 2;
    i := NamedAt(s.queues[2], s.processes, pid);
    if i == |s.queues[2]| {
      k := 1;
      i := NamedAt(s.queues[1], s.processes, pid);
      if i == |s.queues[1]| {
        k := 0;
        i := NamedAt(s.queues[0], s.processes, pid);
      }
    }
  }

  lemma NamedAtIsFirst(queue: seq<nat>, processes: seq<Process>, pid: string)
    ensures var i, names := NamedAt(queue, processes, pid), Names(processes);
      && i <= |queue| && (Clear(queue, names, pid) <==> i == |queue|)
      && (i < |queue| ==> IsNamed(queue[i], names, pid) && Clear(queue[..i], names, pid))
  {
  }

  ghost predicate FirstNamed(s: State, pid: string, k: nat, i: nat)
    requires |s.queues| == 3 && k < 3
  {
    && i < |s.queues[k]| && IsNamed(s.queues[k][i], Names(s.processes), pid)
    && Clear(s.queues[k][..i], Names(s.processes), pid)
    && forall l :: k < l < 3 ==> Clear(s.queues[l], Names(s.processes), pid)
  }

  /** Destroying a name nobody ready has changes nothing. Otherwise the process found and all its descendants, and
      no other process, lose what they hold; each loses its list one entry of its name; and the head of the highest
      list runs. */
  lemma DestroyedTree(s: State, pid: string, q: nat, k: nat, name: string)
    requires Inv(s) && q < |s.processes| && k < 3
    ensures FindNamed(s, pid).None? ==> Destroyed(s, pid) == s
    ensures FindNamed(s, pid).Some? ==>
      && FindNamed(s, pid).value < |s.processes|
      && Destroys(s, Destroyed(s, pid), FindNamed(s, pid).value, q, k, name)
  {
    var target := FindNamed(s, pid);
    if target.Some? {
      var order := PostOrder(s.processes, target.value);
      OrderIsExact(s.processes, target.value, q);
      KillAllKeeps(s, order);
      KillAllProcesses(s, order, q);
      KillAllLists(s, order, k, name);
    }
  }

  ghost predicate Destroys(s: State, t: State, p: nat, q: nat, k: nat, name: string)
    requires GoodTree(s.processes) && p < |s.processes| && q < |s.processes| && k < 3
  {
    && |s.processes| == |t.processes| && |s.queues| == |t.queues| == 3
    && t.processes[q] == (if Descends(s.processes, p, q) then s.processes[q].(resources := []) else s.processes[q])
    && t.waiting == s.waiting && t.current == Highest(t.queues)
    && var names, order := Names(s.processes), PostOrder(s.processes, p);
    && Entries(t.queues[k], names, name) ==
         Less(Entries(s.queues[k], names, name), Visits(order, s.processes, k, name))
    && Spared(t.queues[k], names, Gone(order, s.processes, k)) ==
         Spared(s.queues[k], names, Gone(order, s.processes, k))
  }

  lemma {:induction false} VisitedOnce(order: seq<nat>, processes: seq<Process>, q: nat)
    requires q in order && q < |processes|
    ensures Visits(order, processes, processes[q].priority, processes[q].pid) > 0
  {
    if order[|order| - 1] != q {
      VisitedOnce(order[..|order| - 1], processes, q);
    }
  }

  lemma {:induction false} EntryCounts(queue: seq<nat>, processes: seq<Process>, q: nat)
    requires q in queue && q < |processes|
    ensures Entries(queue, Names(processes), processes[q].pid) > 0
  {
    if queue[0] != q {
      EntryCounts(queue[1..], processes, q);
    }
  }

  /** A destroyed process whose list held its name at most once is in no ready list afterwards. */
  lemma DestroyedIsOut(s: State, pid: string, q: nat)
    requires Inv(s) && q < |s.processes| && FindNamed(s, pid).Some?
    requires Descends(s.processes, FindNamed(s, pid).value, q)
    requires Listed(s.processes[q].priority) ==>
      Entries(s.queues[s.processes[q].priority], Names(s.processes), s.processes[q].pid) <= 1
    ensures HeadRuns(Destroyed(s, pid)) && Out(Destroyed(s, pid), q)
  {
    var p, t := FindNamed(s, pid).value, Destroyed(s, pid);
    DestroyedKeeps(s, pid);
    OrderIsExact(s.processes, p, q);
    VisitedOnce(PostOrder(s.processes, p), s.processes, q);
    forall k | 0 <= k < 3
      ensures q !in t.queues[k]
    {
      DestroyedTree(s, pid, q, k, s.processes[q].pid);
      assert GoodQueue(t.queues[k], t.processes, k);
      if q in t.queues[k] {
        EntryCounts(t.queues[k], s.processes, q);
      }
    }
  }
}
