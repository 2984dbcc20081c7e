/** The dining philosophers of qinke/philo-problem/philo.c as a step system: a mutex is held
    while both chopsticks are picked up.  One step is one semaphore operation or loop test of
    one thread; N is the number of philosophers and of meals each of them eats. */
module Philosophers {

  /** Where a philosopher stands, named after what it does next. */
  datatype Pc = LoopTest | TakeMutex | TakeLeft | TakeRight | GiveMutex | GiveLeft | GiveRight | Finished

  datatype State = State(mutex: nat, chick: seq<nat>, pc: seq<Pc>, t: seq<nat>)

  function RightOf(i: nat, N: nat): (r: nat)
    requires i < N
    ensures r < N
  {
    if i + 1 < N then i + 1 else 0
  }

  /** The index the source computes. */
  lemma RightOfIsModular(i: nat, N: nat)
    requires i < N
    ensures RightOf(i, N) == (i + 1) % N
  {
  }

  function LeftNeighbour(i: nat, N: nat): (r: nat)
    requires i < N
    ensures r < N && RightOf(r, N) == i
  {
    if i == 0 then N - 1 else i - 1
  }

  function Init(N: nat): State {
    State(1, seq(N, i => 1), seq(N, i => LoopTest), seq(N, i => 0))
  }

  predicate Sized(s: State, N: nat) {
    |s.chick| == |s.pc| == |s.t| == N
  }

  /** sem_wait blocks on a semaphore whose value is 0; everything else can proceed. */
  predicate Enabled(s: State, N: nat, i: nat)
    requires Sized(s, N)
  {
    i < N &&
    match s.pc[i]
    case TakeMutex => s.mutex > 0
    case TakeLeft => s.chick[i] > 0
    case TakeRight => s.chick[RightOf(i, N)] > 0
    case Finished => false
    case _ => true
  }

  /** The next step of philosopher i. */
  function Step(s: State, N: nat, i: nat): (s': State)
    requires Sized(s, N) && Enabled(s, N, i)
    ensures Sized(s', N)
  {
    var r := RightOf(i, N);
    match s.pc[i]
    case LoopTest =>
      if s.t[i] < N then s.(pc := s.pc[i := TakeMutex], t := s.t[i := s.t[i] + 1])
      else s.(pc := s.pc[i := Finished], t := s.t[i := s.t[i] + 1])
    case TakeMutex => s.(mutex := s.mutex - 1, pc := s.pc[i := TakeLeft])
    case TakeLeft => s.(chick := s.chick[i := s.chick[i] - 1], pc := s.pc[i := TakeRight])
    case TakeRight => s.(chick := s.chick[r := s.chick[r] - 1], pc := s.pc[i := GiveMutex])
    case GiveMutex => s.(mutex := s.mutex + 1, pc := s.pc[i := GiveLeft])
    case GiveLeft => s.(chick := s.chick[i := s.chick[i] + 1], pc := s.pc[i := GiveRight])
    case GiveRight => s.(chick := s.chick[r := s.chick[r] + 1], pc := s.pc[i := LoopTest])
  }

  // ------------------------------------------------------------- the invariant

  predicate HoldsMutex(p: Pc) {
    p == TakeLeft || p == TakeRight || p == GiveMutex
  }

  function HoldsLeft(p: Pc): nat {
    if p == TakeRight || p == GiveMutex || p == GiveLeft then 1 else 0
  }

  function HoldsRight(p: Pc): nat {
    if p == GiveMutex || p == GiveLeft || p == GiveRight then 1 else 0
  }

  /** A philosopher eats between the release of the mutex and of the first chopstick. */
  predicate Eats(p: Pc) {
    p == GiveLeft
  }

  ghost predicate MutexInv(s: State, N: nat)
    requires Sized(s, N)
  {
    && s.mutex <= 1
    && (s.mutex == 1 ==> forall i :: 0 <= i < N ==> !HoldsMutex(s.pc[i]))
    && (s.mutex == 0 ==> exists i :: 0 <= i < N && HoldsMutex(s.pc[i]))
    && (forall i, j :: 0 <= i < N && 0 <= j < N && HoldsMutex(s.pc[i]) && HoldsMutex(s.pc[j]) ==> i == j)
  }

  /** Each chopstick lies on the table or is held by exactly one of its two neighbours. */
  ghost predicate ChopstickInv(s: State, N: nat)
    requires Sized(s, N)
  {
    forall i :: 0 <= i < N ==> s.chick[i] + HoldsLeft(s.pc[i]) + HoldsRight(s.pc[LeftNeighbour(i, N)]) == 1
  }

  /** The loop counter passes N only when the loop ends. */
  ghost predicate CountInv(s: State, N: nat)
    requires Sized(s, N)
  {
    forall i :: 0 <= i < N ==> s.t[i] <= N + 1 && (s.t[i] == N + 1 <==> s.pc[i] == Finished)
  }

  ghost predicate Inv(s: State, N: nat) {
    && Sized(s, N)
    && MutexInv(s, N)
    && ChopstickInv(s, N)
    && CountInv(s, N)
  }

  lemma InitInv(N: nat)
    ensures Inv(Init(N), N)
  {
  }

  lemma StepKeepsInv(s: State, N: nat, i: nat)
    requires N >= 2 && Inv(s, N) && Enabled(s, N, i)
    ensures Inv(Step(s, N, i), N)
  {
    var s' := Step(s, N, i);
    StepKeepsMutexInv(s, N, i);
    StepKeepsChopstickInv(s, N, i);
  }

  lemma StepKeepsMutexInv(s: State, N: nat, i: nat)
    requires Sized(s, N) && MutexInv(s, N) && Enabled(s, N, i)
    ensures MutexInv(Step(s, N, i), N)
  {
    var s' := Step(s, N, i);
    if s.mutex == 0 && s'.mutex == 0 {
      var k :| 0 <= k < N && HoldsMutex(s.pc[k]);
      assert HoldsMutex(s'.pc[k]);
    }
    assert s.pc[i] == TakeMutex ==> HoldsMutex(s'.pc[i]);
  }

  /** One step and the chopstick that j and k share. */
  lemma StepKeepsStick(s: State, N: nat, i: nat, j: nat, k: nat)
    requires Sized(s, N) && Enabled(s, N, i) && j < N && k < N && k != j && (RightOf(i, N) == j <==> i == k)
    requires s.chick[j] + HoldsLeft(s.pc[j]) + HoldsRight(s.pc[k]) == 1
    ensures Step(s, N, i).chick[j] + HoldsLeft(Step(s, N, i).pc[j]) + HoldsRight(Step(s, N, i).pc[k]) == 1
  {
  }

  lemma StepKeepsChopstickInv(s: State, N: nat, i: nat)
    requires N >= 2 && Sized(s, N) && ChopstickInv(s, N) && Enabled(s, N, i)
    ensures ChopstickInv(Step(s, N, i), N)
  {
    forall j | 0 <= j < N
      ensures
        var s' := Step(s, N, i);
        s'.chick[j] + HoldsLeft(s'.pc[j]) + HoldsRight(s'.pc[LeftNeighbour(j, N)]) == 1
    {
      StepKeepsStick(s, N, i, j, LeftNeighbour(j, N));
    }
  }

  // ------------------------------------------------------------------- results

  /** Neighbours never eat at the same time, and no two philosophers pick up chopsticks at once. */
  lemma NeighboursNeverEatTogether(s: State, N: nat, i: nat)
    requires N >= 2 && Inv(s, N) && i < N
    ensures !(Eats(s.pc[i]) && Eats(s.pc[RightOf(i, N)]))
  {
    var r := RightOf(i, N);
    assert LeftNeighbour(r, N) == i;
    assert s.chick[r] + HoldsLeft(s.pc[r]) + HoldsRight(s.pc[i]) == 1;
  }

  ghost predicate Stuck(s: State, N: nat)
    requires Sized(s, N)
  {
    forall i :: 0 <= i < N ==> !Enabled(s, N, i)
  }

  ghost predicate AllFinished(s: State, N: nat)
    requires Sized(s, N)
  {
    forall i :: 0 <= i < N ==> s.pc[i] == Finished
  }

  /** The chopstick that philosopher i takes next, and the neighbour who shares it. */
  function Awaited(p: Pc, i: nat, N: nat): nat
    requires i < N
  {
    if p == TakeLeft then i else RightOf(i, N)
  }

  function Sharer(p: Pc, i: nat, N: nat): nat
    requires i < N
  {
    if p == TakeLeft then LeftNeighbour(i, N) else RightOf(i, N)
  }

  /** Philosopher j has chopstick c in hand. */
  predicate HoldsStick(s: State, N: nat, j: nat, c: nat)
    requires Sized(s, N) && j < N
  {
    (c == j && HoldsLeft(s.pc[j]) == 1) || (c == RightOf(j, N) && HoldsRight(s.pc[j]) == 1)
  }

  /** A philosopher cannot take the next chopstick exactly when the neighbour who shares it has it in hand, and
      then that neighbour can move. */
  lemma ChopstickHolderMoves(s: State, N: nat, i: nat)
    requires N >= 2 && Inv(s, N) && i < N && (s.pc[i] == TakeLeft || s.pc[i] == TakeRight)
    ensures var j := Sharer(s.pc[i], i, N);
      && j != i && j < N
      && (!Enabled(s, N, i) <==> HoldsStick(s, N, j, Awaited(s.pc[i], i, N)))
      && (!Enabled(s, N, i) ==> Enabled(s, N, j))
  {
    var j, c := Sharer(s.pc[i], i, N), Awaited(s.pc[i], i, N);
    assert LeftNeighbour(RightOf(i, N), N) == i;
    assert RightOf(LeftNeighbour(i, N), N) == i;
    assert s.chick[c] + HoldsLeft(s.pc[c]) + HoldsRight(s.pc[LeftNeighbour(c, N)]) == 1;
    assert j != i;
    if !Enabled(s, N, i) {
      assert !HoldsMutex(s.pc[j]);
    }
  }

  /** No deadlock: only the state where everybody has finished is stuck. */
  lemma NoDeadlock(s: State, N: nat)
    requires N >= 2 && Inv(s, N)
    ensures Stuck(s, N) <==> AllFinished(s, N)
  {
    if !AllFinished(s, N) {
      var i :| 0 <= i < N && s.pc[i] != Finished;
      if s.mutex == 0 {
        var k :| 0 <= k < N && HoldsMutex(s.pc[k]);
        if s.pc[k] == GiveMutex {
          assert Enabled(s, N, k);
        } else {
          ChopstickHolderMoves(s, N, k);
        }
      } else {
        assert Enabled(s, N, i);
      }
    }
  }

  // --------------------------------------------------------------- termination

  /** Steps a philosopher still has to take. */
  function StepsLeft(p: Pc, t: nat, N: nat): int {
    var meals := N - t;
    match p
    case LoopTest => 7 * meals + 1
    case TakeMutex => 7 * meals + 7
    case TakeLeft => 7 * meals + 6
    case TakeRight => 7 * meals + 5
    case GiveMutex => 7 * meals + 4
    case GiveLeft => 7 * meals + 3
    case GiveRight => 7 * meals + 2
    case Finished => 0
  }

  function TotalLeft(s: State, N: nat, n: nat): int
    requires Sized(s, N) && n <= N
  {
    if n == 0 then 0 else TotalLeft(s, N, n - 1) + StepsLeft(s.pc[n - 1], s.t[n - 1], N)
  }

  lemma StepTakesOne(s: State, N: nat, i: nat, j: nat)
    requires Sized(s, N) && CountInv(s, N) && Enabled(s, N, i) && j < N
    ensures var s' := Step(s, N, i);
      StepsLeft(s'.pc[j], s'.t[j], N) == StepsLeft(s.pc[j], s.t[j], N) - if i == j then 1 else 0
  {
  }

  /** Every step of any philosopher uses up exactly one of the steps left. */
  lemma {:induction false} StepCounts(s: State, N: nat, i: nat, n: nat)
    requires Sized(s, N) && CountInv(s, N) && Enabled(s, N, i) && n <= N
    ensures TotalLeft(Step(s, N, i), N, n) == TotalLeft(s, N, n) - if i < n then 1 else 0
  {
    if n > 0 {
      StepCounts(s, N, i, n - 1);
      StepTakesOne(s, N, i, n - 1);
    }
  }

  lemma {:induction false} LeftIsNonNegative(s: State, N: nat, n: nat)
    requires Inv(s, N) && n <= N
    ensures TotalLeft(s, N, n) >= 0
    ensures n == N && TotalLeft(s, N, N) == 0 ==> AllFinished(s, N)
    ensures TotalLeft(s, N, n) == 0 <==> forall i :: 0 <= i < n ==> s.pc[i] == Finished
  {
    if n > 0 {
      LeftIsNonNegative(s, N, n - 1);
    }
  }

  lemma {:induction false} InitLeft(N: nat, n: nat)
    requires n <= N
    ensures TotalLeft(Init(N), N, n) == n * (7 * N + 1)
  {
    if n > 0 {
      InitLeft(N, n - 1);
    }
  }

  /** A run: from the initial state, each state reached by a step of some philosopher. */
  ghost predicate IsRun(run: seq<State>, who: seq<nat>, N: nat) {
    && |run| == |who| + 1 && run[0] == Init(N)
    && (forall k :: 0 <= k < |run| ==> Sized(run[k], N))
    && (forall k :: 0 <= k < |who| ==> Enabled(run[k], N, who[k]) && run[k + 1] == Step(run[k], N, who[k]))
  }

  lemma {:induction false} RunKeepsInv(run: seq<State>, who: seq<nat>, N: nat, k: nat)
    requires N >= 2 && IsRun(run, who, N) && k <= |who|
    ensures Inv(run[k], N)
    ensures TotalLeft(run[k], N, N) == N * (7 * N + 1) - k
  {
    if k == 0 {
      InitInv(N);
      InitLeft(N, N);
    } else {
      RunKeepsInv(run, who, N, k - 1);
      StepKeepsInv(run[k - 1], N, who[k - 1]);
      StepCounts(run[k - 1], N, who[k - 1], N);
    }
  }

  /** Under any interleaving: neighbours never eat together in any state of a run, a run cannot
      exceed N * (7N + 1) steps, and it has exactly that many if and only if it can go no
      further, and then everybody has finished. */
  lemma EveryRunFinishes(run: seq<State>, who: seq<nat>, N: nat)
    requires N >= 2 && IsRun(run, who, N)
    ensures forall k :: 0 <= k < |run| ==> Inv(run[k], N)
    ensures forall k, i :: 0 <= k < |run| && 0 <= i < N ==>
      !(Eats(run[k].pc[i]) && Eats(run[k].pc[RightOf(i, N)]))
    ensures |who| <= N * (7 * N + 1)
    ensures |who| == N * (7 * N + 1) <==> Stuck(run[|who|], N)
    ensures Stuck(run[|who|], N) <==> AllFinished(run[|who|], N)
  {
    forall k | 0 <= k < |run| ensures Inv(run[k], N) {
      RunKeepsInv(run, who, N, k);
    }
    forall k, i | 0 <= k < |run| && 0 <= i < N
      ensures !(Eats(run[k].pc[i]) && Eats(run[k].pc[RightOf(i, N)]))
    {
      NeighboursNeverEatTogether(run[k], N, i);
    }
    var last := run[|who|];
    RunKeepsInv(run, who, N, |who|);
    LeftIsNonNegative(last, N, N);
    NoDeadlock(last, N);
  }

  /** A single philosopher waits forever for its own chopstick: N >= 2 is needed. */
  lemma OnePhilosopherDeadlocks()
    ensures exists run, who :: IsRun(run, who, 1) && Stuck(run[|who|], 1) && !AllFinished(run[|who|], 1)
  {
    var s0 := Init(1);
    var s1 := Step(s0, 1, 0);
    var s2 := Step(s1, 1, 0);
    var s3 := Step(s2, 1, 0);
    var run, who := [s0, s1, s2, s3], [0, 0, 0];
    assert IsRun(run, who, 1);
    assert s3.pc[0] == TakeRight && s3.chick[0] == 0;
    assert Stuck(run[|who|], 1);
  }
}
