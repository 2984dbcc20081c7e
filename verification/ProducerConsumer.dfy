/** The producer and the consumer of qinke/philo-problem/pc.c as a step system, for any buffer
    size M (MAX in the source) and any number C of items (100 in the source).  Each posts the
    other's semaphore before it gives the mutex back, as the source does. */
module ProducerConsumer {
  import opened Arithmetic

  datatype ProducerPc = ProducerTest | WaitEmpty | ProducerLock | Put | PostFull | ProducerUnlock | ProducerDone
  datatype ConsumerPc = ConsumerTest | WaitFull | ConsumerLock | Take | PostEmpty | ConsumerUnlock | ConsumerDone

  /** The globals, the two threads' locals and positions, and what the consumer has read so far. */
  datatype Pc = Pc(buf: seq<int>, full: nat, empty: nat, mutex: nat,
                   i: nat, wr: nat, p: ProducerPc, j: nat, rd: nat, c: ConsumerPc, consumed: seq<int>)

  function Init(M: nat): Pc {
    Pc(seq(M, k => -1), 0, M, 1, 0, 0, ProducerTest, 0, 0, ConsumerTest, [])
  }

  predicate ProducerEnabled(s: Pc) {
    match s.p
    case WaitEmpty => s.empty > 0
    case ProducerLock => s.mutex > 0
    case ProducerDone => false
    case _ => true
  }

  predicate ConsumerEnabled(s: Pc) {
    match s.c
    case WaitFull => s.full > 0
    case ConsumerLock => s.mutex > 0
    case ConsumerDone => false
    case _ => true
  }

  function ProducerStep(s: Pc, C: nat): Pc
    requires ProducerEnabled(s) && (s.p == Put ==> s.wr < |s.buf|)
  {
    match s.p
    case ProducerTest => s.(p := if s.i < C then WaitEmpty else ProducerDone)
    case WaitEmpty => s.(empty := s.empty - 1, p := ProducerLock)
    case ProducerLock => s.(mutex := s.mutex - 1, p := Put)
    case Put => s.(buf := s.buf[s.wr := s.i], wr := (s.wr + 1) % |s.buf|, i := s.i + 1, p := PostFull)
    case PostFull => s.(full := s.full + 1, p := ProducerUnlock)
    case ProducerUnlock => s.(mutex := s.mutex + 1, p := ProducerTest)
  }

  function ConsumerStep(s: Pc, C: nat): Pc
    requires ConsumerEnabled(s) && (s.c == Take ==> s.rd < |s.buf|)
  {
    match s.c
    case ConsumerTest => s.(c := if s.j < C then WaitFull else ConsumerDone)
    case WaitFull => s.(full := s.full - 1, c := ConsumerLock)
    case ConsumerLock => s.(mutex := s.mutex - 1, c := Take)
    case Take => s.(consumed := s.consumed + [s.buf[s.rd]], buf := s.buf[s.rd := -1],
                    rd := (s.rd + 1) % |s.buf|, j := s.j + 1, c := PostEmpty)
    case PostEmpty => s.(empty := s.empty + 1, c := ConsumerUnlock)
    case ConsumerUnlock => s.(mutex := s.mutex + 1, c := ConsumerTest)
  }

  // ------------------------------------------------------------ the invariant

  function Inside(b: bool): nat {
    if b then 1 else 0
  }

  ghost predicate Semaphores(s: Pc) {
    && s.mutex + Inside(s.p in {Put, PostFull, ProducerUnlock}) + Inside(s.c in {Take, PostEmpty, ConsumerUnlock}) == 1
    && s.empty + Inside(s.p in {ProducerLock, Put}) + s.i + Inside(s.c == PostEmpty) == |s.buf| + s.j
    && s.full + Inside(s.p == PostFull) + Inside(s.c in {ConsumerLock, Take}) + s.j == s.i
  }

  ghost predicate Counters(s: Pc, C: nat) {
    && s.i <= C && s.j <= C
    && (s.p in {WaitEmpty, ProducerLock, Put} ==> s.i < C)
    && (s.c in {WaitFull, ConsumerLock, Take} ==> s.j < C)
    && (s.p == ProducerDone ==> s.i == C)
    && (s.c == ConsumerDone ==> s.j == C)
  }

  /** Of the M cells from position j on, the first i - j hold the items j, j + 1, ..., i - 1
      and the others are empty. */
  ghost predicate Cells(s: Pc) {
    && |s.buf| > 0 && s.j <= s.i <= s.j + |s.buf|
    && s.wr == s.i % |s.buf| && s.rd == s.j % |s.buf|
    && (forall k :: s.j <= k < s.j + |s.buf| ==> s.buf[k % |s.buf|] == if k < s.i then k else -1)
    && |s.consumed| == s.j && (forall k :: 0 <= k < s.j ==> s.consumed[k] == k)
  }

  ghost predicate Inv(s: Pc, C: nat) {
    Semaphores(s) && Counters(s, C) && Cells(s)
  }

  lemma InitInv(M: nat, C: nat)
    requires M > 0
    ensures Inv(Init(M), C)
  {
  }

  /** The cell the producer is about to write is empty: no unconsumed item is overwritten. */
  lemma PutFindsEmptyCell(s: Pc, C: nat)
    requires Inv(s, C) && s.p == Put
    ensures s.i < s.j + |s.buf| && s.buf[s.wr] == -1
  {
  }

  /** The consumer is about to read item number j. */
  lemma TakeFindsItem(s: Pc, C: nat)
    requires Inv(s, C) && s.c == Take
    ensures s.j < s.i && s.buf[s.rd] == s.j
  {
  }

  lemma PutKeepsCells(s: Pc, C: nat)
    requires Inv(s, C) && s.p == Put
    ensures Cells(ProducerStep(s, C))
  {
    var s', n := ProducerStep(s, C), |s.buf|;
    PutFindsEmptyCell(s, C);
    NextIndex(s.i, n);
    forall k | s.j <= k < s.j + n ensures s'.buf[k % n] == if k < s'.i then k else -1 {
      if k < s.i {
        ModIsInjective(k, s.i, n);
      } else if k > s.i {
        ModIsInjective(s.i, k, n);
      }
    }
  }

  lemma TakeKeepsCells(s: Pc, C: nat)
    requires Inv(s, C) && s.c == Take
    ensures Cells(ConsumerStep(s, C))
  {
    var s', n := ConsumerStep(s, C), |s.buf|;
    TakeFindsItem(s, C);
    NextIndex(s.j, n);
    forall k | s'.j <= k < s'.j + n ensures s'.buf[k % n] == if k < s'.i then k else -1 {
      if k < s.j + n {
        ModIsInjective(s.j, k, n);
      } else {
        assert k == s.j + n;
      }
    }
  }

  lemma ProducerKeepsInv(s: Pc, C: nat)
    requires Inv(s, C) && ProducerEnabled(s)
    ensures Inv(ProducerStep(s, C), C)
  {
    if s.p == Put {
      PutKeepsCells(s, C);
    }
  }

  lemma ConsumerKeepsInv(s: Pc, C: nat)
    requires Inv(s, C) && ConsumerEnabled(s)
    ensures Inv(ConsumerStep(s, C), C)
  {
    if s.c == Take {
      TakeKeepsCells(s, C);
    }
  }

  // ------------------------------------------------------------------- results

  predicate Stuck(s: Pc) {
    !ProducerEnabled(s) && !ConsumerEnabled(s)
  }

  predicate Finished(s: Pc) {
    s.p == ProducerDone && s.c == ConsumerDone
  }

  /** No deadlock: the two only stop when both are done. */
  lemma NoDeadlock(s: Pc, C: nat)
    requires Inv(s, C)
    ensures Stuck(s) <==> Finished(s)
  {
  }

  function StepsLeft(s: Pc, C: nat): int {
    6 * (C - s.i) + 6 * (C - s.j)
    + (match s.p case ProducerTest => 1 case WaitEmpty => 0 case ProducerLock => -1 case Put => -2
                 case PostFull => 3 case ProducerUnlock => 2 case ProducerDone => 0)
    + (match s.c case ConsumerTest => 1 case WaitFull => 0 case ConsumerLock => -1 case Take => -2
                 case PostEmpty => 3 case ConsumerUnlock => 2 case ConsumerDone => 0)
  }

  /** A run: at each step either the producer (true) or the consumer moves. */
  ghost predicate IsRun(run: seq<Pc>, who: seq<bool>, M: nat, C: nat) {
    && |run| == |who| + 1 && run[0] == Init(M)
    && forall k :: 0 <= k < |who| ==> StepsTo(run[k], who[k], run[k + 1], C)
  }

  ghost predicate StepsTo(s: Pc, producer: bool, s': Pc, C: nat) {
    if producer then ProducerEnabled(s) && (s.p == Put ==> s.wr < |s.buf|) && s' == ProducerStep(s, C)
    else ConsumerEnabled(s) && (s.c == Take ==> s.rd < |s.buf|) && s' == ConsumerStep(s, C)
  }

  /** Each step of either thread uses up exactly one of the steps left. */
  lemma ProducerStepCounts(s: Pc, C: nat)
    requires Counters(s, C) && ProducerEnabled(s) && (s.p == Put ==> s.wr < |s.buf|)
    ensures StepsLeft(ProducerStep(s, C), C) == StepsLeft(s, C) - 1
  {
  }

  lemma ConsumerStepCounts(s: Pc, C: nat)
    requires Counters(s, C) && ConsumerEnabled(s) && (s.c == Take ==> s.rd < |s.buf|)
    ensures StepsLeft(ConsumerStep(s, C), C) == StepsLeft(s, C) - 1
  {
  }

  lemma {:induction false} RunKeepsInv(run: seq<Pc>, who: seq<bool>, M: nat, C: nat, k: nat)
    requires M > 0 && IsRun(run, who, M, C) && k <= |who|
    ensures Inv(run[k], C) && StepsLeft(run[k], C) == 12 * C + 2 - k
  {
    if k == 0 {
      InitInv(M, C);
    } else {
      RunKeepsInv(run, who, M, C, k - 1);
      assert StepsTo(run[k - 1], who[k - 1], run[k], C);
      if who[k - 1] {
        ProducerKeepsInv(run[k - 1], C);
        ProducerStepCounts(run[k - 1], C);
      } else {
        ConsumerKeepsInv(run[k - 1], C);
        ConsumerStepCounts(run[k - 1], C);
      }
    }
  }

  /** Under any interleaving the j-th consumed value is j; a run has at most 12C + 2 steps, and
      exactly that many if and only if nobody can move, and then all C items were consumed. */
  lemma EveryRunDeliversInOrder(run: seq<Pc>, who: seq<bool>, M: nat, C: nat)
    requires M > 0 && IsRun(run, who, M, C)
    ensures var s := run[|who|];
      && (forall k :: 0 <= k < |s.consumed| ==> s.consumed[k] == k)
      && |who| <= 12 * C + 2
      && (|who| == 12 * C + 2 <==> Stuck(s))
      && (Stuck(s) ==> |s.consumed| == C && s.full == 0 && s.empty == |s.buf|)
  {
    RunKeepsInv(run, who, M, C, |who|);
    NoDeadlock(run[|who|], C);
  }
}
