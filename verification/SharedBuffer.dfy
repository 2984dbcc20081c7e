/** The semaphore-guarded bounded buffer sbuf_t of Compiler/csapp.c, used by any number of
    threads, as a step system: one step is one semaphore operation or one buffer access. */
module SharedBuffer {
  import opened Arithmetic
  import opened Wrappers
  import opened Words

  /** A thread is idle or at the next operation of sbuf_insert or sbuf_remove. */
  datatype Thread =
    | Idle
    | InsertWaitSlot(item: int) | InsertWaitMutex(item: int) | InsertStore(item: int)
    | InsertGiveMutex | InsertGiveItem
    | RemoveWaitItem | RemoveWaitMutex | RemoveLoad | RemoveGiveMutex(rt: int) | RemoveGiveSlot(rt: int)

  /** The shared fields, and as history the items in the order they were stored and loaded. */
  datatype State = State(buf: seq<int>, front: nat, rear: nat, mutex: nat, slots: nat, items: nat,
                         threads: seq<Thread>, inserted: seq<int>, removed: seq<int>)

  datatype Action = BeginInsert(who: nat, item: int) | BeginRemove(who: nat) | Advance(who: nat)

  /** sbuf_init on a calloc'ed array of n cells, with every thread idle. */
  function Init(n: nat, threads: nat): State {
    State(seq(n, i => 0), 0, 0, 1, n, 0, seq(threads, i => Idle), [], [])
  }

  predicate Enabled(s: State, a: Action) {
    a.who < |s.threads| &&
    match a
    case BeginInsert(i, _) => s.threads[i] == Idle
    case BeginRemove(i) => s.threads[i] == Idle
    case Advance(i) =>
      match s.threads[i]
      case Idle => false
      case InsertWaitSlot(_) => s.slots > 0
      case RemoveWaitItem => s.items > 0
      case InsertWaitMutex(_) => s.mutex > 0
      case RemoveWaitMutex => s.mutex > 0
      case _ => true
  }

  function SetThread(s: State, i: nat, t: Thread): State
    requires i < |s.threads|
  {
    s.(threads := s.threads[i := t])
  }

  predicate Stores(s: State, a: Action) {
    a.Advance? && a.who < |s.threads| && s.threads[a.who].InsertStore?
  }

  predicate Loads(s: State, a: Action) {
    a.Advance? && a.who < |s.threads| && s.threads[a.who].RemoveLoad?
  }

  /** The counters are ints, and the cell index is taken modulo the buffer size, which must not be 0 then. */
  predicate Defined(s: State, a: Action) {
    && (Stores(s, a) ==> s.buf != [] && s.rear + 1 < INT_LIMIT)
    && (Loads(s, a) ==> s.buf != [] && s.front + 1 < INT_LIMIT)
  }

  function Step(s: State, a: Action): State
    requires Enabled(s, a) && Defined(s, a)
  {
    match a
    case BeginInsert(i, item) => SetThread(s, i, InsertWaitSlot(item))
    case BeginRemove(i) => SetThread(s, i, RemoveWaitItem)
    case Advance(i) =>
      match s.threads[i]
      case InsertWaitSlot(item) => SetThread(s.(slots := s.slots - 1), i, InsertWaitMutex(item))
      case InsertWaitMutex(item) => SetThread(s.(mutex := s.mutex - 1), i, InsertStore(item))
      case InsertStore(item) =>
        var rear := s.rear + 1;
        SetThread(s.(rear := rear, buf := s.buf[rear % |s.buf| := item], inserted := s.inserted + [item]),
                  i, InsertGiveMutex)
      case InsertGiveMutex => SetThread(s.(mutex := s.mutex + 1), i, InsertGiveItem)
      case InsertGiveItem => SetThread(s.(items := s.items + 1), i, Idle)
      case RemoveWaitItem => SetThread(s.(items := s.items - 1), i, RemoveWaitMutex)
      case RemoveWaitMutex => SetThread(s.(mutex := s.mutex - 1), i, RemoveLoad)
      case RemoveLoad =>
        var front := s.front + 1;
        var rt := s.buf[front % |s.buf|];
        SetThread(s.(front := front, removed := s.removed + [rt]), i, RemoveGiveMutex(rt))
      case RemoveGiveMutex(rt) => SetThread(s.(mutex := s.mutex + 1), i, RemoveGiveSlot(rt))
      case RemoveGiveSlot(_) => SetThread(s.(slots := s.slots + 1), i, Idle)
  }

  // ------------------------------------------------------- counting threads

  /** What a thread holds: the mutex, a slot it has not filled, a slot it has not given back,
      an item it has not announced, or an item it has not loaded. */
  datatype Credit = Mutex | OpenSlot | UsedSlot | NewItem | OldItem

  predicate Holds(t: Thread, c: Credit) {
    match c
    case Mutex => t.InsertStore? || t.InsertGiveMutex? || t.RemoveLoad? || t.RemoveGiveMutex?
    case OpenSlot => t.InsertWaitMutex? || t.InsertStore?
    case UsedSlot => t.RemoveGiveMutex? || t.RemoveGiveSlot?
    case NewItem => t.InsertGiveMutex? || t.InsertGiveItem?
    case OldItem => t.RemoveWaitMutex? || t.RemoveLoad?
  }

  function Count(ts: seq<Thread>, c: Credit): nat {
    if ts == [] then 0 else Count(ts[..|ts| - 1], c) + if Holds(ts[|ts| - 1], c) then 1 else 0
  }

  lemma {:induction false} CountUpdate(ts: seq<Thread>, i: nat, t: Thread, c: Credit)
    requires i < |ts|
    ensures Count(ts[i := t], c) ==
      Count(ts, c) - (if Holds(ts[i], c) then 1 else 0) + if Holds(t, c) then 1 else 0
  {
    var n := |ts| - 1;
    if i < n {
      assert ts[i := t][..n] == ts[..n][i := t];
      CountUpdate(ts[..n], i, t, c);
    } else {
      assert ts[i := t][..n] == ts[..n];
    }
  }

  lemma {:induction false} CountHolder(ts: seq<Thread>, i: nat, c: Credit)
    requires i < |ts| && Holds(ts[i], c)
    ensures Count(ts, c) > 0
  {
    if i < |ts| - 1 {
      CountHolder(ts[..|ts| - 1], i, c);
    }
  }

  lemma {:induction false} CountNone(ts: seq<Thread>, c: Credit)
    requires forall i :: 0 <= i < |ts| ==> !Holds(ts[i], c)
    ensures Count(ts, c) == 0
  {
    if ts != [] {
      CountNone(ts[..|ts| - 1], c);
    }
  }

  // ------------------------------------------------------------ the invariant

  ghost predicate MutexCount(s: State) {
    s.mutex + Count(s.threads, Mutex) == 1
  }

  ghost predicate SlotCount(s: State) {
    s.slots + Count(s.threads, OpenSlot) + (s.rear - s.front) + Count(s.threads, UsedSlot) == |s.buf|
  }

  ghost predicate ItemCount(s: State) {
    s.items + Count(s.threads, NewItem) + Count(s.threads, OldItem) == s.rear - s.front
  }

  ghost predicate Semaphores(s: State) {
    MutexCount(s) && SlotCount(s) && ItemCount(s)
  }

  /** The k-th item ever stored sits in cell k % n until it is loaded; loads follow stores in order. */
  ghost predicate Fifo(s: State) {
    && |s.inserted| == s.rear && |s.removed| == s.front && s.front <= s.rear
    && s.removed == s.inserted[..s.front]
    && (s.buf == [] ==> s.rear == s.front)
    && (s.buf != [] ==> forall k :: s.front < k <= s.rear ==> s.buf[k % |s.buf|] == s.inserted[k - 1])
  }

  ghost predicate Inv(s: State) {
    Semaphores(s) && Fifo(s)
  }

  lemma InitInv(n: nat, threads: nat)
    ensures Inv(Init(n, threads))
  {
    var s := Init(n, threads);
    CountNone(s.threads, Mutex);
    CountNone(s.threads, OpenSlot);
    CountNone(s.threads, UsedSlot);
    CountNone(s.threads, NewItem);
    CountNone(s.threads, OldItem);
  }

  /** A thread about to store finds a free cell, one about to load finds an item. */
  lemma AccessIsSafe(s: State, i: nat)
    requires Semaphores(s) && i < |s.threads|
    ensures s.threads[i].InsertStore? ==> s.rear - s.front < |s.buf|
    ensures s.threads[i].RemoveLoad? ==> s.front < s.rear
  {
    if s.threads[i].InsertStore? {
      CountHolder(s.threads, i, OpenSlot);
    }
    if s.threads[i].RemoveLoad? {
      CountHolder(s.threads, i, OldItem);
    }
  }

  lemma StepKeepsMutexCount(s: State, a: Action)
    requires MutexCount(s) && Enabled(s, a) && Defined(s, a)
    ensures MutexCount(Step(s, a))
  {
    CountUpdate(s.threads, a.who, Step(s, a).threads[a.who], Mutex);
  }

  lemma StepKeepsSlotCount(s: State, a: Action)
    requires SlotCount(s) && Enabled(s, a) && Defined(s, a)
    ensures SlotCount(Step(s, a)) && |Step(s, a).buf| == |s.buf|
  {
    CountUpdate(s.threads, a.who, Step(s, a).threads[a.who], OpenSlot);
    CountUpdate(s.threads, a.who, Step(s, a).threads[a.who], UsedSlot);
  }

  lemma StepKeepsItemCount(s: State, a: Action)
    requires ItemCount(s) && Enabled(s, a) && Defined(s, a)
    ensures ItemCount(Step(s, a))
  {
    CountUpdate(s.threads, a.who, Step(s, a).threads[a.who], NewItem);
    CountUpdate(s.threads, a.who, Step(s, a).threads[a.who], OldItem);
  }

  /** The one step that goes wrong is a store when 2^31 - 1 items have been stored before. */
  lemma OnlyStoresOverflow(s: State, a: Action)
    requires Inv(s) && Enabled(s, a) && s.rear < INT_LIMIT
    ensures Defined(s, a) <==> !(Stores(s, a) && |s.inserted| == INT_LIMIT - 1)
  {
    AccessIsSafe(s, a.who);
  }

  lemma StepKeepsInv(s: State, a: Action)
    requires Inv(s) && Enabled(s, a) && Defined(s, a) && s.rear < INT_LIMIT
    ensures Inv(Step(s, a)) && |Step(s, a).buf| == |s.buf| && Step(s, a).rear < INT_LIMIT
  {
    AccessIsSafe(s, a.who);
    StepKeepsMutexCount(s, a);
    StepKeepsSlotCount(s, a);
    StepKeepsItemCount(s, a);
    StepKeepsFifo(s, a);
  }

  lemma StepKeepsFifo(s: State, a: Action)
    requires Inv(s) && Enabled(s, a) && Defined(s, a)
    ensures Fifo(Step(s, a))
  {
    AccessIsSafe(s, a.who);
    if a.Advance? && s.threads[a.who].InsertStore? {
      forall k | s.front < k <= s.rear ensures k % |s.buf| != (s.rear + 1) % |s.buf| {
        ModIsInjective(k, s.rear + 1, |s.buf|);
      }
    }
  }

  // -------------------------------------------------------------------- runs

  ghost predicate IsRun(run: seq<State>, acts: seq<Action>, n: nat, threads: nat) {
    && |run| == |acts| + 1 && run[0] == Init(n, threads)
    && forall k :: 0 <= k < |acts| ==> StepsTo(run[k], acts[k], run[k + 1])
  }

  ghost predicate StepsTo(s: State, a: Action, s': State) {
    Enabled(s, a) && Defined(s, a) && s' == Step(s, a)
  }

  lemma {:induction false} RunKeepsInv(run: seq<State>, acts: seq<Action>, n: nat, threads: nat, k: nat)
    requires IsRun(run, acts, n, threads) && k <= |acts|
    ensures Inv(run[k]) && |run[k].buf| == n && run[k].rear < INT_LIMIT
  {
    if k == 0 {
      InitInv(n, threads);
    } else {
      RunKeepsInv(run, acts, n, threads, k - 1);
      assert StepsTo(run[k - 1], acts[k - 1], run[k]);
      StepKeepsInv(run[k - 1], acts[k - 1]);
    }
  }

  /** Under any interleaving of any number of threads, what was removed is a prefix of what was
      inserted, at most n items are in the buffer, no two threads are inside the mutex, and every step can be
      taken except the store of item 2^31. */
  lemma EveryRunIsFifo(run: seq<State>, acts: seq<Action>, n: nat, threads: nat)
    requires IsRun(run, acts, n, threads)
    ensures var s := run[|acts|];
      && (forall a :: Enabled(s, a) ==> (Defined(s, a) <==> !(Stores(s, a) && |s.inserted| == INT_LIMIT - 1)))
      && s.removed <= s.inserted
      && |s.inserted| - |s.removed| == s.rear - s.front && 0 <= s.rear - s.front <= n
      && forall i, j :: 0 <= i < j < |s.threads| ==> !(Holds(s.threads[i], Mutex) && Holds(s.threads[j], Mutex))
  {
    RunKeepsInv(run, acts, n, threads, |acts|);
    MutualExclusion(run[|acts|]);
    forall a | Enabled(run[|acts|], a)
      ensures Defined(run[|acts|], a) <==> !(Stores(run[|acts|], a) && |run[|acts|].inserted| == INT_LIMIT - 1)
    {
      OnlyStoresOverflow(run[|acts|], a);
    }
  }

  lemma {:induction false} CountTwo(ts: seq<Thread>, i: nat, j: nat, c: Credit)
    requires i < j < |ts| && Holds(ts[i], c) && Holds(ts[j], c)
    ensures Count(ts, c) >= 2
  {
    if j < |ts| - 1 {
      CountTwo(ts[..|ts| - 1], i, j, c);
    } else {
      CountHolder(ts[..|ts| - 1], i, c);
    }
  }

  lemma MutualExclusion(s: State)
    requires Semaphores(s)
    ensures forall i, j :: 0 <= i < j < |s.threads| ==> !(Holds(s.threads[i], Mutex) && Holds(s.threads[j], Mutex))
  {
    forall i, j | 0 <= i < j < |s.threads| && Holds(s.threads[i], Mutex) && Holds(s.threads[j], Mutex)
      ensures false
    {
      CountTwo(s.threads, i, j, Mutex);
    }
  }

  ghost predicate NobodyAdvances(s: State) {
    forall i :: 0 <= i < |s.threads| ==> !Enabled(s, Advance(i))
  }

  /** Threads can only all be stuck for the reason the buffer exists: those in flight all wait to
      insert into a full buffer, or all wait to remove from an empty one. */
  lemma StuckOnlyWhenFullOrEmpty(s: State)
    requires Inv(s)
    ensures NobodyAdvances(s) <==>
      forall t :: t in s.threads ==>
        || t == Idle
        || (t.InsertWaitSlot? && s.slots == 0)
        || (t == RemoveWaitItem && s.items == 0)
    ensures NobodyAdvances(s) ==>
      && (forall t :: t in s.threads && t.InsertWaitSlot? ==> s.rear - s.front == |s.buf|)
      && (forall t :: t in s.threads && t == RemoveWaitItem ==> s.rear == s.front)
  {
    if NobodyAdvances(s) {
      forall i | 0 <= i < |s.threads| ensures !Holds(s.threads[i], Mutex) {
        assert !Enabled(s, Advance(i));
      }
      CountNone(s.threads, Mutex);
      forall c: Credit, i | 0 <= i < |s.threads| ensures !Holds(s.threads[i], c) {
        assert !Enabled(s, Advance(i));
      }
      CountNone(s.threads, OpenSlot);
      CountNone(s.threads, UsedSlot);
      CountNone(s.threads, NewItem);
      CountNone(s.threads, OldItem);
      forall t | t in s.threads
        ensures t == Idle || (t.InsertWaitSlot? && s.slots == 0) || (t == RemoveWaitItem && s.items == 0)
      {
        var i :| 0 <= i < |s.threads| && s.threads[i] == t;
        assert !Enabled(s, Advance(i));
      }
    }
  }

  // ------------------------------------------------- what the callers asked for

  /** The items callers passed, read off the actions alone. */
  function Asked(acts: seq<Action>): multiset<int> {
    if acts == [] then multiset{} else Asked(acts[..|acts| - 1]) + Begun(acts[|acts| - 1])
  }

  function Begun(a: Action): multiset<int> {
    if a.BeginInsert? then multiset{a.item} else multiset{}
  }

  /** The item of a thread's own last insert. */
  function LastAsked(acts: seq<Action>, who: nat): Option<int> {
    if acts == [] then None
    else
      var a := acts[|acts| - 1];
      if a.BeginInsert? && a.who == who then Some(a.item) else LastAsked(acts[..|acts| - 1], who)
  }

  /** The item a thread takes to the buffer. */
  function Carried(t: Thread): Option<int> {
    match t
    case InsertWaitSlot(item) => Some(item)
    case InsertWaitMutex(item) => Some(item)
    case InsertStore(item) => Some(item)
    case _ => None
  }

  function Bag(o: Option<int>): multiset<int> {
    if o.Some? then multiset{o.value} else multiset{}
  }

  function InFlight(ts: seq<Thread>): multiset<int> {
    if ts == [] then multiset{} else InFlight(ts[..|ts| - 1]) + Bag(Carried(ts[|ts| - 1]))
  }

  lemma {:induction false} InFlightUpdate(ts: seq<Thread>, i: nat, t: Thread)
    requires i < |ts|
    ensures InFlight(ts[i := t]) + Bag(Carried(ts[i])) == InFlight(ts) + Bag(Carried(t))
  {
    hide Bag, Carried;
    var n := |ts| - 1;
    var last, now := Bag(Carried(ts[n])), Bag(Carried(t));
    if i < n {
      var was := Bag(Carried(ts[i]));
      assert ts[i := t][..n] == ts[..n][i := t] && ts[i := t][n] == ts[n];
      InFlightUpdate(ts[..n], i, t);
      OneMoreBag(InFlight(ts[..n][i := t]), was, InFlight(ts[..n]), now, last);
    } else {
      assert ts[i := t][..n] == ts[..n];
      SwapBags(InFlight(ts[..n]), now, last);
    }
  }

  lemma SwapBags(a: multiset<int>, b: multiset<int>, c: multiset<int>)
    ensures (a + b) + c == (a + c) + b
  {
  }

  lemma OneMoreBag(a: multiset<int>, b: multiset<int>, c: multiset<int>, d: multiset<int>, x: multiset<int>)
    requires a + b == c + d
    ensures (a + x) + b == (c + x) + d
  {
    assert (a + x) + b == (a + b) + x && (c + x) + d == (c + d) + x;
  }

  lemma {:induction false} NothingInFlight(ts: seq<Thread>)
    requires forall i :: 0 <= i < |ts| ==> ts[i] == Idle
    ensures InFlight(ts) == multiset{}
  {
    if ts != [] {
      NothingInFlight(ts[..|ts| - 1]);
    }
  }

  /** A thread picks its item up where the insert begins and puts it down where it stores it. */
  ghost predicate MovesItem(s: State, a: Action, s': State) {
    && a.who < |s.threads| == |s'.threads| && s'.threads == s.threads[a.who := s'.threads[a.who]]
    && var before, after := Carried(s.threads[a.who]), Carried(s'.threads[a.who]);
    && (if a.BeginInsert? then before == None && after == Some(a.item)
        else if Stores(s, a) then before.Some? && after == None
        else after == before)
    && s'.inserted == (if Stores(s, a) && before.Some? then s.inserted + [before.value] else s.inserted)
  }

  lemma StepMovesItem(s: State, a: Action)
    requires Enabled(s, a) && Defined(s, a)
    ensures MovesItem(s, a, Step(s, a))
  {
  }

  /** The items accounted for: those stored and those on their way. */
  function Accounted(s: State): multiset<int> {
    multiset(s.inserted) + InFlight(s.threads)
  }

  lemma Balance(items: multiset<int>, moving: multiset<int>, moving': multiset<int>, before: multiset<int>,
                after: multiset<int>, stored: multiset<int>, begun: multiset<int>)
    requires moving' + before == moving + after && stored + after == before + begun
    ensures items + stored + moving' == items + moving + begun
  {
    forall x | x in items + stored + moving' + moving + begun
      ensures (items + stored + moving')[x] == (items + moving + begun)[x]
    {
      assert (moving' + before)[x] == (moving + after)[x] && (stored + after)[x] == (before + begun)[x];
    }
    assert forall x :: (items + stored + moving')[x] == (items + moving + begun)[x];
  }

  /** One step neither loses, doubles nor changes an item. */
  lemma MovesKeepItems(s: State, a: Action, s': State)
    requires MovesItem(s, a, s')
    ensures Accounted(s') == Accounted(s) + Begun(a)
  {
    var before, after := Bag(Carried(s.threads[a.who])), Bag(Carried(s'.threads[a.who]));
    var stored := if Stores(s, a) then before else multiset{};
    assert multiset(s'.inserted) == multiset(s.inserted) + stored;
    InFlightUpdate(s.threads, a.who, s'.threads[a.who]);
    Balance(multiset(s.inserted), InFlight(s.threads), InFlight(s'.threads), before, after, stored, Begun(a));
  }

  lemma AskedMore(acts: seq<Action>, k: nat)
    requires k < |acts|
    ensures Asked(acts[..k + 1]) == Asked(acts[..k]) + Begun(acts[k])
  {
    assert acts[..k + 1][..k] == acts[..k];
  }

  lemma NothingAsked(acts: seq<Action>, n: nat, threads: nat)
    ensures Asked(acts[..0]) == Accounted(Init(n, threads))
  {
    NothingInFlight(Init(n, threads).threads);
  }

  /** Over every run the items callers passed are those inserted and those still on their way. */
  lemma {:induction false} EveryItemArrives(run: seq<State>, acts: seq<Action>, n: nat, threads: nat, k: nat)
    requires IsRun(run, acts, n, threads) && k <= |acts|
    ensures Asked(acts[..k]) == Accounted(run[k])
  {
    hide Asked, Accounted, StepsTo, Enabled, Defined;
    if k == 0 {
      NothingAsked(acts, n, threads);
    } else {
      EveryItemArrives(run, acts, n, threads, k - 1);
      RunKeepsItems(run, acts, n, threads, k - 1);
      AskedMore(acts, k - 1);
    }
  }

  lemma RunMovesItem(run: seq<State>, acts: seq<Action>, n: nat, threads: nat, k: nat)
    requires IsRun(run, acts, n, threads) && k < |acts|
    ensures MovesItem(run[k], acts[k], run[k + 1])
  {
    assert StepsTo(run[k], acts[k], run[k + 1]);
    StepMovesItem(run[k], acts[k]);
  }

  lemma RunKeepsItems(run: seq<State>, acts: seq<Action>, n: nat, threads: nat, k: nat)
    requires IsRun(run, acts, n, threads) && k < |acts|
    ensures Accounted(run[k + 1]) == Accounted(run[k]) + Begun(acts[k])
  {
    RunMovesItem(run, acts, n, threads, k);
    MovesKeepItems(run[k], acts[k], run[k + 1]);
  }

  /** Each thread carries the item of its own last insert. */
  ghost predicate CarryOwn(ts: seq<Thread>, acts: seq<Action>) {
    forall i :: 0 <= i < |ts| && Carried(ts[i]).Some? ==> LastAsked(acts, i) == Carried(ts[i])
  }

  lemma MovesKeepOwn(s: State, acts: seq<Action>, a: Action, s': State)
    requires MovesItem(s, a, s') && CarryOwn(s.threads, acts)
    ensures CarryOwn(s'.threads, acts + [a])
  {
    assert (acts + [a])[..|acts|] == acts;
  }

  lemma {:induction false} EveryoneCarriesOwn(run: seq<State>, acts: seq<Action>, n: nat, threads: nat, k: nat)
    requires IsRun(run, acts, n, threads) && k <= |acts|
    ensures CarryOwn(run[k].threads, acts[..k])
  {
    if k > 0 {
      EveryoneCarriesOwn(run, acts, n, threads, k - 1);
      RunMovesItem(run, acts, n, threads, k - 1);
      MovesKeepOwn(run[k - 1], acts[..k - 1], acts[k - 1], run[k]);
      assert acts[..k] == acts[..k - 1] + [acts[k - 1]];
    }
  }

  /** Only a store inserts, and it inserts the item its thread was last asked for, behind all others. */
  lemma StoresOwnItem(run: seq<State>, acts: seq<Action>, n: nat, threads: nat, k: nat)
    requires IsRun(run, acts, n, threads) && k < |acts|
    ensures Stores(run[k], acts[k]) ==>
      && LastAsked(acts[..k], acts[k].who).Some?
      && run[k + 1].inserted == run[k].inserted + [LastAsked(acts[..k], acts[k].who).value]
    ensures !Stores(run[k], acts[k]) ==> run[k + 1].inserted == run[k].inserted
  {
    RunMovesItem(run, acts, n, threads, k);
    EveryoneCarriesOwn(run, acts, n, threads, k);
  }

  /** A load removes the oldest item not yet removed, and its thread is to return that item; the return is
      changed by nobody until the thread is idle. */
  ghost predicate MovesReturn(s: State, a: Action, s': State) {
    && a.who < |s.threads| == |s'.threads| && s'.threads == s.threads[a.who := s'.threads[a.who]]
    && (if Loads(s, a) then
          && |s.removed| < |s.inserted| && s'.removed == s.removed + [s.inserted[|s.removed|]]
          && Returned(s'.threads[a.who]) == Some(s.inserted[|s.removed|])
        else
          && s'.removed == s.removed
          && (Returned(s'.threads[a.who]).Some? ==>
              Returned(s'.threads[a.who]) == Returned(s.threads[a.who])))
    && (s.threads[a.who].RemoveGiveMutex? ==> Returned(s'.threads[a.who]).Some?)
  }

  /** What a remove is about to return. */
  function Returned(t: Thread): Option<int> {
    match t
    case RemoveGiveMutex(rt) => Some(rt)
    case RemoveGiveSlot(rt) => Some(rt)
    case _ => None
  }

  lemma StepMovesReturn(s: State, a: Action)
    requires Inv(s) && Enabled(s, a) && Defined(s, a)
    ensures MovesReturn(s, a, Step(s, a))
  {
    AccessIsSafe(s, a.who);
    if Loads(s, a) {
      assert s.buf[(s.front + 1) % |s.buf|] == s.inserted[s.front];
    }
  }

  lemma RunMovesReturn(run: seq<State>, acts: seq<Action>, n: nat, threads: nat, k: nat)
    requires IsRun(run, acts, n, threads) && k < |acts|
    ensures MovesReturn(run[k], acts[k], run[k + 1])
  {
    RunKeepsInv(run, acts, n, threads, k);
    assert StepsTo(run[k], acts[k], run[k + 1]);
    StepMovesReturn(run[k], acts[k]);
  }

  /** One past a thread's last load among the first k steps, 0 if it has none. */
  function LastLoad(run: seq<State>, acts: seq<Action>, k: nat, who: nat): nat
    requires k <= |acts| < |run|
  {
    if k == 0 then 0
    else if acts[k - 1].who == who && Loads(run[k - 1], acts[k - 1]) then k
    else LastLoad(run, acts, k - 1, who)
  }

  /** x is the item removed by the load that made step k. */
  ghost predicate RemovedBy(run: seq<State>, k: nat, x: int) {
    0 < k < |run| && run[k].removed != [] && run[k].removed[|run[k].removed| - 1] == x
  }

  /** What a thread is about to return is what its own last load removed. */
  lemma {:induction false} ReturnsOwnLoad(run: seq<State>, acts: seq<Action>, n: nat, threads: nat, k: nat, i: nat)
    requires IsRun(run, acts, n, threads) && k <= |acts| && i < threads
    ensures |run[k].threads| == threads
    ensures var x := Returned(run[k].threads[i]);
      x.Some? ==> RemovedBy(run, LastLoad(run, acts, k, i), x.value)
  {
    if k > 0 {
      ReturnsOwnLoad(run, acts, n, threads, k - 1, i);
      RunMovesReturn(run, acts, n, threads, k - 1);
    }
  }

  // --------------------------------------------- a run that reaches the overflow

  function Last(run: seq<State>): State
    requires run != []
  {
    run[|run| - 1]
  }

  lemma OneMore(run: seq<State>, acts: seq<Action>, n: nat, threads: nat, a: Action)
    returns (run': seq<State>, acts': seq<Action>)
    requires IsRun(run, acts, n, threads) && Enabled(Last(run), a) && Defined(Last(run), a)
    ensures IsRun(run', acts', n, threads) && Last(run') == Step(Last(run), a)
  {
    run', acts' := run + [Step(Last(run), a)], acts + [a];
    forall k | 0 <= k < |acts'| ensures StepsTo(run'[k], acts'[k], run'[k + 1]) {
      assert k < |acts| ==> StepsTo(run[k], acts[k], run[k + 1]);
    }
  }

  /** Every thread is idle, with front items removed and rear inserted. */
  ghost predicate IdleAt(s: State, n: nat, threads: nat, front: nat, rear: nat) {
    && |s.buf| == n && |s.threads| == threads && (forall i :: 0 <= i < threads ==> s.threads[i] == Idle)
    && s.front == front <= rear == s.rear == |s.inserted| && rear - front <= n
    && s.mutex == 1 && s.items == rear - front && s.slots == n - (rear - front)
  }

  /** The first thread inserts an item as far as its store. */
  lemma ComesToStore(run: seq<State>, acts: seq<Action>, n: nat, threads: nat, front: nat, rear: nat)
    returns (run': seq<State>, acts': seq<Action>)
    requires IsRun(run, acts, n, threads) && IdleAt(Last(run), n, threads, front, rear)
    requires threads > 0 && rear - front < n
    ensures IsRun(run', acts', n, threads)
    ensures var s := Last(run);
      Last(run') == s.(threads := s.threads[0 := InsertStore(0)], slots := s.slots - 1, mutex := 0)
  {
    var s := Last(run);
    run', acts' := OneMore(run, acts, n, threads, BeginInsert(0, 0));
    run', acts' := OneMore(run', acts', n, threads, Advance(0));
    run', acts' := OneMore(run', acts', n, threads, Advance(0));
    assert s.threads[0 := InsertWaitSlot(0)][0 := InsertWaitMutex(0)] == s.threads[0 := InsertWaitMutex(0)];
    assert s.threads[0 := InsertWaitMutex(0)][0 := InsertStore(0)] == s.threads[0 := InsertStore(0)];
  }

  lemma InsertOne(run: seq<State>, acts: seq<Action>, n: nat, threads: nat, front: nat, rear: nat)
    returns (run': seq<State>, acts': seq<Action>)
    requires IsRun(run, acts, n, threads) && IdleAt(Last(run), n, threads, front, rear)
    requires threads > 0 && rear - front < n && rear + 1 < INT_LIMIT
    ensures IsRun(run', acts', n, threads) && IdleAt(Last(run'), n, threads, front, rear + 1)
  {
    run', acts' := ComesToStore(run, acts, n, threads, front, rear);
    run', acts' := OneMore(run', acts', n, threads, Advance(0));
    run', acts' := OneMore(run', acts', n, threads, Advance(0));
    run', acts' := OneMore(run', acts', n, threads, Advance(0));
  }

  lemma RemoveOne(run: seq<State>, acts: seq<Action>, n: nat, threads: nat, front: nat, rear: nat)
    returns (run': seq<State>, acts': seq<Action>)
    requires IsRun(run, acts, n, threads) && IdleAt(Last(run), n, threads, front, rear)
    requires threads > 0 && front < rear < INT_LIMIT
    ensures IsRun(run', acts', n, threads) && IdleAt(Last(run'), n, threads, front + 1, rear)
  {
    run', acts' := OneMore(run, acts, n, threads, BeginRemove(0));
    run', acts' := OneMore(run', acts', n, threads, Advance(0));
    run', acts' := OneMore(run', acts', n, threads, Advance(0));
    run', acts' := OneMore(run', acts', n, threads, Advance(0));
    run', acts' := OneMore(run', acts', n, threads, Advance(0));
    run', acts' := OneMore(run', acts', n, threads, Advance(0));
  }

  /** k items come and go. */
  lemma {:induction false} ItemsPass(n: nat, threads: nat, k: nat) returns (run: seq<State>, acts: seq<Action>)
    requires n > 0 && threads > 0 && k < INT_LIMIT
    ensures IsRun(run, acts, n, threads) && IdleAt(Last(run), n, threads, k, k)
  {
    if k == 0 {
      run, acts := [Init(n, threads)], [];
    } else {
      run, acts := ItemsPass(n, threads, k - 1);
      run, acts := InsertOne(run, acts, n, threads, k - 1, k - 1);
      run, acts := RemoveOne(run, acts, n, threads, k - 1, k);
    }
  }

  /** With any buffer and any threads there is a run that comes to the store that overflows. */
  lemma OverflowIsReached(n: nat, threads: nat) returns (run: seq<State>, acts: seq<Action>)
    requires n > 0 && threads > 0
    ensures IsRun(run, acts, n, threads) && Enabled(Last(run), Advance(0)) && !Defined(Last(run), Advance(0))
  {
    run, acts := ItemsPass(n, threads, INT_LIMIT - 1);
    run, acts := ComesToStore(run, acts, n, threads, INT_LIMIT - 1, INT_LIMIT - 1);
  }
}
