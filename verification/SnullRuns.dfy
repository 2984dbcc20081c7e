/** Runs of the snull buffer protocol: no packet or message is ever lost, and what the transmit queue's
    stop and wake have to do with the pool. */
module SnullRuns {
  import opened Wrappers
  import opened SnullPackets

  predicate Legal(s: State, acts: seq<Action>)
    decreases acts
  {
    acts == [] || (Sized(s) && Enabled(s, acts[0]) && Legal(Do(s, acts[0]), acts[1..]))
  }

  function After(s: State, acts: seq<Action>): State
    requires Legal(s, acts)
    decreases acts
  {
    if acts == [] then s else After(Do(s, acts[0]), acts[1..])
  }

  // Messages

  function Payload(data: seq<seq<int>>, p: Packet): seq<int> {
    if p < |data| then data[p] else []
  }

  /** The messages waiting in a receive queue. */
  function Waiting(queue: seq<Packet>, data: seq<seq<int>>, d: nat): multiset<Message> {
    if queue == [] then multiset{} else multiset{Message(d, Payload(data, queue[0]))} + Waiting(queue[1..], data, d)
  }

  lemma {:induction false} WaitingElsewhere(queue: seq<Packet>, data: seq<seq<int>>, d: nat, p: Packet,
                                            payload: seq<int>)
    requires p < |data| && p !in queue
    ensures Waiting(queue, data[p := payload], d) == Waiting(queue, data, d)
  {
    if queue != [] {
      WaitingElsewhere(queue[1..], data, d, p, payload);
      assert queue[0] in queue;
    }
  }

  /** What was sent to a device is what it received and what is still in its queue, payloads included. */
  ghost predicate Faithful(s: State, a: Lists)
    requires Inv(s, a)
  {
    Balanced(s.sent, s.received, Waiting(a.queues[0], s.data, 0), Waiting(a.queues[1], s.data, 1))
  }

  predicate Balanced(sent: multiset<Message>, received: multiset<Message>, here: multiset<Message>,
                     there: multiset<Message>) {
    sent == received + here + there
  }

  lemma BalancedReceipt(sent: multiset<Message>, received: multiset<Message>, one: multiset<Message>,
                        rest: multiset<Message>, other: multiset<Message>)
    ensures Balanced(sent, received, one + rest, other) ==> Balanced(sent, received + one, rest, other)
    ensures Balanced(sent, received, other, one + rest) ==> Balanced(sent, received + one, other, rest)
  {
  }

  lemma StepIsFaithful(s: State, a: Lists, act: Action)
    requires Inv(s, a) && Faithful(s, a) && Enabled(s, act)
    ensures Inv(Do(s, act), Track(s, a, act)) && Faithful(Do(s, act), Track(s, a, act))
  {
    StepKeepsInv(s, a, act);
    match act {
      case Get(_, _) =>
      case Enqueue(t, payload) => EnqueueIsFaithful(s, a, t, payload);
      case Dequeue(t, d) => DequeueIsFaithful(s, a, t, d);
      case Release(_) =>
      case Check(_) =>
    }
  }

  lemma EnqueueIsFaithful(s: State, a: Lists, t: nat, payload: seq<int>)
    requires Inv(s, a) && Faithful(s, a) && Enabled(s, Enqueue(t, payload))
    ensures Inv(Do(s, Enqueue(t, payload)), Track(s, a, Enqueue(t, payload)))
    ensures Faithful(Do(s, Enqueue(t, payload)), Track(s, a, Enqueue(t, payload)))
  {
    EnqueueKeeps(s, a, t, payload);
    WaitingAfterPush(s, a, s.threads[t].packet, payload, 1 - s.threads[t].dev);
  }

  lemma DequeueIsFaithful(s: State, a: Lists, t: nat, d: nat)
    requires Inv(s, a) && Faithful(s, a) && Enabled(s, Dequeue(t, d))
    ensures Inv(Do(s, Dequeue(t, d)), Track(s, a, Dequeue(t, d)))
    ensures Faithful(Do(s, Dequeue(t, d)), Track(s, a, Dequeue(t, d)))
  {
    DequeueKeeps(s, a, t, d);
    WaitingAfterPop(s, a, d);
    BalancedReceipt(s.sent, s.received, multiset{Message(d, s.data[a.queues[d][0]])},
                    Waiting(a.queues[d][1..], s.data, d), Waiting(a.queues[1 - d], s.data, 1 - d));
  }

  lemma WaitingAfterPush(s: State, a: Lists, p: Packet, payload: seq<int>, dest: nat)
    requires Inv(s, a) && p < |s.data| && a.place[p].Held? && dest < 2
    ensures Waiting([p] + a.queues[dest], s.data[p := payload], dest)
         == multiset{Message(dest, payload)} + Waiting(a.queues[dest], s.data, dest)
    ensures Waiting(a.queues[1 - dest], s.data[p := payload], 1 - dest) == Waiting(a.queues[1 - dest], s.data, 1 - dest)
  {
    assert p !in a.queues[0] && p !in a.queues[1];
    WaitingElsewhere(a.queues[dest], s.data, dest, p, payload);
    WaitingElsewhere(a.queues[1 - dest], s.data, 1 - dest, p, payload);
    assert ([p] + a.queues[dest])[1..] == a.queues[dest];
  }

  lemma WaitingAfterPop(s: State, a: Lists, d: nat)
    requires Inv(s, a) && d < 2 && s.devices[d].rxQueue.Some?
    ensures a.queues[d] != [] && s.devices[d].rxQueue == Some(a.queues[d][0]) && a.queues[d][0] < |s.data|
    ensures Waiting(a.queues[d], s.data, d)
         == multiset{Message(d, s.data[a.queues[d][0]])} + Waiting(a.queues[d][1..], s.data, d)
  {
  }

  /** The frames callers asked to send, read off the actions alone: devs is the device of each thread's last
      request for a packet, and a frame goes to the other one. */
  function Asked(devs: map<nat, nat>, acts: seq<Action>): multiset<Message>
    decreases acts
  {
    if acts == [] then multiset{} else AskedBy(devs, acts[0]) + Asked(Noted(devs, acts[0]), acts[1..])
  }

  function AskedBy(devs: map<nat, nat>, act: Action): multiset<Message> {
    match act
    case Enqueue(t, payload) =>
      if t in devs then multiset{Message(if devs[t] == 0 then 1 else 0, payload)} else multiset{}
    case _ => multiset{}
  }

  function Noted(devs: map<nat, nat>, act: Action): map<nat, nat> {
    match act
    case Get(t, d) => devs[t := d]
    case _ => devs
  }

  /** The threads about to send are noted with their device. */
  ghost predicate Knows(devs: map<nat, nat>, threads: seq<Thread>) {
    forall t :: 0 <= t < |threads| && threads[t].Sending? ==>
      t in devs && devs[t] == threads[t].dev < 2
  }

  lemma StepSendsAsked(s: State, devs: map<nat, nat>, act: Action)
    requires Sized(s) && Enabled(s, act) && Knows(devs, s.threads)
    ensures Knows(Noted(devs, act), Do(s, act).threads) && Do(s, act).sent == s.sent + AskedBy(devs, act)
  {
    match act {
      case Get(_, _) =>
      case Enqueue(_, _) =>
      case Dequeue(_, _) =>
      case Release(_) =>
      case Check(_) =>
    }
  }

  /** Over every interleaving exactly the frames callers asked to send were sent, each to the other device. */
  lemma {:induction false} SentIsAsked(s: State, devs: map<nat, nat>, acts: seq<Action>)
    requires Legal(s, acts) && Knows(devs, s.threads)
    ensures After(s, acts).sent == s.sent + Asked(devs, acts)
    decreases acts
  {
    if acts != [] {
      StepSendsAsked(s, devs, acts[0]);
      SentIsAsked(Do(s, acts[0]), Noted(devs, acts[0]), acts[1..]);
    }
  }

  /** Over every interleaving: each packet stays in exactly one place, in its own device's pool when it
      is free, and every message is received as it was sent or still queued. */
  lemma {:induction false} EveryRunConserves(s: State, a: Lists, acts: seq<Action>) returns (b: Lists)
    requires Inv(s, a) && Faithful(s, a) && Legal(s, acts)
    ensures Inv(After(s, acts), b) && Faithful(After(s, acts), b)
    decreases acts
  {
    if acts == [] {
      b := a;
    } else {
      StepIsFaithful(s, a, acts[0]);
      b := EveryRunConserves(Do(s, acts[0]), Track(s, a, acts[0]), acts[1..]);
    }
  }

  /** From the start: the frames callers asked to send are those received and those in the two queues,
      unchanged and each at the other device. */
  lemma EveryFrameArrives(n: nat, m: nat, threads: nat, acts: seq<Action>) returns (b: Lists)
    requires Legal(Start(n, m, threads), acts)
    ensures Inv(After(Start(n, m, threads), acts), b)
    ensures var s := After(Start(n, m, threads), acts);
      Asked(map[], acts) == s.received + Waiting(b.queues[0], s.data, 0) + Waiting(b.queues[1], s.data, 1)
  {
    StartIsSound(n, m, threads);
    b := EveryRunConserves(Start(n, m, threads), StartLists(n, m), acts);
    SentIsAsked(Start(n, m, threads), map[], acts);
  }

  // The start: snull_setup_pool for both devices, then open

  /** The packets first..end in the order the pool list gives them. */
  function Down(first: nat, end: nat): seq<Packet>
    requires first <= end
  {
    if end == first then [] else [end - 1] + Down(first, end - 1)
  }

  /** Packets 0..n belong to the first device and n..n + m to the second. */
  function Start(n: nat, m: nat, threads: nat): State {
    State(
      seq(n + m, p => if p < n then 0 else 1),
      StartNext(n, m),
      seq(n + m, p => []),
      [NetDevice(Top(0, n), None, false), NetDevice(Top(n, n + m), None, false)],
      seq(threads, t => Idle), multiset{}, multiset{})
  }

  function StartNext(n: nat, m: nat): seq<Option<Packet>> {
    seq(n + m, p requires 0 <= p < n + m => if p == 0 || p == n then None else Some(p - 1))
  }

  lemma StartChains(n: nat, m: nat)
    ensures Chain(StartNext(n, m), Top(0, n), Down(0, n)) && NoRepeats(Down(0, n))
    ensures Chain(StartNext(n, m), Top(n, n + m), Down(n, n + m)) && NoRepeats(Down(n, n + m))
  {
    DownIsChain(StartNext(n, m), 0, n);
    DownIsChain(StartNext(n, m), n, n + m);
  }

  function Top(first: nat, end: nat): Option<Packet> {
    if first < end then Some(end - 1) else None
  }

  lemma {:induction false} DownHolds(first: nat, end: nat, p: Packet)
    requires first <= end
    ensures p in Down(first, end) <==> first <= p < end
    decreases end
  {
    if first < end { DownHolds(first, end - 1, p); }
  }

  lemma InFront(next: seq<Option<Packet>>, p: Packet, list: seq<Packet>)
    requires p < |next| && Chain(next, next[p], list) && NoRepeats(list) && p !in list
    ensures Chain(next, Some(p), [p] + list) && NoRepeats([p] + list)
  {
    assert ([p] + list)[1..] == list;
  }

  lemma {:induction false} DownIsChain(next: seq<Option<Packet>>, first: nat, end: nat)
    requires first <= end <= |next|
    requires forall p :: first <= p < end ==> next[p] == Top(first, p)
    ensures Chain(next, Top(first, end), Down(first, end)) && NoRepeats(Down(first, end))
    decreases end
  {
    if first < end {
      DownIsChain(next, first, end - 1);
      DownHolds(first, end - 1, end - 1);
      InFront(next, end - 1, Down(first, end - 1));
    }
  }

  ghost function StartLists(n: nat, m: nat): Lists {
    Lists([Down(0, n), Down(n, n + m)], [[], []], seq(n + m, p => InPool(if p < n then 0 else 1)))
  }

  lemma StartSizes(n: nat, m: nat, threads: nat)
    ensures var s, a := Start(n, m, threads), StartLists(n, m);
      && Sized(s) && |a.pools| == |a.queues| == 2 && |a.place| == |s.next|
      && Holds(s.threads, a.place) && AtHome(s.owner, a.place)
  {
  }

  lemma StartDevices(n: nat, m: nat, threads: nat)
    requires Sized(Start(n, m, threads))
    ensures var s, a := Start(n, m, threads), StartLists(n, m); DeviceInv(s, a, 0) && DeviceInv(s, a, 1)
  {
    var a := StartLists(n, m);
    StartChains(n, m);
    StartPool(a.place, 0, n, InPool(0));
    StartPool(a.place, n, n + m, InPool(1));
    EmptyList(a.place, InQueue(0));
    EmptyList(a.place, InQueue(1));
    hide NoRepeats, Down, Lies, StartNext;
  }

  lemma EmptyList(place: seq<Place>, at: Place)
    requires at !in place
    ensures Lies(place, [], at)
  {
    assert forall p: Packet :: p < |place| ==> place[p] in place;
  }

  lemma StartIsSound(n: nat, m: nat, threads: nat)
    ensures Inv(Start(n, m, threads), StartLists(n, m)) && Faithful(Start(n, m, threads), StartLists(n, m))
  {
    StartSizes(n, m, threads);
    StartDevices(n, m, threads);
    hide DeviceInv, Holds, AtHome, Down, StartNext;
  }

  lemma StartPool(place: seq<Place>, first: nat, end: nat, at: Place)
    requires first <= end <= |place| && NoRepeats(Down(first, end))
    requires forall p :: 0 <= p < |place| ==> (place[p] == at <==> first <= p < end)
    ensures Lies(place, Down(first, end), at)
  {
    forall p: Packet
      ensures p in Down(first, end) <==> p < |place| && place[p] == at
    {
      DownHolds(first, end, p);
    }
  }

  // Stopping and waking the transmit queue

  /** A release whose look at the queue state directly follows its lock section; any other step as is. */
  function Move(s: State, act: Action): State
    requires Sized(s) && Enabled(s, act)
  {
    if act.Release? then Do(Do(s, act), Check(act.thread)) else Do(s, act)
  }

  predicate Prompt(s: State, acts: seq<Action>)
    decreases acts
  {
    acts == [] || (Sized(s) && Enabled(s, acts[0]) && !acts[0].Check? && Prompt(Move(s, acts[0]), acts[1..]))
  }

  function AfterPrompt(s: State, acts: seq<Action>): State
    requires Prompt(s, acts)
    decreases acts
  {
    if acts == [] then s else AfterPrompt(Move(s, acts[0]), acts[1..])
  }

  /** The queue runs exactly while the pool has a packet. */
  ghost predicate Settled(s: State)
    requires Sized(s)
  {
    forall d :: 0 <= d < 2 ==> (s.devices[d].stopped <==> s.devices[d].ppool.None?)
  }

  lemma MoveSettles(s: State, a: Lists, act: Action) returns (b: Lists)
    requires Inv(s, a) && Settled(s) && Enabled(s, act) && !act.Check?
    ensures Inv(Move(s, act), b) && Settled(Move(s, act))
  {
    StepKeepsInv(s, a, act);
    b := Track(s, a, act);
    if act.Release? {
      StepKeepsInv(Do(s, act), b, Check(act.thread));
      ReleaseSettles(s, act.thread);
    }
  }

  lemma ReleaseSettles(s: State, t: nat)
    requires Sized(s) && Settled(s) && Enabled(s, Release(t))
    ensures Settled(Move(s, Release(t)))
  {
  }

  /** With prompt releases the queue runs exactly while there is a packet to send with, so a transmit
      never finds an empty pool. */
  lemma {:induction false} EveryPromptRunIsSettled(s: State, a: Lists, acts: seq<Action>)
    requires Inv(s, a) && Settled(s) && Prompt(s, acts)
    ensures Sized(AfterPrompt(s, acts)) && Settled(AfterPrompt(s, acts))
    decreases acts
  {
    if acts != [] {
      var b := MoveSettles(s, a, acts[0]);
      EveryPromptRunIsSettled(Move(s, acts[0]), b, acts[1..]);
    }
  }

  /** A device that was granted no packet: its queue runs, its pool is empty, and no packet ever goes there. */
  ghost predicate Unprovided(s: State, d: nat)
    requires Sized(s) && d < 2
  {
    s.devices[d].ppool.None? && !s.devices[d].stopped && d !in s.owner
  }

  lemma MoveKeepsUnprovided(s: State, act: Action, d: nat)
    requires Sized(s) && Enabled(s, act) && !act.Check? && d < 2 && Unprovided(s, d)
    ensures Sized(Move(s, act)) && Unprovided(Move(s, act), d)
  {
    if act.Release? {
      assert s.owner[s.threads[act.thread].packet] in s.owner;
    }
  }

  lemma {:induction false} UnprovidedForEver(s: State, acts: seq<Action>, d: nat)
    requires Sized(s) && Prompt(s, acts) && d < 2 && Unprovided(s, d)
    ensures Sized(AfterPrompt(s, acts)) && Unprovided(AfterPrompt(s, acts), d)
    decreases acts
  {
    if acts != [] {
      MoveKeepsUnprovided(s, acts[0], d);
      UnprovidedForEver(Move(s, acts[0]), acts[1..], d);
    }
  }

  /** After any prompt run from the start the queues run exactly while their pools have a packet, if and only if
      both pools were granted one; an empty pool leaves its queue running with nothing to send for good. */
  lemma PromptRunsFromStart(n: nat, m: nat, threads: nat, acts: seq<Action>)
    requires Prompt(Start(n, m, threads), acts)
    ensures Sized(AfterPrompt(Start(n, m, threads), acts))
    ensures Settled(AfterPrompt(Start(n, m, threads), acts)) <==> n > 0 && m > 0
  {
    var s := Start(n, m, threads);
    if n > 0 && m > 0 {
      StartIsSound(n, m, threads);
      EveryPromptRunIsSettled(s, StartLists(n, m), acts);
    } else {
      UnprovidedForEver(s, acts, if n == 0 then 0 else 1);
    }
  }

  ghost predicate RunningHasPacket(s: State)
    requires Sized(s)
  {
    forall d :: 0 <= d < 2 && !s.devices[d].stopped ==> s.devices[d].ppool.Some?
  }

  /** In general only the late look at the queue state can break the promise, and it does so exactly when
      the releaser finds its packet last in some list and the pool empty again. */
  lemma OnlyLateChecksMislead(s: State, a: Lists, act: Action)
    requires Inv(s, a) && RunningHasPacket(s) && Enabled(s, act)
    ensures RunningHasPacket(Do(s, act)) <==> !(act.Check? && Misleads(s, act.thread))
  {
    StepKeepsInv(s, a, act);
  }

  predicate Misleads(s: State, t: nat)
    requires Sized(s) && Enabled(s, Check(t))
  {
    var p := s.threads[t].packet;
    var device := s.devices[s.owner[p]];
    device.stopped && s.next[p].None? && device.ppool.None?
  }

  /** A first packet has been sent, received and pushed back; its receiver has not looked yet. */
  function Pushed(): State {
    State([0, 0, 1], [None, Some(0), None], [[], [], []],
          [NetDevice(Some(1), None, false), NetDevice(Some(2), None, false)],
          [Idle, Releasing(1)], multiset{Message(1, [])}, multiset{Message(1, [])})
  }

  /** The same packet and its neighbour have been sent, and the late look woke the queue. */
  function Woken(): State {
    State([0, 0, 1], [None, None, None], [[], [], []],
          [NetDevice(None, None, false), NetDevice(Some(2), Some(1), false)],
          [Sending(0, 0), Idle], multiset{Message(1, []), Message(1, [])}, multiset{Message(1, [])})
  }

  lemma PacketIsPushed() returns (acts: seq<Action>)
    ensures Legal(Start(2, 1, 2), acts) && After(Start(2, 1, 2), acts) == Pushed()
  {
    var s0 := Start(2, 1, 2);
    assert s0 == State([0, 0, 1], [None, Some(0), None], [[], [], []],
      [NetDevice(Some(1), None, false), NetDevice(Some(2), None, false)], [Idle, Idle], multiset{}, multiset{});
    var s1 := Do(s0, Get(0, 0));
    var s2 := Do(s1, Enqueue(0, []));
    var s3 := Do(s2, Dequeue(1, 1));
    assert Do(s3, Release(1)) == Pushed();
    acts := FourSteps(s0, Get(0, 0), Enqueue(0, []), Dequeue(1, 1), Release(1));
  }

  lemma QueueIsWoken() returns (acts: seq<Action>)
    ensures Legal(Pushed(), acts) && After(Pushed(), acts) == Woken()
  {
    var s0 := Pushed();
    var s1 := Do(s0, Get(0, 0));
    var s2 := Do(s1, Enqueue(0, []));
    var s3 := Do(s2, Get(0, 0));
    assert Do(s3, Check(1)) == Woken();
    acts := FourSteps(s0, Get(0, 0), Enqueue(0, []), Get(0, 0), Check(1));
  }

  lemma FourSteps(s: State, a: Action, b: Action, c: Action, d: Action) returns (acts: seq<Action>)
    requires Sized(s) && Enabled(s, a) && Enabled(Do(s, a), b) && Enabled(Do(Do(s, a), b), c)
    requires Enabled(Do(Do(Do(s, a), b), c), d)
    ensures Legal(s, acts) && After(s, acts) == Do(Do(Do(Do(s, a), b), c), d)
  {
    acts := [];
    acts := Prepend(Do(Do(Do(s, a), b), c), d, acts);
    acts := Prepend(Do(Do(s, a), b), c, acts);
    acts := Prepend(Do(s, a), b, acts);
    acts := Prepend(s, a, acts);
  }

  lemma Prepend(s: State, act: Action, acts: seq<Action>) returns (all: seq<Action>)
    requires Sized(s) && Enabled(s, act) && Legal(Do(s, act), acts)
    ensures Legal(s, all) && After(s, all) == After(Do(s, act), acts)
  {
    all := [act] + acts;
    assert all[1..] == acts;
  }

  lemma {:induction false} Chained(s: State, first: seq<Action>, rest: seq<Action>)
    requires Legal(s, first) && Legal(After(s, first), rest)
    ensures Legal(s, first + rest) && After(s, first + rest) == After(After(s, first), rest)
    decreases first
  {
    hide Enabled, Sized;
    if first == [] {
      assert first + rest == rest;
    } else {
      assert (first + rest)[1..] == first[1..] + rest;
      Chained(Do(s, first[0]), first[1..], rest);
    }
  }

  /** Such a run exists: the released packet is sent again and drains the pool with its neighbour; the
      releaser then takes its cleared `next` for a pool that was empty and has a packet again. */
  lemma LateCheckWakesEmptyPool() returns (acts: seq<Action>)
    ensures Legal(Start(2, 1, 2), acts)
    ensures var s := After(Start(2, 1, 2), acts); |s.devices| == 2 && !s.devices[0].stopped && s.devices[0].ppool.None?
  {
    var first := PacketIsPushed();
    var rest := QueueIsWoken();
    Chained(Start(2, 1, 2), first, rest);
    acts := first + rest;
  }
}
