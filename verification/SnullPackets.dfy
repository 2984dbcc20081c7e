/** Packet buffers of the snull network driver (drivers/examples/snull/snull.c): two devices, their
    free pools and receive queues threaded through one `next` field, and any number of threads that
    interleave between the spinlock sections. */
module SnullPackets {
  import opened Wrappers

  type Packet = nat

  /** What a thread does between lock sections. A releasing thread has pushed its packet back onto the
      pool and still has to look at the queue state, outside the lock. */
  datatype Thread = Idle | Sending(dev: nat, packet: Packet) | Handling(packet: Packet) | Releasing(packet: Packet)

  datatype NetDevice = NetDevice(ppool: Option<Packet>, rxQueue: Option<Packet>, stopped: bool)

  datatype Message = Message(dest: nat, payload: seq<int>)

  datatype State = State(
    owner: seq<nat>,
    next: seq<Option<Packet>>,
    data: seq<seq<int>>,
    devices: seq<NetDevice>,
    threads: seq<Thread>,
    sent: multiset<Message>,
    received: multiset<Message>)

  datatype Action =
    | Get(thread: nat, dev: nat)
    | Enqueue(thread: nat, payload: seq<int>)
    | Dequeue(thread: nat, dev: nat)
    | Release(thread: nat)
    | Check(thread: nat)

  predicate Sized(s: State) {
    && |s.devices| == 2
    && |s.owner| == |s.next| == |s.data|
    && (forall p :: 0 <= p < |s.owner| ==> s.owner[p] < 2)
  }

  predicate Enabled(s: State, act: Action)
    requires Sized(s)
  {
    && act.thread < |s.threads|
    && match act
       case Get(t, d) =>
         s.threads[t].Idle? && d < 2 && !s.devices[d].stopped && s.devices[d].ppool.Some?
           && s.devices[d].ppool.value < |s.next|
       case Enqueue(t, _) => s.threads[t].Sending? && s.threads[t].dev < 2 && s.threads[t].packet < |s.next|
       case Dequeue(t, d) =>
         s.threads[t].Idle? && d < 2 && s.devices[d].rxQueue.Some? && s.devices[d].rxQueue.value < |s.next|
       case Release(t) => s.threads[t].Handling? && s.threads[t].packet < |s.next|
       case Check(t) => s.threads[t].Releasing? && s.threads[t].packet < |s.next|
  }

  /** One lock section, or the unlocked look at the queue state that ends a release. */
  function Do(s: State, act: Action): (r: State)
    requires Sized(s) && Enabled(s, act)
    ensures Sized(r)
  {
    match act
    case Get(t, d) =>
      var p := s.devices[d].ppool.value;
      var device := s.devices[d].(ppool := s.next[p], stopped := s.next[p].None?);
      s.(devices := s.devices[d := device], threads := s.threads[t := Sending(d, p)])
    case Enqueue(t, payload) =>
      var p, dest := s.threads[t].packet, 1 - s.threads[t].dev;
      s.(data := s.data[p := payload],
         next := s.next[p := s.devices[dest].rxQueue],
         devices := s.devices[dest := s.devices[dest].(rxQueue := Some(p))],
         threads := s.threads[t := Idle],
         sent := s.sent + multiset{Message(dest, payload)})
    case Dequeue(t, d) =>
      var p := s.devices[d].rxQueue.value;
      s.(devices := s.devices[d := s.devices[d].(rxQueue := s.next[p])],
         threads := s.threads[t := Handling(p)],
         received := s.received + multiset{Message(d, s.data[p])})
    case Release(t) =>
      var p := s.threads[t].packet;
      var d := s.owner[p];
      s.(next := s.next[p := s.devices[d].ppool],
         devices := s.devices[d := s.devices[d].(ppool := Some(p))],
         threads := s.threads[t := Releasing(p)])
    case Check(t) =>
      var p := s.threads[t].packet;
      var d := s.owner[p];
      var woken := s.devices[d].stopped && s.next[p].None?;
      s.(devices := if woken then s.devices[d := s.devices[d].(stopped := false)] else s.devices,
         threads := s.threads[t := Idle])
  }

  // Where every packet is

  datatype Place = InPool(dev: nat) | InQueue(dev: nat) | Held(thread: nat)

  /** The lists behind the head pointers, and the one place of each packet. */
  datatype Lists = Lists(pools: seq<seq<Packet>>, queues: seq<seq<Packet>>, place: seq<Place>)

  predicate Chain(next: seq<Option<Packet>>, head: Option<Packet>, list: seq<Packet>)
    decreases list
  {
    if list == [] then head.None?
    else head == Some(list[0]) && list[0] < |next| && Chain(next, next[list[0]], list[1..])
  }

  predicate NoRepeats(list: seq<Packet>) {
    list == [] || (list[0] !in list[1..] && NoRepeats(list[1..]))
  }

  /** The list holds exactly the packets of one place, each once. */
  ghost predicate Lies(place: seq<Place>, list: seq<Packet>, at: Place) {
    && NoRepeats(list)
    && forall p: Packet :: p in list <==> p < |place| && place[p] == at
  }

  function Carried(t: Thread): Option<Packet> {
    if t.Sending? then Some(t.packet) else if t.Handling? then Some(t.packet) else None
  }

  predicate Holds(threads: seq<Thread>, place: seq<Place>) {
    && (forall t :: 0 <= t < |threads| && Carried(threads[t]).Some? ==>
         Carried(threads[t]).value < |place| && place[Carried(threads[t]).value] == Held(t))
    && (forall p :: 0 <= p < |place| && place[p].Held? ==>
         place[p].thread < |threads| && Carried(threads[place[p].thread]) == Some(p))
    && (forall t :: 0 <= t < |threads| && threads[t].Releasing? ==> threads[t].packet < |place|)
    && (forall t :: 0 <= t < |threads| && threads[t].Sending? ==> threads[t].dev < 2)
  }

  ghost predicate DeviceInv(s: State, a: Lists, d: nat)
    requires Sized(s) && |a.pools| == |a.queues| == 2 && d < 2
  {
    && Chain(s.next, s.devices[d].ppool, a.pools[d]) && Lies(a.place, a.pools[d], InPool(d))
    && Chain(s.next, s.devices[d].rxQueue, a.queues[d]) && Lies(a.place, a.queues[d], InQueue(d))
  }

  /** Every packet is in exactly one place: its own device's pool, a receive queue or one thread's hand. */
  ghost predicate Inv(s: State, a: Lists) {
    && Sized(s) && |a.pools| == |a.queues| == 2 && |a.place| == |s.next|
    && DeviceInv(s, a, 0) && DeviceInv(s, a, 1)
    && Holds(s.threads, a.place) && AtHome(s.owner, a.place)
  }

  predicate AtHome(owner: seq<nat>, place: seq<Place>) {
    && |owner| == |place|
    && (forall p :: 0 <= p < |place| && place[p].InPool? ==> place[p].dev == owner[p])
    && (forall p :: 0 <= p < |place| && place[p].InQueue? ==> place[p].dev < 2)
  }

  ghost function Track(s: State, a: Lists, act: Action): Lists
    requires Inv(s, a) && Enabled(s, act)
  {
    match act
    case Get(t, d) =>
      Lists(a.pools[d := a.pools[d][1..]], a.queues, a.place[s.devices[d].ppool.value := Held(t)])
    case Enqueue(t, _) =>
      var p, dest := s.threads[t].packet, 1 - s.threads[t].dev;
      Lists(a.pools, a.queues[dest := [p] + a.queues[dest]], a.place[p := InQueue(dest)])
    case Dequeue(t, d) =>
      Lists(a.pools, a.queues[d := a.queues[d][1..]], a.place[s.devices[d].rxQueue.value := Held(t)])
    case Release(t) =>
      var p := s.threads[t].packet;
      var d := s.owner[p];
      Lists(a.pools[d := [p] + a.pools[d]], a.queues, a.place[p := InPool(d)])
    case Check(_) => a
  }

  // List surgery

  lemma {:induction false} ChainElsewhere(next: seq<Option<Packet>>, head: Option<Packet>, list: seq<Packet>, p: Packet,
                                          n: Option<Packet>)
    requires Chain(next, head, list) && p < |next| && p !in list
    ensures Chain(next[p := n], head, list)
    decreases list
  {
    if list != [] { ChainElsewhere(next, next[list[0]], list[1..], p, n); }
  }

  lemma PushKeeps(next: seq<Option<Packet>>, place: seq<Place>, head: Option<Packet>, list: seq<Packet>, p: Packet,
                  at: Place)
    requires Chain(next, head, list) && Lies(place, list, at)
    requires p < |next| == |place| && place[p] != at
    ensures Chain(next[p := head], Some(p), [p] + list) && Lies(place[p := at], [p] + list, at)
  {
    ChainElsewhere(next, head, list, p, head);
    assert ([p] + list)[1..] == list;
  }

  lemma PopKeeps(next: seq<Option<Packet>>, place: seq<Place>, head: Option<Packet>, list: seq<Packet>, at: Place,
                 to: Place)
    requires head.Some? && Chain(next, head, list) && Lies(place, list, at) && to != at
    ensures list != [] && head.value == list[0] && list[0] < |next| && list[0] < |place| && place[list[0]] == at
    ensures Chain(next, next[list[0]], list[1..]) && Lies(place[list[0] := to], list[1..], at)
  {
    assert list[0] in list;
    assert forall p :: p in list <==> p == list[0] || p in list[1..];
  }

  /** A list whose packets stay where they are does not notice changes elsewhere. */
  lemma OthersKeep(next: seq<Option<Packet>>, place: seq<Place>, head: Option<Packet>, list: seq<Packet>, at: Place,
                   p: Packet, n: Option<Packet>, to: Place)
    requires Chain(next, head, list) && Lies(place, list, at)
    requires p < |next| == |place| && place[p] != at && to != at
    ensures Chain(next[p := n], head, list) && Lies(place[p := to], list, at)
  {
    ChainElsewhere(next, head, list, p, n);
  }

  // Every step keeps every packet in one place

  /** Moving p from its place to another leaves the lists of the two other kinds alone. */
  lemma OtherLists(s: State, a: Lists, d: nat, p: Packet, n: Option<Packet>, to: Place)
    requires Inv(s, a) && d < 2 && p < |s.next|
    ensures a.place[p] != InPool(d) && to != InPool(d) ==>
      Chain(s.next[p := n], s.devices[d].ppool, a.pools[d]) && Lies(a.place[p := to], a.pools[d], InPool(d))
    ensures a.place[p] != InQueue(d) && to != InQueue(d) ==>
      Chain(s.next[p := n], s.devices[d].rxQueue, a.queues[d]) && Lies(a.place[p := to], a.queues[d], InQueue(d))
  {
    if a.place[p] != InPool(d) && to != InPool(d) {
      OthersKeep(s.next, a.place, s.devices[d].ppool, a.pools[d], InPool(d), p, n, to);
    }
    if a.place[p] != InQueue(d) && to != InQueue(d) {
      OthersKeep(s.next, a.place, s.devices[d].rxQueue, a.queues[d], InQueue(d), p, n, to);
    }
  }

  /** A thread takes p in hand or lets go of it. */
  lemma HandOver(s: State, a: Lists, t: nat, now: Thread, p: Packet, to: Place)
    requires Inv(s, a) && t < |s.threads| && p < |s.next|
    requires Carried(s.threads[t]) == if a.place[p].Held? then Some(p) else None
    requires a.place[p].Held? ==> a.place[p] == Held(t)
    requires if to.Held? then to == Held(t) && Carried(now) == Some(p) else Carried(now).None?
    requires (now.Releasing? ==> now.packet == p) && (now.Sending? ==> now.dev < 2)
    ensures Holds(s.threads[t := now], a.place[p := to])
  {
  }

  lemma GetKeeps(s: State, a: Lists, t: nat, d: nat)
    requires Inv(s, a) && Enabled(s, Get(t, d))
    ensures a.pools[d] != [] && Inv(Do(s, Get(t, d)), Track(s, a, Get(t, d)))
  {
    var p := s.devices[d].ppool.value;
    PopKeeps(s.next, a.place, s.devices[d].ppool, a.pools[d], InPool(d), Held(t));
    HandOver(s, a, t, Sending(d, p), p, Held(t));
    assert s.next[p := s.next[p]] == s.next;
    OtherLists(s, a, 0, p, s.next[p], Held(t));
    OtherLists(s, a, 1, p, s.next[p], Held(t));
  }

  lemma EnqueueKeeps(s: State, a: Lists, t: nat, payload: seq<int>)
    requires Inv(s, a) && Enabled(s, Enqueue(t, payload))
    ensures Inv(Do(s, Enqueue(t, payload)), Track(s, a, Enqueue(t, payload)))
  {
    var p, dest := s.threads[t].packet, 1 - s.threads[t].dev;
    var head := s.devices[dest].rxQueue;
    PushKeeps(s.next, a.place, head, a.queues[dest], p, InQueue(dest));
    HandOver(s, a, t, Idle, p, InQueue(dest));
    OtherLists(s, a, 0, p, head, InQueue(dest));
    OtherLists(s, a, 1, p, head, InQueue(dest));
  }

  lemma DequeueKeeps(s: State, a: Lists, t: nat, d: nat)
    requires Inv(s, a) && Enabled(s, Dequeue(t, d))
    ensures a.queues[d] != [] && Inv(Do(s, Dequeue(t, d)), Track(s, a, Dequeue(t, d)))
  {
    var p := s.devices[d].rxQueue.value;
    PopKeeps(s.next, a.place, s.devices[d].rxQueue, a.queues[d], InQueue(d), Held(t));
    HandOver(s, a, t, Handling(p), p, Held(t));
    assert s.next[p := s.next[p]] == s.next;
    OtherLists(s, a, 0, p, s.next[p], Held(t));
    OtherLists(s, a, 1, p, s.next[p], Held(t));
  }

  lemma ReleaseKeeps(s: State, a: Lists, t: nat)
    requires Inv(s, a) && Enabled(s, Release(t))
    ensures Inv(Do(s, Release(t)), Track(s, a, Release(t)))
  {
    var p := s.threads[t].packet;
    var d := s.owner[p];
    var head := s.devices[d].ppool;
    PushKeeps(s.next, a.place, head, a.pools[d], p, InPool(d));
    HandOver(s, a, t, Releasing(p), p, InPool(d));
    OtherLists(s, a, 0, p, head, InPool(d));
    OtherLists(s, a, 1, p, head, InPool(d));
  }

  lemma StepKeepsInv(s: State, a: Lists, act: Action)
    requires Inv(s, a) && Enabled(s, act)
    ensures Inv(Do(s, act), Track(s, a, act))
  {
    match act {
      case Get(t, d) => GetKeeps(s, a, t, d);
      case Enqueue(t, payload) => EnqueueKeeps(s, a, t, payload);
      case Dequeue(t, d) => DequeueKeeps(s, a, t, d);
      case Release(t) => ReleaseKeeps(s, a, t);
      case Check(t) =>
    }
  }
}
