/** The buffer routines of the snull network driver as methods on the driver's memory, each proved to
    take the steps of the interleaving model. */
module Snull {
  import opened Wrappers
  import opened SnullPackets
  import opened SnullRuns

  /** A receiver's turn: take a packet out of the device's queue, if there is one, and release it
      promptly. */
  function Turn(s: State, t: nat, d: nat): (r: State)
    requires Sized(s)
    ensures Sized(r)
  {
    if Enabled(s, Dequeue(t, d)) then Move(Move(s, Dequeue(t, d)), Release(t)) else s
  }

  function Turns(s: State, t: nat, d: nat, n: nat): (r: State)
    requires Sized(s)
    ensures Sized(r)
  {
    if n == 0 then s else Turn(Turns(s, t, d, n - 1), t, d)
  }

  lemma PromptReleaseKeeps(s: State, a: Lists, t: nat) returns (b: Lists)
    requires Inv(s, a) && Enabled(s, Release(t))
    ensures Inv(Move(s, Release(t)), b) && b.queues == a.queues
    ensures Move(s, Release(t)).threads == s.threads[t := Idle]
  {
    ReleaseKeeps(s, a, t);
    b := Track(s, a, Release(t));
    StepKeepsInv(Do(s, Release(t)), b, Check(t));
  }

  /** A turn leaves one packet less in the queue, every packet in one place and the thread free. */
  lemma TurnKeeps(s: State, a: Lists, t: nat, d: nat) returns (b: Lists)
    requires Inv(s, a) && d < 2 && t < |s.threads| && s.threads[t].Idle?
    ensures Inv(Turn(s, t, d), b) && Turn(s, t, d).threads == s.threads
    ensures s.devices[d].rxQueue.Some? <==> a.queues[d] != []
    ensures b.queues[d] == if a.queues[d] == [] then [] else a.queues[d][1..]
  {
    b := a;
    if s.devices[d].rxQueue.Some? {
      DequeueKeeps(s, a, t, d);
      b := PromptReleaseKeeps(Do(s, Dequeue(t, d)), Track(s, a, Dequeue(t, d)), t);
    }
  }

  /** Where a polling thread stands after n turns. */
  ghost predicate Polled(s: State, a: Lists, t: nat, d: nat, n: nat, now: State, b: Lists) {
    && Inv(s, a) && d < 2 && t < |s.threads| && s.threads[t].Idle?
    && now == Turns(s, t, d, n) && Inv(now, b) && now.threads == s.threads
    && n <= |a.queues[d]| && b.queues[d] == a.queues[d][n..]
    && (now.devices[d].rxQueue.Some? <==> n < |a.queues[d]|)
  }

  lemma NoTurns(s: State, t: nat, d: nat)
    requires Sized(s)
    ensures Turns(s, t, d, 0) == s
  {
  }

  lemma OneMoreTurn(s: State, t: nat, d: nat, n: nat)
    requires Sized(s)
    ensures Turns(s, t, d, n + 1) == Turn(Turns(s, t, d, n), t, d)
  {
  }

  lemma PolledStart(s: State, a: Lists, t: nat, d: nat)
    requires Polls(s, a, t, d)
    ensures Polled(s, a, t, d, 0, Turns(s, t, d, 0), a)
  {
    var rest := TurnKeeps(s, a, t, d);
  }

  lemma PollTurn(s: State, a: Lists, t: nat, d: nat, n: nat, b: Lists) returns (c: Lists)
    requires Sized(s) && Polled(s, a, t, d, n, Turns(s, t, d, n), b) && n < |a.queues[d]|
    ensures Polled(s, a, t, d, n + 1, Turns(s, t, d, n + 1), c)
  {
    var now := Turns(s, t, d, n);
    c := TurnKeeps(now, b, t, d);
    assert a.queues[d][n..][1..] == a.queues[d][n + 1..];
    var rest := TurnKeeps(Turn(now, t, d), c, t, d);
  }

  /** A thread that can poll a device. */
  ghost predicate Polls(s: State, a: Lists, t: nat, d: nat) {
    Inv(s, a) && d < 2 && t < |s.threads| && s.threads[t].Idle?
  }

  /** After n turns every packet is in one place, and the queue has lost its first n. */
  lemma {:induction false} AfterTurns(s: State, a: Lists, t: nat, d: nat, n: nat) returns (b: Lists)
    requires Polls(s, a, t, d) && n <= |a.queues[d]|
    ensures Polled(s, a, t, d, n, Turns(s, t, d, n), b)
  {
    hide Turns;
    if n == 0 {
      b := a;
      PolledStart(s, a, t, d);
    } else {
      b := AfterTurns(s, a, t, d, n - 1);
      b := PollTurn(s, a, t, d, n - 1, b);
    }
  }

  /** Packets are numbered in the order kmalloc hands them out; `next` is their shared link field. */
  class Driver {
    var owner: seq<nat>
    var next: seq<Option<Packet>>
    var data: seq<seq<int>>
    var devices: seq<NetDevice>

    ghost predicate Matches(s: State)
      reads this
    {
      owner == s.owner && next == s.next && data == s.data && devices == s.devices
    }

    /** Both devices as snull_init and snull_open leave them; kmalloc grants the two pools n and m packets
        of the pool size. */
    constructor (poolSize: nat, n: nat, m: nat)
      requires n <= poolSize && m <= poolSize
      ensures forall threads: nat :: Matches(Start(n, m, threads))
    {
      owner, next, data := [], [], [];
      devices := [NetDevice(None, None, false), NetDevice(None, None, false)];
      new;
      SetupPool(0, poolSize, n);
      ghost var first := next;
      SetupPool(1, poolSize, m);
      forall p | 0 <= p < n + m
        ensures next[p] == StartNext(n, m)[p]
      {
        assert StartNext(n, m)[p] == if p == 0 || p == n then None else Some(p - 1);
        assert p < n ==> first[p] == Top(0, p);
        assert next[p] == if p < n then first[p] else Top(n, n + (p - n));
      }
    }

    /** snull_setup_pool: a pool of the packets granted, the last one first, cut short when kmalloc
        fails. */
    method SetupPool(d: nat, poolSize: nat, granted: nat)
      requires |devices| == 2 && d < 2 && granted <= poolSize && |owner| == |next| == |data|
      modifies this
      ensures owner == old(owner) + seq(granted, i => d) && data == old(data) + seq(granted, i => [])
      ensures next == old(next) + seq(granted, i requires 0 <= i < granted => Top(|old(next)|, |old(next)| + i))
      ensures devices == old(devices)[d := old(devices)[d].(ppool := Top(|old(next)|, |old(next)| + granted))]
    {
      ghost var first, before := |next|, devices;
      devices := devices[d := devices[d].(ppool := None)];
      var i := 0;
      while i < poolSize
        invariant 0 <= i <= granted
        invariant owner == old(owner) + seq(i, k => d) && data == old(data) + seq(i, k => [])
        invariant next == old(next) + seq(i, k requires 0 <= k < i => Top(first, first + k))
        invariant devices == before[d := before[d].(ppool := Top(first, first + i))]
      {
        if i == granted { return; }
        var pkt := |next|;
        owner, data := owner + [d], data + [[]];
        next := next + [devices[d].ppool];
        devices := devices[d := devices[d].(ppool := Some(pkt))];
        i := i + 1;
      }
    }

    method GetTxBuffer(d: nat, ghost s: State, ghost t: nat) returns (pkt: Packet)
      requires Matches(s) && Sized(s) && Enabled(s, Get(t, d))
      modifies this
      ensures Matches(Do(s, Get(t, d))) && Do(s, Get(t, d)).threads[t] == Sending(d, pkt)
    {
      pkt := devices[d].ppool.value;
      devices := devices[d := devices[d].(ppool := next[pkt])];
      if devices[d].ppool.None? {
        devices := devices[d := devices[d].(stopped := true)];
      }
    }

    method ReleaseBuffer(pkt: Packet, ghost s: State, ghost t: nat)
      requires Matches(s) && Sized(s) && Enabled(s, Release(t)) && s.threads[t].packet == pkt
      modifies this
      ensures Matches(Move(s, Release(t)))
    {
      var d := owner[pkt];
      next := next[pkt := devices[d].ppool];
      devices := devices[d := devices[d].(ppool := Some(pkt))];
      if devices[d].stopped && next[pkt].None? {
        devices := devices[d := devices[d].(stopped := false)];
      }
    }

    method EnqueueBuf(d: nat, pkt: Packet)
      requires |devices| == 2 && d < 2 && pkt < |next|
      modifies this
      ensures owner == old(owner) && data == old(data)
      ensures next == old(next)[pkt := old(devices)[d].rxQueue]
      ensures devices == old(devices)[d := old(devices)[d].(rxQueue := Some(pkt))]
    {
      next := next[pkt := devices[d].rxQueue];
      devices := devices[d := devices[d].(rxQueue := Some(pkt))];
    }

    method DequeueBuf(d: nat, ghost s: State, ghost t: nat) returns (pkt: Option<Packet>)
      requires Matches(s) && Sized(s) && d < 2 && t < |s.threads| && s.threads[t].Idle?
      requires s.devices[d].rxQueue.Some? ==> s.devices[d].rxQueue.value < |s.next|
      modifies this
      ensures pkt == s.devices[d].rxQueue
      ensures Matches(if pkt.None? then s else Do(s, Dequeue(t, d)))
    {
      pkt := devices[d].rxQueue;
      if pkt.Some? {
        devices := devices[d := devices[d].(rxQueue := next[pkt.value])];
      }
    }

    /** The first packet of device d's pool leads the other device's queue and holds the frame; every other
        packet holds what it held before. */
    ghost predicate Carries(devs: seq<NetDevice>, links: seq<Option<Packet>>, frames: seq<seq<int>>, d: nat,
                            buf: seq<int>)
      reads this
    {
      && |devs| == |devices| == 2 && d < 2 && devs[d].ppool.Some?
      && var p := devs[d].ppool.value;
      && p < |links| == |next| && |frames| == |data| == |links|
      && devices[1 - d].rxQueue == Some(p) && next[p] == devs[1 - d].rxQueue && data[p] == buf
      && devices[d].ppool == links[p] && devices[d].rxQueue == devs[d].rxQueue
      && devices[1 - d].ppool == devs[1 - d].ppool
      && forall q :: 0 <= q < |data| && q != p ==> data[q] == frames[q] && next[q] == links[q]
    }

    /** The buffer part of snull_hw_tx: a packet of the sender's pool carries the frame into the other
        device's receive queue. */
    method HwTx(d: nat, buf: seq<int>, ghost s: State, ghost t: nat)
      requires Matches(s) && Sized(s) && Enabled(s, Get(t, d))
      modifies this
      ensures Enabled(Do(s, Get(t, d)), Enqueue(t, buf))
      ensures Matches(Do(Do(s, Get(t, d)), Enqueue(t, buf)))
      ensures Carries(old(devices), old(next), old(data), d, buf)
    {
      var dest := if d == 0 then 1 else 0;
      var pkt := GetTxBuffer(d, s, t);
      data := data[pkt := buf];
      EnqueueBuf(dest, pkt);
    }

    /** The receive half of snull_regular_interrupt: the frame of one packet goes up, and the packet is released
        outside the lock. */
    method ReceiveInterrupt(d: nat, ghost s: State, ghost t: nat) returns (frame: Option<seq<int>>)
      requires Matches(s) && Sized(s) && d < 2 && t < |s.threads| && s.threads[t].Idle?
      requires s.devices[d].rxQueue.Some? ==> s.devices[d].rxQueue.value < |s.next|
      modifies this
      ensures Matches(Turn(s, t, d)) && data == old(data)
      ensures old(devices)[d].rxQueue.None? ==> frame.None?
      ensures old(devices)[d].rxQueue.Some? ==> frame == Some(old(data)[old(devices)[d].rxQueue.value])
      ensures Turn(s, t, d).received ==
        if frame.None? then s.received else s.received + multiset{Message(d, frame.value)}
    {
      var pkt := DequeueBuf(d, s, t);
      frame := None;
      if pkt.Some? {
        frame := Some(data[pkt.value]);
        ReleaseBuffer(pkt.value, Do(s, Dequeue(t, d)), t);
      }
    }

    /** One turn of the polling loop. */
    method PollOne(d: nat, ghost s: State, ghost a: Lists, ghost t: nat, ghost n: nat) returns (frame: seq<int>)
      requires Polls(s, a, t, d) && n < |a.queues[d]| && Matches(Turns(s, t, d, n))
      modifies this
      ensures Matches(Turns(s, t, d, n + 1)) && data == old(data)
      ensures a.queues[d][n] < |data| && frame == data[a.queues[d][n]]
    {
      hide Turns;
      ghost var b := AfterTurns(s, a, t, d, n);
      OneMoreTurn(s, t, d, n);
      assert devices[d].rxQueue == Some(b.queues[d][0]) && b.queues[d][0] == a.queues[d][n];
      var received := ReceiveInterrupt(d, Turns(s, t, d, n), t);
      frame := received.value;
    }

    /** Whether the device's queue is not empty. */
    method HasPacket(d: nat, ghost s: State, ghost a: Lists, ghost t: nat, ghost n: nat) returns (more: bool)
      requires Polls(s, a, t, d) && n <= |a.queues[d]| && Matches(Turns(s, t, d, n))
      ensures more <==> n < |a.queues[d]|
    {
      ghost var b := AfterTurns(s, a, t, d, n);
      more := devices[d].rxQueue.Some?;
    }

    /** snull_poll: packets are delivered up to the quota, or dropped without counting when there is no
        memory for an skb, and each goes back to its owner's pool. The device asks to be polled again
        exactly while its queue is not empty. */
    method Poll(d: nat, quota: int, skbs: seq<bool>, ghost s: State, ghost a: Lists, ghost t: nat)
      returns (more: bool, npackets: nat, frames: seq<seq<int>>, ghost polled: nat)
      requires Matches(s) && Polls(s, a, t, d) && |skbs| >= |a.queues[d]|
      modifies this
      ensures Matches(Turns(s, t, d, polled)) && Stops(skbs, quota, |a.queues[d]|, polled)
      ensures more <==> polled < |a.queues[d]|
      ensures npackets == Delivered(skbs, polled) && (npackets == 0 || npackets <= quota)
      ensures data == old(data) && polled <= |a.queues[d]| && InData(a.queues[d], |data|)
      ensures frames == Frames(a.queues[d], data, skbs, polled)
    {
      hide Turns;
      npackets, polled, frames := 0, 0, [];
      var turn := 0;
      QueueInData(s, a, d);
      NoTurns(s, t, d);
      more := HasPacket(d, s, a, t, 0);
      while npackets < quota && more
        invariant turn == polled <= |a.queues[d]| && Matches(Turns(s, t, d, polled))
        invariant more <==> polled < |a.queues[d]|
        invariant data == old(data) && frames == Frames(a.queues[d], data, skbs, polled)
        invariant npackets == Delivered(skbs, polled) && Continues(skbs, quota, polled)
        decreases |a.queues[d]| - polled
      {
        var frame := PollOne(d, s, a, t, polled);
        if skbs[turn] {
          npackets, frames := npackets + 1, frames + [frame];
        }
        turn, polled := turn + 1, polled + 1;
        more := HasPacket(d, s, a, t, polled);
      }
      StopsWithinQuota(skbs, quota, |a.queues[d]|, polled);
    }
  }

  function Delivered(skbs: seq<bool>, n: nat): nat
    requires n <= |skbs|
  {
    if n == 0 then 0 else Delivered(skbs, n - 1) + if skbs[n - 1] then 1 else 0
  }

  predicate InData(queue: seq<Packet>, n: nat) {
    forall i :: 0 <= i < |queue| ==> queue[i] < n
  }

  /** What the packets polled first hold, without those dropped. */
  function Frames(queue: seq<Packet>, data: seq<seq<int>>, skbs: seq<bool>, n: nat): seq<seq<int>>
    requires n <= |queue| <= |skbs| && InData(queue, |data|)
  {
    if n == 0 then []
    else Frames(queue, data, skbs, n - 1) + if skbs[n - 1] then [data[queue[n - 1]]] else []
  }

  lemma QueueInData(s: State, a: Lists, d: nat)
    requires Inv(s, a) && d < 2
    ensures InData(a.queues[d], |s.data|)
  {
    forall i | 0 <= i < |a.queues[d]| ensures a.queues[d][i] < |s.data| {
      assert a.queues[d][i] in a.queues[d];
    }
  }

  /** The quota was not used up before the n-th packet was taken. */
  ghost predicate Continues(skbs: seq<bool>, quota: int, n: nat)
    requires n <= |skbs|
  {
    forall k :: 0 <= k < n ==> Delivered(skbs, k) < quota
  }

  /** n is how many packets of a queue are taken: the first point where the quota is used up or the
      queue is empty. */
  ghost predicate Stops(skbs: seq<bool>, quota: int, len: nat, n: nat)
    requires len <= |skbs|
  {
    n <= len && Continues(skbs, quota, n) && (Delivered(skbs, n) >= quota || n == len)
  }

  lemma StopsWithinQuota(skbs: seq<bool>, quota: int, len: nat, n: nat)
    requires len <= |skbs| && Stops(skbs, quota, len, n)
    ensures Delivered(skbs, n) == 0 || Delivered(skbs, n) <= quota
  {
    if n > 0 { assert Delivered(skbs, n - 1) < quota; }
  }

  lemma {:induction false} DeliveredGrows(skbs: seq<bool>, m: nat, n: nat)
    requires m <= n <= |skbs|
    ensures Delivered(skbs, m) <= Delivered(skbs, n) <= Delivered(skbs, m) + (n - m)
  {
    if m < n { DeliveredGrows(skbs, m, n - 1); }
  }

  /** More packets are taken than the quota allows exactly when the queue is longer and one of the first quota
      packets finds no memory: drops are not charged. */
  lemma DropsEvadeQuota(skbs: seq<bool>, quota: int, len: nat, n: nat)
    requires len <= |skbs| && Stops(skbs, quota, len, n)
    ensures n > 0 && n > quota <==> 0 < quota < len && exists k :: 0 <= k < quota && !skbs[k]
  {
    if n > 0 { assert Delivered(skbs, 0) < quota; }
    if 0 < quota <= len {
      DropsAreMissing(skbs, quota);
      if n <= quota {
        DeliveredGrows(skbs, n, quota);
      } else {
        assert Delivered(skbs, quota) < quota;
      }
    }
  }

  lemma {:induction false} DropsAreMissing(skbs: seq<bool>, n: nat)
    requires n <= |skbs|
    ensures Delivered(skbs, n) <= n
    ensures Delivered(skbs, n) < n <==> exists k :: 0 <= k < n && !skbs[k]
  {
    if n > 0 { DropsAreMissing(skbs, n - 1); }
  }
}
