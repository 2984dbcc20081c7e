/** The buffered reader of Compiler/csapp.c (rio_read, rio_readnb, rio_readlineb): however the
    underlying read() cuts the stream into pieces and wherever it is interrupted, ends or fails,
    what the calls return depends on the bytes, ends and errors alone. */
module RobustIo {
  import opened Wrappers
  import opened Words

  const RIO_BUFSIZE: nat := 8192
  const NEWLINE: byte := 10

  /** What one read() on the descriptor does: deliver bytes (none of them at end of file),
      be interrupted by a signal, or fail. */
  datatype Event = Chunk(bytes: seq<byte>) | Interrupted | Failed

  /** What a caller can tell apart: neither the size of the chunks nor the interruptions. */
  datatype Item = Byte(b: byte) | Eof | Error

  function Items(bytes: seq<byte>): (r: seq<Item>)
    ensures |r| == |bytes| && forall i :: 0 <= i < |r| ==> r[i] == Byte(bytes[i])
  {
    seq(|bytes|, i requires 0 <= i < |bytes| => Byte(bytes[i]))
  }

  function ItemsOf(e: Event): seq<Item> {
    match e
    case Chunk(bytes) => if bytes == [] then [Eof] else Items(bytes)
    case Interrupted => []
    case Failed => [Error]
  }

  /** What the descriptor still has to deliver; behind the last item it is at end of file. */
  function Stream(script: seq<Event>): seq<Item> {
    if script == [] then [] else ItemsOf(script[0]) + Stream(script[1..])
  }

  function Head(items: seq<Item>): Item {
    if items == [] then Eof else items[0]
  }

  function Rest(items: seq<Item>): seq<Item> {
    if items == [] then [] else items[1..]
  }

  lemma ItemsConcat(a: seq<byte>, b: seq<byte>)
    ensures Items(a + b) == Items(a) + Items(b)
  {
  }

  /** The rest of a chunk that is too large stays where it was. */
  lemma ChunkInTwo(b: seq<byte>, size: nat, rest: seq<Event>)
    requires 0 < size < |b|
    ensures Items(b) + Stream(rest) == Items(b[..size]) + Stream([Chunk(b[size..])] + rest)
  {
    assert b == b[..size] + b[size..];
    ItemsConcat(b[..size], b[size..]);
    StreamOfFirst(Chunk(b[size..]), rest);
    JoinInTwo(Items(b[..size]), Items(b[size..]), Stream(rest));
  }

  lemma StreamOfFirst(e: Event, rest: seq<Event>)
    ensures Stream([e] + rest) == ItemsOf(e) + Stream(rest)
  {
    assert ([e] + rest)[1..] == rest;
  }

  lemma JoinInTwo(a: seq<Item>, b: seq<Item>, c: seq<Item>)
    ensures (a + b) + c == a + (b + c)
  {
  }

  lemma NothingInFront(items: seq<Item>)
    ensures Items([]) + items == items
  {
  }

  /** The descriptor. */
  class Descriptor {
    var script: seq<Event>

    constructor (script: seq<Event>)
      ensures this.script == script
    {
      this.script := script;
    }

    /** read(): -1 with or without EINTR, 0 at end of file, or the number of bytes delivered. */
    method Read(size: nat) returns (n: int, eintr: bool, bytes: seq<byte>)
      requires size > 0
      modifies this
      ensures n == (if eintr || Head(Stream(old(script))) == Error then -1 else |bytes|) && |bytes| <= size
      ensures n > 0 ==> Stream(old(script)) == Items(bytes) + Stream(script)
      ensures n <= 0 ==>
        bytes == [] && Stream(script) == if eintr then Stream(old(script)) else Rest(Stream(old(script)))
      ensures n == 0 ==> Head(Stream(old(script))) == Eof
      ensures eintr ==> n == -1 && |script| < |old(script)|
    {
      n, eintr, bytes := 0, false, [];
      if script == [] {
        return;
      }
      var e := script[0];
      match e
      case Interrupted => n, eintr, script := -1, true, script[1..];
      case Failed => n, script := -1, script[1..];
      case Chunk(b) =>
        if |b| <= size {
          bytes, script := b, script[1..];
        } else {
          ChunkInTwo(b, size, script[1..]);
          bytes, script := b[..size], [Chunk(b[size..])] + script[1..];
        }
        n := |bytes|;
    }
  }

  class Rio {
    const fd: Descriptor
    var cnt: int          // unread bytes in buf; not positive when it must be refilled
    var ptr: nat          // the next unread byte
    var buf: array<byte>

    ghost predicate Valid()
      reads this, buf
    {
      buf.Length == RIO_BUFSIZE && (cnt > 0 ==> ptr + cnt <= buf.Length)
    }

    ghost function Unread(): seq<byte>
      reads this, buf
      requires Valid()
    {
      if cnt > 0 then buf[ptr..ptr + cnt] else []
    }

    /** Everything a caller has not yet seen. */
    ghost function Pending(): seq<Item>
      reads this, buf, fd
      requires Valid()
    {
      Items(Unread()) + Stream(fd.script)
    }

    /** rio_readinitb. */
    constructor (fd: Descriptor)
      ensures Valid() && fresh(buf) && this.fd == fd && Pending() == Stream(fd.script)
    {
      this.fd := fd;
      cnt, ptr := 0, 0;
      buf := new byte[RIO_BUFSIZE];
    }

    /** The refill loop of rio_read: 1 if there are unread bytes, 0 at end of file, -1 on error. */
    method Refill() returns (r: int)
      requires Valid()
      modifies this`cnt, this`ptr, buf, fd
      ensures Valid() && r in {-1, 0, 1} && (r == 1 <==> cnt > 0)
      ensures r == 1 ==> Pending() == old(Pending())
      ensures r <= 0 ==> Pending() == Rest(old(Pending())) && Head(old(Pending())) == if r == 0 then Eof else Error
    {
      while cnt <= 0
        invariant Valid() && Pending() == old(Pending())
        decreases if cnt <= 0 then |fd.script| + 1 else 0
      {
        NothingInFront(Stream(fd.script));
        var eintr, bytes;
        cnt, eintr, bytes := fd.Read(RIO_BUFSIZE);
        NothingInFront(Stream(fd.script));
        if cnt < 0 {
          if !eintr {
            return -1;
          }
        } else if cnt == 0 {
          return 0;
        } else {
          Deliver(bytes);
          ptr := 0;
        }
      }
      r := 1;
    }

    /** What read() stores at the front of the buffer. */
    method Deliver(bytes: seq<byte>)
      requires |bytes| <= buf.Length
      modifies buf
      ensures buf[..|bytes|] == bytes
    {
      forall i | 0 <= i < |bytes| {
        buf[i] := bytes[i];
      }
    }

    /** The copy of rio_read out of the buffer. */
    method Consume(k: nat) returns (bytes: seq<byte>)
      requires Valid() && 0 < k <= cnt
      modifies this`cnt, this`ptr
      ensures Valid() && |bytes| == k && old(Pending()) == Items(bytes) + Pending()
    {
      ghost var unread := Unread();
      bytes := buf[ptr..ptr + k];
      ptr := ptr + k;
      cnt := cnt - k;
      assert unread == bytes + Unread();
      ItemsConcat(bytes, Unread());
    }

    /** rio_read: the next min(n, unread) bytes, after a refill if there are none. */
    method Read(n: nat) returns (r: int, bytes: seq<byte>)
      requires Valid() && n > 0
      modifies this`cnt, this`ptr, buf, fd
      ensures Valid() && -1 <= r <= n && (r > 0 ==> r == |bytes|)
      ensures r > 0 ==> old(Pending()) == Items(bytes) + Pending()
      ensures r <= 0 ==> bytes == [] && Pending() == Rest(old(Pending()))
      ensures r <= 0 ==> Head(old(Pending())) == if r == 0 then Eof else Error
    {
      bytes := [];
      r := Refill();
      if r <= 0 {
        return;
      }
      var k := if cnt < n then cnt else n;
      bytes := Consume(k);
      r := k;
    }

    /** rio_readnb: n bytes, fewer at an end of file; -1 on error, with what was read before it lost. */
    method ReadN(n: nat) returns (r: int, bytes: seq<byte>)
      requires Valid()
      modifies this`cnt, this`ptr, buf, fd
      ensures Valid() && (r == -1 || r == |bytes|)
      ensures (Result(r, bytes), Pending()) == TakeN(old(Pending()), n)
    {
      bytes := [];
      var nleft := n;
      ghost var all, rest := TakeN(Pending(), n), Pending();
      BehindNothing([], all);
      while nleft > 0
        invariant Valid() && nleft >= 0 && nleft + |bytes| == n && rest == Pending()
        invariant all == Behind(bytes, TakeN(rest, nleft))
      {
        var nread, more := Read(nleft);
        if nread <= 0 {
          NMark(bytes, rest, nleft);
          return if nread < 0 then -1 else n - nleft, bytes;
        }
        NMore(bytes, rest, more, Pending(), nleft);
        bytes, rest := bytes + more, Pending();
        nleft := nleft - nread;
      }
      BehindNothing(bytes, (None, rest));
      r := n - nleft;
    }

    /** rio_readlineb; `terminated` says whether a 0 was stored behind the line, which with a maxlen
        of 0 is behind the buffer.  On error, -1, what was read is lost. */
    method ReadLine(maxlen: nat) returns (r: int, bytes: seq<byte>, terminated: bool)
      requires Valid()
      modifies this`cnt, this`ptr, buf, fd
      ensures Valid() && (r == -1 || r == |bytes|)
      ensures (Result(r, bytes), Pending()) == TakeLine(old(Pending()), Room(maxlen))
      ensures ReadsLine(old(Pending()), maxlen, Result(r, bytes), Pending())
      ensures terminated <==> r >= 0 && (bytes != [] || maxlen <= 1)
    {
      LineIsRead(Pending(), maxlen);
      bytes := [];
      var n := 1;
      ghost var all, rest, room := TakeLine(Pending(), Room(maxlen)), Pending(), Room(maxlen);
      BehindNothing([], all);
      while n < maxlen
        invariant |bytes| == n - 1 && room >= 0 && room + n == (if maxlen == 0 then 1 else maxlen)
        invariant Valid() && rest == Pending() && all == Behind(bytes, TakeLine(rest, room))
      {
        var rc, c := Read(1);
        if rc != 1 {
          LineMark(bytes, rest, room);
          return if rc == 0 then n - 1 else -1, bytes, rc == 0 && n != 1;
        }
        LineMore(bytes, rest, c, Pending(), room);
        bytes, rest, room := bytes + c, Pending(), room - 1;
        n := n + 1;
        if c[0] == NEWLINE {
          return n - 1, bytes, true;
        }
      }
      BehindNothing(bytes, (None, rest));
      terminated := true;
      r := n - 1;
    }
  }

  /** What a call with this return value hands to its caller. */
  function Result(r: int, bytes: seq<byte>): Option<seq<byte>> {
    if r == -1 then None else Some(bytes)
  }

  // --------------------------------------------- what the calls take off a stream

  /** Bytes in front of a result, lost with it on error. */
  function Behind(front: seq<byte>, r: (Option<seq<byte>>, seq<Item>)): (Option<seq<byte>>, seq<Item>) {
    (if r.0.Some? then Some(front + r.0.value) else None, r.1)
  }

  lemma BehindBoth(a: seq<byte>, b: seq<byte>, r: (Option<seq<byte>>, seq<Item>))
    ensures Behind(a, Behind(b, r)) == Behind(a + b, r)
  {
    if r.0.Some? { assert a + (b + r.0.value) == (a + b) + r.0.value; }
  }

  lemma BehindNothing(front: seq<byte>, r: (Option<seq<byte>>, seq<Item>))
    ensures Behind([], r) == r && Behind(front, (Some([]), r.1)) == (Some(front), r.1)
  {
    if r.0.Some? { assert [] + r.0.value == r.0.value; }
    assert front + [] == front;
  }

  /** n bytes, or what is there before an end, which is used up; None up to and with an error. */
  function TakeN(items: seq<Item>, n: nat): (Option<seq<byte>>, seq<Item>) {
    if n == 0 then (Some([]), items)
    else match Head(items)
      case Eof => (Some([]), Rest(items))
      case Error => (None, Rest(items))
      case Byte(b) => Behind([b], TakeN(items[1..], n - 1))
  }

  /** The same up to and with a newline, and for no more than room bytes. */
  function TakeLine(items: seq<Item>, room: nat): (Option<seq<byte>>, seq<Item>) {
    if room == 0 then (Some([]), items)
    else match Head(items)
      case Eof => (Some([]), Rest(items))
      case Error => (None, Rest(items))
      case Byte(b) => if b == NEWLINE then (Some([b]), items[1..]) else Behind([b], TakeLine(items[1..], room - 1))
  }

  lemma {:induction false} TakeNInParts(items: seq<Item>, more: seq<byte>, left: seq<Item>, n: nat)
    requires items == Items(more) + left && |more| <= n
    ensures TakeN(items, n) == Behind(more, TakeN(left, n - |more|))
    decreases |more|
  {
    if more == [] {
      assert items == left;
      BehindNothing([], TakeN(left, n));
    } else {
      assert items[1..] == Items(more[1..]) + left;
      TakeNInParts(items[1..], more[1..], left, n - 1);
      BehindBoth([more[0]], more[1..], TakeN(left, n - |more|));
      assert [more[0]] + more[1..] == more;
    }
  }

  /** A chunk of bytes arrived on the way to n. */
  lemma NMore(front: seq<byte>, items: seq<Item>, more: seq<byte>, left: seq<Item>, n: nat)
    requires items == Items(more) + left && |more| <= n
    ensures Behind(front, TakeN(items, n)) == Behind(front + more, TakeN(left, n - |more|))
  {
    TakeNInParts(items, more, left, n);
    BehindBoth(front, more, TakeN(left, n - |more|));
  }

  /** An end or an error did. */
  lemma NMark(front: seq<byte>, items: seq<Item>, n: nat)
    requires n > 0 && !Head(items).Byte?
    ensures Behind(front, TakeN(items, n)) == (if Head(items) == Eof then Some(front) else None, Rest(items))
  {
    BehindNothing(front, (None, Rest(items)));
  }

  lemma LineMore(front: seq<byte>, items: seq<Item>, c: seq<byte>, left: seq<Item>, room: nat)
    requires room > 0 && |c| == 1 && items == Items(c) + left
    ensures Behind(front, TakeLine(items, room)) ==
      if c[0] == NEWLINE then (Some(front + c), left) else Behind(front + c, TakeLine(left, room - 1))
  {
    assert items[0] == Byte(c[0]) && items[1..] == left && [c[0]] == c;
    BehindBoth(front, c, TakeLine(left, room - 1));
  }

  lemma LineMark(front: seq<byte>, items: seq<Item>, room: nat)
    requires room > 0 && !Head(items).Byte?
    ensures Behind(front, TakeLine(items, room)) == (if Head(items) == Eof then Some(front) else None, Rest(items))
  {
    BehindNothing(front, (None, Rest(items)));
  }

  /** The room for a line in a buffer of maxlen bytes: one is for the terminating 0. */
  function Room(maxlen: nat): nat {
    if maxlen == 0 then 0 else maxlen - 1
  }

  /** All bytes up to an index. */
  predicate BytesTo(items: seq<Item>, k: nat) {
    k <= |items| && forall i :: 0 <= i < k ==> items[i].Byte?
  }

  /** A call took these bytes off the stream and stopped right behind them, or at an end it used up. */
  ghost predicate Took(items: seq<Item>, bytes: seq<byte>, rest: seq<Item>) {
    && Items(bytes) <= items
    && (rest == items[|bytes|..] || (Head(items[|bytes|..]) == Eof && rest == Rest(items[|bytes|..])))
  }

  /** A call lost everything up to and with an error. */
  ghost predicate Lost(items: seq<Item>, limit: nat, rest: seq<Item>) {
    exists k :: 0 <= k < limit && k < |items| && BytesTo(items, k) && items[k] == Error && rest == items[k + 1..]
  }

  lemma LostOneByteOn(items: seq<Item>, limit: nat, rest: seq<Item>)
    requires items != [] && items[0].Byte? && Lost(items[1..], limit, rest)
    ensures Lost(items, limit + 1, rest)
  {
    var after := items[1..];
    var k :| 0 <= k < limit && k < |after| && BytesTo(after, k) && after[k] == Error && rest == after[k + 1..];
    assert BytesTo(items, k + 1) && items[k + 1] == Error && rest == items[k + 2..];
  }

  lemma TookOneByteOn(items: seq<Item>, bytes: seq<byte>, rest: seq<Item>)
    requires items != [] && items[0].Byte? && Took(items[1..], bytes, rest)
    ensures Took(items, [items[0].b] + bytes, rest) && items[1..][|bytes|..] == items[|bytes| + 1..]
  {
    ItemsConcat([items[0].b], bytes);
    assert items == [items[0]] + items[1..];
  }

  /** What a read of n bytes does. */
  ghost predicate NStops(items: seq<Item>, n: nat, r: Option<seq<byte>>, rest: seq<Item>) {
    match r
    case None => Lost(items, n, rest)
    case Some(bytes) =>
      && Took(items, bytes, rest) && |bytes| <= n
      && if |bytes| == n then rest == items[n..] else Head(items[|bytes|..]) == Eof
  }

  /** A read of n bytes stops at n, at an end before that, or at an error before that. */
  lemma {:induction false} TakeNStops(items: seq<Item>, n: nat)
    ensures NStops(items, n, TakeN(items, n).0, TakeN(items, n).1)
  {
    assert items[0..] == items && Items([]) == [];
    if n > 0 {
      match Head(items)
      case Eof =>
      case Error => assert BytesTo(items, 0);
      case Byte(b) =>
        TakeNStops(items[1..], n - 1);
        NOneByteOn(items, n - 1, TakeN(items[1..], n - 1).0, TakeN(items[1..], n - 1).1);
    }
  }

  lemma NOneByteOn(items: seq<Item>, n: nat, r: Option<seq<byte>>, rest: seq<Item>)
    requires items != [] && items[0].Byte? && NStops(items[1..], n, r, rest)
    ensures NStops(items, n + 1, Behind([items[0].b], (r, rest)).0, rest)
  {
    if r.Some? { TookOneByteOn(items, r.value, rest); } else { LostOneByteOn(items, n, rest); }
  }

  /** What a line read does. */
  ghost predicate LineStops(items: seq<Item>, room: nat, r: Option<seq<byte>>, rest: seq<Item>) {
    match r
    case None => Lost(items, room, rest)
    case Some(line) =>
      && Took(items, line, rest) && IsLine(line, room)
      && (|line| == room || (line != [] && line[|line| - 1] == NEWLINE) || Head(items[|line|..]) == Eof)
  }

  /** A line stops right behind the first newline, when the room is used up, or at an end or error before that. */
  lemma {:induction false} TakeLineStops(items: seq<Item>, room: nat)
    ensures LineStops(items, room, TakeLine(items, room).0, TakeLine(items, room).1)
  {
    assert items[0..] == items && Items([]) == [];
    if room > 0 {
      match Head(items)
      case Eof =>
      case Error => assert BytesTo(items, 0);
      case Byte(b) =>
        if b == NEWLINE {
          assert items == [items[0]] + items[1..];
        } else {
          TakeLineStops(items[1..], room - 1);
          LineOneByteOn(items, room - 1, TakeLine(items[1..], room - 1).0, TakeLine(items[1..], room - 1).1);
        }
    }
  }

  lemma LineOneByteOn(items: seq<Item>, room: nat, r: Option<seq<byte>>, rest: seq<Item>)
    requires items != [] && items[0].Byte? && items[0].b != NEWLINE && LineStops(items[1..], room, r, rest)
    ensures LineStops(items, room + 1, Behind([items[0].b], (r, rest)).0, rest)
  {
    if r.Some? {
      TookOneByteOn(items, r.value, rest);
      LongerLine(items[0].b, r.value, room);
    } else {
      LostOneByteOn(items, room, rest);
    }
  }

  /** The stream begins with k bytes other than 10, the newline. */
  predicate Plain(items: seq<Item>, k: nat) {
    BytesTo(items, k) && forall i :: 0 <= i < k ==> items[i].b != 10
  }

  /** What a line read must return when k bytes other than newlines come first: with a newline next the k bytes and
      the newline, with an end next the k bytes, with an error next none; but no more than maxlen - 1 bytes. */
  ghost predicate LineAt(items: seq<Item>, k: nat, maxlen: nat, r: Option<seq<byte>>, rest: seq<Item>)
    requires k <= |items|
  {
    var line := BytesOf(items[..k]);
    if k + 1 >= maxlen then r == Some(line) && rest == items[k..]
    else match Head(items[k..])
      case Byte(b) => b == 10 ==> r == Some(line + [10]) && rest == items[k + 1..]
      case Eof => r == Some(line) && rest == Rest(items[k..])
      case Error => r == None && rest == Rest(items[k..])
  }

  ghost predicate ReadsLine(items: seq<Item>, maxlen: nat, r: Option<seq<byte>>, rest: seq<Item>) {
    forall k: nat :: Plain(items, k) && (k == 0 || k < maxlen) ==> LineAt(items, k, maxlen, r, rest)
  }

  lemma {:induction false} LineIsAt(items: seq<Item>, k: nat, maxlen: nat)
    requires Plain(items, k) && (k == 0 || k < maxlen)
    ensures LineAt(items, k, maxlen, TakeLine(items, Room(maxlen)).0, TakeLine(items, Room(maxlen)).1)
    decreases k
  {
    if k == 0 {
      assert items[..0] == [] && items[0..] == items;
      assert [] + [NEWLINE] == [NEWLINE];
    } else {
      LineIsAt(items[1..], k - 1, maxlen - 1);
      AtOneByteOn(items, k, maxlen, TakeLine(items[1..], Room(maxlen - 1)).0, TakeLine(items[1..], Room(maxlen - 1)).1);
    }
  }

  lemma AtOneByteOn(items: seq<Item>, k: nat, maxlen: nat, r: Option<seq<byte>>, rest: seq<Item>)
    requires 0 < k < maxlen && Plain(items, k) && LineAt(items[1..], k - 1, maxlen - 1, r, rest)
    ensures LineAt(items, k, maxlen, Behind([items[0].b], (r, rest)).0, rest)
  {
    assert items[..k][1..] == items[1..][..k - 1];
    assert items[1..][k - 1..] == items[k..];
    var line := BytesOf(items[1..][..k - 1]);
    assert BytesOf(items[..k]) == [items[0].b] + line;
    assert ([items[0].b] + line) + [10] == [items[0].b] + (line + [10]);
  }

  /** Whatever comes first in the stream, a line read returns what it must. */
  lemma LineIsRead(items: seq<Item>, maxlen: nat)
    ensures ReadsLine(items, maxlen, TakeLine(items, Room(maxlen)).0, TakeLine(items, Room(maxlen)).1)
  {
    forall k: nat | Plain(items, k) && (k == 0 || k < maxlen)
      ensures LineAt(items, k, maxlen, TakeLine(items, Room(maxlen)).0, TakeLine(items, Room(maxlen)).1)
    {
      LineIsAt(items, k, maxlen);
    }
  }

  predicate IsLine(line: seq<byte>, room: nat) {
    |line| <= room && (line != [] ==> NEWLINE !in line[..|line| - 1])
  }

  lemma LongerLine(b: byte, line: seq<byte>, room: nat)
    requires b != NEWLINE && IsLine(line, room)
    ensures IsLine([b] + line, room + 1)
  {
    if line != [] { assert ([b] + line)[..|line|] == [b] + line[..|line| - 1]; }
  }

  // ------------------------------------------------------------------ sessions

  datatype Call = CallReadN(n: nat) | CallReadLine(maxlen: nat)

  function Answer(items: seq<Item>, call: Call): (Option<seq<byte>>, seq<Item>) {
    match call
    case CallReadN(n) => TakeN(items, n)
    case CallReadLine(maxlen) => TakeLine(items, Room(maxlen))
  }

  /** What a sequence of calls returns, None for an error, as a function of the stream alone. */
  function Answers(items: seq<Item>, calls: seq<Call>): seq<Option<seq<byte>>>
    decreases |calls|
  {
    if calls == [] then [] else
      var (a, rest) := Answer(items, calls[0]);
      [a] + Answers(rest, calls[1..])
  }

  method ServeOne(rp: Rio, call: Call) returns (answer: Option<seq<byte>>)
    requires rp.Valid()
    modifies rp, rp.buf, rp.fd
    ensures rp.Valid() && rp.buf == old(rp.buf)
    ensures (answer, rp.Pending()) == Answer(old(rp.Pending()), call)
  {
    var r, bytes;
    match call {
      case CallReadN(n) =>
        r, bytes := rp.ReadN(n);
      case CallReadLine(maxlen) =>
        var terminated;
        r, bytes, terminated := rp.ReadLine(maxlen);
    }
    answer := Result(r, bytes);
  }

  /** Any mix of calls over any script, errors and ends of file included: the answers depend on the stream
      alone, whatever the size of the chunks read() delivers and wherever it is interrupted. */
  method Serve(script: seq<Event>, calls: seq<Call>) returns (answers: seq<Option<seq<byte>>>)
    ensures answers == Answers(Stream(script), calls)
  {
    var fd := new Descriptor(script);
    var rp := new Rio(fd);
    answers := [];
    ghost var all, rest := Answers(Stream(script), calls), Stream(script);
    for k := 0 to |calls|
      invariant rp.Valid() && fresh(rp) && fresh(rp.buf) && fresh(rp.fd) && rest == rp.Pending()
      invariant all == answers + Answers(rest, calls[k..])
    {
      AnswersStep(all, answers, rest, calls, k);
      var answer := ServeOne(rp, calls[k]);
      answers, rest := answers + [answer], rp.Pending();
    }
  }

  lemma AnswersStep(all: seq<Option<seq<byte>>>, answers: seq<Option<seq<byte>>>, items: seq<Item>, calls: seq<Call>,
                    k: nat)
    requires k < |calls| && all == answers + Answers(items, calls[k..])
    ensures all == (answers + [Answer(items, calls[k]).0]) + Answers(Answer(items, calls[k]).1, calls[k + 1..])
  {
    assert calls[k..][0] == calls[k] && calls[k..][1..] == calls[k + 1..];
  }

  /** The bytes of a stream in order, without its ends and errors. */
  function BytesOf(items: seq<Item>): seq<byte> {
    if items == [] then [] else (if items[0].Byte? then [items[0].b] else []) + BytesOf(items[1..])
  }

  function Joined(answers: seq<Option<seq<byte>>>): seq<byte> {
    if answers == [] then [] else (if answers[0].Some? then answers[0].value else []) + Joined(answers[1..])
  }

  lemma {:induction false} TookBytes(items: seq<Item>, bytes: seq<byte>, rest: seq<Item>)
    requires Took(items, bytes, rest)
    ensures BytesOf(items) == bytes + BytesOf(rest)
    decreases |bytes|
  {
    if bytes == [] {
      assert items[0..] == items;
    } else {
      assert Items(bytes)[0] == items[0] && items[1..][|bytes| - 1..] == items[|bytes|..];
      assert Items(bytes[1..]) <= items[1..];
      TookBytes(items[1..], bytes[1..], rest);
      assert [bytes[0]] + (bytes[1..] + BytesOf(rest)) == bytes + BytesOf(rest);
    }
  }

  /** As long as no call fails, the pieces returned are consecutive from the start of the stream: no byte is lost,
      invented or returned twice, across ends of file too. */
  lemma {:induction false} PiecesAreConsecutive(items: seq<Item>, calls: seq<Call>)
    requires forall a :: a in Answers(items, calls) ==> a.Some?
    ensures Joined(Answers(items, calls)) <= BytesOf(items)
    decreases |calls|
  {
    if calls != [] {
      var a, rest := Answer(items, calls[0]).0, Answer(items, calls[0]).1;
      var later := Answers(rest, calls[1..]);
      assert Answers(items, calls) == [a] + later;
      assert a in Answers(items, calls) && forall x :: x in later ==> x in Answers(items, calls);
      match calls[0] {
        case CallReadN(n) => TakeNStops(items, n);
        case CallReadLine(maxlen) => TakeLineStops(items, Room(maxlen));
      }
      TookBytes(items, a.value, rest);
      PiecesAreConsecutive(rest, calls[1..]);
      assert ([a] + later)[1..] == later;
    }
  }

  /** What an error costs: two bytes that were read before it are not in any answer. */
  lemma ErrorLosesBytes()
    ensures var items := [Byte(1), Byte(2), Error, Byte(3)];
      Answers(items, [CallReadN(3), CallReadN(1)]) == [None, Some([3])]
  {
    var items := [Byte(1), Byte(2), Error, Byte(3)];
    assert items[1..] == [Byte(2), Error, Byte(3)] && items[1..][1..] == [Error, Byte(3)];
    assert items[1..][1..][1..] == [Byte(3)];
    assert TakeN(items[1..][1..], 1) == (None, [Byte(3)]);
    assert TakeN(items, 3) == (None, [Byte(3)]);
    assert [Byte(3)][1..] == [];
    assert TakeN([Byte(3)], 1) == (Some([3]), []) by { assert [3] + [] == [3]; }
    assert [CallReadN(3), CallReadN(1)][1..] == [CallReadN(1)] && [CallReadN(1)][1..] == [];
  }
}
