/** The scull pipe (drivers/examples/scull/pipe.c): a ring buffer that refines a FIFO of at most
    buffersize - 1 bytes.  Sleeping is a result (the caller tries again when woken), and the
    buffer size is that of the one open. */
module ScullPipe {
  import opened Arithmetic
  import opened Words

  datatype Outcome = Done(count: nat) | WouldBlock | Fault

  /** What a ring holds between rp and wp. */
  function Held(ring: seq<byte>, rp: nat, wp: nat): seq<byte>
    requires rp < |ring| && wp < |ring|
  {
    if rp <= wp then ring[rp..wp] else ring[rp..] + ring[..wp]
  }

  /** spacefree. */
  function SpaceFree(size: nat, rp: nat, wp: nat): int
    requires rp < size && wp < size
  {
    if rp == wp then size - 1 else (rp + size - wp) % size - 1
  }

  /** Held bytes and free space add up to one less than the buffer, so that a full ring differs from an empty one. */
  lemma SpaceIsConserved(ring: seq<byte>, rp: nat, wp: nat)
    requires rp < |ring| && wp < |ring|
    ensures |Held(ring, rp, wp)| + SpaceFree(|ring|, rp, wp) == |ring| - 1
    ensures SpaceFree(|ring|, rp, wp) >= 0
    ensures |Held(ring, rp, wp)| == 0 <==> rp == wp
  {
    var n := |ring|;
    if rp < wp {
      ModIsUnique(rp + n - wp, n, 0, rp + n - wp);
    } else if rp > wp {
      ModIsUnique(rp + n - wp, n, 1, rp - wp);
    }
  }

  /** How many bytes lie behind rp without a wrap, as scull_p_read computes it. */
  function Readable(size: nat, rp: nat, wp: nat): int {
    if wp > rp then wp - rp else size - rp
  }

  /** How many bytes scull_p_write can store without a wrap. */
  function Writable(size: nat, rp: nat, wp: nat): int {
    if wp >= rp then size - wp else rp - wp - 1
  }

  function Advance(p: nat, n: nat, size: nat): nat {
    if p + n == size then 0 else p + n
  }

  lemma ReadTakesPrefix(ring: seq<byte>, rp: nat, wp: nat, n: nat)
    requires rp < |ring| && wp < |ring| && rp != wp && n <= Readable(|ring|, rp, wp)
    ensures var held := Held(ring, rp, wp);
      && n <= |held| && ring[rp..rp + n] == held[..n]
      && Advance(rp, n, |ring|) < |ring| && Held(ring, Advance(rp, n, |ring|), wp) == held[n..]
  {
  }

  lemma WriteAppends(ring: seq<byte>, ring': seq<byte>, rp: nat, wp: nat, data: seq<byte>)
    requires rp < |ring| == |ring'| && wp < |ring|
    requires |data| + |Held(ring, rp, wp)| < |ring| && |data| <= Writable(|ring|, rp, wp)
    requires ring' == ring[..wp] + data + ring[wp + |data|..]
    ensures Advance(wp, |data|, |ring|) < |ring|
    ensures Held(ring', rp, Advance(wp, |data|, |ring|)) == Held(ring, rp, wp) + data
  {
    var wp' := Advance(wp, |data|, |ring|);
    if rp <= wp {
      if wp + |data| < |ring| {
        assert ring'[rp..wp'] == ring[rp..wp] + data;
      } else {
        assert wp' == 0 && rp > 0;
        assert ring'[rp..] == ring[rp..wp] + data;
      }
    } else {
      assert ring'[rp..] == ring[rp..] && ring'[..wp'] == ring[..wp] + data;
    }
  }

  class Pipe {
    var buffer: array<byte>
    var rp: nat
    var wp: nat

    ghost predicate Valid()
      reads this, buffer
    {
      rp < buffer.Length && wp < buffer.Length
    }

    ghost function Contents(): seq<byte>
      reads this, buffer
      requires Valid()
    {
      Held(buffer[..], rp, wp)
    }

    /** scull_p_open by the first user. */
    constructor (buffersize: nat)
      requires buffersize > 0
      ensures Valid() && fresh(buffer) && buffer.Length == buffersize && Contents() == [] && rp == wp == 0
    {
      buffer := new byte[buffersize];
      rp, wp := 0, 0;
    }

    /** scull_p_read. */
    method Read(count: nat, copies: bool) returns (r: Outcome, bytes: seq<byte>)
      requires Valid()
      modifies this`rp
      ensures Valid()
      ensures |bytes| <= |old(Contents())|
      ensures Contents() == old(Contents())[|bytes|..] && bytes == old(Contents())[..|bytes|]
      ensures r == if old(Contents()) == [] then WouldBlock else if !copies then Fault else Done(|bytes|)
      // as many as were asked for, held, and before the end of the buffer
      ensures r.Done? ==> |bytes| == Min(count, Min(|old(Contents())|, buffer.Length - old(rp)))
      ensures r.Done? && count > 0 ==> bytes != []
      ensures !r.Done? ==> bytes == []
      ensures rp == Advance(old(rp), |bytes|, buffer.Length)
    {
      bytes := [];
      ghost var ring := buffer[..];
      HeldLength(ring, rp, wp);
      if rp == wp {
        return WouldBlock, bytes;
      }
      var n := if wp > rp then (if count < wp - rp then count else wp - rp)
               else if count < buffer.Length - rp then count else buffer.Length - rp;
      if !copies {
        return Fault, bytes;
      }
      ReadTakesPrefix(ring, rp, wp, n);
      bytes := buffer[rp..rp + n];
      rp := Advance(rp, n, buffer.Length);
      r := Done(n);
    }

    /** spacefree. */
    method FreeSpace() returns (free: nat)
      requires Valid()
      ensures free + |Contents()| == buffer.Length - 1 && free == SpaceFree(buffer.Length, rp, wp)
    {
      SpaceIsConserved(buffer[..], rp, wp);
      free := SpaceFree(buffer.Length, rp, wp);
    }

    /** How many bytes a write stores: as many as are free before the wrap. */
    method ToStore(count: nat, free: nat) returns (n: nat)
      requires Valid() && free == buffer.Length - 1 - |Contents()|
      ensures n == Min(count, Min(free, buffer.Length - wp)) && n <= Writable(buffer.Length, rp, wp)
    {
      HeldLength(buffer[..], rp, wp);
      n := if count < free then count else free;
      if wp >= rp {
        n := if n < buffer.Length - wp then n else buffer.Length - wp;
      } else {
        n := if n < rp - wp - 1 then n else rp - wp - 1;
      }
    }

    /** scull_p_write. */
    method Write(buf: seq<byte>, copies: bool) returns (r: Outcome)
      requires Valid()
      modifies this`wp, buffer
      ensures Valid() && |Contents()| < buffer.Length
      ensures r.WouldBlock? <==> |old(Contents())| == buffer.Length - 1
      ensures r.Done? ==> copies
      ensures r.Fault? ==> !copies
      // as many as were given, fit the free space, and fit before the end of the buffer
      ensures r.Done? ==>
        r.count == Min(|buf|, Min(buffer.Length - 1 - |old(Contents())|, buffer.Length - old(wp)))
      ensures wp == Advance(old(wp), if r.Done? then r.count else 0, buffer.Length)
      ensures r.Done? && buf != [] ==> r.count > 0
      ensures r.Done? ==> Contents() == old(Contents()) + buf[..r.count]
      ensures !r.Done? ==> Contents() == old(Contents())
    {
      ghost var ring := buffer[..];
      var free := FreeSpace();
      HeldLength(ring, rp, wp);
      if free == 0 {
        return WouldBlock;
      }
      var n := ToStore(|buf|, free);
      if !copies {
        return Fault;
      }
      Store(buf[..n]);
      WriteAppends(ring, buffer[..], rp, wp, buf[..n]);
      wp := Advance(wp, n, buffer.Length);
      r := Done(n);
    }

    /** copy_from_user to wp. */
    method Store(data: seq<byte>)
      requires wp + |data| <= buffer.Length
      modifies buffer
      ensures buffer[..] == old(buffer[..wp]) + data + old(buffer[wp + |data|..])
    {
      forall i | 0 <= i < |data| {
        buffer[wp + i] := data[i];
      }
    }

    /** scull_p_poll: readable unless empty, writable unless full. */
    method Poll() returns (readable: bool, writable: bool)
      requires Valid()
      ensures readable <==> Contents() != []
      ensures writable <==> |Contents()| < buffer.Length - 1
    {
      HeldLength(buffer[..], rp, wp);
      readable := rp != wp;
      var free := FreeSpace();
      writable := free != 0;
    }
  }

  lemma HeldLength(ring: seq<byte>, rp: nat, wp: nat)
    requires rp < |ring| && wp < |ring|
    ensures |Held(ring, rp, wp)| == if rp <= wp then wp - rp else |ring| - rp + wp
  {
  }

  datatype Request = DoRead(count: nat, copies: bool) | DoWrite(buf: seq<byte>, copies: bool)

  /** The bytes one request put in and took out. */
  datatype Transfer = Moved(written: seq<byte>, read: seq<byte>)

  /** A request moves bytes one way only: as many as it asks for, as are held or fit, and as lie before the end of
      the buffer from where the last such request stopped. */
  predicate Transfers(req: Request, held: nat, size: nat, rp: nat, wp: nat, t: Transfer)
    requires held < size && rp < size && wp < size
  {
    match req
    case DoRead(count, copies) =>
      t.written == [] && |t.read| == if copies then Min(count, Min(held, size - rp)) else 0
    case DoWrite(buf, copies) =>
      t.read == [] && t.written == buf[..if copies then Min(|buf|, Min(size - 1 - held, size - wp)) else 0]
  }

  method ServeOne(p: Pipe, req: Request) returns (written: seq<byte>, read: seq<byte>)
    requires p.Valid()
    modifies p, p.buffer
    ensures p.Valid() && p.buffer == old(p.buffer)
    ensures |old(p.Contents())| < p.buffer.Length
    ensures read + p.Contents() == old(p.Contents()) + written
    ensures Transfers(req, |old(p.Contents())|, p.buffer.Length, old(p.rp), old(p.wp), Moved(written, read))
    ensures p.rp == Advance(old(p.rp), |read|, p.buffer.Length)
    ensures p.wp == Advance(old(p.wp), |written|, p.buffer.Length)
  {
    written, read := [], [];
    ghost var held := p.Contents();
    HeldLength(p.buffer[..], p.rp, p.wp);
    match req
    case DoRead(count, copies) =>
      var r;
      r, read := p.Read(count, copies);
      Rejoin(held, read, p.Contents());
    case DoWrite(buf, copies) =>
      written := ServeWrite(p, buf, copies);
      Rejoin(p.Contents(), [], held + written);
  }

  lemma Rejoin(all: seq<byte>, front: seq<byte>, back: seq<byte>)
    requires |front| <= |all| && front == all[..|front|] && back == all[|front|..]
    ensures front + back == all && all + [] == all
  {
  }

  method ServeWrite(p: Pipe, buf: seq<byte>, copies: bool) returns (written: seq<byte>)
    requires p.Valid()
    modifies p`wp, p.buffer
    ensures p.Valid() && p.Contents() == old(p.Contents()) + written && |old(p.Contents())| < p.buffer.Length
    ensures written == buf[..if copies
      then Min(|buf|, Min(p.buffer.Length - 1 - |old(p.Contents())|, p.buffer.Length - old(p.wp))) else 0]
    ensures p.wp == Advance(old(p.wp), |written|, p.buffer.Length)
    ensures p.buffer == old(p.buffer)
  {
    var r := p.Write(buf, copies);
    written := if r.Done? then buf[..r.count] else [];
  }

  /** Over any sequence of reads and writes on a fresh pipe the bytes read are a prefix of the
      bytes written, and no more than buffersize - 1 are ever in between; how many each request moves
      follows from what was read and written before. */
  method Serve(buffersize: nat, reqs: seq<Request>) returns (log: seq<Transfer>)
    requires buffersize > 0
    ensures Serves(reqs, log, buffersize)
  {
    hide Serving;
    var p := new Pipe(buffersize);
    log := [];
    NothingServed(reqs, buffersize);
    for k := 0 to |reqs|
      invariant p.Valid() && p.buffer.Length == buffersize && fresh(p) && fresh(p.buffer)
      invariant Serving(reqs, k, log, buffersize, p.rp, p.wp, p.Contents())
    {
      ghost var rp, wp, held := p.rp, p.wp, p.Contents();
      var w, r := ServeOne(p, reqs[k]);
      HeldLength(p.buffer[..], p.rp, p.wp);
      ServesOneMore(reqs, k, log, buffersize, rp, wp, held, Moved(w, r), p.rp, p.wp, p.Contents());
      log := log + [Moved(w, r)];
    }
    AllServed(reqs, log, buffersize, p.rp, p.wp, p.Contents());
  }

  function Written(log: seq<Transfer>): seq<byte> {
    if log == [] then [] else Written(log[..|log| - 1]) + log[|log| - 1].written
  }

  function Read(log: seq<Transfer>): seq<byte> {
    if log == [] then [] else Read(log[..|log| - 1]) + log[|log| - 1].read
  }

  /** How many bytes have been written and not yet read. */
  function Between(log: seq<Transfer>): int {
    |Written(log)| - |Read(log)|
  }

  /** What is read is a prefix of what is written, with less than the buffer's size in between. */
  ghost predicate Within(log: seq<Transfer>, size: nat) {
    Read(log) <= Written(log) && 0 <= Between(log) < size
  }

  /** The log answers the requests one by one, and is within the buffer after each. */
  ghost predicate Serves(reqs: seq<Request>, log: seq<Transfer>, size: nat)
    decreases |reqs|
  {
    && |log| == |reqs| && Within(log, size)
    && (log != [] ==>
      var n := |log| - 1;
      && Serves(reqs[..n], log[..n], size)
      && Transfers(reqs[n], Between(log[..n]), size, |Read(log[..n])| % size, |Written(log[..n])| % size, log[n]))
  }

  lemma Advances(total: nat, n: nat, size: nat)
    requires size > 0 && total % size + n <= size
    ensures Advance(total % size, n, size) == (total + n) % size
  {
    var q := total / size;
    assert total == size * q + total % size;
    if total % size + n == size {
      assert total + n == size * (q + 1) + 0 by { assert size * (q + 1) == size * q + size; }
      ModIsUnique(total + n, size, q + 1, 0);
    } else {
      ModIsUnique(total + n, size, q, total % size + n);
    }
  }

  lemma Carry(written: seq<byte>, read: seq<byte>, held: seq<byte>, held': seq<byte>, w: seq<byte>, r: seq<byte>)
    requires written == read + held && r + held' == held + w
    ensures written + w == (read + r) + held'
  {
    assert written + w == read + (held + w) == read + (r + held');
  }

  /** After k requests: what the log says of the pipe. */
  ghost predicate Serving(reqs: seq<Request>, k: nat, log: seq<Transfer>, size: nat, rp: nat, wp: nat,
                          held: seq<byte>)
  {
    && size > 0 && k <= |reqs| && Serves(reqs[..k], log, size)
    && Written(log) == Read(log) + held && |held| < size
    && rp == |Read(log)| % size && wp == |Written(log)| % size
  }

  lemma NothingServed(reqs: seq<Request>, size: nat)
    requires size > 0
    ensures Serving(reqs, 0, [], size, 0, 0, [])
  {
  }

  lemma AllServed(reqs: seq<Request>, log: seq<Transfer>, size: nat, rp: nat, wp: nat, held: seq<byte>)
    requires Serving(reqs, |reqs|, log, size, rp, wp, held)
    ensures Serves(reqs, log, size)
  {
    assert reqs[..|reqs|] == reqs;
  }

  lemma LogOneMore(log: seq<Transfer>, t: Transfer)
    ensures Written(log + [t]) == Written(log) + t.written && Read(log + [t]) == Read(log) + t.read
  {
    assert (log + [t])[..|log|] == log;
  }

  lemma ServesOneMore(reqs: seq<Request>, k: nat, log: seq<Transfer>, size: nat, rp: nat, wp: nat, held: seq<byte>,
                      t: Transfer, rp': nat, wp': nat, held': seq<byte>)
    requires Serving(reqs, k, log, size, rp, wp, held) && k < |reqs|
    requires Transfers(reqs[k], |held|, size, rp, wp, t)
    requires t.read + held' == held + t.written && |held'| < size
    requires rp' == Advance(rp, |t.read|, size) && wp' == Advance(wp, |t.written|, size)
    ensures Serving(reqs, k + 1, log + [t], size, rp', wp', held')
  {
    var all := log + [t];
    assert all[..k] == log && reqs[..k + 1][..k] == reqs[..k] && reqs[..k + 1][k] == reqs[k];
    LogOneMore(log, t);
    Carry(Written(log), Read(log), held, held', t.written, t.read);
    Advances(|Read(log)|, |t.read|, size);
    Advances(|Written(log)|, |t.written|, size);
    hide Written, Read, Advance;
    assert |Written(all)| == |Read(all)| + |held'|;
  }
}
