/** Sector bookkeeping of the NVM simulator: bitmap, map table and access table
    (drivers/NVMSIM/ramdevice.c write_helper, bitmap.c, maptable.c, infotable.c). */
module NvmTables {
  import opened Arithmetic
  import opened Words
  import opened Popcount

  const MAP_TABLE_SIZE := 8388608
  const BIT_TABLE_SIZE := 8388608
  const INFO_TABLE_SIZE := 262144
  /** Words allocated for the bitmap; the last one reaches past the map table. */
  const BITMAP_WORDS := BIT_TABLE_SIZE / 32 + 1

  // Bitmaps as values

  ghost predicate Has(words: seq<nat>, pos: nat) {
    pos / 32 < |words| && Bit(words[pos / 32], pos % 32) == 1
  }

  ghost function Marked(words: seq<nat>): set<nat> {
    set q: nat | q < 32 * |words| && Has(words, q)
  }

  ghost function MarkedBelow(words: seq<nat>, n: nat): set<nat> {
    set q: nat | q < n && Has(words, q)
  }

  /** The bit counts of the first n words. */
  function Total(words: seq<nat>, n: nat): nat
    requires n <= |words|
  {
    if n == 0 then 0 else Total(words, n - 1) + CountBits(words[n - 1], 32)
  }

  lemma AddressOf(k: nat, j: nat)
    requires j < 32
    ensures (32 * k + j) / 32 == k && (32 * k + j) % 32 == j
  {
  }

  lemma OneMore(words: seq<nat>, n: nat)
    ensures |MarkedBelow(words, n + 1)| == |MarkedBelow(words, n)| + if Has(words, n) then 1 else 0
  {
    assert MarkedBelow(words, n + 1) == MarkedBelow(words, n) + if Has(words, n) then {n} else {};
  }

  lemma {:induction false} Tally(words: seq<nat>, k: nat, j: nat)
    requires k < |words| && j <= 32
    ensures |MarkedBelow(words, 32 * k + j)| == Total(words, k) + CountBits(words[k], j)
    decreases k, j
  {
    if j > 0 {
      Tally(words, k, j - 1);
      OneMore(words, 32 * k + (j - 1));
      AddressOf(k, j - 1);
    } else if k > 0 {
      Tally(words, k - 1, 32);
    } else {
      assert MarkedBelow(words, 0) == {};
    }
  }

  /** Adding up the words' bit counts counts the marked positions. */
  lemma TotalIsMarked(words: seq<nat>)
    ensures |Marked(words)| == Total(words, |words|)
  {
    assert Marked(words) == MarkedBelow(words, 32 * |words|);
    if |words| > 0 {
      Tally(words, |words| - 1, 32);
    } else {
      assert Marked(words) == {};
    }
  }

  /** SET_BITMAP marks its position and no other. */
  lemma SetMarksOne(words: seq<nat>, pos: nat, q: nat)
    requires pos / 32 < |words|
    ensures Has(words[pos / 32 := Or(words[pos / 32], Pow2(pos % 32))], q) <==> q == pos || Has(words, q)
  {
    OrSetsBit(words[pos / 32], pos % 32, q % 32);
    assert q == 32 * (q / 32) + q % 32 && pos == 32 * (pos / 32) + pos % 32;
  }

  /** BOOL tests the position's mark. */
  lemma TestReadsMark(words: seq<nat>, pos: nat)
    requires pos / 32 < |words|
    ensures And(words[pos / 32], Pow2(pos % 32)) != 0 <==> Has(words, pos)
  {
    AndOneBit(words[pos / 32], pos % 32);
  }

  // The history of writes and what the tables say about it

  datatype Request = Request(sector: nat, len: nat) {
    /** One past the last sector written. */
    function End(): nat { sector + len / 512 }
  }

  /** The sectors some request of the log wrote. */
  ghost function Written(log: seq<Request>): set<nat> {
    if log == [] then {} else Written(log[..|log| - 1]) + Sectors(log[|log| - 1].sector, log[|log| - 1].End())
  }

  ghost function Sectors(first: nat, end: nat): set<nat> {
    set i: nat | i < end && InRange(first, end, i)
  }

  predicate InRange(first: nat, end: nat, i: nat) {
    first <= i < end
  }

  lemma {:induction false} WrittenMeans(log: seq<Request>, i: nat)
    ensures i in Written(log) <==> exists k :: 0 <= k < |log| && log[k].sector <= i < log[k].End()
  {
    if log != [] {
      var n := |log| - 1;
      WrittenMeans(log[..n], i);
      if i in Written(log[..n]) {
        var k :| 0 <= k < n && log[..n][k].sector <= i < log[..n][k].End();
        assert log[k] == log[..n][k];
      }
      if k :| 0 <= k < |log| && log[k].sector <= i < log[k].End() {
        assert k < n ==> log[..n][k] == log[k];
      }
    }
  }

  /** The loop over info pages charges this page for the request; both end pages are inclusive. */
  predicate Charged(request: Request, p: nat) {
    request.sector / 32 <= p <= request.End() / 32
  }

  /** The request wrote a sector of this page. */
  ghost predicate Touches(request: Request, p: nat) {
    exists i :: i in Sectors(request.sector, request.End()) && i / 32 == p
  }

  /** The request ends where this page begins, or ends in it without having written anything. */
  predicate StopsBefore(request: Request, p: nat) {
    p == request.End() / 32 && (request.End() % 32 == 0 || request.End() == request.sector)
  }

  /** A page is charged and not written exactly when the request stops before it. */
  lemma UnwrittenCharge(request: Request, p: nat)
    ensures Charged(request, p) && !Touches(request, p) <==> StopsBefore(request, p)
    ensures Touches(request, p) ==> Charged(request, p)
  {
    var first, end := request.sector, request.End();
    if i :| i in Sectors(first, end) && i / 32 == p {
      assert first <= i < end;
    }
    if Charged(request, p) && !StopsBefore(request, p) {
      var i := if first / 32 == p then first else 32 * p;
      assert i / 32 == p && InRange(first, end, i);
      assert i in Sectors(first, end);
    }
  }

  /** How many requests wrote a sector of page p. */
  ghost function Writes(log: seq<Request>, p: nat): nat {
    if log == [] then 0 else Writes(log[..|log| - 1], p) + if Touches(log[|log| - 1], p) then 1 else 0
  }

  /** How many requests stopped before page p. */
  function Overcharges(log: seq<Request>, p: nat): nat {
    if log == [] then 0 else Overcharges(log[..|log| - 1], p) + if StopsBefore(log[|log| - 1], p) then 1 else 0
  }

  lemma NextCharge(log: seq<Request>, request: Request, p: nat)
    ensures Writes(log + [request], p) + Overcharges(log + [request], p) ==
      Writes(log, p) + Overcharges(log, p) + if Charged(request, p) then 1 else 0
  {
    assert (log + [request])[..|log|] == log;
    UnwrittenCharge(request, p);
  }

  /** A table entry is the number of writes of its page, in 32 bits, exactly when the overcharges cancel. */
  lemma EntryIsRightIff(info: seq<nat>, log: seq<Request>, p: nat)
    requires IsCounted(info, log) && p < INFO_TABLE_SIZE
    ensures info[p] == Writes(log, p) % WORD <==> Overcharges(log, p) % WORD == 0
  {
    SameRemainder(Writes(log, p), Overcharges(log, p), WORD);
  }

  lemma SameRemainder(a: nat, b: nat, n: nat)
    requires n > 0
    ensures (a + b) % n == a % n <==> b % n == 0
  {
    DivMod(a, n);
    DivMod(b, n);
    var q, r := a / n + b / n, a % n + b % n;
    Distribute(n, 1, a / n, b / n);
    assert a + b == n * q + r;
    if r < n {
      ModIsUnique(a + b, n, q, r);
    } else {
      assert n * (q + 1) == n * q + n;
      ModIsUnique(a + b, n, q + 1, r - n);
    }
  }

  /** One whole page written: the page behind it counts an access although nothing was ever written there. */
  lemma WholePageOvercharges()
    ensures var log := [Request(0, 32 * 512)];
      && Written(log) == Sectors(0, 32)
      && Writes(log, 0) == 1 && Overcharges(log, 0) == 0
      && Writes(log, 1) == 0 && Overcharges(log, 1) == 1
  {
    var r := Request(0, 32 * 512);
    var log := [r];
    assert log[..0] == [] && r.End() == 32;
    assert Written(log[..0]) == {} && Writes(log[..0], 0) == 0 && Writes(log[..0], 1) == 0;
    assert Overcharges(log[..0], 0) == 0 && Overcharges(log[..0], 1) == 0;
    UnwrittenCharge(r, 0);
    UnwrittenCharge(r, 1);
  }

  ghost predicate IsMarked(words: seq<nat>, sectors: set<nat>) {
    && |words| == BITMAP_WORDS
    && (forall k :: 0 <= k < |words| ==> words[k] < WORD)
    && Marked(words) == sectors
  }

  ghost predicate IsMapped(table: seq<nat>, sectors: set<nat>) {
    && |table| == MAP_TABLE_SIZE + 1
    && forall i :: 0 <= i < |table| ==> table[i] == if i in sectors then i + 1 else 0
  }

  ghost predicate IsCounted(info: seq<nat>, log: seq<Request>) {
    && |info| == INFO_TABLE_SIZE
    && forall p :: 0 <= p < |info| ==> info[p] == (Writes(log, p) + Overcharges(log, p)) % WORD
  }

  lemma MarkNext(words: seq<nat>, sectors: set<nat>, i: nat)
    requires IsMarked(words, sectors) && i < 32 * BITMAP_WORDS
    ensures i / 32 < |words|
    ensures And(words[i / 32], Pow2(i % 32)) != 0 <==> i in sectors
    ensures IsMarked(words[i / 32 := Or(words[i / 32], Pow2(i % 32))], sectors + {i})
  {
    var marked := words[i / 32 := Or(words[i / 32], Pow2(i % 32))];
    TestReadsMark(words, i);
    Pow2Words();
    Pow2Below(i % 32, 32);
    OrStaysInWord(words[i / 32], Pow2(i % 32), 32);
    forall q: nat | q < 32 * BITMAP_WORDS
      ensures Has(marked, q) <==> q == i || Has(words, q)
    {
      SetMarksOne(words, i, q);
    }
    assert Marked(marked) == sectors + {i};
  }

  lemma Pow2Below(k: nat, n: nat)
    requires k < n
    ensures Pow2(k) < Pow2(n)
  {
    Pow2Mono(k + 1, n);
  }

  lemma MapNext(table: seq<nat>, sectors: set<nat>, i: nat)
    requires IsMapped(table, sectors)
    ensures IsMapped(if i <= MAP_TABLE_SIZE then table[i := i + 1] else table, sectors + {i})
  {
  }

  /** One access more in a 32-bit entry. */
  function OneMoreAccess(entry: nat): nat {
    (entry + 1) % WORD
  }

  lemma NextInWord(count: nat)
    ensures OneMoreAccess(count % WORD) == (count + 1) % WORD
  {
  }

  /** Pages first to i - 1 have been charged one access each, as far as the table reaches. */
  ghost predicate ChargedTo(before: seq<nat>, now: seq<nat>, first: nat, i: nat) {
    && |before| == |now| == INFO_TABLE_SIZE
    && forall p :: 0 <= p < |now| ==> now[p] == if first <= p < i then OneMoreAccess(before[p]) else before[p]
  }

  lemma ChargeNext(before: seq<nat>, now: seq<nat>, first: nat, i: nat)
    requires ChargedTo(before, now, first, i) && first <= i
    ensures ChargedTo(before, if i < INFO_TABLE_SIZE then now[i := OneMoreAccess(now[i])] else now, first, i + 1)
  {
  }

  lemma AllCharged(before: seq<nat>, now: seq<nat>, log: seq<Request>, request: Request)
    requires IsCounted(before, log) && ChargedTo(before, now, request.sector / 32, request.End() / 32 + 1)
    ensures IsCounted(now, log + [request])
  {
    forall p | 0 <= p < |now|
      ensures now[p] == (Writes(log + [request], p) + Overcharges(log + [request], p)) % WORD
    {
      NextCharge(log, request, p);
      NextInWord(Writes(log, p) + Overcharges(log, p));
    }
  }

  class Device {
    const BitMap: array<nat>
    const MapTable: array<nat>
    const InfoTable: array<nat>
    ghost var log: seq<Request>

    ghost predicate Valid()
      reads this, BitMap, MapTable, InfoTable
    {
      && BitMap != MapTable && BitMap != InfoTable && MapTable != InfoTable
      && IsMarked(BitMap[..], Written(log))
      && IsMapped(MapTable[..], Written(log))
      && IsCounted(InfoTable[..], log)
    }

    /** nvm_pbi_space_alloc: the three tables come zeroed. */
    constructor ()
      ensures Valid() && log == [] && fresh(BitMap) && fresh(MapTable) && fresh(InfoTable)
    {
      var bits := new nat[BITMAP_WORDS](i => 0);
      var table := new nat[MAP_TABLE_SIZE + 1](i => 0);
      var info := new nat[INFO_TABLE_SIZE](i => 0);
      BitMap, MapTable, InfoTable, log := bits, table, info, [];
      new;
      forall q: nat | q < 32 * BITMAP_WORDS
        ensures !Has(BitMap[..], q)
      {
        BitOfZero(q % 32);
      }
      assert Marked(BitMap[..]) == {};
    }

    /** update_infotable: 1 for a page past the table, which is left alone. */
    method UpdateInfo(lbn: nat) returns (failed: bool)
      requires InfoTable.Length == INFO_TABLE_SIZE
      modifies InfoTable
      ensures failed == (lbn >= INFO_TABLE_SIZE)
      ensures InfoTable[..] ==
        if failed then old(InfoTable[..]) else old(InfoTable[..])[lbn := OneMoreAccess(old(InfoTable[..])[lbn])]
    {
      if lbn >= INFO_TABLE_SIZE { return true; }
      InfoTable[lbn] := OneMoreAccess(InfoTable[lbn]);
      return false;
    }

    /** map_table: 0 for an index past the table, which is left alone. */
    method Map(lbn: nat, pbn: nat) returns (raw: nat)
      requires MapTable.Length == MAP_TABLE_SIZE + 1
      modifies MapTable
      ensures raw == if lbn <= MAP_TABLE_SIZE then old(MapTable[..])[lbn] else 0
      ensures MapTable[..] == if lbn <= MAP_TABLE_SIZE then old(MapTable[..])[lbn := pbn] else old(MapTable[..])
    {
      if lbn > MAP_TABLE_SIZE { return 0; }
      raw := MapTable[lbn];
      MapTable[lbn] := pbn;
    }

    method ChargePages(request: Request)
      requires IsCounted(InfoTable[..], log)
      modifies InfoTable
      ensures IsCounted(InfoTable[..], log + [request])
    {
      ghost var before := InfoTable[..];
      var first, last := request.sector / 32, request.End() / 32;
      var i := first;
      while i <= last
        invariant first <= i <= last + 1 && ChargedTo(before, InfoTable[..], first, i)
      {
        ChargeNext(before, InfoTable[..], first, i);
        var failed := UpdateInfo(i);
        i := i + 1;
      }
      AllCharged(before, InfoTable[..], log, request);
    }

    method MarkSectors(first: nat, end: nat, ghost sectors: set<nat>)
      requires BitMap != MapTable && IsMarked(BitMap[..], sectors) && IsMapped(MapTable[..], sectors)
      requires first <= end <= 32 * BITMAP_WORDS
      modifies BitMap, MapTable
      ensures IsMarked(BitMap[..], sectors + Sectors(first, end))
      ensures IsMapped(MapTable[..], sectors + Sectors(first, end))
    {
      assert sectors + Sectors(first, first) == sectors;
      var i := first;
      ghost var now := sectors;
      while i < end
        invariant first <= i <= end && now == sectors + Sectors(first, i)
        invariant IsMarked(BitMap[..], now) && IsMapped(MapTable[..], now)
      {
        MarkSector(i, now);
        now := now + {i};
        i := i + 1;
      }
    }

    method MarkSector(i: nat, ghost sectors: set<nat>)
      requires BitMap != MapTable && IsMarked(BitMap[..], sectors) && IsMapped(MapTable[..], sectors)
      requires i < 32 * BITMAP_WORDS
      modifies BitMap, MapTable
      ensures IsMarked(BitMap[..], sectors + {i}) && IsMapped(MapTable[..], sectors + {i})
    {
      MarkNext(BitMap[..], sectors, i);
      MapNext(MapTable[..], sectors, i);
      if And(BitMap[i / 32], Pow2(i % 32)) == 0 {
        BitMap[i / 32] := Or(BitMap[i / 32], Pow2(i % 32));
        var raw := Map(i, i + 1);
      } else {
        assert sectors + {i} == sectors;
      }
    }

    /** write_helper. Past the last bitmap word the source would write outside its table. */
    method WriteHelper(request: Request)
      requires Valid() && request.End() <= 32 * BITMAP_WORDS
      modifies this, BitMap, MapTable, InfoTable
      ensures Valid() && log == old(log) + [request]
    {
      ChargePages(request);
      MarkSectors(request.sector, request.End(), Written(log));
      log := log + [request];
      assert log[..|log| - 1] == old(log);
    }

    /** total_bitmap: the number of distinct sectors ever written. */
    method TotalBitmap() returns (total: nat)
      requires Valid()
      ensures total == |Written(log)|
    {
      var i := 0;
      total := 0;
      while i < BITMAP_WORDS
        invariant 0 <= i <= BITMAP_WORDS
        invariant total == Total(BitMap[..], i) <= 32 * i
      {
        var c := BitCount(BitMap[i]);
        total := (total + c) % WORD;
        i := i + 1;
      }
      TotalIsMarked(BitMap[..]);
    }
  }

  ghost predicate FullIn(words: seq<nat>, lo: nat, hi: nat) {
    forall j :: lo <= j < hi ==> Has(words, j)
  }

  ghost predicate FirstClearIn(words: seq<nat>, lo: nat, hi: nat, r: nat) {
    lo <= r < hi && !Has(words, r) && FullIn(words, lo, r)
  }

  ghost predicate ZeroIsFirst(words: seq<nat>, pos: nat, len: nat) {
    !Has(words, 0) && (pos == 0 || FullIn(words, pos, len))
  }

  method ScanClear(bitmap: array<nat>, lo: nat, hi: nat) returns (found: bool, r: nat)
    requires lo <= hi <= 32 * bitmap.Length
    ensures if found then FirstClearIn(bitmap[..], lo, hi, r) else FullIn(bitmap[..], lo, hi)
  {
    r := lo;
    while r < hi
      invariant lo <= r <= hi && FullIn(bitmap[..], lo, r)
    {
      TestReadsMark(bitmap[..], r);
      if And(bitmap[r / 32], Pow2(r % 32)) == 0 { return true, r; }
      r := r + 1;
    }
    return false, r;
  }

  /** query_bitmap: the first clear bit at or cyclically after pos. The answer 0 means both that
      nothing is free and that bit 0 is the one found. */
  method QueryBitmap(bitmap: array<nat>, pos: nat, len: nat) returns (r: nat)
    requires len <= 32 * bitmap.Length
    ensures pos > len ==> r == 0
    ensures pos <= len && !FullIn(bitmap[..], pos, len) ==> FirstClearIn(bitmap[..], pos, len, r)
    ensures pos <= len && FullIn(bitmap[..], pos, len) && !FullIn(bitmap[..], 0, pos) ==>
      FirstClearIn(bitmap[..], 0, pos, r)
    ensures pos <= len && r == 0 ==> FullIn(bitmap[..], 0, len) || ZeroIsFirst(bitmap[..], pos, len)
    ensures pos <= len && (FullIn(bitmap[..], 0, len) || ZeroIsFirst(bitmap[..], pos, len)) ==> r == 0
  {
    if pos > len { return 0; }
    var found, at := ScanClear(bitmap, pos, len);
    if found { return at; }
    found, at := ScanClear(bitmap, 0, pos);
    return if found then at else 0;
  }

  /** Any run of writes from a fresh device: the bitmap total counts the distinct sectors written. */
  method Serve(requests: seq<Request>) returns (device: Device, total: nat)
    requires forall k :: 0 <= k < |requests| ==> requests[k].End() <= 32 * BITMAP_WORDS
    ensures device.Valid() && device.log == requests && total == |Written(requests)|
  {
    device := new Device();
    var n := 0;
    while n < |requests|
      invariant 0 <= n <= |requests|
      invariant device.Valid() && device.log == requests[..n]
      invariant fresh(device) && fresh(device.BitMap) && fresh(device.MapTable) && fresh(device.InfoTable)
    {
      device.WriteHelper(requests[n]);
      n := n + 1;
    }
    assert requests[..n] == requests;
    total := device.TotalBitmap();
  }
}
