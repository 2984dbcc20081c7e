/** The scullp device at order 0 (drivers/examples/scullp/main.c, mmap.c): the same storage as
    scull in whole zeroed pages, read by division and mapped by walking the list. */
module Scullp {
  import opened Wrappers
  import opened Arithmetic
  import opened Words
  import opened QuantumStore
  import opened IntAddressing
  import opened Scull

  const PAGE_SIZE: nat := 4096

  function ZeroPage(): (p: seq<byte>)
    ensures |p| == PAGE_SIZE && forall i :: 0 <= i < PAGE_SIZE ==> p[i] == 0
  {
    seq(PAGE_SIZE, i => 0)
  }

  /** What a write gets: list items always, the pointer array and a zeroed page if they can be had. */
  function Delivered(item: nat, pointers: bool, page: bool): Memory {
    Memory(item + 1, pointers, if page then Some(ZeroPage()) else None)
  }

  /** Allocated pages are zero where nothing was written. */
  ghost predicate Zeroed(list: seq<QSet>, s: nat, written: map<nat, byte>)
    requires s > 0
  {
    forall p: nat :: p !in written && ByteAt(list, PAGE_SIZE, s, p).Some? ==> ByteAt(list, PAGE_SIZE, s, p).value == 0
  }

  /** The page that nopage looks for: list item and slot by the array length alone. */
  function Mapped(list: seq<QSet>, qset: nat, offset: nat): Option<seq<byte>>
    requires qset > 0
  {
    Slot(list, ItemOf(offset, PAGE_SIZE, qset), SlotOf(offset, PAGE_SIZE, qset))
  }

  /** What a read does that is not interrupted: unlike scull_read it goes on at the end of the file, where it
      transfers nothing but may append an empty list item. */
  ghost predicate ReadsPage(before: seq<QSet>, after: seq<QSet>, m: int, size: nat, pos: nat, count: nat,
                              copies: bool, r: Result, bytes: seq<byte>)
    requires pos <= size ==> m != 0 && Address(m, PAGE_SIZE, pos).item >= 0
  {
    if pos > size then r == Ok(0) && bytes == [] && after == before
    else
      var at := Address(m, PAGE_SIZE, pos);
      ReadsPlace(before, after, at.item, at.slot, at.offset, Min(count, Min(size - pos, PAGE_SIZE - at.offset)), copies,
                 r, bytes)
  }

  /** struct scullp_dev; the device is its own first list item. */
  class Device {
    var list: seq<QSet>
    var qset: int
    var size: nat
    var vmas: nat
    ghost var written: map<nat, byte>

    /** What holds with any array length. */
    ghost predicate Shape()
      reads this
    {
      && list != [] && |list| <= INT_LIMIT
      && if qset > 0 then WellFormed(list, PAGE_SIZE, qset) else list == [EMPTY]
    }

    predicate Reaches(pos: nat)
      reads this
    {
      Usable(ItemSize(PAGE_SIZE, qset), PAGE_SIZE, qset, pos)
    }

    /** The device is a byte map as far as its size. */
    ghost predicate Valid()
      reads this
    {
      && Shape() && Fits(PAGE_SIZE, qset, size)
      && if qset > 0 then
           && Sound(list, PAGE_SIZE, qset, UsedSlots(PAGE_SIZE, qset), size, written)
           && Zeroed(list, UsedSlots(PAGE_SIZE, qset), written)
         else written == map[]
    }

    /** The page that reads and writes take for a position. */
    ghost function PageAt(pos: nat): Option<seq<byte>>
      requires qset > 0
      reads this
    {
      var s := UsedSlots(PAGE_SIZE, qset);
      Slot(list, ItemOf(pos, PAGE_SIZE, s), SlotOf(pos, PAGE_SIZE, s))
    }

    constructor (qset: int)
      ensures Valid() && list == [EMPTY] && size == 0 && vmas == 0 && written == map[] && this.qset == qset
    {
      list, size, vmas, written := [EMPTY], 0, 0, map[];
      this.qset := qset;
    }

    /** scullp_trim: refuses while the device is mapped. */
    method Trim(globalQset: int) returns (busy: bool)
      requires Shape()
      modifies this
      ensures busy ==> list == old(list) && qset == old(qset) && size == old(size) && written == old(written)
      ensures !busy ==> Valid() && list == [EMPTY] && qset == globalQset && size == 0 && written == map[]
      ensures vmas == old(vmas) && (busy <==> vmas > 0)
    {
      if vmas > 0 {
        return true;
      }
      list := [EMPTY];
      size := 0;
      qset := globalQset;
      written := map[];
      busy := false;
    }

    /** scullp_vma_open, also called by scullp_mmap, and scullp_vma_close. */
    method VmaOpen()
      modifies this`vmas
      ensures vmas == old(vmas) + 1
    {
      vmas := vmas + 1;
    }

    method VmaClose()
      requires vmas > 0
      modifies this`vmas
      ensures vmas == old(vmas) - 1
    {
      vmas := vmas - 1;
    }

    /** scullp_vma_nopage: walks the list by repeated subtraction.  The result is the page, None for SIGBUS. */
    method Nopage(offset: nat) returns (page: Option<seq<byte>>)
      requires Shape() && (offset < size ==> qset > 0)
      ensures page == if offset < size then Mapped(list, qset, offset) else None
    {
      page := None;
      if offset >= size {
        return;
      }
      var pages := offset / PAGE_SIZE;
      var ptr, left := 0, pages;
      while ptr < |list| && left >= qset
        invariant 0 <= ptr <= pages / qset && left >= 0 && left + qset * ptr == pages
      {
        StaysBelow(pages, qset, ptr);
        ptr := ptr + 1;
        left := left - qset;
      }
      if ptr < |list| {
        ModIsUnique(pages, qset, ptr, left);
        page := Slot(list, ptr, left);
      }
    }

    /** scullp_follow; the source does not survive a failing kmalloc here. */
    method Follow(n: nat)
      requires list != []
      modifies this`list
      ensures list == Extend(old(list), n + 1)
    {
      ghost var s := list;
      var dev, k := 0, n;
      while k > 0
        invariant k >= 0 && dev + k == n && list == Extend(s, |list|)
        invariant |list| == if dev < |s| then |s| else dev + 1
      {
        if dev + 1 == |list| {
          ExtendByOne(s, |list|);
          list := list + [EMPTY];
        }
        dev, k := dev + 1, k - 1;
      }
    }

    /** scullp_write; a fresh page is zeroed before the copy. */
    method Write(pos: nat, buf: seq<byte>, pointers: bool, page: bool, copies: bool, signalled: bool)
      returns (r: Result, pos': nat)
      requires Shape() && (signalled || Reaches(pos))
      modifies this
      ensures Shape() && qset == old(qset) && vmas == old(vmas)
      ensures signalled ==> r == Err(ERESTARTSYS) && list == old(list)
      ensures !signalled ==>
        WriteOutcome(old(list), list, ItemSize(PAGE_SIZE, qset), PAGE_SIZE, qset, pos, buf,
          Delivered(Address(ItemSize(PAGE_SIZE, qset), PAGE_SIZE, pos).item, pointers, page), copies, r)
      ensures r.Ok? ==> pos' == pos + r.count && r.count <= |buf|
      ensures r.Ok? ==> size == Max(old(size), pos') && written == old(written) + Bytes(pos, buf[..r.count])
      ensures r.Err? ==> pos' == pos && size == old(size) && written == old(written)
    {
      if signalled {
        return Err(ERESTARTSYS), pos;
      }
      var item, sPos, qPos := Locate(PAGE_SIZE, qset, pos);
      var n := if |buf| > PAGE_SIZE - qPos then PAGE_SIZE - qPos else |buf|;
      r := WritePlace(item, sPos, qPos, buf[..n], Delivered(item, pointers, page), copies);
      pos' := pos;
      if r.Ok? {
        pos' := Account(pos, buf[..n]);
      }
    }

    /** Moves the position behind the bytes and the size with it. */
    method Account(pos: nat, bytes: seq<byte>) returns (pos': nat)
      modifies this`size, this`written
      ensures pos' == pos + |bytes| && size == Max(old(size), pos') && written == old(written) + Bytes(pos, bytes)
    {
      pos' := pos + |bytes|;
      written := written + Bytes(pos, bytes);
      size := if size < pos' then pos' else size;
    }

    /** Everything scullp_write allocates. */
    method Allocate(item: nat, sPos: nat, mem: Memory) returns (ok: bool)
      requires Shape() && sPos < qset && item < INT_LIMIT
      requires mem.quantum.Some? ==> |mem.quantum.value| == PAGE_SIZE
      modifies this`list
      ensures Shape() && item < |list| && Grown(old(list), list, item, sPos, qset, mem)
      ensures ok == Slot(list, item, sPos).Some?
      ensures old(Slot(list, item, sPos)).Some? || (mem.pointers && mem.quantum.Some?) ==> ok
    {
      ghost var before := list;
      Follow(item);
      ExtendSlot(before, item + 1, item, sPos);
      ExtendKeepsShape(before, item + 1, PAGE_SIZE, qset);
      var blocks;
      list, blocks, ok := FillSlot(list, item, sPos, PAGE_SIZE, qset, mem);
      GrownKeepsShape(before, list, PAGE_SIZE, qset, item, sPos, mem);
    }

    /** The part of scullp_write that allocates and copies. */
    method WritePlace(item: nat, sPos: nat, qPos: nat, bytes: seq<byte>, mem: Memory, copies: bool) returns (r: Result)
      requires Shape() && sPos < qset && item < INT_LIMIT && item < mem.items && qPos + |bytes| <= PAGE_SIZE
      requires mem.quantum.Some? ==> |mem.quantum.value| == PAGE_SIZE
      modifies this`list
      ensures Shape() && WritesPlace(old(list), list, item, sPos, qPos, qset, bytes, mem, copies, r)
    {
      ghost var before := list;
      var ok := Allocate(item, sPos, mem);
      if !ok {
        return Err(ENOMEM);
      }
      if !copies {
        return Err(EFAULT);
      }
      ghost var mid, page := list, Slot(list, item, sPos).value;
      assert WellFormedNode(list[item], PAGE_SIZE, qset);
      list := CopyIn(list, item, sPos, qPos, qset, bytes);
      WriteIsRaw(before, mid, PAGE_SIZE, qset, item, sPos, qPos, page, bytes, mem);
      PutKeepsShape(mid, PAGE_SIZE, qset, item, sPos, Patch(page, qPos, bytes));
      return Ok(|bytes|);
    }

    /** scullp_read. */
    method Read(pos: nat, count: nat, copies: bool, signalled: bool) returns (r: Result, bytes: seq<byte>, pos': nat)
      requires Shape() && (signalled || pos > size || Reaches(pos))
      modifies this`list
      ensures Shape() && pos' == pos + |bytes|
      ensures signalled ==> r == Err(ERESTARTSYS) && bytes == [] && list == old(list)
      ensures !signalled ==> ReadsPage(old(list), list, ItemSize(PAGE_SIZE, qset), size, pos, count, copies, r, bytes)
    {
      if signalled {
        return Err(ERESTARTSYS), [], pos;
      }
      if pos > size {
        return Ok(0), [], pos;
      }
      var n := if pos + count > size then size - pos else count;
      var item, sPos, qPos := Locate(PAGE_SIZE, qset, pos);
      n := if n > PAGE_SIZE - qPos then PAGE_SIZE - qPos else n;
      r, bytes := ReadPlace(item, sPos, qPos, n, copies);
      pos' := pos + |bytes|;
    }

    /** The part of scullp_read behind the address computation. */
    method ReadPlace(item: nat, sPos: nat, qPos: nat, n: nat, copies: bool) returns (r: Result, bytes: seq<byte>)
      requires Shape() && qset > 0 && item < INT_LIMIT && qPos + n <= PAGE_SIZE
      modifies this`list
      ensures Shape() && ReadsPlace(old(list), list, item, sPos, qPos, n, copies, r, bytes)
    {
      ghost var before := list;
      Follow(item);
      ExtendSlot(before, item + 1, item, sPos);
      ExtendKeepsShape(before, item + 1, PAGE_SIZE, qset);
      assert WellFormedNode(list[item], PAGE_SIZE, qset);
      r, bytes := CopyOut(Slot(list, item, sPos), qPos, n, copies);
    }
  }

  lemma StaysBelow(pages: nat, qset: nat, ptr: nat)
    requires qset > 0 && pages >= qset * ptr + qset
    ensures ptr < pages / qset && qset * (ptr + 1) == qset * ptr + qset
  {
    DivMod(pages, qset);
    Distribute(qset, 1, 0, ptr);
    if pages / qset <= ptr { MulMono(qset, pages / qset, ptr); }
  }

  // ------------------------------------------------------------------ byte map

  /** Bytes copied into a page that was there, or into a zeroed one. */
  lemma PutKeepsZero(list: seq<QSet>, a: nat, s: nat, written: map<nat, byte>, pos: nat, i: nat, k: nat,
                     content: seq<byte>, bytes: seq<byte>)
    requires 0 < s <= a && WellFormed(list, PAGE_SIZE, a) && Zeroed(list, s, written)
    requires i == ItemOf(pos, PAGE_SIZE, s) < |list| && k == SlotOf(pos, PAGE_SIZE, s)
    requires |content| == PAGE_SIZE && content == if Slot(list, i, k).Some? then Slot(list, i, k).value else ZeroPage()
    requires OffsetOf(pos, PAGE_SIZE) + |bytes| <= PAGE_SIZE
    ensures k < |ArrayOf(list[i], a)|
    ensures Zeroed(PutQuantum(list, i, k, a, Patch(content, OffsetOf(pos, PAGE_SIZE), bytes)), s,
                   written + Bytes(pos, bytes))
  {
    var page := Patch(content, OffsetOf(pos, PAGE_SIZE), bytes);
    var after := PutQuantum(list, i, k, a, page);
    forall p: nat | p !in written + Bytes(pos, bytes) && ByteAt(after, PAGE_SIZE, s, p).Some?
      ensures ByteAt(after, PAGE_SIZE, s, p).value == 0
    {
      PutQuantumByte(list, PAGE_SIZE, a, s, pos, page, p);
      SameSlot(p, pos, PAGE_SIZE, s);
      SameQuantum(pos, p, PAGE_SIZE);
    }
  }

  lemma SameBytesStayZero(before: seq<QSet>, after: seq<QSet>, s: nat, written: map<nat, byte>)
    requires s > 0 && Zeroed(before, s, written)
    requires forall p :: ByteAt(after, PAGE_SIZE, s, p) == ByteAt(before, PAGE_SIZE, s, p)
    ensures Zeroed(after, s, written)
  {
  }

  lemma FilledKeepsZero(list: seq<QSet>, after: seq<QSet>, a: nat, s: nat, written: map<nat, byte>, pos: nat,
                        i: nat, k: nat, mem: Memory)
    requires 0 < s <= a && WellFormed(list, PAGE_SIZE, a) && Zeroed(list, s, written)
    requires i == ItemOf(pos, PAGE_SIZE, s) < |list| && k == SlotOf(pos, PAGE_SIZE, s)
    requires mem.quantum in {None, Some(ZeroPage())} && Filled(list, after, i, k, a, mem)
    ensures Zeroed(after, s, written)
  {
    if list[i].data.None? && after == list[i := QSet(Some(Holes(a)))] {
      HolesKeepBytes(list, i, PAGE_SIZE, a, s);
      SameBytesStayZero(list, after, s, written);
    } else if after != list {
      assert Patch(ZeroPage(), OffsetOf(pos, PAGE_SIZE), []) == ZeroPage();
      assert written + Bytes(pos, []) == written;
      PutKeepsZero(list, a, s, written, pos, i, k, ZeroPage(), []);
    }
  }

  lemma ExtendKeepsZero(list: seq<QSet>, n: nat, a: nat, s: nat, written: map<nat, byte>)
    requires 0 < s <= a && WellFormed(list, PAGE_SIZE, a) && Zeroed(list, s, written)
    ensures WellFormed(Extend(list, n), PAGE_SIZE, a) && Zeroed(Extend(list, n), s, written)
  {
    ExtendKeepsBytes(list, n, PAGE_SIZE, a, s);
    SameBytesStayZero(list, Extend(list, n), s, written);
  }

  /** A write at its exact place leaves every byte zero that nobody wrote. */
  lemma PlaceKeepsZero(before: seq<QSet>, after: seq<QSet>, a: nat, s: nat, written: map<nat, byte>, pos: nat,
                       bytes: seq<byte>, mem: Memory, copies: bool, r: Result)
    requires 0 < s <= a && WellFormed(before, PAGE_SIZE, a) && Zeroed(before, s, written)
    requires mem.quantum in {None, Some(ZeroPage())} && OffsetOf(pos, PAGE_SIZE) + |bytes| <= PAGE_SIZE
    requires WritesPlace(before, after, ItemOf(pos, PAGE_SIZE, s), SlotOf(pos, PAGE_SIZE, s), OffsetOf(pos, PAGE_SIZE),
                         a, bytes, mem, copies, r)
    ensures Zeroed(after, s, if r.Ok? then written + Bytes(pos, bytes) else written)
  {
    var i, k := ItemOf(pos, PAGE_SIZE, s), SlotOf(pos, PAGE_SIZE, s);
    var longer := Extend(before, if r.Ok? then i + 1 else |after|);
    ExtendKeepsZero(before, |longer|, a, s, written);
    if r.Err? {
      if after != longer { FilledKeepsZero(longer, after, a, s, written, pos, i, k, mem); }
    } else {
      ExtendSlot(before, i + 1, i, k);
      assert WellFormedNode(longer[i], PAGE_SIZE, a);
      var content := if Slot(longer, i, k).Some? then Slot(longer, i, k).value else ZeroPage();
      PutKeepsZero(longer, a, s, written, pos, i, k, content, bytes);
    }
  }

  /** What a read returns: bytes last written, and zero where nothing was. */
  ghost predicate ReadsAll(written: map<nat, byte>, pos: nat, bytes: seq<byte>) {
    forall p :: pos <= p < pos + |bytes| ==> bytes[p - pos] == if p in written then written[p] else 0
  }

  lemma ReadRefines(before: seq<QSet>, after: seq<QSet>, m: int, a: int, s: int, size: nat, written: map<nat, byte>,
                    pos: nat, count: nat, copies: bool, r: Result, bytes: seq<byte>)
    requires Geometry(m, PAGE_SIZE, a, s) && FitsSize(m, PAGE_SIZE, a, size)
    requires Sound(before, PAGE_SIZE, a, s, size, written) && Zeroed(before, s, written)
    requires pos <= size ==> Usable(m, PAGE_SIZE, a, pos)
    requires ReadsPage(before, after, m, size, pos, count, copies, r, bytes)
    ensures ReadsAll(written, pos, bytes) && |bytes| <= count && (bytes != [] ==> pos + |bytes| <= size)
    ensures pos != size ==> after == before
    ensures pos < size ==> r == if ByteAt(before, PAGE_SIZE, s, pos).None? then Ok(0)
      else if copies then Ok(Min(count, Min(size - pos, PAGE_SIZE - OffsetOf(pos, PAGE_SIZE)))) else Err(EFAULT)
    ensures r.Ok? ==> r.count == |bytes|
  {
    if pos < size {
      ReadsInList(before, m, PAGE_SIZE, a, s, size, written, pos);
      var slot := Slot(before, ItemOf(pos, PAGE_SIZE, s), SlotOf(pos, PAGE_SIZE, s));
      if slot.Some? {
        assert WellFormedNode(before[ItemOf(pos, PAGE_SIZE, s)], PAGE_SIZE, a);
        SliceIsContent(before, PAGE_SIZE, s, pos, |bytes|, slot.value);
        ContentIsWritten(before, s, size, written, pos, bytes);
      }
    }
  }

  lemma ContentIsWritten(list: seq<QSet>, s: nat, size: nat, written: map<nat, byte>, pos: nat, bytes: seq<byte>)
    requires s > 0 && Remembers(list, PAGE_SIZE, s, size, written) && Zeroed(list, s, written)
    requires forall p :: pos <= p < pos + |bytes| ==> ByteAt(list, PAGE_SIZE, s, p) == Some(bytes[p - pos])
    ensures ReadsAll(written, pos, bytes)
  {
  }

  lemma EmptyReadExtends(before: seq<QSet>, after: seq<QSet>, a: nat, s: nat, size: nat, written: map<nat, byte>,
                         pos: nat)
    requires Sound(before, PAGE_SIZE, a, s, size, written) && Zeroed(before, s, written)
    requires after == Extend(before, |after|) && |after| <= INT_LIMIT
    ensures Sound(after, PAGE_SIZE, a, s, size, written) && Zeroed(after, s, written)
  {
    ExtendKeepsBytes(before, |after|, PAGE_SIZE, a, s);
    NothingStored(before, after, PAGE_SIZE, s, pos);
    SoundFrom(before, after, PAGE_SIZE, a, s, size, written, pos);
    SameBytesStayZero(before, after, s, written);
  }

  /** The write of a device whose end fits. */
  lemma WriteRefines(before: seq<QSet>, after: seq<QSet>, a: int, size: nat, written: map<nat, byte>,
                     pos: nat, buf: seq<byte>, mem: Memory, copies: bool, r: Result)
    requires a > 0 && WriteFits(PAGE_SIZE, a, pos, |buf|) && Fits(PAGE_SIZE, a, size)
    requires Usable(ItemSize(PAGE_SIZE, a), PAGE_SIZE, a, pos) && mem.quantum in {None, Some(ZeroPage())}
    requires Sound(before, PAGE_SIZE, a, UsedSlots(PAGE_SIZE, a), size, written)
    requires Zeroed(before, UsedSlots(PAGE_SIZE, a), written)
    requires WriteOutcome(before, after, ItemSize(PAGE_SIZE, a), PAGE_SIZE, a, pos, buf, mem, copies, r)
    ensures r.Ok? ==> r.count == Min(|buf|, PAGE_SIZE - OffsetOf(pos, PAGE_SIZE))
    ensures r.Ok? ==> Fits(PAGE_SIZE, a, Max(size, pos + r.count))
    ensures Refined(before, after, PAGE_SIZE, a, UsedSlots(PAGE_SIZE, a), size, written, pos,
      Head(buf, Min(|buf|, PAGE_SIZE - OffsetOf(pos, PAGE_SIZE))), r)
    ensures Zeroed(after, UsedSlots(PAGE_SIZE, a), if r.Ok? then written + Bytes(pos, Head(buf, r.count)) else written)
  {
    var m, s := ItemSize(PAGE_SIZE, a), UsedSlots(PAGE_SIZE, a);
    SizesGiveGeometry(PAGE_SIZE, a);
    WriteKeepsMap(before, after, PAGE_SIZE, a, size, written, pos, buf, mem, copies, r);
    WriteGoesToPlace(before, after, m, PAGE_SIZE, a, s, pos, buf, mem, copies, r);
    PlaceKeepsZero(before, after, a, s, written, pos, Head(buf, Min(|buf|, PAGE_SIZE - OffsetOf(pos, PAGE_SIZE))), mem,
                   copies, r);
  }

  lemma ValidReaches(d: Device, pos: nat)
    requires d.Valid() && pos < d.size
    ensures d.qset > 0 && d.Reaches(pos)
  {
    SizesGiveGeometry(PAGE_SIZE, d.qset);
    ReadsInList(d.list, ItemSize(PAGE_SIZE, d.qset), PAGE_SIZE, d.qset, UsedSlots(PAGE_SIZE, d.qset), d.size, d.written,
                pos);
  }

  /** scullp_read on a byte map.  Only at the very end of the file can the address be out of reach. */
  method ReadValid(d: Device, pos: nat, count: nat, copies: bool, signalled: bool)
    returns (r: Result, bytes: seq<byte>, pos': nat)
    requires d.Valid() && (signalled || pos != d.size || d.Reaches(pos))
    modifies d`list
    ensures d.Valid() && d.list == Extend(old(d.list), |d.list|) && (pos != d.size ==> d.list == old(d.list))
    ensures ReadsAll(d.written, pos, bytes) && pos' == pos + |bytes| && |bytes| <= count
    ensures bytes != [] ==> pos + |bytes| <= d.size
    ensures !signalled && pos < d.size ==> d.qset > 0
    ensures !signalled && pos < d.size && d.PageAt(pos).Some? && copies ==>
      r == Ok(Min(count, Min(d.size - pos, PAGE_SIZE - OffsetOf(pos, PAGE_SIZE)))) && r.count == |bytes|
    ensures !signalled && pos < d.size && d.PageAt(pos).None? ==> r == Ok(0) && bytes == []
  {
    if pos < d.size { ValidReaches(d, pos); }
    ghost var before := d.list;
    r, bytes, pos' := d.Read(pos, count, copies, signalled);
    if !signalled && d.qset > 0 {
      ghost var a, s := d.qset, UsedSlots(PAGE_SIZE, d.qset);
      SizesGiveGeometry(PAGE_SIZE, a);
      ReadRefines(before, d.list, ItemSize(PAGE_SIZE, a), a, s, d.size, d.written, pos, count, copies, r, bytes);
      EmptyReadExtends(before, d.list, a, s, d.size, d.written, pos);
      PageHasByte(before, a, s, pos);
    }
  }

  lemma PageHasByte(list: seq<QSet>, a: nat, s: nat, pos: nat)
    requires 0 < s <= a && WellFormed(list, PAGE_SIZE, a)
    ensures ByteAt(list, PAGE_SIZE, s, pos).Some? <==>
      Slot(list, ItemOf(pos, PAGE_SIZE, s), SlotOf(pos, PAGE_SIZE, s)).Some?
  {
    var i, k := ItemOf(pos, PAGE_SIZE, s), SlotOf(pos, PAGE_SIZE, s);
    if Slot(list, i, k).Some? { assert WellFormedNode(list[i], PAGE_SIZE, a); }
  }

  /** scullp_write on a byte map, within the array length's reach. */
  method WriteValid(d: Device, pos: nat, buf: seq<byte>, pointers: bool, page: bool, copies: bool, signalled: bool)
    returns (r: Result, pos': nat)
    requires d.Valid() && (signalled || WriteFits(PAGE_SIZE, d.qset, pos, |buf|))
    modifies d
    ensures d.Valid() && d.qset == old(d.qset) && d.vmas == old(d.vmas)
    ensures signalled ==> r == Err(ERESTARTSYS) && d.list == old(d.list)
    ensures !signalled ==> d.qset > 0 && KeepsSlots(old(d.list), d.list)
    ensures !signalled ==>
      Stored(old(d.list), d.list, PAGE_SIZE, UsedSlots(PAGE_SIZE, d.qset), pos,
             if r.Ok? then Head(buf, r.count) else [])
    ensures r.Ok? ==>
      copies && !signalled && r.count == Min(|buf|, PAGE_SIZE - OffsetOf(pos, PAGE_SIZE)) && pos' == pos + r.count
    ensures r.Ok? ==> d.size == Max(old(d.size), pos') && d.written == old(d.written) + Bytes(pos, Head(buf, r.count))
    ensures r.Err? ==> pos' == pos && d.size == old(d.size) && d.written == old(d.written)
    ensures !signalled && pointers && page ==> (r.Ok? <==> copies)
  {
    ghost var before, size, written, a := d.list, d.size, d.written, d.qset;
    if !signalled { FitsReaches(PAGE_SIZE, d.qset, pos, |buf|); }
    r, pos' := d.Write(pos, buf, pointers, page, copies, signalled);
    if !signalled {
      ghost var mem := Delivered(Address(ItemSize(PAGE_SIZE, a), PAGE_SIZE, pos).item, pointers, page);
      WriteRefines(before, d.list, a, size, written, pos, buf, mem, copies, r);
      WriteKeepsSlots(before, d.list, ItemSize(PAGE_SIZE, a), a, pos, buf, mem, copies, r);
    }
  }

  /** Nothing a mapping may refer to has been taken away. */
  ghost predicate KeepsSlots(before: seq<QSet>, after: seq<QSet>) {
    forall i: nat, k: nat :: Slot(before, i, k).Some? ==> Slot(after, i, k).Some?
  }

  lemma WriteKeepsSlots(before: seq<QSet>, after: seq<QSet>, m: int, a: nat, pos: nat, buf: seq<byte>,
                        mem: Memory, copies: bool, r: Result)
    requires Usable(m, PAGE_SIZE, a, pos) && WriteOutcome(before, after, m, PAGE_SIZE, a, pos, buf, mem, copies, r)
    ensures KeepsSlots(before, after)
  {
    var at := Address(m, PAGE_SIZE, pos);
    forall i: nat, k: nat | Slot(before, i, k).Some?
      ensures Slot(after, i, k).Some?
    {
      ExtendSlot(before, at.item + 1, i, k);
      ExtendSlot(before, |after|, i, k);
    }
  }

  // -------------------------------------------------------------------- mapping

  /** The walk of nopage and the divisions of a read lead to the same slot exactly when the address computation
      uses all slots of the arrays, or the page is among the used slots of the first item. */
  lemma MapPlaces(offset: nat, a: nat, s: nat)
    requires 0 < s <= a
    ensures (ItemOf(offset, PAGE_SIZE, a) == ItemOf(offset, PAGE_SIZE, s)
             && SlotOf(offset, PAGE_SIZE, a) == SlotOf(offset, PAGE_SIZE, s))
      <==> (s == a || QuantumOf(offset, PAGE_SIZE) < s)
  {
    MapDigits(QuantumOf(offset, PAGE_SIZE), a, s);
  }

  lemma MapDigits(p: nat, a: nat, s: nat)
    requires 0 < s <= a
    ensures (p / a == p / s && p % a == p % s) <==> (s == a || p < s)
  {
    DivMod(p, a);
    DivMod(p, s);
    if p < s {
      ModIsUnique(p, a, 0, p);
      ModIsUnique(p, s, 0, p);
    } else if s < a && p / a == p / s && p % a == p % s {
      DivMono(s, p, s);
      ModIsUnique(s, s, 1, 0);
      Strictly(p / s, s, a);
      assert false;
    }
  }

  lemma Strictly(i: nat, s: nat, a: nat)
    requires i > 0 && s < a
    ensures s * i < a * i
  {
  }

  /** A read returned the stretch of a page, or nothing where there is none. */
  predicate Matches(page: Option<seq<byte>>, size: nat, pos: nat, count: nat, bytes: seq<byte>)
    requires pos < size
  {
    match page
    case None => bytes == []
    case Some(p) =>
      var o, n := OffsetOf(pos, PAGE_SIZE), Min(count, Min(size - pos, PAGE_SIZE - OffsetOf(pos, PAGE_SIZE)));
      |p| == PAGE_SIZE && bytes == p[o..o + n]
  }

  lemma ReadIsMapped(before: seq<QSet>, after: seq<QSet>, m: int, a: int, s: int, size: nat, written: map<nat, byte>,
                     pos: nat, count: nat, r: Result, bytes: seq<byte>)
    requires Geometry(m, PAGE_SIZE, a, s) && FitsSize(m, PAGE_SIZE, a, size) && pos < size
    requires Sound(before, PAGE_SIZE, a, s, size, written) && Usable(m, PAGE_SIZE, a, pos)
    requires s == a || QuantumOf(pos, PAGE_SIZE) < s
    requires ReadsPage(before, after, m, size, pos, count, true, r, bytes)
    ensures after == before && Matches(Mapped(before, a, pos), size, pos, count, bytes)
  {
    MapPlaces(pos, a, s);
    ReadsInList(before, m, PAGE_SIZE, a, s, size, written, pos);
    assert WellFormedNode(before[ItemOf(pos, PAGE_SIZE, s)], PAGE_SIZE, a);
  }

  /** What read returns is the stretch of the page nopage maps, and both refuse the same holes, wherever the two
      computations lead to the same slot. */
  method ReadMatchesMapping(d: Device, pos: nat, count: nat) returns (page: Option<seq<byte>>, bytes: seq<byte>)
    requires d.Valid() && pos < d.size
    requires d.qset > 0 ==>
      UsedSlots(PAGE_SIZE, d.qset) == d.qset || QuantumOf(pos, PAGE_SIZE) < UsedSlots(PAGE_SIZE, d.qset)
    modifies d`list
    ensures d.Valid() && d.list == old(d.list) && Matches(page, d.size, pos, count, bytes)
  {
    page := d.Nopage(pos);
    ghost var a, before := d.qset, d.list;
    ValidReaches(d, pos);
    var r, pos';
    r, bytes, pos' := d.Read(pos, count, true, false);
    SizesGiveGeometry(PAGE_SIZE, a);
    ReadIsMapped(before, d.list, ItemSize(PAGE_SIZE, a), a, UsedSlots(PAGE_SIZE, a), d.size, d.written, pos, count, r,
                 bytes);
  }

  /** The shortest array length whose wrapped item size is one page. */
  const WRAPPING_QSET: int := 0x10_0001

  lemma WrappingQset()
    ensures ItemSize(PAGE_SIZE, WRAPPING_QSET) == PAGE_SIZE && UsedSlots(PAGE_SIZE, WRAPPING_QSET) == 1
  {
    assert PAGE_SIZE * WRAPPING_QSET == WORD + PAGE_SIZE;
  }

  /** With that array length nopage refuses the second page although a read returns what was written there. */
  method MappingMissesPage(d: Device, x: byte) returns (page: Option<seq<byte>>, r: Result, bytes: seq<byte>)
    requires d.Shape() && d.vmas == 0
    modifies d
    ensures d.size == PAGE_SIZE + 1 && PAGE_SIZE in d.written
    ensures page.None? && r == Ok(1) && bytes == [x]
  {
    WrappingQset();
    SecondPage();
    var _ := d.Trim(WRAPPING_QSET);
    var w, pos' := d.Write(PAGE_SIZE, [x], true, true, true, false);
    WroteSecondPage(d.list, x, w);
    page := d.Nopage(PAGE_SIZE);
    r, bytes, pos' := d.Read(PAGE_SIZE, 1, true, false);
  }

  lemma SecondPage()
    ensures Address(PAGE_SIZE, PAGE_SIZE, PAGE_SIZE) == Place(1, 0, 0)
    ensures ItemOf(PAGE_SIZE, PAGE_SIZE, WRAPPING_QSET) == 0 && SlotOf(PAGE_SIZE, PAGE_SIZE, WRAPPING_QSET) == 1
  {
  }

  lemma WroteSecondPage(after: seq<QSet>, x: byte, r: Result)
    requires Address(PAGE_SIZE, PAGE_SIZE, PAGE_SIZE) == Place(1, 0, 0)
    requires WriteOutcome([EMPTY], after, PAGE_SIZE, PAGE_SIZE, WRAPPING_QSET, PAGE_SIZE, [x], Delivered(1, true, true),
                          true, r)
    ensures r == Ok(1) && Slot(after, 0, 1).None?
    ensures Slot(after, 1, 0) == Some(Patch(ZeroPage(), 0, [x]))
  {
    assert [x][..1] == [x];
  }

  // ------------------------------------------------------------------- sessions

  datatype Request =
    | DoRead(pos: nat, count: nat, copies: bool, signalled: bool)
    | DoWrite(pos: nat, buf: seq<byte>, pointers: bool, page: bool, copies: bool, signalled: bool)
    | DoTrim(globalQset: int)
    | DoMap
    | DoUnmap

  datatype Store = Store(list: seq<QSet>, qset: int, size: nat)

  /** What the source gets through: addresses in reach, and no unmapping without a mapping. */
  predicate Served(d: Device, req: Request)
    reads d
  {
    match req
    case DoRead(pos, _, _, signalled) => signalled || pos != d.size || d.Reaches(pos)
    case DoWrite(pos, buf, _, _, _, signalled) => signalled || WriteFits(PAGE_SIZE, d.qset, pos, |buf|)
    case DoTrim(_) => true
    case DoMap => true
    case DoUnmap => d.vmas > 0
  }

  /** How many mappings a series of requests leaves, read off the requests alone. */
  function Mappings(reqs: seq<Request>): int {
    if reqs == [] then 0
    else Mappings(reqs[..|reqs| - 1]) + match reqs[|reqs| - 1] case DoMap => 1 case DoUnmap => -1 case _ => 0
  }

  /** What each request does to the storage and returns, with the history and the number of mappings before it. */
  ghost predicate Serves(req: Request, vmas: int, h: seq<Event>, e: Event, before: Store, after: Store) {
    && (!req.DoTrim? ==> after.qset == before.qset && after.size >= before.size && KeepsSlots(before.list, after.list))
    && match req
       case DoRead(pos, count, copies, signalled) =>
         && e.Got? && e.pos == pos && |e.bytes| <= count
         && ReadsAll(LastWritten(h), pos, e.bytes) && (e.bytes != [] ==> pos + |e.bytes| <= HighestEnd(h))
         && (copies && !signalled && count > 0 && pos in LastWritten(h) ==> e.bytes != [])
       case DoWrite(pos, buf, pointers, page, copies, signalled) =>
         && (e.Wrote? ==> copies && !signalled && e.pos == pos)
         && (e.Wrote? ==> e.bytes == Head(buf, Min(|buf|, PAGE_SIZE - OffsetOf(pos, PAGE_SIZE))))
         && (!e.Wrote? ==> e == Other && after.size == before.size)
         && (pointers && page && copies && !signalled ==> e.Wrote?)
       case DoTrim(globalQset) =>
         if vmas > 0 then e == Other && after == before else e == Trimmed && after == Store([EMPTY], globalQset, 0)
       case DoMap => e == Other && after == before
       case DoUnmap => e == Other && after == before
  }

  /** The device agrees with the history of its requests. */
  ghost predicate Agrees(d: Device, h: seq<Event>, store: Store)
    reads d
  {
    && d.Valid() && d.written == LastWritten(h) && d.size == HighestEnd(h)
    && store == Store(d.list, d.qset, d.size)
  }

  lemma NextHistory(h: seq<Event>, e: Event)
    ensures LastWritten(h + [e]) == NextWritten(LastWritten(h), e) && HighestEnd(h + [e]) == NextEnd(HighestEnd(h), e)
  {
    assert (h + [e])[..|h|] == h;
  }

  method ServeRead(d: Device, req: Request, vmas: int, ghost h: seq<Event>, ghost before: Store)
    returns (e: Event, ghost after: Store)
    requires Agrees(d, h, before) && req.DoRead? && Served(d, req)
    modifies d`list
    ensures Agrees(d, h + [e], after) && Serves(req, vmas, h, e, before, after)
  {
    if req.pos in d.written { WrittenHasPage(d, req.pos); }
    var r, bytes, _ := ReadValid(d, req.pos, req.count, req.copies, req.signalled);
    e, after := Got(req.pos, bytes), Store(d.list, d.qset, d.size);
    ReadServes(req, vmas, h, bytes, before, after);
    NextHistory(h, e);
  }

  lemma ReadServes(req: Request, vmas: int, h: seq<Event>, bytes: seq<byte>, before: Store, after: Store)
    requires req.DoRead? && |bytes| <= req.count && ReadsAll(LastWritten(h), req.pos, bytes)
    requires bytes != [] ==> req.pos + |bytes| <= HighestEnd(h)
    requires req.copies && !req.signalled && req.count > 0 && req.pos in LastWritten(h) ==> bytes != []
    requires after == before.(list := Extend(before.list, |after.list|))
    ensures Serves(req, vmas, h, Got(req.pos, bytes), before, after)
  {
    ExtendKeepsSlots(before.list, |after.list|);
  }

  lemma WrittenHasPage(d: Device, pos: nat)
    requires d.Valid() && pos in d.written
    ensures pos < d.size && d.qset > 0 && d.PageAt(pos).Some?
  {
    PageHasByte(d.list, d.qset, UsedSlots(PAGE_SIZE, d.qset), pos);
  }

  lemma ExtendKeepsSlots(list: seq<QSet>, n: nat)
    ensures KeepsSlots(list, Extend(list, n))
  {
    forall i: nat, k: nat ensures Slot(Extend(list, n), i, k) == Slot(list, i, k) {
      ExtendSlot(list, n, i, k);
    }
  }

  method ServeWrite(d: Device, req: Request, vmas: int, ghost h: seq<Event>, ghost before: Store)
    returns (e: Event, ghost after: Store)
    requires Agrees(d, h, before) && req.DoWrite? && Served(d, req)
    modifies d
    ensures Agrees(d, h + [e], after) && Serves(req, vmas, h, e, before, after) && d.vmas == old(d.vmas)
  {
    var r, _ := WriteValid(d, req.pos, req.buf, req.pointers, req.page, req.copies, req.signalled);
    e, after := if r.Ok? then Wrote(req.pos, Head(req.buf, r.count)) else Other, Store(d.list, d.qset, d.size);
    NextHistory(h, e);
  }

  method ServeTrim(d: Device, req: Request, ghost h: seq<Event>, ghost before: Store)
    returns (e: Event, ghost after: Store)
    requires Agrees(d, h, before) && req.DoTrim?
    modifies d
    ensures Agrees(d, h + [e], after) && Serves(req, d.vmas, h, e, before, after) && d.vmas == old(d.vmas)
  {
    var busy := d.Trim(req.globalQset);
    e, after := if busy then Other else Trimmed, Store(d.list, d.qset, d.size);
    NextHistory(h, e);
  }

  method ServeOne(d: Device, req: Request, ghost h: seq<Event>, ghost before: Store)
    returns (e: Event, ghost after: Store)
    requires Agrees(d, h, before) && Served(d, req)
    modifies d
    ensures Agrees(d, h + [e], after) && Serves(req, old(d.vmas), h, e, before, after)
    ensures d.vmas == old(d.vmas) + match req case DoMap => 1 case DoUnmap => -1 case _ => 0
  {
    e, after := Other, before;
    match req
    case DoRead(_, _, _, _) =>
      e, after := ServeRead(d, req, d.vmas, h, before);
    case DoWrite(_, _, _, _, _, _) =>
      e, after := ServeWrite(d, req, d.vmas, h, before);
    case DoTrim(_) =>
      e, after := ServeTrim(d, req, h, before);
    case DoMap =>
      d.VmaOpen();
      NextHistory(h, e);
    case DoUnmap =>
      d.VmaClose();
      NextHistory(h, e);
  }

  /** The events and the states between them answer the requests one by one. */
  ghost predicate Runs(reqs: seq<Request>, h: seq<Event>, at: seq<Store>) {
    && |h| <= |reqs| && |at| == |h| + 1
    && forall k :: 0 <= k < |h| ==> Serves(reqs[k], Mappings(reqs[..k]), h[..k], h[k], at[k], at[k + 1])
  }

  lemma RunsOneMore(reqs: seq<Request>, h: seq<Event>, at: seq<Store>, e: Event, after: Store)
    requires Runs(reqs, h, at) && |h| < |reqs|
    requires Serves(reqs[|h|], Mappings(reqs[..|h|]), h, e, at[|h|], after)
    ensures Runs(reqs, h + [e], at + [after])
  {
    var g, b := h + [e], at + [after];
    forall k | 0 <= k < |g|
      ensures Serves(reqs[k], Mappings(reqs[..k]), g[..k], g[k], b[k], b[k + 1])
    {
      assert g[..k] == h[..k];
      if k == |h| { assert h[..k] == h; }
    }
  }

  /** Any requests on a fresh device, as far as the source gets: reads return what was last written and zeros
      elsewhere, and trims are refused exactly while there are mappings. */
  method Serve(d: Device, reqs: seq<Request>) returns (h: seq<Event>, ghost at: seq<Store>)
    requires d.Valid() && d.vmas == 0 && d.size == 0 && d.written == map[]
    modifies d
    ensures Runs(reqs, h, at) && Agrees(d, h, at[|h|]) && d.vmas == Mappings(reqs[..|h|])
    ensures |h| < |reqs| ==> !Served(d, reqs[|h|])
  {
    h, at := [], [Store(d.list, d.qset, d.size)];
    for k := 0 to |reqs|
      invariant |h| == k && Runs(reqs, h, at) && Agrees(d, h, at[k]) && d.vmas == Mappings(reqs[..k])
    {
      if !Served(d, reqs[k]) {
        return;
      }
      ghost var after;
      var e;
      e, after := ServeOne(d, reqs[k], h, at[k]);
      RunsOneMore(reqs, h, at, e, after);
      assert reqs[..k + 1][..k] == reqs[..k];
      h, at := h + [e], at + [after];
    }
  }

  /** As long as the device is mapped at every trim of a stretch of a run, its geometry stays, and every page
      that nopage mapped at its start it maps at its end. */
  lemma {:induction false} MappedPagesStay(reqs: seq<Request>, h: seq<Event>, at: seq<Store>, i: nat, j: nat)
    requires Runs(reqs, h, at) && i <= j <= |h|
    requires forall k :: i <= k < j && reqs[k].DoTrim? ==> Mappings(reqs[..k]) > 0
    ensures at[j].qset == at[i].qset && at[j].size >= at[i].size && KeepsSlots(at[i].list, at[j].list)
    ensures at[i].qset > 0 ==>
      forall p :: Mapped(at[i].list, at[i].qset, p).Some? ==> Mapped(at[j].list, at[j].qset, p).Some?
    decreases j
  {
    if i < j {
      MappedPagesStay(reqs, h, at, i, j - 1);
      assert Serves(reqs[j - 1], Mappings(reqs[..j - 1]), h[..j - 1], h[j - 1], at[j - 1], at[j]);
    }
  }
}
