/** The scull device (drivers/examples/scull/main.c): sparse storage that refines a partial map
    from positions to bytes, with quantum and quantum-set sizes that ioctl changes globally and
    a device only adopts when it is trimmed. */
module Scull {
  import opened Wrappers
  import opened Arithmetic
  import opened Words
  import opened QuantumStore
  import opened IntAddressing

  const SCULL_QUANTUM: int := 4000
  const SCULL_QSET: int := 1000

  datatype Errno = ERESTARTSYS | ENOMEM | EFAULT | EINVAL | EPERM | ENOTTY

  datatype Result = Ok(count: nat) | Err(errno: Errno)

  /** What kmalloc will deliver during a call: how many list items, whether a pointer array, and
      the content of a fresh quantum, which nobody zeroes. */
  datatype Memory = Memory(items: nat, pointers: bool, quantum: Option<seq<byte>>)

  // ------------------------------------------------------------------- globals

  /** An int in user space: what __get_user fetches, or what it leaves behind when it faults. */
  datatype UserInt = Fetched(value: int) | Faulting(left: int)

  /** What ioctl can do to one of the sizes. */
  datatype Operation = Set(user: UserInt) | Tell(arg: nat) | Get(writable: bool) | Query
                     | Exchange(user: UserInt, writable: bool) | Shift(arg: nat)

  datatype Command = Reset | OnQuantum(op: Operation) | OnQset(op: Operation) | Unknown

  predicate Privileged(op: Operation) {
    op.Set? || op.Tell? || op.Exchange? || op.Shift?
  }

  function LeftBy(user: UserInt): int {
    match user
    case Fetched(v) => v
    case Faulting(l) => l
  }

  /** The size after an operation that was allowed; the value is not checked. */
  function NewSize(size: int, op: Operation): int {
    match op
    case Set(user) => LeftBy(user)
    case Tell(arg) => ToInt(arg)
    case Exchange(user, _) => LeftBy(user)
    case Shift(arg) => ToInt(arg)
    case _ => size
  }

  class Globals {
    var quantum: int
    var qset: int

    constructor ()
      ensures quantum == SCULL_QUANTUM && qset == SCULL_QSET
    {
      quantum, qset := SCULL_QUANTUM, SCULL_QSET;
    }

    /** scull_ioctl on the two sizes. out is what a command puts into user space. */
    method Ioctl(cmd: Command, capable: bool) returns (r: int, out: Option<int>, err: Option<Errno>)
      modifies this
      ensures cmd.Unknown? ==> err == Some(ENOTTY)
      ensures cmd.Reset? ==> err.None? && quantum == 4000 && qset == 1000
      ensures cmd.OnQuantum? ==>
        qset == old(qset) && Operates(cmd.op, capable, old(quantum), Effect(quantum, r, out, err))
      ensures cmd.OnQset? ==>
        quantum == old(quantum) && Operates(cmd.op, capable, old(qset), Effect(qset, r, out, err))
      ensures cmd.Unknown? ==> quantum == old(quantum) && qset == old(qset)
      ensures !cmd.OnQuantum? && !cmd.OnQset? ==> r == 0 && out.None?
    {
      r, out, err := 0, None, None;
      match cmd
      case Reset =>
        quantum, qset := SCULL_QUANTUM, SCULL_QSET;
      case OnQuantum(op) =>
        var size;
        size, r, out, err := Operate(quantum, op, capable);
        quantum := size;
      case OnQset(op) =>
        var size;
        size, r, out, err := Operate(qset, op, capable);
        qset := size;
      case Unknown =>
        err := Some(ENOTTY);
    }
  }

  /** What a command leaves and answers: the new size, the value returned, what is put into user space, the error. */
  datatype Effect = Effect(size: int, returned: int, out: Option<int>, err: Option<Errno>)

  /** The effect of each command on one size. The four that change it are refused without the capability; a fetch
      that faults changes it all the same. */
  predicate Operates(op: Operation, capable: bool, before: int, e: Effect) {
    match op
    case Query => e == Effect(before, before, None, None)
    case Get(writable) =>
      e == if writable then Effect(before, 0, Some(before), None) else Effect(before, 0, None, Some(EFAULT))
    case Tell(arg) =>
      e == if capable then Effect(ToInt(arg), 0, None, None) else Effect(before, 0, None, Some(EPERM))
    case Shift(arg) =>
      e == if capable then Effect(ToInt(arg), before, None, None) else Effect(before, 0, None, Some(EPERM))
    case Set(user) =>
      e == (if !capable then Effect(before, 0, None, Some(EPERM))
            else match user
              case Fetched(v) => Effect(v, 0, None, None)
              case Faulting(l) => Effect(l, 0, None, Some(EFAULT)))
    case Exchange(user, writable) =>
      e == (if !capable then Effect(before, 0, None, Some(EPERM))
            else match user
              case Fetched(v) =>
                if writable then Effect(v, 0, Some(before), None) else Effect(v, 0, None, Some(EFAULT))
              case Faulting(l) => Effect(l, 0, None, Some(EFAULT)))
  }

  /** The six commands for one size; both sizes have the same. */
  method Operate(current: int, op: Operation, capable: bool)
    returns (size: int, r: int, out: Option<int>, err: Option<Errno>)
    ensures Operates(op, capable, current, Effect(size, r, out, err))
  {
    size, r, out, err := current, 0, None, None;
    if !capable && (op.Set? || op.Tell? || op.Exchange? || op.Shift?) {
      return size, r, out, Some(EPERM);
    }
    match op
    case Set(user) =>
      size, err := GetUser(user);
    case Tell(arg) =>
      size := ToInt(arg);
    case Get(writable) =>
      if writable { out := Some(size); } else { err := Some(EFAULT); }
    case Query =>
      r := size;
    case Exchange(user, writable) =>
      var tmp := size;
      size, err := GetUser(user);
      if err.None? {
        if writable { out := Some(tmp); } else { err := Some(EFAULT); }
      }
    case Shift(arg) =>
      r := size;
      size := ToInt(arg);
  }

  method GetUser(user: UserInt) returns (value: int, err: Option<Errno>)
    ensures value == LeftBy(user) && err == if user.Faulting? then Some(EFAULT) else None
  {
    match user
    case Fetched(v) => return v, None;
    case Faulting(l) => return l, Some(EFAULT);
  }

  // ------------------------------------------- reads and writes at int addresses

  /** The list with bytes copied over the quantum at a place, or over a new one. */
  function RawPut(list: seq<QSet>, i: nat, k: nat, o: nat, a: nat, bytes: seq<byte>, unset: seq<byte>): seq<QSet> {
    var longer := Extend(list, i + 1);
    var slots := ArrayOf(longer[i], a);
    if k >= |slots| then longer
    else
      var content := if slots[k].Some? then slots[k].value else unset;
      if o + |bytes| > |content| then longer else PutQuantum(longer, i, k, a, Patch(content, o, bytes))
  }

  /** What a read from a place does. */
  ghost predicate ReadsPlace(before: seq<QSet>, after: seq<QSet>, i: nat, k: nat, o: nat, n: nat, copies: bool,
                             r: Result, bytes: seq<byte>) {
    var quantum := Slot(before, i, k);
    && after == Extend(before, |after|) && (i < |before| ==> after == before)
    && if quantum.None? then r == Ok(0) && bytes == []
       else if !copies then r == Err(EFAULT) && bytes == []
       else r == Ok(n) && o + n <= |quantum.value| && bytes == quantum.value[o..o + n]
  }

  /** What a write to a place does with the bytes that fit the quantum. */
  ghost predicate WritesPlace(before: seq<QSet>, after: seq<QSet>, i: nat, k: nat, o: nat, a: nat, bytes: seq<byte>,
                              mem: Memory, copies: bool, r: Result) {
    && (i < mem.items && mem.pointers && mem.quantum.Some? ==> (r.Ok? <==> copies))
    && (Slot(before, i, k).Some? ==> (r.Ok? <==> copies))
    && (r.Ok? ==>
      && copies && r.count == |bytes|
      && (Slot(before, i, k).Some? || mem.quantum.Some?)
      && after == RawPut(before, i, k, o, a, bytes, Fresh(mem)))
    && (r.Err? ==> Grown(before, after, i, k, a, mem) && r.errno == if Slot(after, i, k).Some? then EFAULT else ENOMEM)
  }

  /** What a read does that is not interrupted, whatever the sizes. */
  ghost predicate ReadOutcome(before: seq<QSet>, after: seq<QSet>, m: int, q: int, size: nat, pos: nat, count: nat,
                              copies: bool, r: Result, bytes: seq<byte>)
    requires pos < size ==> m != 0 && q > 0 && Address(m, q, pos).item >= 0
  {
    if pos >= size then r == Ok(0) && bytes == [] && after == before
    else
      var at := Address(m, q, pos);
      ReadsPlace(before, after, at.item, at.slot, at.offset, Min(count, Min(size - pos, q - at.offset)), copies, r,
                 bytes)
  }

  /** What a write does that is not interrupted, whatever the sizes. */
  ghost predicate WriteOutcome(before: seq<QSet>, after: seq<QSet>, m: int, q: int, a: int, pos: nat, buf: seq<byte>,
                               mem: Memory, copies: bool, r: Result)
    requires Usable(m, q, a, pos)
  {
    var at := Address(m, q, pos);
    WritesPlace(before, after, at.item, at.slot, at.offset, a, buf[..Min(|buf|, q - at.offset)], mem, copies, r)
  }

  /** One past the last position a write addresses; even one of no bytes addresses its own. */
  function WriteEnd(m: int, q: int, pos: nat, count: nat): nat
    requires m != 0 && q > 0
  {
    pos + Max(1, Min(count, q - Address(m, q, pos).offset))
  }

  // -------------------------------------------------------------------- device

  class Device {
    var data: seq<QSet>
    var quantum: int
    var qset: int
    var size: nat
    var kmallocs: nat  // blocks allocated and not yet freed
    ghost var written: map<nat, byte>  // the byte last written at each position since the last trim

    ghost function At(pos: nat): Option<byte>
      reads this
      requires quantum > 0 && qset > 0
    {
      ByteAt(data, quantum, UsedSlots(quantum, qset), pos)
    }

    /** What holds with any sizes. */
    ghost predicate Shape()
      reads this
    {
      && kmallocs == Blocks(data) && |data| <= INT_LIMIT
      && if quantum > 0 && qset > 0 then WellFormed(data, quantum, qset) else data == []
    }

    /** The int arithmetic gives a position a place in an array. */
    predicate Reaches(pos: nat)
      reads this
    {
      Usable(ItemSize(quantum, qset), quantum, qset, pos)
    }

    /** The device is a byte map as far as its size. */
    ghost predicate Valid()
      reads this
    {
      && Shape() && Fits(quantum, qset, size)
      && if quantum > 0 && qset > 0 then Sound(data, quantum, qset, UsedSlots(quantum, qset), size, written)
         else written == map[]
    }

    constructor (g: Globals)
      ensures Valid() && size == 0 && written == map[] && quantum == g.quantum && qset == g.qset
    {
      data, size, kmallocs, written := [], 0, 0, map[];
      quantum, qset := g.quantum, g.qset;
    }

    /** Frees one list item with its array and quanta; kfree(NULL) does nothing. */
    method FreeNode(dptr: QSet)
      requires kmallocs >= NodeBlocks(dptr) && (dptr.data.Some? ==> |dptr.data.value| == qset)
      modifies this`kmallocs
      ensures kmallocs == old(kmallocs) - NodeBlocks(dptr)
    {
      if dptr.data.Some? {
        var a := dptr.data.value;
        var i := 0;
        while i < qset
          invariant 0 <= i <= |a| && kmallocs == old(kmallocs) - SlotBlocks(a[..i])
        {
          assert a[..i + 1][..i] == a[..i];
          SlotBlocksPrefix(a, i + 1);
          if a[i].Some? {
            kmallocs := kmallocs - 1;
          }
          i := i + 1;
        }
        assert a[..i] == a;
        kmallocs := kmallocs - 1;
      }
      kmallocs := kmallocs - 1;
    }

    /** scull_trim: frees every block, forgets everything, and adopts the global sizes. */
    method Trim(g: Globals)
      requires Shape()
      modifies this
      ensures Valid() && data == [] && size == 0 && written == map[] && kmallocs == 0
      ensures quantum == g.quantum && qset == g.qset
    {
      var i := 0;
      while i < |data|
        invariant i <= |data| && data == old(data) && qset == old(qset)
        invariant kmallocs + Blocks(data[..i]) == Blocks(data)
      {
        assert data[..i + 1][..i] == data[..i];
        BlocksPrefix(data, i + 1);
        FreeNode(data[i]);
        i := i + 1;
      }
      assert data[..i] == data;
      size := 0;
      quantum := g.quantum;
      qset := g.qset;
      data := [];
      written := map[];
    }

    /** scull_follow: makes the list long enough for item n, unless memory runs out on the way. */
    method Follow(n: nat, items: nat) returns (found: bool)
      requires kmallocs == Blocks(data)
      modifies this`data, this`kmallocs
      ensures kmallocs == Blocks(data)
      ensures data == Extend(old(data), |data|) && |data| <= (if n < |old(data)| then |old(data)| else n + 1)
      ensures found ==> n < |data|
      ensures n < |old(data)| ==> found && data == old(data)
      ensures n < items ==> found
    {
      ghost var s := data;
      var left, qs, k := items, 0, n;
      if data == [] {
        if left == 0 {
          return false;
        }
        data, kmallocs, left := [EMPTY], kmallocs + 1, left - 1;
      }
      while k > 0
        invariant k >= 0 && qs + k == n && data == Extend(s, |data|) && kmallocs == Blocks(data)
        invariant |data| == if qs < |s| then |s| else qs + 1
        invariant left + |data| == items + |s|
      {
        if qs + 1 == |data| {
          if left == 0 {
            return false;
          }
          ExtendByOne(s, |data|);
          data, kmallocs, left := data + [EMPTY], kmallocs + 1, left - 1;
        }
        qs := qs + 1;
        k := k - 1;
      }
      found := true;
    }

    /** scull_read.  Blocking on the semaphore can be interrupted and copy_to_user can fail. */
    method Read(pos: nat, count: nat, items: nat, copies: bool, signalled: bool)
      returns (r: Result, bytes: seq<byte>, pos': nat)
      requires Shape() && (signalled || pos >= size || Reaches(pos))
      modifies this`data, this`kmallocs
      ensures Shape() && pos' == pos + |bytes|
      ensures signalled ==> r == Err(ERESTARTSYS) && bytes == [] && data == old(data)
      ensures !signalled ==>
        ReadOutcome(old(data), data, ItemSize(quantum, qset), quantum, size, pos, count, copies, r, bytes)
      ensures data == old(data) ==> kmallocs == old(kmallocs)
    {
      if signalled {
        return Err(ERESTARTSYS), [], pos;
      }
      if pos >= size {
        return Ok(0), [], pos;
      }
      var n := if pos + count > size then size - pos else count;
      var item, sPos, qPos := Locate(quantum, qset, pos);
      n := if n > quantum - qPos then quantum - qPos else n;
      r, bytes := ReadPlace(item, sPos, qPos, n, items, copies);
      pos' := pos + |bytes|;
    }

    /** The part of scull_read behind the address computation. */
    method ReadPlace(item: nat, sPos: nat, qPos: nat, n: nat, items: nat, copies: bool)
      returns (r: Result, bytes: seq<byte>)
      requires Shape() && quantum > 0 && qset > 0 && item < INT_LIMIT && qPos + n <= quantum
      modifies this`data, this`kmallocs
      ensures Shape() && ReadsPlace(old(data), data, item, sPos, qPos, n, copies, r, bytes)
      ensures data == old(data) ==> kmallocs == old(kmallocs)
    {
      ghost var list := data;
      var found := Follow(item, items);
      ExtendSlot(list, |data|, item, sPos);
      ExtendKeepsShape(list, |data|, quantum, qset);
      if found { assert WellFormedNode(data[item], quantum, qset); }
      r, bytes := CopyOut(Slot(data, item, sPos), qPos, n, copies);
    }

    /** Everything scull_write allocates.  What was allocated before a failure stays. */
    method Allocate(item: nat, sPos: nat, mem: Memory) returns (ok: bool)
      requires kmallocs == Blocks(data) && quantum > 0 && sPos < qset && WellFormed(data, quantum, qset)
      modifies this`data, this`kmallocs
      ensures kmallocs == Blocks(data) && Grown(old(data), data, item, sPos, qset, mem)
      ensures ok == Slot(data, item, sPos).Some?
      ensures old(Slot(data, item, sPos)).Some? || (item < mem.items && mem.pointers && mem.quantum.Some?) ==> ok
    {
      ghost var before := data;
      ok := Follow(item, mem.items);
      ExtendSlot(before, |data|, item, sPos);
      if ok {
        assert WellFormedNode(data[item], quantum, qset);
        var blocks;
        data, blocks, ok := FillSlot(data, item, sPos, quantum, qset, mem);
        kmallocs := kmallocs + blocks;
      }
    }

    /** scull_write.  As for reads, the semaphore wait and the user copy can fail; mem says what
        can be allocated.  What was allocated before a failure stays. */
    method Write(pos: nat, buf: seq<byte>, mem: Memory, copies: bool, signalled: bool)
      returns (r: Result, pos': nat)
      requires Shape() && (signalled || Reaches(pos))
      requires mem.quantum.Some? ==> |mem.quantum.value| == quantum
      modifies this
      ensures Shape() && quantum == old(quantum) && qset == old(qset)
      ensures signalled ==> r == Err(ERESTARTSYS) && data == old(data)
      ensures !signalled ==>
        WriteOutcome(old(data), data, ItemSize(quantum, qset), quantum, qset, pos, buf, mem, copies, r)
      ensures r.Ok? ==> pos' == pos + r.count && r.count <= |buf|
      ensures r.Ok? ==> size == Max(old(size), pos') && written == old(written) + Bytes(pos, buf[..r.count])
      ensures r.Err? ==> pos' == pos && size == old(size) && written == old(written)
    {
      if signalled {
        return Err(ERESTARTSYS), pos;
      }
      var item, sPos, qPos := Locate(quantum, qset, pos);
      var n := if |buf| > quantum - qPos then quantum - qPos else |buf|;
      r := WritePlace(item, sPos, qPos, buf[..n], mem, copies);
      pos' := pos;
      if r.Ok? {
        pos' := Account(pos, buf[..n]);
      }
    }

    /** Moves the position behind the bytes and the size with it. */
    method Account(pos: nat, bytes: seq<byte>) returns (pos': nat)
      modifies this`size, this`written
      ensures pos' == pos + |bytes| && size == Max(old(size), pos') && written == old(written) + Bytes(pos, bytes)
    {
      pos' := pos + |bytes|;
      written := written + Bytes(pos, bytes);
      size := if size < pos' then pos' else size;
    }

    /** The part of scull_write that allocates and copies. */
    method WritePlace(item: nat, sPos: nat, qPos: nat, bytes: seq<byte>, mem: Memory, copies: bool) returns (r: Result)
      requires Shape() && quantum > 0 && sPos < qset && item < INT_LIMIT && qPos + |bytes| <= quantum
      requires mem.quantum.Some? ==> |mem.quantum.value| == quantum
      modifies this`data, this`kmallocs
      ensures Shape() && WritesPlace(old(data), data, item, sPos, qPos, qset, bytes, mem, copies, r)
    {
      ghost var before := data;
      var ok := Allocate(item, sPos, mem);
      GrownKeepsShape(before, data, quantum, qset, item, sPos, mem);
      if !ok {
        return Err(ENOMEM);
      }
      if !copies {
        return Err(EFAULT);
      }
      ghost var mid, content := data, Slot(data, item, sPos).value;
      assert WellFormedNode(data[item], quantum, qset);
      data := CopyIn(data, item, sPos, qPos, qset, bytes);
      WriteIsRaw(before, mid, quantum, qset, item, sPos, qPos, content, bytes, mem);
      PutKeepsShape(mid, quantum, qset, item, sPos, Patch(content, qPos, bytes));
      return Ok(|bytes|);
    }
  }

  // -------------------------------------------- what both drivers do to the list

  /** The allocations of a write behind the follow: pointer array and quantum, as far as memory allows;
      blocks says how many. */
  method FillSlot(list: seq<QSet>, item: nat, sPos: nat, ghost quantum: nat, qset: nat, mem: Memory)
    returns (after: seq<QSet>, blocks: nat, ok: bool)
    requires item < |list| && sPos < qset && WellFormedNode(list[item], quantum, qset)
    ensures Filled(list, after, item, sPos, qset, mem) && Blocks(after) == Blocks(list) + blocks
    ensures ok <==> Slot(after, item, sPos).Some?
    ensures mem.pointers && mem.quantum.Some? ==> ok
  {
    after, blocks := list, 0;
    if after[item].data.None? {
      if !mem.pointers {
        return after, blocks, false;
      }
      BlocksUpdate(after, item, QSet(Some(Holes(qset))));
      NoSlotBlocks(qset);
      after, blocks := after[item := QSet(Some(Holes(qset)))], blocks + 1;
    }
    var slots := after[item].data.value;
    if slots[sPos].None? {
      if mem.quantum.None? {
        return after, blocks, false;
      }
      BlocksUpdate(after, item, QSet(Some(slots[sPos := mem.quantum])));
      SlotBlocksUpdate(slots, sPos, mem.quantum);
      after, blocks := after[item := QSet(Some(slots[sPos := mem.quantum]))], blocks + 1;
      assert after == PutQuantum(list, item, sPos, qset, mem.quantum.value);
    }
    ok := true;
  }

  /** copy_from_user into the quantum of slot sPos. */
  method CopyIn(list: seq<QSet>, item: nat, sPos: nat, qPos: nat, qset: nat, bytes: seq<byte>)
    returns (after: seq<QSet>)
    requires Slot(list, item, sPos).Some? && qPos + |bytes| <= |Slot(list, item, sPos).value|
    ensures sPos < |ArrayOf(list[item], qset)| && Blocks(after) == Blocks(list)
    ensures after == PutQuantum(list, item, sPos, qset, Patch(Slot(list, item, sPos).value, qPos, bytes))
  {
    var slots := list[item].data.value;
    var quantum := Patch(slots[sPos].value, qPos, bytes);
    BlocksUpdate(list, item, QSet(Some(slots[sPos := Some(quantum)])));
    SlotBlocksUpdate(slots, sPos, Some(quantum));
    after := list[item := QSet(Some(slots[sPos := Some(quantum)]))];
  }

  /** copy_to_user out of a slot, if there is a quantum. */
  method CopyOut(slot: Option<seq<byte>>, qPos: nat, n: nat, copies: bool) returns (r: Result, bytes: seq<byte>)
    requires slot.Some? ==> qPos + n <= |slot.value|
    ensures slot.None? ==> r == Ok(0) && bytes == []
    ensures slot.Some? ==>
      if copies then r == Ok(n) && bytes == slot.value[qPos..qPos + n] else r == Err(EFAULT) && bytes == []
  {
    if slot.None? {
      return Ok(0), [];
    }
    if !copies {
      return Err(EFAULT), [];
    }
    return Ok(n), slot.value[qPos..qPos + n];
  }

  /** The bytes read at pos are those last written there, wherever something was written. */
  ghost predicate ReadsBack(written: map<nat, byte>, pos: nat, bytes: seq<byte>) {
    forall p :: pos <= p < pos + |bytes| && p in written ==> bytes[p - pos] == written[p]
  }

  /** The bytes of data, keyed by position. */
  function Bytes(pos: nat, data: seq<byte>): (m: map<nat, byte>)
    ensures forall p :: p in m <==> pos <= p < pos + |data|
    ensures forall p :: p in m ==> m[p] == data[p - pos]
  {
    if data == [] then map[] else Bytes(pos, data[..|data| - 1])[pos + |data| - 1 := data[|data| - 1]]
  }

  /** The invariant of a byte map: the list reaches up to size, and every byte written since the last trim
      is still there. Arrays have a entries, of which the addresses use s. */
  ghost predicate Sound(data: seq<QSet>, q: nat, a: nat, s: nat, size: nat, written: map<nat, byte>) {
    && q > 0 && 0 < s <= a && |data| <= INT_LIMIT
    && WellFormed(data, q, a)
    && size <= |data| * (q * s)
    && Remembers(data, q, s, size, written)
  }

  ghost predicate Remembers(data: seq<QSet>, q: nat, s: nat, size: nat, written: map<nat, byte>)
    requires q > 0 && s > 0
  {
    forall p :: p in written ==> p < size && ByteAt(data, q, s, p) == Some(written[p])
  }

  /** Below the size a valid device computes a place inside its list. */
  lemma ReadsInList(data: seq<QSet>, m: int, q: int, a: int, s: int, size: nat, written: map<nat, byte>, pos: nat)
    requires Geometry(m, q, a, s) && FitsSize(m, q, a, size) && pos < size && Sound(data, q, a, s, size, written)
    ensures Usable(m, q, a, pos) && Address(m, q, pos) == ExactPlace(pos, q, s)
    ensures ItemOf(pos, q, s) < |data|
  {
    FittingPlace(m, q, a, size, pos);
    StartsInList(pos, q, s, |data|);
  }

  lemma SliceIsContent(data: seq<QSet>, q: nat, s: nat, pos: nat, n: nat, quantum: seq<byte>)
    requires q > 0 && s > 0 && OffsetOf(pos, q) + n <= q && |quantum| == q
    requires Slot(data, ItemOf(pos, q, s), SlotOf(pos, q, s)) == Some(quantum)
    ensures var bytes := quantum[OffsetOf(pos, q)..OffsetOf(pos, q) + n];
      forall p :: pos <= p < pos + n ==> ByteAt(data, q, s, p) == Some(bytes[p - pos])
  {
    forall p | pos <= p < pos + n
      ensures ByteAt(data, q, s, p) == Some(quantum[OffsetOf(pos, q)..OffsetOf(pos, q) + n][p - pos])
    {
      SameQuantum(pos, p, q);
      SameSlot(pos, p, q, s);
    }
  }

  lemma ExtendSlot(list: seq<QSet>, n: nat, i: nat, k: nat)
    ensures Slot(Extend(list, n), i, k) == Slot(list, i, k)
  {
  }

  lemma ExtendKeepsShape(list: seq<QSet>, n: nat, q: nat, a: nat)
    requires WellFormed(list, q, a)
    ensures WellFormed(Extend(list, n), q, a)
  {
  }

  function Fresh(mem: Memory): seq<byte> {
    if mem.quantum.Some? then mem.quantum.value else []
  }

  /** The list after the allocations for slot k of item i, as far as they went. */
  ghost predicate Filled(before: seq<QSet>, after: seq<QSet>, i: nat, k: nat, a: nat, mem: Memory)
    requires i < |before|
  {
    || after == before
    || (before[i].data.None? && after == before[i := QSet(Some(Holes(a)))])
    || (mem.quantum.Some? && k < |ArrayOf(before[i], a)| && ArrayOf(before[i], a)[k].None?
        && after == PutQuantum(before, i, k, a, mem.quantum.value))
  }

  /** The same with the list items scull_follow may have appended. */
  ghost predicate Grown(before: seq<QSet>, after: seq<QSet>, i: nat, k: nat, a: nat, mem: Memory) {
    var longer := Extend(before, |after|);
    && |before| <= |after| <= (if i < |before| then |before| else i + 1)
    && (after == longer || (i < |longer| && Filled(longer, after, i, k, a, mem)))
  }

  lemma GrownKeepsShape(before: seq<QSet>, after: seq<QSet>, q: nat, a: nat, i: nat, k: nat, mem: Memory)
    requires WellFormed(before, q, a) && k < a && Grown(before, after, i, k, a, mem)
    requires |before| <= INT_LIMIT && i < INT_LIMIT && (mem.quantum.Some? ==> |mem.quantum.value| == q)
    ensures WellFormed(after, q, a) && |after| <= INT_LIMIT
  {
  }

  lemma PutKeepsShape(list: seq<QSet>, q: nat, a: nat, i: nat, k: nat, quantum: seq<byte>)
    requires WellFormed(list, q, a) && i < |list| && k < |ArrayOf(list[i], a)| && |quantum| == q
    ensures WellFormed(PutQuantum(list, i, k, a, quantum), q, a)
  {
  }

  lemma WriteIsRaw(before: seq<QSet>, mid: seq<QSet>, q: nat, a: nat, i: nat, k: nat, o: nat,
                   content: seq<byte>, bytes: seq<byte>, mem: Memory)
    requires WellFormed(before, q, a) && Grown(before, mid, i, k, a, mem) && Slot(mid, i, k) == Some(content)
    requires o + |bytes| <= |content|
    ensures k < |ArrayOf(mid[i], a)|
    ensures PutQuantum(mid, i, k, a, Patch(content, o, bytes)) == RawPut(before, i, k, o, a, bytes, Fresh(mem))
    ensures Slot(before, i, k).Some? || mem.quantum.Some?
  {
    var longer := Extend(before, i + 1);
    assert Extend(before, |mid|) == longer;
    ExtendSlot(before, i + 1, i, k);
    if mid != longer {
      var slots := ArrayOf(longer[i], a);
      assert mid[i].data.value == slots[k := mem.quantum];
      assert slots[k := mem.quantum][k := Some(Patch(content, o, bytes))] == slots[k := Some(Patch(content, o, bytes))];
    }
  }

  lemma NothingStored(before: seq<QSet>, after: seq<QSet>, q: nat, s: nat, pos: nat)
    requires q > 0 && s > 0
    requires forall p :: ByteAt(after, q, s, p) == ByteAt(before, q, s, p)
    ensures Stored(before, after, q, s, pos, [])
  {
  }

  lemma StoredTrans(a: seq<QSet>, b: seq<QSet>, c: seq<QSet>, q: nat, s: nat, pos: nat, data: seq<byte>)
    requires q > 0 && s > 0 && Stored(a, b, q, s, pos, []) && Stored(b, c, q, s, pos, data)
    ensures Stored(a, c, q, s, pos, data)
  {
  }

  /** A device stays sound while the list does not shrink and no byte is lost. */
  lemma SoundFrom(before: seq<QSet>, after: seq<QSet>, q: nat, a: nat, s: nat, size: nat, written: map<nat, byte>,
                  pos: nat)
    requires Sound(before, q, a, s, size, written)
    requires WellFormed(after, q, a) && |before| <= |after| <= INT_LIMIT
    requires Stored(before, after, q, s, pos, [])
    ensures Sound(after, q, a, s, size, written)
  {
    MulMono(q * s, |before|, |after|);
  }

  lemma HolesKeepBytes(list: seq<QSet>, i: nat, q: nat, a: nat, s: nat)
    requires q > 0 && s > 0 && i < |list| && list[i].data.None? && WellFormed(list, q, a)
    ensures var list' := list[i := QSet(Some(Holes(a)))];
      WellFormed(list', q, a) && forall p :: ByteAt(list', q, s, p) == ByteAt(list, q, s, p)
  {
  }

  lemma FilledStores(list: seq<QSet>, after: seq<QSet>, q: nat, a: nat, s: nat, pos: nat, i: nat, k: nat, mem: Memory)
    requires q > 0 && 0 < s <= a && WellFormed(list, q, a)
    requires i == ItemOf(pos, q, s) < |list| && k == SlotOf(pos, q, s)
    requires mem.quantum.Some? ==> |mem.quantum.value| == q
    requires Filled(list, after, i, k, a, mem)
    ensures |after| == |list| && WellFormed(after, q, a) && Stored(list, after, q, s, pos, [])
  {
    if after == list {
      NothingStored(list, after, q, s, pos);
    } else if list[i].data.None? && after == list[i := QSet(Some(Holes(a)))] {
      HolesKeepBytes(list, i, q, a, s);
      NothingStored(list, after, q, s, pos);
    } else {
      var content := mem.quantum.value;
      assert Patch(content, OffsetOf(pos, q), []) == content;
      CopyStores(list, q, a, s, pos, i, k, content, []);
    }
  }

  /** The allocations of a write keep the device sound and lose no byte. */
  lemma WriteGrows(before: seq<QSet>, after: seq<QSet>, q: nat, a: nat, s: nat, size: nat,
                   written: map<nat, byte>, pos: nat, i: nat, k: nat, mem: Memory)
    requires Sound(before, q, a, s, size, written)
    requires i == ItemOf(pos, q, s) < INT_LIMIT && k == SlotOf(pos, q, s)
    requires Grown(before, after, i, k, a, mem)
    requires mem.quantum.Some? ==> |mem.quantum.value| == q
    ensures Sound(after, q, a, s, size, written) && Stored(before, after, q, s, pos, [])
    ensures ByteAt(after, q, s, pos).Some? <==> Slot(after, i, k).Some?
    ensures ByteAt(before, q, s, pos).Some? ==> ByteAt(after, q, s, pos).Some?
  {
    var list := Extend(before, |after|);
    ExtendKeepsBytes(before, |list|, q, a, s);
    NothingStored(before, list, q, s, pos);
    if after != list {
      FilledStores(list, after, q, a, s, pos, i, k, mem);
      StoredTrans(before, list, after, q, s, pos, []);
    }
    SoundFrom(before, after, q, a, s, size, written, pos);
  }

  lemma RememberStored(mid: seq<QSet>, after: seq<QSet>, q: nat, s: nat, size: nat, written: map<nat, byte>,
                       pos: nat, data: seq<byte>)
    requires q > 0 && s > 0
    requires Remembers(mid, q, s, size, written) && Stored(mid, after, q, s, pos, data)
    ensures Remembers(after, q, s, Max(size, pos + |data|), written + Bytes(pos, data))
  {
    var f, g := (p: nat) => ByteAt(mid, q, s, p), (p: nat) => ByteAt(after, q, s, p);
    RememberOver(f, g, size, written, pos, data);
    assert forall p: nat :: g(p) == ByteAt(after, q, s, p);
  }

  lemma RememberOver(f: nat -> Option<byte>, g: nat -> Option<byte>, size: nat, written: map<nat, byte>,
                     pos: nat, data: seq<byte>)
    requires forall p :: p in written ==> p < size && f(p) == Some(written[p])
    requires forall p :: pos <= p < pos + |data| ==> g(p) == Some(data[p - pos])
    requires forall p: nat :: (p < pos || pos + |data| <= p) && f(p).Some? ==> g(p) == f(p)
    ensures var written' := written + Bytes(pos, data);
      forall p :: p in written' ==> p < Max(size, pos + |data|) && g(p) == Some(written'[p])
  {
    var written' := written + Bytes(pos, data);
    forall p | p in written' ensures p < Max(size, pos + |data|) && g(p) == Some(written'[p]) {
      if p !in Bytes(pos, data) {
        assert f(p) == Some(written[p]);
      }
    }
  }

  /** The copy of a write: the bytes arrive, and the device remembers them. */
  lemma WriteStores(before: seq<QSet>, mid: seq<QSet>, q: nat, a: nat, s: nat, size: nat, written: map<nat, byte>,
                    pos: nat, i: nat, k: nat, content: seq<byte>, data: seq<byte>)
    requires Sound(mid, q, a, s, size, written) && Stored(before, mid, q, s, pos, [])
    requires i == ItemOf(pos, q, s) && k == SlotOf(pos, q, s) && i < |mid|
    requires Slot(mid, i, k) in {None, Some(content)} && |content| == q
    requires OffsetOf(pos, q) + |data| <= q
    ensures k < |ArrayOf(mid[i], a)|
    ensures var after := PutQuantum(mid, i, k, a, Patch(content, OffsetOf(pos, q), data));
      && Stored(before, after, q, s, pos, data)
      && Sound(after, q, a, s, Max(size, pos + |data|), written + Bytes(pos, data))
  {
    var after := PutQuantum(mid, i, k, a, Patch(content, OffsetOf(pos, q), data));
    CopyStores(mid, q, a, s, pos, i, k, content, data);
    EndsInItem(pos, q, s, |data|, |mid|);
    RememberStored(mid, after, q, s, size, written, pos, data);
    StoredTrans(before, mid, after, q, s, pos, data);
  }

  lemma RawPutStores(before: seq<QSet>, q: nat, a: nat, s: nat, size: nat, written: map<nat, byte>,
                     pos: nat, bytes: seq<byte>, unset: seq<byte>)
    requires Sound(before, q, a, s, size, written)
    requires ItemOf(pos, q, s) < INT_LIMIT && OffsetOf(pos, q) + |bytes| <= q
    requires Slot(before, ItemOf(pos, q, s), SlotOf(pos, q, s)).Some? || |unset| == q
    ensures var after := RawPut(before, ItemOf(pos, q, s), SlotOf(pos, q, s), OffsetOf(pos, q), a, bytes, unset);
      && Stored(before, after, q, s, pos, bytes)
      && Sound(after, q, a, s, Max(size, pos + |bytes|), written + Bytes(pos, bytes))
  {
    var i, k := ItemOf(pos, q, s), SlotOf(pos, q, s);
    var longer := Extend(before, i + 1);
    ExtendKeepsBytes(before, i + 1, q, a, s);
    NothingStored(before, longer, q, s, pos);
    SoundFrom(before, longer, q, a, s, size, written, pos);
    ExtendSlot(before, i + 1, i, k);
    var slots := ArrayOf(longer[i], a);
    assert WellFormedNode(longer[i], q, a);
    var content := if slots[k].Some? then slots[k].value else unset;
    WriteStores(before, longer, q, a, s, size, written, pos, i, k, content, bytes);
  }

  /** The bytes arrived if the call succeeded, nothing else changed, and the device is still a byte map. */
  ghost predicate Refined(before: seq<QSet>, after: seq<QSet>, q: nat, a: nat, s: nat, size: nat,
                          written: map<nat, byte>, pos: nat, bytes: seq<byte>, r: Result)
    requires q > 0 && s > 0
  {
    match r
    case Ok(n) =>
      && n == |bytes| && Stored(before, after, q, s, pos, bytes)
      && Sound(after, q, a, s, Max(size, pos + n), written + Bytes(pos, bytes))
    case Err(_) => Stored(before, after, q, s, pos, []) && Sound(after, q, a, s, size, written)
  }

  /** The same with the place and the slots of a fitting geometry given. */
  lemma WriteRefinesAt(before: seq<QSet>, after: seq<QSet>, q: nat, a: nat, s: nat, size: nat, written: map<nat, byte>,
                       pos: nat, bytes: seq<byte>, mem: Memory, copies: bool, r: Result)
    requires Sound(before, q, a, s, size, written)
    requires ItemOf(pos, q, s) < INT_LIMIT && OffsetOf(pos, q) + |bytes| <= q
    requires WritesPlace(before, after, ItemOf(pos, q, s), SlotOf(pos, q, s), OffsetOf(pos, q), a, bytes, mem, copies,
                         r)
    requires mem.quantum.Some? ==> |mem.quantum.value| == q
    ensures Refined(before, after, q, a, s, size, written, pos, bytes, r)
    ensures ByteAt(before, q, s, pos).Some? ==> (r.Ok? <==> copies)
  {
    if r.Err? {
      WriteGrows(before, after, q, a, s, size, written, pos, ItemOf(pos, q, s), SlotOf(pos, q, s), mem);
    } else {
      RawPutStores(before, q, a, s, size, written, pos, bytes, Fresh(mem));
    }
  }

  /** A write whose end fits stores its bytes and no others and keeps the device a byte map; so does one
      that fails, with no bytes. */
  lemma WriteRefines(before: seq<QSet>, after: seq<QSet>, m: int, q: int, a: int, s: int, size: nat,
                     written: map<nat, byte>, pos: nat, buf: seq<byte>, mem: Memory, copies: bool, r: Result)
    requires Geometry(m, q, a, s) && FitsSize(m, q, a, size) && Sound(before, q, a, s, size, written)
    requires m != 0 && FitsSize(m, q, a, WriteEnd(m, q, pos, |buf|)) && Usable(m, q, a, pos)
    requires WriteOutcome(before, after, m, q, a, pos, buf, mem, copies, r)
    requires mem.quantum.Some? ==> |mem.quantum.value| == q
    ensures Refined(before, after, q, a, s, size, written, pos, buf[..Min(|buf|, q - OffsetOf(pos, q))], r)
    ensures ByteAt(before, q, s, pos).Some? ==> (r.Ok? <==> copies)
  {
    var n := Min(|buf|, q - OffsetOf(pos, q));
    WriteGoesToPlace(before, after, m, q, a, s, pos, buf, mem, copies, r);
    WriteRefinesAt(before, after, q, a, s, size, written, pos, buf[..n], mem, copies, r);
  }

  lemma WriteGoesToPlace(before: seq<QSet>, after: seq<QSet>, m: int, q: int, a: int, s: int, pos: nat, buf: seq<byte>,
                         mem: Memory, copies: bool, r: Result)
    requires Geometry(m, q, a, s) && m != 0 && FitsSize(m, q, a, WriteEnd(m, q, pos, |buf|)) && Usable(m, q, a, pos)
    requires WriteOutcome(before, after, m, q, a, pos, buf, mem, copies, r)
    ensures ItemOf(pos, q, s) < INT_LIMIT
    ensures WritesPlace(before, after, ItemOf(pos, q, s), SlotOf(pos, q, s), OffsetOf(pos, q), a,
      buf[..Min(|buf|, q - OffsetOf(pos, q))], mem, copies, r)
  {
    FittingPlace(m, q, a, WriteEnd(m, q, pos, |buf|), pos);
  }

  lemma TransferFits(m: int, q: int, a: int, s: int, size: nat, pos: nat, count: nat)
    requires Geometry(m, q, a, s) && m != 0 && FitsSize(m, q, a, size) && FitsSize(m, q, a, WriteEnd(m, q, pos, count))
    ensures FitsSize(m, q, a, Max(size, pos + Min(count, q - OffsetOf(pos, q))))
  {
    var end := WriteEnd(m, q, pos, count);
    FittingPlace(m, q, a, end, pos);
    FitsBelow(m, q, a, pos + Min(count, q - OffsetOf(pos, q)), end);
  }

  /** A read in a byte map allocates nothing and returns the bytes last written. */
  lemma ReadRefines(before: seq<QSet>, after: seq<QSet>, m: int, q: int, a: int, s: int, size: nat,
                    written: map<nat, byte>, pos: nat, count: nat, copies: bool, r: Result, bytes: seq<byte>)
    requires Geometry(m, q, a, s) && FitsSize(m, q, a, size) && Sound(before, q, a, s, size, written)
    requires pos < size ==> Usable(m, q, a, pos)
    requires ReadOutcome(before, after, m, q, size, pos, count, copies, r, bytes)
    ensures after == before && ReadsBack(written, pos, bytes)
    ensures r.Ok? ==> r.count == |bytes| <= count && (bytes != [] ==> pos + |bytes| <= size)
    ensures pos < size ==> r == if ByteAt(before, q, s, pos).None? then Ok(0)
      else if copies then Ok(Min(count, Min(size - pos, q - OffsetOf(pos, q)))) else Err(EFAULT)
  {
    if pos < size {
      ReadsInList(before, m, q, a, s, size, written, pos);
      var slot := Slot(before, ItemOf(pos, q, s), SlotOf(pos, q, s));
      if slot.Some? {
        assert WellFormedNode(before[ItemOf(pos, q, s)], q, a);
        SliceIsContent(before, q, s, pos, |bytes|, slot.value);
      }
    }
  }

  // ------------------------------------------------------------------ sessions

  /** scull_llseek; whence is 0, 1 or 2 for SEEK_SET, SEEK_CUR, SEEK_END. */
  function Llseek(pos: nat, size: nat, off: int, whence: int): (r: Result)
    ensures r.Err? <==> !(0 <= whence <= 2) || [0, pos, size][whence] + off < 0
    ensures r.Ok? ==> r.count == [0, pos, size][whence] + off
  {
    if whence !in {0, 1, 2} then Err(EINVAL) else
      var newpos := if whence == 0 then off else if whence == 1 then pos + off else size + off;
      if newpos < 0 then Err(EINVAL) else Ok(newpos)
  }

  datatype Request =
    | DoRead(count: nat, items: nat, copies: bool, signalled: bool)
    | DoWrite(buf: seq<byte>, mem: Memory, copies: bool, signalled: bool)
    | DoSeek(off: int, whence: int)
    | DoTrim
    | DoIoctl(cmd: Command, capable: bool)

  /** What a request did to the bytes: transfers with their position, and trims. */
  datatype Event = Got(pos: nat, bytes: seq<byte>) | Wrote(pos: nat, bytes: seq<byte>) | Trimmed | Other

  function NextWritten(m: map<nat, byte>, e: Event): map<nat, byte> {
    match e
    case Wrote(pos, bytes) => m + Bytes(pos, bytes)
    case Trimmed => map[]
    case _ => m
  }

  function NextEnd(end: nat, e: Event): nat {
    match e
    case Wrote(pos, bytes) => Max(end, pos + |bytes|)
    case Trimmed => 0
    case _ => end
  }

  /** The byte last written at each position since the last trim, read off the history alone. */
  function LastWritten(h: seq<Event>): map<nat, byte> {
    if h == [] then map[] else NextWritten(LastWritten(h[..|h| - 1]), h[|h| - 1])
  }

  /** The highest end of a write since the last trim. */
  function HighestEnd(h: seq<Event>): nat {
    if h == [] then 0 else NextEnd(HighestEnd(h[..|h| - 1]), h[|h| - 1])
  }

  ghost predicate Answers(h: seq<Event>, e: Event) {
    e.Got? ==>
      && (e.bytes != [] ==> e.pos + |e.bytes| <= HighestEnd(h))
      && ReadsBack(LastWritten(h), e.pos, e.bytes)
  }

  /** Every read in the history returned the bytes last written before it. */
  ghost predicate Consistent(h: seq<Event>) {
    forall k :: 0 <= k < |h| ==> Answers(h[..k], h[k])
  }

  lemma ConsistentAppend(h: seq<Event>, e: Event)
    requires Consistent(h) && Answers(h, e)
    ensures Consistent(h + [e])
    ensures LastWritten(h + [e]) == NextWritten(LastWritten(h), e) && HighestEnd(h + [e]) == NextEnd(HighestEnd(h), e)
  {
    var h' := h + [e];
    assert h'[..|h'| - 1] == h;
    forall k | 0 <= k < |h'| ensures Answers(h'[..k], h'[k]) {
      assert k < |h| ==> h'[..k] == h[..k];
    }
  }

  /** The device agrees with the history of its requests, and every read in it was right. */
  ghost predicate Agrees(d: Device, h: seq<Event>)
    reads d
  {
    d.Valid() && d.written == LastWritten(h) && d.size == HighestEnd(h) && Consistent(h)
  }

  datatype Sizes = Sizes(quantum: int, qset: int)

  /** Between two requests: the file's position, the sizes of the open device and the global ones. */
  datatype Moment = Moment(pos: nat, sizes: Sizes, globals: Sizes)

  /** The global sizes after a command. */
  function Commanded(globals: Sizes, cmd: Command, capable: bool): Sizes {
    match cmd
    case Reset => Sizes(SCULL_QUANTUM, SCULL_QSET)
    case OnQuantum(op) =>
      if Privileged(op) && !capable then globals else globals.(quantum := NewSize(globals.quantum, op))
    case OnQset(op) => if Privileged(op) && !capable then globals else globals.(qset := NewSize(globals.qset, op))
    case Unknown => globals
  }

  /** How much one transfer moves from a position within its quantum. */
  function Stretch(count: nat, quantum: int, pos: nat): nat {
    if quantum > 0 then Min(count, quantum - OffsetOf(pos, quantum)) else 0
  }

  /** What each request amounts to, and what it leaves: a read of a written byte and a write with enough memory
      transfer all up to the end of the quantum, a read only as far as the data go, and transfers move the
      position by their length. */
  ghost predicate Serves(req: Request, h: seq<Event>, at: Moment, e: Event, after: Moment) {
    match req
    case DoRead(count, _, copies, signalled) =>
      && e.Got? && e.pos == at.pos && after == at.(pos := at.pos + |e.bytes|) && |e.bytes| <= count
      && (copies && !signalled && at.pos in LastWritten(h) && at.pos < HighestEnd(h) ==>
            |e.bytes| == Stretch(Min(count, HighestEnd(h) - at.pos), at.sizes.quantum, at.pos))
    case DoWrite(buf, mem, copies, signalled) =>
      && (e.Wrote? ==> e.pos == at.pos && e.bytes == Head(buf, Stretch(|buf|, at.sizes.quantum, at.pos)))
      && (e.Wrote? ==> copies && !signalled && after == at.(pos := at.pos + |e.bytes|))
      && (!e.Wrote? ==> e == Other && after == at)
      && (copies && !signalled && Provided(at.sizes.quantum, at.sizes.qset, at.pos, mem) ==> e.Wrote?)
    case DoSeek(off, whence) =>
      && e == Other
      && (var r := Llseek(at.pos, HighestEnd(h), off, whence); after == at.(pos := if r.Ok? then r.count else at.pos))
    case DoTrim => e == Trimmed && after == at.(sizes := at.globals)
    case DoIoctl(cmd, capable) => e == Other && after == at.(globals := Commanded(at.globals, cmd, capable))
  }

  /** The sizes a moment names are those of the device and the module. */
  predicate Shows(at: Moment, d: Device, g: Globals)
    reads d, g
  {
    at.sizes == Sizes(d.quantum, d.qset) && at.globals == Sizes(g.quantum, g.qset)
  }

  /** Below the size of a valid device every position has a place. */
  lemma ValidReaches(d: Device, pos: nat)
    requires d.Valid() && pos < d.size
    ensures d.quantum > 0 && d.qset > 0 && d.Reaches(pos)
  {
    SizesGiveGeometry(d.quantum, d.qset);
    ReadsInList(d.data, ItemSize(d.quantum, d.qset), d.quantum, d.qset, UsedSlots(d.quantum, d.qset), d.size, d.written,
                pos);
  }

  /** scull_read on a byte map: nothing is allocated, and the bytes last written come back. */
  method ReadValid(d: Device, pos: nat, count: nat, items: nat, copies: bool, signalled: bool)
    returns (r: Result, bytes: seq<byte>, pos': nat)
    requires d.Valid()
    modifies d`data, d`kmallocs
    ensures d.Valid() && d.data == old(d.data) && d.kmallocs == old(d.kmallocs)
    ensures ReadsBack(d.written, pos, bytes) && pos' == pos + |bytes| && |bytes| <= count
    ensures bytes != [] ==> pos + |bytes| <= d.size
    ensures !signalled && pos < d.size ==> d.quantum > 0 && d.qset > 0
    ensures !signalled && pos < d.size && d.At(pos).Some? && copies ==>
      r == Ok(Min(count, Min(d.size - pos, d.quantum - OffsetOf(pos, d.quantum)))) && r.count == |bytes|
    ensures !signalled && (pos >= d.size || d.At(pos).None?) ==> r == Ok(0) && bytes == []
  {
    if pos < d.size { ValidReaches(d, pos); }
    ghost var before := d.data;
    r, bytes, pos' := d.Read(pos, count, items, copies, signalled);
    if !signalled && d.quantum > 0 && d.qset > 0 {
      var q, a := d.quantum, d.qset;
      SizesGiveGeometry(q, a);
      ReadRefines(before, d.data, ItemSize(q, a), q, a, UsedSlots(q, a), d.size, d.written, pos, count, copies, r,
                  bytes);
    }
  }

  /** A read of a written byte transfers all up to the end of the quantum and of the data. */
  method ReadWritten(d: Device, pos: nat, req: Request) returns (bytes: seq<byte>)
    requires d.Valid() && req.DoRead?
    modifies d`data, d`kmallocs
    ensures d.Valid() && d.data == old(d.data) && d.kmallocs == old(d.kmallocs)
    ensures ReadsBack(d.written, pos, bytes) && |bytes| <= req.count && (bytes != [] ==> pos + |bytes| <= d.size)
    ensures req.copies && !req.signalled && pos in d.written && pos < d.size ==>
      |bytes| == Stretch(Min(req.count, d.size - pos), d.quantum, pos)
  {
    if pos in d.written { WrittenHasByte(d, pos); }
    var r, pos';
    r, bytes, pos' := ReadValid(d, pos, req.count, req.items, req.copies, req.signalled);
  }

  /** The same in terms of the history. */
  method ReadAnswer(d: Device, pos: nat, req: Request, ghost h: seq<Event>) returns (bytes: seq<byte>)
    requires Agrees(d, h) && req.DoRead?
    modifies d`data, d`kmallocs
    ensures Agrees(d, h + [Got(pos, bytes)])
    ensures ReadsBack(LastWritten(h), pos, bytes) && |bytes| <= req.count
    ensures bytes != [] ==> pos + |bytes| <= HighestEnd(h)
    ensures req.copies && !req.signalled && pos in LastWritten(h) && pos < HighestEnd(h) ==>
      |bytes| == Stretch(Min(req.count, HighestEnd(h) - pos), d.quantum, pos)
  {
    bytes := ReadWritten(d, pos, req);
    ReadAgrees(d, h, Got(pos, bytes));
  }

  method ServeRead(d: Device, g: Globals, at: Moment, req: Request, ghost h: seq<Event>)
    returns (after: Moment, e: Event)
    requires Agrees(d, h) && Shows(at, d, g) && req.DoRead?
    modifies d`data, d`kmallocs
    ensures Agrees(d, h + [e]) && Shows(after, d, g) && Serves(req, h, at, e, after)
  {
    var bytes := ReadAnswer(d, at.pos, req, h);
    e, after := Got(at.pos, bytes), at.(pos := at.pos + |bytes|);
    ReadServes(req, h, at, bytes);
  }

  lemma ReadAgrees(d: Device, h: seq<Event>, e: Event)
    requires d.Valid() && d.written == LastWritten(h) && d.size == HighestEnd(h) && Consistent(h)
    requires e.Got? && Answers(h, e)
    ensures Agrees(d, h + [e])
  {
    ConsistentAppend(h, e);
  }

  lemma ReadServes(req: Request, h: seq<Event>, at: Moment, bytes: seq<byte>)
    requires req.DoRead? && |bytes| <= req.count && ReadsBack(LastWritten(h), at.pos, bytes)
    requires bytes != [] ==> at.pos + |bytes| <= HighestEnd(h)
    requires req.copies && !req.signalled && at.pos in LastWritten(h) && at.pos < HighestEnd(h) ==>
      |bytes| == Stretch(Min(req.count, HighestEnd(h) - at.pos), at.sizes.quantum, at.pos)
    ensures Serves(req, h, at, Got(at.pos, bytes), at.(pos := at.pos + |bytes|))
  {
  }

  lemma WrittenHasByte(d: Device, pos: nat)
    requires d.Valid() && pos in d.written
    ensures pos < d.size && d.quantum > 0 && d.qset > 0 && d.At(pos).Some?
  {
  }

  function WriteEvent(r: Result, pos: nat, buf: seq<byte>): (e: Event)
    requires r.Ok? ==> r.count <= |buf|
    ensures r.Ok? ==> e == Wrote(pos, Head(buf, r.count)) && |e.bytes| == r.count && e.bytes <= buf
    ensures r.Err? ==> e == Other
  {
    if r.Ok? then Wrote(pos, buf[..r.count]) else Other
  }

  /** scull_write on a byte map, within the sizes' reach. */
  method WriteValid(d: Device, pos: nat, buf: seq<byte>, mem: Memory, copies: bool, signalled: bool)
    returns (r: Result, pos': nat)
    requires d.Valid() && (signalled || WriteFits(d.quantum, d.qset, pos, |buf|))
    requires mem.quantum.Some? ==> |mem.quantum.value| == d.quantum
    modifies d
    ensures d.Valid() && d.quantum == old(d.quantum) && d.qset == old(d.qset)
    ensures signalled ==> r == Err(ERESTARTSYS)
    ensures !signalled ==> d.quantum > 0 && d.qset > 0
    ensures !signalled ==>
      Stored(old(d.data), d.data, d.quantum, UsedSlots(d.quantum, d.qset), pos,
             if r.Ok? then Head(buf, r.count) else [])
    ensures r.Ok? ==>
      copies && !signalled && r.count == Min(|buf|, d.quantum - OffsetOf(pos, d.quantum)) && pos' == pos + r.count
    ensures r.Ok? ==> d.size == Max(old(d.size), pos') && d.written == old(d.written) + Bytes(pos, Head(buf, r.count))
    ensures r.Err? ==> pos' == pos && d.size == old(d.size) && d.written == old(d.written)
    ensures !signalled && Provided(d.quantum, d.qset, pos, mem) ==> (r.Ok? <==> copies)
  {
    var q, a := d.quantum, d.qset;
    ghost var before, size, written := d.data, d.size, d.written;
    if !signalled { FitsReaches(q, a, pos, |buf|); }
    r, pos' := d.Write(pos, buf, mem, copies, signalled);
    if !signalled {
      WriteKeepsMap(before, d.data, q, a, size, written, pos, buf, mem, copies, r);
    }
  }

  function Head(buf: seq<byte>, n: nat): seq<byte> {
    if n <= |buf| then buf[..n] else buf
  }

  /** What a caller can check before a write: its int address is exact, from its first byte to its last. */
  predicate WriteFits(quantum: int, qset: int, pos: nat, count: nat) {
    && quantum > 0 && ItemSize(quantum, qset) != 0
    && Fits(quantum, qset, WriteEnd(ItemSize(quantum, qset), quantum, pos, count))
  }

  /** The condition on a write is exactly that the positions as far as its end form a byte map. */
  lemma WriteFitsIsExact(quantum: int, qset: int, pos: nat, count: nat)
    requires quantum > 0 && ItemSize(quantum, qset) != 0
    ensures WriteFits(quantum, qset, pos, count) <==>
      KeepsBytes(ItemSize(quantum, qset), quantum, qset, WriteEnd(ItemSize(quantum, qset), quantum, pos, count))
  {
    FitsIsExact(quantum, qset, WriteEnd(ItemSize(quantum, qset), quantum, pos, count));
  }

  /** Memory enough for any write at a position. */
  predicate Provided(quantum: int, qset: int, pos: nat, mem: Memory) {
    && quantum > 0 && ItemSize(quantum, qset) != 0
    && Address(ItemSize(quantum, qset), quantum, pos).item < mem.items && mem.pointers && mem.quantum.Some?
  }

  lemma FitsReaches(quantum: int, qset: int, pos: nat, count: nat)
    requires WriteFits(quantum, qset, pos, count)
    ensures quantum > 0 && qset > 0 && Usable(ItemSize(quantum, qset), quantum, qset, pos)
  {
    SizesGiveGeometry(quantum, qset);
    FittingPlace(ItemSize(quantum, qset), quantum, qset, WriteEnd(ItemSize(quantum, qset), quantum, pos, count), pos);
  }

  lemma WriteKeepsMap(before: seq<QSet>, after: seq<QSet>, quantum: int, qset: int, size: nat, written: map<nat, byte>,
                      pos: nat, buf: seq<byte>, mem: Memory, copies: bool, r: Result)
    requires quantum > 0 && qset > 0 && WriteFits(quantum, qset, pos, |buf|)
    requires Usable(ItemSize(quantum, qset), quantum, qset, pos) && Fits(quantum, qset, size)
    requires Sound(before, quantum, qset, UsedSlots(quantum, qset), size, written)
    requires WriteOutcome(before, after, ItemSize(quantum, qset), quantum, qset, pos, buf, mem, copies, r)
    requires mem.quantum.Some? ==> |mem.quantum.value| == quantum
    ensures r.Ok? ==> r.count == Min(|buf|, quantum - OffsetOf(pos, quantum))
    ensures r.Ok? ==> Fits(quantum, qset, Max(size, pos + r.count))
    ensures Refined(before, after, quantum, qset, UsedSlots(quantum, qset), size, written, pos,
      Head(buf, Min(|buf|, quantum - OffsetOf(pos, quantum))), r)
  {
    var m, s := ItemSize(quantum, qset), UsedSlots(quantum, qset);
    SizesGiveGeometry(quantum, qset);
    TransferFits(m, quantum, qset, s, size, pos, |buf|);
    WriteRefines(before, after, m, quantum, qset, s, size, written, pos, buf, mem, copies, r);
  }

  /** A write in terms of the history. */
  method WriteAnswer(d: Device, pos: nat, req: Request, ghost h: seq<Event>) returns (e: Event)
    requires Agrees(d, h) && req.DoWrite? && WriteDefined(d, pos, req)
    modifies d
    ensures Agrees(d, h + [e]) && d.quantum == old(d.quantum) && d.qset == old(d.qset)
    ensures e.Wrote? || e == Other
    ensures e.Wrote? ==> e.pos == pos && e.bytes == Head(req.buf, Stretch(|req.buf|, d.quantum, pos))
    ensures e.Wrote? ==> req.copies && !req.signalled
    ensures req.copies && !req.signalled && Provided(d.quantum, d.qset, pos, req.mem) ==> e.Wrote?
  {
    var r, _ := WriteValid(d, pos, req.buf, req.mem, req.copies, req.signalled);
    e := WriteEvent(r, pos, req.buf);
    WriteAgrees(d, h, e);
  }

  lemma WriteAgrees(d: Device, h: seq<Event>, e: Event)
    requires d.Valid() && Consistent(h) && !e.Got?
    requires d.written == NextWritten(LastWritten(h), e) && d.size == NextEnd(HighestEnd(h), e)
    ensures Agrees(d, h + [e])
  {
    ConsistentAppend(h, e);
  }

  method ServeWrite(d: Device, g: Globals, at: Moment, req: Request, ghost h: seq<Event>)
    returns (after: Moment, e: Event)
    requires Agrees(d, h) && Shows(at, d, g) && req.DoWrite? && WriteDefined(d, at.pos, req)
    modifies d
    ensures Agrees(d, h + [e]) && Shows(after, d, g) && Serves(req, h, at, e, after)
  {
    e := WriteAnswer(d, at.pos, req, h);
    after := if e.Wrote? then at.(pos := at.pos + |e.bytes|) else at;
  }

  method ServeIoctl(d: Device, g: Globals, at: Moment, req: Request) returns (after: Moment)
    requires Shows(at, d, g) && req.DoIoctl?
    modifies g
    ensures Shows(after, d, g) && after == at.(globals := Commanded(at.globals, req.cmd, req.capable))
  {
    var _, _, _ := g.Ioctl(req.cmd, req.capable);
    after := at.(globals := Sizes(g.quantum, g.qset));
  }

  method ServeOne(d: Device, g: Globals, at: Moment, req: Request, ghost h: seq<Event>)
    returns (after: Moment, e: Event)
    requires Agrees(d, h) && Shows(at, d, g) && (req.DoWrite? ==> WriteDefined(d, at.pos, req))
    modifies d, g
    ensures Agrees(d, h + [e]) && Shows(after, d, g) && Serves(req, h, at, e, after)
  {
    after, e := at, Other;
    match req
    case DoRead(_, _, _, _) =>
      after, e := ServeRead(d, g, at, req, h);
    case DoWrite(_, _, _, _) =>
      after, e := ServeWrite(d, g, at, req, h);
    case DoSeek(off, whence) =>
      var r := Llseek(at.pos, d.size, off, whence);
      after := at.(pos := if r.Ok? then r.count else at.pos);
      ConsistentAppend(h, e);
    case DoTrim =>
      d.Trim(g);
      e, after := Trimmed, at.(sizes := at.globals);
      ConsistentAppend(h, e);
    case DoIoctl(_, _) =>
      after := ServeIoctl(d, g, at, req);
      ConsistentAppend(h, e);
  }

  /** A write that is not interrupted must stay within the sizes' reach; kmalloc delivers what is asked. */
  predicate WriteDefined(d: Device, pos: nat, req: Request)
    requires req.DoWrite?
    reads d
  {
    && (req.signalled || WriteFits(d.quantum, d.qset, pos, |req.buf|))
    && (req.mem.quantum.Some? ==> |req.mem.quantum.value| == d.quantum)
  }

  /** Any sequence of requests, up to a write out of the sizes' reach: every read
      returns the bytes last written since the last trim, and size is the highest end reached. */
  method Serve(d: Device, g: Globals, reqs: seq<Request>) returns (h: seq<Event>, ghost at: seq<Moment>)
    requires d.Valid() && d.size == 0 && d.written == map[]
    modifies d, g
    ensures Agrees(d, h) && Follows(reqs, h, at)
    ensures at[0] == Moment(0, Sizes(old(d.quantum), old(d.qset)), Sizes(old(g.quantum), old(g.qset)))
    ensures |h| < |reqs| ==> reqs[|h|].DoWrite? && !WriteDefined(d, at[|h|].pos, reqs[|h|])
  {
    var now := Moment(0, Sizes(d.quantum, d.qset), Sizes(g.quantum, g.qset));
    h, at := [], [now];
    ghost var start := now;
    for k := 0 to |reqs|
      invariant |h| == k && Agrees(d, h) && Shows(now, d, g) && Follows(reqs, h, at) && at[k] == now && at[0] == start
    {
      if reqs[k].DoWrite? && !WriteDefined(d, now.pos, reqs[k]) {
        return;
      }
      var after, e := ServeOne(d, g, now, reqs[k], h);
      FollowsOneMore(reqs, h, at, e, after);
      now, h, at := after, h + [e], at + [after];
    }
  }

  /** The events answer the requests one by one, between the moments. */
  ghost predicate Follows(reqs: seq<Request>, h: seq<Event>, at: seq<Moment>) {
    && |h| <= |reqs| && |at| == |h| + 1
    && forall k :: 0 <= k < |h| ==> Serves(reqs[k], h[..k], at[k], h[k], at[k + 1])
  }

  lemma FollowsOneMore(reqs: seq<Request>, h: seq<Event>, at: seq<Moment>, e: Event, after: Moment)
    requires Follows(reqs, h, at) && |h| < |reqs| && Serves(reqs[|h|], h, at[|h|], e, after)
    ensures Follows(reqs, h + [e], at + [after])
  {
    var g, b := h + [e], at + [after];
    forall k | 0 <= k < |g|
      ensures Serves(reqs[k], g[..k], b[k], g[k], b[k + 1])
    {
      assert g[..k] == h[..k];
      if k == |h| { assert h[..k] == h; }
    }
  }

  // ----------------------------------------- runs in which the sizes do not fit

  /** Two Tell commands and a trim: the device has any sizes a privileged caller likes. */
  method Resize(g: Globals, d: Device, quantum: nat, qset: nat)
    requires d.Valid() && quantum < INT_LIMIT && qset < INT_LIMIT
    modifies g, d
    ensures d.Valid() && d.data == [] && d.size == 0 && d.written == map[]
    ensures d.quantum == quantum && d.qset == qset
  {
    ToIntKeeps(quantum);
    ToIntKeeps(qset);
    var _, _, _ := g.Ioctl(OnQuantum(Tell(quantum)), true);
    var _, _, _ := g.Ioctl(OnQset(Tell(qset)), true);
    d.Trim(g);
  }

  /** With any sizes whose wrapped product ends inside a quantum: set them, trim, write two bytes over the end
      of the first item, and the second byte, though counted, is not where a read looks for it. */
  method SpilledByteIsLost(g: Globals, d: Device, quantum: nat, qset: nat, two: seq<byte>, unset: seq<byte>)
    returns (written: Result, r: Result, bytes: seq<byte>)
    requires d.Valid() && |two| == 2 && |unset| == quantum
    requires 0 < quantum < INT_LIMIT && 0 < qset < INT_LIMIT
    requires ItemSize(quantum, qset) > 0 && ItemSize(quantum, qset) % quantum != 0
    modifies g, d
    ensures d.size == ItemSize(quantum, qset) + 1 && ItemSize(quantum, qset) in d.written
    ensures written == Ok(2) && r == Ok(0) && bytes == []
  {
    Resize(g, d, quantum, qset);
    var m := ItemSize(quantum, qset);
    SpillPlaces(m, quantum, qset);
    written := WriteToFirstItem(d, m, m - 1, two, unset);
    r, bytes := ReadBehindEnd(d, m);
  }

  /** Two bytes that fit a quantum of the first item of an empty device. */
  method WriteToFirstItem(d: Device, m: int, pos: nat, two: seq<byte>, unset: seq<byte>) returns (written: Result)
    requires d.Valid() && d.data == [] && d.size == 0 && |two| == 2 && d.quantum > 0 && d.qset > 0
    requires m == ItemSize(d.quantum, d.qset) && Usable(m, d.quantum, d.qset, pos) && |unset| == d.quantum
    requires Address(m, d.quantum, pos).item == 0 && Address(m, d.quantum, pos).offset + 2 <= d.quantum
    modifies d
    ensures d.Shape() && d.quantum == old(d.quantum) && d.qset == old(d.qset)
    ensures written == Ok(2) && d.size == pos + 2 && |d.data| == 1 && pos + 1 in d.written
  {
    var pos';
    written, pos' := d.Write(pos, two, Memory(1, true, Some(unset)), true, false);
    WroteTwo(d.data, m, d.quantum, d.qset, pos, two, unset, written);
  }

  method ReadBehindEnd(d: Device, m: int) returns (r: Result, bytes: seq<byte>)
    requires d.Shape() && d.quantum > 0 && d.qset > 0 && |d.data| == 1 && d.size == m + 1
    requires m == ItemSize(d.quantum, d.qset) && m > 0 && m % d.quantum != 0
    modifies d`data, d`kmallocs
    ensures r == Ok(0) && bytes == []
  {
    SpillPlaces(m, d.quantum, d.qset);
    SpillsOver(m, d.quantum);
    var pos';
    r, bytes, pos' := d.Read(m, 1, 0, true, false);
  }

  lemma SpillPlaces(m: int, q: nat, a: nat)
    requires q > 0 && a > 0 && m > 0 && m % q != 0 && m == ItemSize(q, a)
    ensures Usable(m, q, a, m - 1) && Usable(m, q, a, m)
    ensures Address(m, q, m - 1).item == 0 && Address(m, q, m - 1).offset + 2 <= q
  {
    SpillsOver(m, q);
    ItemSizeBounds(q, a);
    FirstItemOnly(m, q, a, m - 1);
  }

  lemma WroteTwo(after: seq<QSet>, m: int, q: nat, a: nat, pos: nat, two: seq<byte>, unset: seq<byte>, r: Result)
    requires Usable(m, q, a, pos) && |two| == 2 && |unset| == q
    requires Address(m, q, pos).item == 0 && Address(m, q, pos).offset + 2 <= q
    requires WriteOutcome([], after, m, q, a, pos, two, Memory(1, true, Some(unset)), true, r)
    ensures r == Ok(2) && |after| == 1
  {
    assert two[..2] == two;
  }

  /** With any sizes whose wrapped product is positive, the default ones included, a write 2^32 items further
      on goes over the byte at position 0. */
  method FarWriteOverwrites(g: Globals, d: Device, first: byte, far: byte, unset: seq<byte>)
    returns (r: Result, bytes: seq<byte>)
    requires d.Valid() && g.quantum > 0 && g.qset > 0 && ItemSize(g.quantum, g.qset) > 0 && |unset| == g.quantum
    modifies d
    ensures 0 in d.written && d.written[0] == first
    ensures r == Ok(1) && bytes == [far]
  {
    d.Trim(g);
    var m := ItemSize(d.quantum, d.qset);
    WriteFirst(d, m, first, unset);
    WriteFar(d, m, far, unset);
    r, bytes := ReadFirst(d, m, far);
  }

  method WriteFirst(d: Device, m: int, x: byte, unset: seq<byte>)
    requires d.Valid() && d.data == [] && d.size == 0 && d.quantum > 0 && d.qset > 0 && |unset| == d.quantum
    requires m == ItemSize(d.quantum, d.qset) && m > 0
    modifies d
    ensures d.Shape() && d.quantum == old(d.quantum) && d.qset == old(d.qset)
    ensures d.size == 1 && |d.data| == 1 && Slot(d.data, 0, 0).Some?
    ensures 0 in d.written && d.written[0] == x
  {
    FarPlaces(m, d.quantum);
    var w, pos' := d.Write(0, [x], Memory(1, true, Some(unset)), true, false);
    FirstWrite(d.data, m, d.quantum, d.qset, x, unset, w);
  }

  method WriteFar(d: Device, m: int, y: byte, unset: seq<byte>)
    requires d.Shape() && d.quantum > 0 && d.qset > 0 && |unset| == d.quantum
    requires m == ItemSize(d.quantum, d.qset) && m > 0
    requires |d.data| == 1 && Slot(d.data, 0, 0).Some?
    modifies d
    ensures d.Shape() && d.quantum == old(d.quantum) && d.qset == old(d.qset) && d.size > 0
    ensures |d.data| == 1 && HoldsFirst(d.data, y)
    ensures forall p :: p in old(d.written) && p < WORD ==> p in d.written && d.written[p] == old(d.written[p])
  {
    FarPlaces(m, d.quantum);
    assert WellFormedNode(d.data[0], d.quantum, d.qset);
    ghost var before := d.data;
    var w, pos' := d.Write(m * WORD, [y], Memory(1, true, Some(unset)), true, false);
    FarWrite(before, d.data, m, d.quantum, d.qset, y, unset, w);
  }

  method ReadFirst(d: Device, m: int, y: byte) returns (r: Result, bytes: seq<byte>)
    requires d.Shape() && d.quantum > 0 && d.qset > 0 && m == ItemSize(d.quantum, d.qset) && m > 0 && d.size > 0
    requires HoldsFirst(d.data, y)
    modifies d`data, d`kmallocs
    ensures r == Ok(1) && bytes == [y]
  {
    FarPlaces(m, d.quantum);
    var pos';
    r, bytes, pos' := d.Read(0, 1, 0, true, false);
  }

  ghost predicate HoldsFirst(list: seq<QSet>, y: byte) {
    Slot(list, 0, 0).Some? && |Slot(list, 0, 0).value| > 0 && Slot(list, 0, 0).value[0] == y
  }

  lemma FarPlaces(m: int, q: int)
    requires m > 0 && q > 0
    ensures Address(m, q, 0) == Place(0, 0, 0) && m * WORD >= WORD && Address(m, q, m * WORD) == Place(0, 0, 0)
  {
    ModIsUnique(0, m, 0, 0);
    ModIsUnique(0, q, 0, 0);
    ModIsUnique(m * WORD, m, WORD, 0);
  }

  lemma FirstWrite(after: seq<QSet>, m: int, q: int, a: int, x: byte, unset: seq<byte>, r: Result)
    requires m > 0 && q > 0 && a > 0 && |unset| == q && Address(m, q, 0) == Place(0, 0, 0)
    requires WriteOutcome([], after, m, q, a, 0, [x], Memory(1, true, Some(unset)), true, r)
    ensures r == Ok(1) && |after| == 1 && Slot(after, 0, 0) == Some(Patch(unset, 0, [x]))
  {
    assert [x][..1] == [x];
  }

  lemma FarWrite(before: seq<QSet>, after: seq<QSet>, m: int, q: int, a: int, y: byte, unset: seq<byte>, r: Result)
    requires m > 0 && q > 0 && a > 0 && |unset| == q && Address(m, q, m * WORD) == Place(0, 0, 0)
    requires |before| == 1 && Slot(before, 0, 0).Some? && |Slot(before, 0, 0).value| == q
    requires WriteOutcome(before, after, m, q, a, m * WORD, [y], Memory(1, true, Some(unset)), true, r)
    ensures r == Ok(1) && |after| == 1 && HoldsFirst(after, y)
  {
    assert [y][..1] == [y];
    assert Extend(before, 1) == before;
  }
}
