/** The address computation of the scull drivers in C's int arithmetic: a position is split by the
    product of two int sizes that nobody checks (drivers/examples/scull/main.c:297-312,
    drivers/examples/scullp/main.c:173-188). */
module IntAddressing {
  import opened Arithmetic
  import opened Words
  import opened QuantumStore

  /** Conversion to a 32-bit int. */
  function ToInt(x: int): int {
    (x + INT_LIMIT) % (2 * INT_LIMIT) - INT_LIMIT
  }

  /** The conversion keeps exactly the values an int can hold. */
  lemma ToIntKeeps(x: nat)
    ensures ToInt(x) == x <==> x < INT_LIMIT
  {
  }

  function Abs(x: int): nat {
    if x < 0 then -x else x
  }

  /** C's division of a position, which truncates towards zero. */
  function TruncDiv(pos: nat, m: int): int
    requires m != 0
  {
    if m > 0 then pos / m else -(pos / -m)
  }

  /** itemsize. */
  function ItemSize(quantum: int, qset: int): int {
    ToInt(quantum * qset)
  }

  /** List item, slot and offset as the source computes them with the item size m; C's remainder of a
      position is never negative. */
  datatype Place = Place(item: int, slot: int, offset: nat)

  function Address(m: int, quantum: int, pos: nat): (at: Place)
    requires m != 0 && quantum != 0
    ensures at.item < INT_LIMIT && at.offset < Abs(quantum)
    ensures quantum > 0 ==> at.slot >= 0
  {
    var rest := OffsetOf(pos, Abs(m));
    Place(ToInt(TruncDiv(pos, m)), TruncDiv(rest, quantum), OffsetOf(rest, Abs(quantum)))
  }

  /** The divisions of both drivers, in the int arithmetic of the source. */
  method Locate(quantum: int, qset: int, pos: nat) returns (item: int, sPos: int, qPos: nat)
    requires quantum != 0 && ItemSize(quantum, qset) != 0
    ensures Place(item, sPos, qPos) == Address(ItemSize(quantum, qset), quantum, pos)
  {
    var itemsize := Multiply(quantum, qset);
    item, sPos, qPos := Split(itemsize, quantum, pos);
  }

  method Multiply(quantum: int, qset: int) returns (itemsize: int)
    ensures itemsize == ItemSize(quantum, qset)
  {
    itemsize := ToInt(quantum * qset);
  }

  method Split(itemsize: int, quantum: int, pos: nat) returns (item: int, sPos: int, qPos: nat)
    requires itemsize != 0 && quantum != 0
    ensures Place(item, sPos, qPos) == Address(itemsize, quantum, pos)
  {
    item := ToInt(TruncDiv(pos, itemsize));
    var rest := pos % Abs(itemsize);
    sPos, qPos := TruncDiv(rest, quantum), rest % Abs(quantum);
  }

  function Shifted(at: Place, j: nat): Place {
    at.(offset := at.offset + j)
  }

  /** The computation divides by no zero and lands on an item and inside its array. */
  predicate Usable(m: int, quantum: int, qset: int, pos: nat) {
    && quantum > 0 && m != 0
    && Address(m, quantum, pos).item >= 0 && Address(m, quantum, pos).slot < qset
  }

  /** The positions below limit form a byte map: each has a place, no two share one, and bytes that
      follow each other in a quantum are those of consecutive positions. */
  ghost predicate KeepsBytes(m: int, quantum: int, qset: int, limit: nat) {
    && (forall p :: 0 <= p < limit ==> Usable(m, quantum, qset, p))
    && (limit > 0 ==> m != 0 && quantum > 0 && OnePlaceEach(m, quantum, limit) && InARow(m, quantum, limit))
  }

  ghost predicate OnePlaceEach(m: int, quantum: int, limit: nat)
    requires m != 0 && quantum > 0
  {
    forall p, r :: 0 <= p < r < limit ==> Address(m, quantum, p) != Address(m, quantum, r)
  }

  ghost predicate InARow(m: int, quantum: int, limit: nat)
    requires m != 0 && quantum > 0
  {
    forall p, r :: 0 <= p <= r < limit && Address(m, quantum, p).offset + (r - p) < quantum ==>
      Address(m, quantum, r) == Shifted(Address(m, quantum, p), r - p)
  }

  /** What a caller can check: the positions below limit stay inside the first item, or the wrapped item
      size m is still a positive multiple of the quantum and the last item number fits an int. */
  predicate FitsSize(m: int, quantum: int, qset: int, limit: nat) {
    limit == 0 || (
      && quantum > 0 && qset > 0 && m != 0
      && (limit <= Abs(m) || (m > 0 && m % quantum == 0 && (limit - 1) / m < INT_LIMIT)))
  }

  predicate Fits(quantum: int, qset: int, limit: nat) {
    FitsSize(ItemSize(quantum, qset), quantum, qset, limit)
  }

  /** How many slots of each array the addresses use. */
  function SlotsInUse(m: int, quantum: int, qset: int): int
    requires quantum > 0
  {
    if m > 0 && m % quantum == 0 then m / quantum else qset
  }

  function UsedSlots(quantum: int, qset: int): (s: nat)
    requires quantum > 0 && qset > 0
    ensures 0 < s <= qset
  {
    ItemSizeBounds(quantum, qset);
    SlotsBounds(ItemSize(quantum, qset), quantum, qset);
    SlotsInUse(ItemSize(quantum, qset), quantum, qset)
  }

  /** An item size m and slots in use s as the sizes give them. */
  ghost predicate Geometry(m: int, q: int, a: int, s: int) {
    q > 0 && 0 < s <= a && Abs(m) <= q * a && s == SlotsInUse(m, q, a)
  }

  lemma SizesGiveGeometry(quantum: int, qset: int)
    requires quantum > 0 && qset > 0
    ensures Geometry(ItemSize(quantum, qset), quantum, qset, UsedSlots(quantum, qset))
  {
    ItemSizeBounds(quantum, qset);
  }

  /** The wrapped product is never larger than the true one. */
  lemma ItemSizeBounds(quantum: int, qset: int)
    requires quantum > 0 && qset > 0
    ensures Abs(ItemSize(quantum, qset)) <= quantum * qset
  {
    assert quantum * qset > 0;
    WrapIsSmaller(quantum * qset);
  }

  lemma WrapIsSmaller(p: nat)
    ensures Abs(ToInt(p)) <= p
  {
  }

  lemma SlotsBounds(m: int, quantum: int, qset: int)
    requires quantum > 0 && qset > 0 && Abs(m) <= quantum * qset
    ensures 0 < SlotsInUse(m, quantum, qset) <= qset
    ensures m > 0 && m % quantum == 0 ==> m == quantum * SlotsInUse(m, quantum, qset)
  {
    if m > 0 && m % quantum == 0 {
      DivMod(m, quantum);
      QuotientBelow(quantum, m / quantum, qset);
    }
  }

  lemma QuotientBelow(q: nat, a: nat, s: nat)
    requires q > 0 && 0 < q * a <= q * s
    ensures 0 < a <= s
  {
    assert a > s ==> q * a >= q * s + q;
  }

  /** Where they fit, the int addresses are those of arrays of SlotsInUse entries in exact arithmetic. */
  lemma FittingPlace(m: int, quantum: int, qset: int, limit: nat, pos: nat)
    requires quantum > 0 && qset > 0 && Abs(m) <= quantum * qset
    requires FitsSize(m, quantum, qset, limit) && pos < limit
    ensures 0 < SlotsInUse(m, quantum, qset) <= qset
    ensures Address(m, quantum, pos) == ExactPlace(pos, quantum, SlotsInUse(m, quantum, qset))
    ensures Address(m, quantum, pos).item < INT_LIMIT
  {
    SlotsBounds(m, quantum, qset);
    if m > 0 && m % quantum == 0 {
      WholeItems(m, quantum, SlotsInUse(m, quantum, qset), limit, pos);
    } else {
      FirstItemOnly(m, quantum, qset, pos);
    }
  }

  function ExactPlace(pos: nat, q: nat, s: nat): Place
    requires q > 0 && s > 0
  {
    Place(ItemOf(pos, q, s), SlotOf(pos, q, s), OffsetOf(pos, q))
  }

  lemma WholeItems(m: int, q: nat, s: nat, limit: nat, pos: nat)
    requires q > 0 && s > 0 && m == q * s && pos < limit
    requires limit <= m || (limit - 1) / m < INT_LIMIT
    ensures m > 0 && Address(m, q, pos) == ExactPlace(pos, q, s) && Address(m, q, pos).item < INT_LIMIT
  {
    AddressSplits(pos, q, s, m);
    if limit <= m {
      ModIsUnique(pos, m, 0, pos);
    } else {
      DivMono(pos, limit - 1, m);
    }
    ToIntKeeps(pos / m);
  }

  lemma FirstItemOnly(m: int, q: nat, s: nat, pos: nat)
    requires q > 0 && s > 0 && m != 0 && pos < Abs(m) <= q * s
    ensures Address(m, q, pos) == ExactPlace(pos, q, s) && Address(m, q, pos).item == 0
  {
    ModIsUnique(pos, Abs(m), 0, pos);
    DivMod(pos, q);
    BelowProduct(q, pos / q, pos % q, s);
    ModIsUnique(pos / q, s, 0, pos / q);
  }

  lemma BelowProduct(q: nat, a: nat, r: nat, s: nat)
    requires q * a + r < q * s
    ensures a < s
  {
    assert a >= s ==> q * a >= q * s;
  }

  lemma DivMono(a: nat, b: nat, m: nat)
    requires m > 0 && a <= b
    ensures a / m <= b / m
  {
    DivMod(a, m);
    DivMod(b, m);
    QuotientsInOrder(m, a / m, a % m, b / m, b % m);
  }

  lemma QuotientsInOrder(m: nat, p: nat, r: nat, q: nat, t: nat)
    requires m * p + r <= m * q + t && t < m
    ensures p <= q
  {
    Distribute(m, 1, 0, q);
    if p > q { MulMono(m, q + 1, p); }
  }

  lemma FitsBelow(m: int, quantum: int, qset: int, small: nat, limit: nat)
    requires FitsSize(m, quantum, qset, limit) && small <= limit
    ensures FitsSize(m, quantum, qset, small)
  {
    if 0 < small && m > 0 { DivMono(small - 1, limit - 1, m); }
  }

  /** The checkable condition is exactly the one under which the addresses form a byte map. */
  lemma FitsIsExact(quantum: int, qset: int, limit: nat)
    ensures KeepsBytes(ItemSize(quantum, qset), quantum, qset, limit) <==> Fits(quantum, qset, limit)
  {
    var m := ItemSize(quantum, qset);
    if limit == 0 {
    } else if quantum <= 0 || qset <= 0 || m == 0 {
      assert !Usable(m, quantum, qset, 0);
    } else if FitsSize(m, quantum, qset, limit) {
      ItemSizeBounds(quantum, qset);
      FittingKeepsBytes(m, quantum, qset, limit);
    } else {
      UnfittingBreaks(m, quantum, qset, limit);
    }
  }

  lemma FittingKeepsBytes(m: int, quantum: int, qset: int, limit: nat)
    requires quantum > 0 && qset > 0 && Abs(m) <= quantum * qset && FitsSize(m, quantum, qset, limit)
    ensures KeepsBytes(m, quantum, qset, limit)
  {
    if limit > 0 {
      SlotsBounds(m, quantum, qset);
      var s: nat := SlotsInUse(m, quantum, qset);
      forall p | 0 <= p < limit
        ensures Usable(m, quantum, qset, p)
      {
        FittingPlace(m, quantum, qset, limit, p);
      }
      forall p, r | 0 <= p < r < limit
        ensures Address(m, quantum, p) != Address(m, quantum, r)
      {
        FittingPlace(m, quantum, qset, limit, p);
        FittingPlace(m, quantum, qset, limit, r);
        ExactPlaces(p, r, quantum, s);
      }
      forall p, r | 0 <= p <= r < limit && Address(m, quantum, p).offset + (r - p) < quantum
        ensures Address(m, quantum, r) == Shifted(Address(m, quantum, p), r - p)
      {
        FittingPlace(m, quantum, qset, limit, p);
        FittingPlace(m, quantum, qset, limit, r);
        ExactPlaces(p, r, quantum, s);
      }
    }
  }

  lemma ExactPlaces(p: nat, r: nat, q: nat, s: nat)
    requires q > 0 && s > 0 && p <= r
    ensures ExactPlace(p, q, s) == ExactPlace(r, q, s) ==> p == r
    ensures OffsetOf(p, q) + (r - p) < q ==> ExactPlace(r, q, s) == Shifted(ExactPlace(p, q, s), r - p)
  {
    SameSlot(p, r, q, s);
    SameQuantum(p, r, q);
  }

  lemma UnfittingBreaks(m: int, quantum: int, qset: int, limit: nat)
    requires quantum > 0 && qset > 0 && m != 0 && limit > 0 && !FitsSize(m, quantum, qset, limit)
    ensures !KeepsBytes(m, quantum, qset, limit)
  {
    if m < 0 {
      BehindNegative(m, quantum);
      assert !Usable(m, quantum, qset, -m);
    } else if m % quantum != 0 {
      SpillsOver(m, quantum);
      assert Address(m, quantum, m) != Shifted(Address(m, quantum, m - 1), 1);
      assert !InARow(m, quantum, limit);
    } else {
      FarItem(m, quantum, limit);
      assert !Usable(m, quantum, qset, m * INT_LIMIT);
    }
  }

  lemma BehindNegative(m: int, quantum: int)
    requires quantum > 0 && m < 0
    ensures Address(m, quantum, -m).item < 0
  {
    ModIsUnique(-m, -m, 1, 0);
  }

  /** The last byte of an item that ends inside a quantum is not followed by the byte of the next position. */
  lemma SpillsOver(m: int, quantum: int)
    requires quantum > 0 && m > 0 && m % quantum != 0
    ensures Address(m, quantum, m - 1) == Place(0, (m - 1) / quantum, m % quantum - 1)
    ensures Address(m, quantum, m) == Place(1, 0, 0)
  {
    ModIsUnique(m - 1, m, 0, m - 1);
    ModIsUnique(m, m, 1, 0);
    DivMod(m, quantum);
    ModIsUnique(m - 1, quantum, m / quantum, m % quantum - 1);
    ModIsUnique(0, quantum, 0, 0);
  }

  /** An item number of 2^31 becomes negative. */
  lemma FarItem(m: int, quantum: int, limit: nat)
    requires quantum > 0 && m > 0 && limit > 0 && (limit - 1) / m >= INT_LIMIT
    ensures 0 <= m * INT_LIMIT < limit && Address(m, quantum, m * INT_LIMIT).item < 0
  {
    DivMod(limit - 1, m);
    MulMono(m, INT_LIMIT, (limit - 1) / m);
    ModIsUnique(m * INT_LIMIT, m, INT_LIMIT, 0);
  }

  /** Sizes an ioctl accepts: a wrapped product that fits all the same, one that ends inside a quantum, one that
      divides by zero, and a negative one. */
  lemma SizesOfEachKind()
    ensures Fits(0x40_0000, 0x401, 0x40_0000 * INT_LIMIT) && UsedSlots(0x40_0000, 0x401) == 1
    ensures ItemSize(3, 0x5555_5556) == 2 && Fits(3, 0x5555_5556, 2) && !Fits(3, 0x5555_5556, 3)
    ensures ItemSize(0x1_0000, 0x1_0000) == 0 && !Fits(0x1_0000, 0x1_0000, 1)
    ensures ItemSize(0x1_0000, 0x8000) == -INT_LIMIT
    ensures Fits(0x1_0000, 0x8000, INT_LIMIT) && !Fits(0x1_0000, 0x8000, INT_LIMIT + 1)
  {
    assert ItemSize(0x40_0000, 0x401) == 0x40_0000;
  }
}
