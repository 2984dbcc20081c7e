/** The storage shared by scull and scullp: a list of quantum sets, each an optional array of
    optional quanta of bytes, seen as a partial map from positions to bytes. */
module QuantumStore {
  import opened Wrappers
  import opened Arithmetic
  import opened Words

  /** struct scull_qset without its link; the list is a sequence. */
  datatype QSet = QSet(data: Option<seq<Option<seq<byte>>>>)

  const EMPTY: QSet := QSet(None)

  /** Arrays have a entries, and quanta q bytes. The addresses may use only the first s <= a entries. */
  predicate WellFormedNode(node: QSet, q: nat, a: nat) {
    node.data.Some? ==>
      && |node.data.value| == a
      && forall k :: 0 <= k < a ==> node.data.value[k].Some? ==> |node.data.value[k].value| == q
  }

  predicate WellFormed(list: seq<QSet>, q: nat, a: nat) {
    forall i :: 0 <= i < |list| ==> WellFormedNode(list[i], q, a)
  }

  /** The quantum a position belongs to, its list item and slot, and the offset in the quantum. */
  function QuantumOf(pos: nat, q: nat): nat
    requires q > 0
  {
    pos / q
  }

  function ItemOf(pos: nat, q: nat, s: nat): nat
    requires q > 0 && s > 0
  {
    QuantumOf(pos, q) / s
  }

  function SlotOf(pos: nat, q: nat, s: nat): (k: nat)
    requires q > 0 && s > 0
    ensures k < s
  {
    QuantumOf(pos, q) % s
  }

  function OffsetOf(pos: nat, q: nat): (o: nat)
    requires q > 0
    ensures o < q
  {
    pos % q
  }

  /** The quantum in slot k of list item i. */
  function Slot(list: seq<QSet>, i: nat, k: nat): Option<seq<byte>> {
    if i < |list| && list[i].data.Some? && k < |list[i].data.value| then list[i].data.value[k] else None
  }

  /** The abstract content: None for a hole, where nothing has been allocated. */
  function ByteAt(list: seq<QSet>, q: nat, s: nat, pos: nat): Option<byte>
    requires q > 0 && s > 0
  {
    var quantum := Slot(list, ItemOf(pos, q, s), SlotOf(pos, q, s));
    if quantum.Some? && OffsetOf(pos, q) < |quantum.value| then Some(quantum.value[OffsetOf(pos, q)]) else None
  }

  /** The list with empty items appended until it has n. */
  function Extend(list: seq<QSet>, n: nat): seq<QSet> {
    if n <= |list| then list else list + seq(n - |list|, i => EMPTY)
  }

  lemma ExtendKeepsBytes(list: seq<QSet>, n: nat, q: nat, a: nat, s: nat)
    requires q > 0 && s > 0 && WellFormed(list, q, a)
    ensures WellFormed(Extend(list, n), q, a)
    ensures forall pos :: ByteAt(Extend(list, n), q, s, pos) == ByteAt(list, q, s, pos)
  {
    forall i, k ensures Slot(Extend(list, n), i, k) == Slot(list, i, k) {}
  }

  function Holes(a: nat): seq<Option<seq<byte>>> {
    seq(a, i => None)
  }

  /** The array of a list item, all holes if it has none yet. */
  function ArrayOf(node: QSet, a: nat): seq<Option<seq<byte>>> {
    if node.data.Some? then node.data.value else Holes(a)
  }

  /** The list with a quantum put into slot k of item i. */
  function PutQuantum(list: seq<QSet>, i: nat, k: nat, a: nat, quantum: seq<byte>): seq<QSet>
    requires i < |list| && k < |ArrayOf(list[i], a)|
  {
    list[i := QSet(Some(ArrayOf(list[i], a)[k := Some(quantum)]))]
  }

  lemma PutQuantumSlot(list: seq<QSet>, i: nat, k: nat, a: nat, quantum: seq<byte>, i': nat, k': nat)
    requires i < |list| && k < |ArrayOf(list[i], a)|
    ensures Slot(PutQuantum(list, i, k, a, quantum), i', k') ==
      (if i' == i && k' == k then Some(quantum) else Slot(list, i', k'))
  {
  }

  /** Item and slot together determine the quantum. */
  lemma SameSlot(a: nat, b: nat, q: nat, s: nat)
    requires q > 0 && s > 0
    ensures ItemOf(a, q, s) == ItemOf(b, q, s) && SlotOf(a, q, s) == SlotOf(b, q, s)
       <==> QuantumOf(a, q) == QuantumOf(b, q)
  {
    DivMod(a / q, s);
    DivMod(b / q, s);
  }

  lemma PutQuantumByte(list: seq<QSet>, q: nat, a: nat, s: nat, at: nat, quantum: seq<byte>, pos: nat)
    requires q > 0 && s > 0 && ItemOf(at, q, s) < |list| && |quantum| == q
    requires SlotOf(at, q, s) < |ArrayOf(list[ItemOf(at, q, s)], a)|
    ensures ByteAt(PutQuantum(list, ItemOf(at, q, s), SlotOf(at, q, s), a, quantum), q, s, pos) ==
      if QuantumOf(pos, q) == QuantumOf(at, q) then Some(quantum[OffsetOf(pos, q)]) else ByteAt(list, q, s, pos)
  {
    SameSlot(pos, at, q, s);
    PutQuantumSlot(list, ItemOf(at, q, s), SlotOf(at, q, s), a, quantum, ItemOf(pos, q, s), SlotOf(pos, q, s));
  }

  /** Positions that share a quantum differ by their offsets in it. */
  lemma SameQuantum(a: nat, b: nat, q: nat)
    requires q > 0
    ensures QuantumOf(a, q) == QuantumOf(b, q) ==> OffsetOf(b, q) - OffsetOf(a, q) == b - a
    ensures a <= b < a + (q - OffsetOf(a, q)) ==> QuantumOf(a, q) == QuantumOf(b, q)
  {
    DivMod(a, q);
    DivMod(b, q);
    if a <= b < a + (q - a % q) {
      ModIsUnique(b, q, a / q, a % q + (b - a));
    }
  }

  /** A quantum with data written over it from offset o on. */
  function Patch(quantum: seq<byte>, o: nat, data: seq<byte>): seq<byte>
    requires o + |data| <= |quantum|
  {
    quantum[..o] + data + quantum[o + |data|..]
  }

  /** after holds data at pos, and every byte before held elsewhere; holes outside the quantum
      of pos stay holes. */
  ghost predicate Stored(before: seq<QSet>, after: seq<QSet>, q: nat, s: nat, pos: nat, data: seq<byte>)
    requires q > 0 && s > 0
  {
    forall p: nat ::
      if pos <= p < pos + |data| then ByteAt(after, q, s, p) == Some(data[p - pos])
      else ByteAt(before, q, s, p).Some? || QuantumOf(p, q) != QuantumOf(pos, q) ==>
        ByteAt(after, q, s, p) == ByteAt(before, q, s, p)
  }

  /** Copying data into the quantum of pos, which held `content` or was just allocated with it. */
  lemma CopyStores(list: seq<QSet>, q: nat, a: nat, s: nat, pos: nat, i: nat, k: nat, content: seq<byte>,
                   data: seq<byte>)
    requires q > 0 && 0 < s <= a && WellFormed(list, q, a)
    requires i == ItemOf(pos, q, s) < |list| && k == SlotOf(pos, q, s)
    requires |content| == q && OffsetOf(pos, q) + |data| <= q
    requires Slot(list, i, k) in {None, Some(content)}
    ensures k < |ArrayOf(list[i], a)|
    ensures var list' := PutQuantum(list, i, k, a, Patch(content, OffsetOf(pos, q), data));
      WellFormed(list', q, a) && Stored(list, list', q, s, pos, data)
  {
    var o := OffsetOf(pos, q);
    var quantum := Patch(content, o, data);
    var list' := PutQuantum(list, i, k, a, quantum);
    forall p: nat
      ensures if pos <= p < pos + |data| then ByteAt(list', q, s, p) == Some(data[p - pos])
              else ByteAt(list, q, s, p).Some? || QuantumOf(p, q) != QuantumOf(pos, q) ==>
                ByteAt(list', q, s, p) == ByteAt(list, q, s, p)
    {
      PutQuantumByte(list, q, a, s, pos, quantum, p);
      SameQuantum(pos, p, q);
      SameSlot(pos, p, q, s);
    }
  }

  /** A transfer that stays inside the quantum of pos ends inside the list item of pos. */
  lemma EndsInItem(pos: nat, q: nat, s: nat, n: nat, items: nat)
    requires q > 0 && s > 0 && OffsetOf(pos, q) + n <= q && ItemOf(pos, q, s) < items
    ensures pos + n <= items * (q * s)
  {
    var m, g := q * s, pos / q;
    var i, k := g / s, g % s;
    DivMod(pos, q);
    DivMod(g, s);
    TwoDigits(pos, q, s, m, g, i, k, pos % q);
    Distribute(q, s, i, k);
    MulMono(q, k + 1, s);
    MulMono(m, i + 1, items);
    Distribute(m, 1, 0, i);
    assert m * (i + 1) == m * i + m;
  }

  lemma StartsInList(pos: nat, q: nat, s: nat, items: nat)
    requires q > 0 && s > 0 && pos < items * (q * s)
    ensures ItemOf(pos, q, s) < items
  {
    var m := q * s;
    AddressSplits(pos, q, s, m);
    DivMod(pos, m);
    if items <= pos / m {
      MulMono(m, items, pos / m);
    }
  }

  // ------------------------------------------------------- counting kmallocs

  function SlotBlocks(a: seq<Option<seq<byte>>>): nat {
    if a == [] then 0 else SlotBlocks(a[..|a| - 1]) + if a[|a| - 1].Some? then 1 else 0
  }

  function NodeBlocks(node: QSet): nat {
    1 + if node.data.Some? then 1 + SlotBlocks(node.data.value) else 0
  }

  /** How many allocated blocks hang off the list. */
  function Blocks(list: seq<QSet>): nat {
    if list == [] then 0 else Blocks(list[..|list| - 1]) + NodeBlocks(list[|list| - 1])
  }

  lemma ExtendByOne(s: seq<QSet>, n: nat)
    requires |s| <= n
    ensures Extend(s, n) + [EMPTY] == Extend(s, n + 1)
    ensures Blocks(Extend(s, n) + [EMPTY]) == Blocks(Extend(s, n)) + 1
  {
    var t := Extend(s, n);
    assert (t + [EMPTY])[..|t|] == t;
  }

  lemma {:induction false} BlocksUpdate(list: seq<QSet>, i: nat, node: QSet)
    requires i < |list|
    ensures Blocks(list[i := node]) + NodeBlocks(list[i]) == Blocks(list) + NodeBlocks(node)
  {
    var n := |list| - 1;
    if i < n {
      assert list[i := node][..n] == list[..n][i := node];
      BlocksUpdate(list[..n], i, node);
    } else {
      assert list[i := node][..n] == list[..n];
    }
  }

  lemma {:induction false} SlotBlocksUpdate(a: seq<Option<seq<byte>>>, k: nat, quantum: Option<seq<byte>>)
    requires k < |a|
    ensures SlotBlocks(a[k := quantum]) + (if a[k].Some? then 1 else 0) ==
      SlotBlocks(a) + if quantum.Some? then 1 else 0
  {
    var n := |a| - 1;
    if k < n {
      assert a[k := quantum][..n] == a[..n][k := quantum];
      SlotBlocksUpdate(a[..n], k, quantum);
    } else {
      assert a[k := quantum][..n] == a[..n];
    }
  }

  lemma {:induction false} BlocksPrefix(list: seq<QSet>, n: nat)
    requires n <= |list|
    ensures Blocks(list[..n]) <= Blocks(list)
    decreases |list|
  {
    if n < |list| {
      assert list[..|list| - 1][..n] == list[..n];
      BlocksPrefix(list[..|list| - 1], n);
    } else {
      assert list[..n] == list;
    }
  }

  lemma {:induction false} SlotBlocksPrefix(a: seq<Option<seq<byte>>>, n: nat)
    requires n <= |a|
    ensures SlotBlocks(a[..n]) <= SlotBlocks(a)
    decreases |a|
  {
    if n < |a| {
      assert a[..|a| - 1][..n] == a[..n];
      SlotBlocksPrefix(a[..|a| - 1], n);
    } else {
      assert a[..n] == a;
    }
  }

  lemma {:induction false} NoSlotBlocks(s: nat)
    ensures SlotBlocks(Holes(s)) == 0
  {
    if s > 0 {
      NoSlotBlocks(s - 1);
      assert Holes(s)[..s - 1] == Holes(s - 1);
    }
  }
}
