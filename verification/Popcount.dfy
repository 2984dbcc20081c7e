/** Bits of a word, and the parallel bit count of drivers/NVMSIM/bitmap.c. */
module Popcount {
  import opened Words

  /** x >> k */
  function Shr(x: nat, k: nat): nat {
    if k == 0 then x else Shr(x / 2, k - 1)
  }

  function Bit(x: nat, i: nat): (b: nat)
    ensures b < 2
  {
    Shr(x, i) % 2
  }

  /** Bitwise `|` of two unsigned words. */
  function Or(x: nat, y: nat): nat
    decreases x + y
  {
    if x == 0 && y == 0 then 0
    else 2 * Or(x / 2, y / 2) + (if x % 2 + y % 2 > 0 then 1 else 0)
  }

  /** How many of the lowest n bits are set. */
  function CountBits(x: nat, n: nat): nat {
    if n == 0 then 0 else CountBits(x, n - 1) + Bit(x, n - 1)
  }

  ghost function SetBits(x: nat, n: nat): set<nat> {
    set i: nat | i < n && Bit(x, i) == 1
  }

  lemma {:induction false} CountBitsIsSize(x: nat, n: nat)
    ensures CountBits(x, n) == |SetBits(x, n)| <= n
  {
    if n > 0 {
      CountBitsIsSize(x, n - 1);
      assert SetBits(x, n) == SetBits(x, n - 1) + if Bit(x, n - 1) == 1 then {n - 1} else {};
    }
  }

  lemma {:induction false} CountFromBottom(x: nat, n: nat)
    ensures CountBits(x, n + 1) == x % 2 + CountBits(x / 2, n)
  {
    if n > 0 { CountFromBottom(x, n - 1); }
  }

  // Setting and testing one bit

  lemma {:induction false} BitOfZero(i: nat)
    ensures Bit(0, i) == 0
  {
    if i > 0 { BitOfZero(i - 1); }
  }

  /** Or with a single bit sets that bit and no other. */
  lemma {:induction false} OrSetsBit(x: nat, k: nat, i: nat)
    ensures Bit(Or(x, Pow2(k)), i) == if i == k then 1 else Bit(x, i)
    decreases k, i
  {
    OrStep(x, k);
    if k > 0 && i > 0 { OrSetsBit(x / 2, k - 1, i - 1); }
  }

  lemma OrStep(x: nat, k: nat)
    ensures k == 0 ==> Or(x, Pow2(k)) % 2 == 1 && Or(x, Pow2(k)) / 2 == x / 2
    ensures k > 0 ==> Or(x, Pow2(k)) % 2 == x % 2 && Or(x, Pow2(k)) / 2 == Or(x / 2, Pow2(k - 1))
  {
    OrZero(x / 2);
  }

  lemma {:induction false} OrZero(x: nat)
    ensures Or(x, 0) == x
  {
    if x > 0 { OrZero(x / 2); }
  }

  /** Masking with a single bit tests that bit. */
  lemma {:induction false} AndOneBit(x: nat, k: nat)
    ensures And(x, Pow2(k)) == Bit(x, k) * Pow2(k)
    decreases k
  {
    if k == 0 {
      AndStep(x, 1, 0, 1);
    } else {
      AndStep(x, Pow2(k), Pow2(k - 1), 0);
      AndOneBit(x / 2, k - 1);
    }
  }

  lemma {:induction false} OrStaysInWord(x: nat, y: nat, n: nat)
    requires x < Pow2(n) && y < Pow2(n)
    ensures Or(x, y) < Pow2(n)
    decreases n
  {
    if n > 0 { OrStaysInWord(x / 2, y / 2, n - 1); }
  }

  // The parallel count

  /** m << k */
  function Shl(m: nat, k: nat): nat {
    if k == 0 then m else 2 * Shl(m, k - 1)
  }

  /** The w lowest bits of x. */
  function Low(x: nat, w: nat): nat {
    if w == 0 then 0 else x % 2 + 2 * Low(x / 2, w - 1)
  }

  /** n fields of 2w bits, the low half of each set. */
  function Mask(w: nat, n: nat): nat {
    if n == 0 then 0 else Pow2(w) - 1 + Shl(Mask(w, n - 1), 2 * w)
  }

  /** The sum of the n lowest w-bit fields of x. */
  function FieldSum(x: nat, w: nat, n: nat): nat
    decreases n
  {
    if n == 0 then 0 else Low(x, w) + FieldSum(Shr(x, w), w, n - 1)
  }

  /** One more than the largest value of n fields of 2w bits. */
  function Capacity(w: nat, n: nat): nat {
    if n == 0 then 1 else Shl(Capacity(w, n - 1), 2 * w)
  }

  /** One line of the source: add to each masked field its masked neighbour. */
  function Folded(x: nat, w: nat, m: nat): nat {
    And(x, m) + And(Shr(x, w), m)
  }

  lemma {:induction false} ShrAdds(x: nat, i: nat, j: nat)
    ensures Shr(Shr(x, i), j) == Shr(x, i + j)
  {
    if i > 0 { ShrAdds(x / 2, i - 1, j); }
  }

  lemma {:induction false} ShlAdds(m: nat, i: nat, j: nat)
    ensures Shl(Shl(m, i), j) == Shl(m, i + j)
  {
    if j > 0 { ShlAdds(m, i, j - 1); }
  }

  lemma {:induction false} ShlSum(a: nat, b: nat, k: nat)
    ensures Shl(a + b, k) == Shl(a, k) + Shl(b, k)
  {
    if k > 0 { ShlSum(a, b, k - 1); }
  }

  lemma {:induction false} Splits(x: nat, w: nat)
    ensures Low(x, w) < Pow2(w) && x == Low(x, w) + Shl(Shr(x, w), w)
  {
    if w > 0 { Splits(x / 2, w - 1); }
  }

  lemma {:induction false} SplitIsUnique(l: nat, h: nat, w: nat)
    requires l < Pow2(w)
    ensures Low(l + Shl(h, w), w) == l && Shr(l + Shl(h, w), w) == h
    decreases w
  {
    if w > 0 {
      assert (l + Shl(h, w)) / 2 == l / 2 + Shl(h, w - 1);
      SplitIsUnique(l / 2, h, w - 1);
    }
  }

  lemma {:induction false} FitsBelow(s: nat, k: nat, h: nat, r: nat)
    requires s < Pow2(k)
    ensures s + Shl(h, k) < Shl(r, k) <==> h < r
    decreases k
  {
    if k > 0 { FitsBelow(s / 2, k - 1, h, r); }
  }

  lemma {:induction false} AndShifted(x: nat, w: nat, m: nat)
    ensures And(x, Shl(m, w)) == Shl(And(Shr(x, w), m), w)
    decreases w
  {
    if w > 0 {
      AndStep(x, Shl(m, w), Shl(m, w - 1), 0);
      AndShifted(x / 2, w - 1, m);
    }
  }

  lemma {:induction false} AndKeepsLow(x: nat, w: nat, m: nat)
    ensures And(x, Pow2(w) - 1 + Shl(m, w)) == Low(x, w) + Shl(And(Shr(x, w), m), w)
    decreases w
  {
    if w > 0 {
      var y := Pow2(w - 1) - 1 + Shl(m, w - 1);
      AndKeepsLow(x / 2, w - 1, m);
      AndStep(x, 2 * y + 1, y, 1);
    }
  }

  lemma MaskedFields(x: nat, w: nat, m: nat)
    ensures And(x, Pow2(w) - 1 + Shl(m, 2 * w)) == Low(x, w) + Shl(And(Shr(x, 2 * w), m), 2 * w)
  {
    ShlAdds(m, w, w);
    AndKeepsLow(x, w, Shl(m, w));
    AndShifted(Shr(x, w), w, m);
    ShrAdds(x, w, w);
    ShlAdds(And(Shr(x, 2 * w), m), w, w);
  }

  lemma FoldStep(x: nat, w: nat, n: nat)
    requires n > 0
    ensures Folded(x, w, Mask(w, n))
         == Low(x, w) + Low(Shr(x, w), w) + Shl(Folded(Shr(x, 2 * w), w, Mask(w, n - 1)), 2 * w)
  {
    var m := Mask(w, n - 1);
    MaskedFields(x, w, m);
    MaskedFields(Shr(x, w), w, m);
    ShrAdds(x, w, 2 * w);
    ShrAdds(x, 2 * w, w);
    ShlSum(And(Shr(x, 2 * w), m), And(Shr(x, 3 * w), m), 2 * w);
  }

  /** One fold adds neighbouring w-bit fields into 2w-bit fields without losing a carry. */
  lemma {:induction false} FoldKeepsSum(x: nat, w: nat, n: nat)
    requires w > 0 && x < Capacity(w, n)
    ensures Folded(x, w, Mask(w, n)) < Capacity(w, n)
    ensures FieldSum(Folded(x, w, Mask(w, n)), 2 * w, n) == FieldSum(x, w, 2 * n)
    decreases n
  {
    if n == 0 {
      assert Mask(w, 0) == 0;
    } else {
      var h := Shr(x, 2 * w);
      var s, up := Low(x, w) + Low(Shr(x, w), w), Folded(h, w, Mask(w, n - 1));
      Splits(x, 2 * w);
      FitsBelow(Low(x, 2 * w), 2 * w, h, Capacity(w, n - 1));
      FoldKeepsSum(h, w, n - 1);
      FoldStep(x, w, n);
      TwoFieldsFit(x, w);
      SplitIsUnique(s, up, 2 * w);
      FitsBelow(s, 2 * w, up, Capacity(w, n - 1));
      ShrAdds(x, w, w);
      assert FieldSum(x, w, 2 * n) == Low(x, w) + FieldSum(Shr(x, w), w, 2 * n - 1);
    }
  }

  lemma TwoFieldsFit(x: nat, w: nat)
    requires w > 0
    ensures Low(x, w) + Low(Shr(x, w), w) < Pow2(2 * w)
  {
    Splits(x, w);
    Splits(Shr(x, w), w);
    Pow2Mono(w + 1, 2 * w);
  }

  lemma {:induction false} SingleBitFields(x: nat, n: nat)
    ensures FieldSum(x, 1, n) == CountBits(x, n)
  {
    if n > 0 {
      assert Low(x, 1) == x % 2 && Shr(x, 1) == x / 2 by { assert Low(x / 2, 0) == 0 && Shr(x / 2, 0) == x / 2; }
      SingleBitFields(x / 2, n - 1);
      CountFromBottom(x, n - 1);
    }
  }

  lemma Pow2Words()
    ensures Pow2(1) == 2 && Pow2(2) == 4 && Pow2(4) == 16 && Pow2(8) == 256
    ensures Pow2(16) == 0x10000 && Pow2(32) == WORD
  {
    assert Pow2(4) == 16;
    assert Pow2(8) == 256;
    assert Pow2(12) == 0x1000;
    assert Pow2(16) == 0x10000;
    assert Pow2(24) == 0x100_0000;
  }

  lemma Doubled(p: nat, m: nat)
    ensures (2 * p) * m == 2 * (p * m)
  {
  }

  lemma {:induction false} ShlIsProduct(m: nat, k: nat)
    ensures Shl(m, k) == Pow2(k) * m
  {
    if k > 0 {
      ShlIsProduct(m, k - 1);
      Doubled(Pow2(k - 1), m);
    }
  }

  lemma ShlBytes(m: nat)
    ensures Shl(m, 2) == 4 * m && Shl(m, 4) == 16 * m && Shl(m, 8) == 0x100 * m
    ensures Shl(m, 16) == 0x1_0000 * m && Shl(m, 32) == WORD * m
  {
    Pow2Words();
    ShlIsProduct(m, 2);
    ShlIsProduct(m, 4);
    ShlIsProduct(m, 8);
    ShlIsProduct(m, 16);
    ShlIsProduct(m, 32);
  }

  /** The five masks of the source are the alternating field masks. */
  lemma MaskValues()
    ensures Mask(1, 16) == 0x55555555 && Mask(2, 8) == 0x33333333 && Mask(4, 4) == 0x0F0F0F0F
    ensures Mask(8, 2) == 0x00FF00FF && Mask(16, 1) == 0x0000FFFF
  {
    NarrowMasks();
    NibbleMask();
    WideMasks();
  }

  lemma NibbleMask()
    ensures Mask(4, 4) == 0x0F0F0F0F
  {
    Pow2Words();
    MaskStep(4, 1);
    MaskStep(4, 2);
    MaskStep(4, 3);
    MaskStep(4, 4);
  }

  lemma WideMasks()
    ensures Mask(8, 2) == 0x00FF00FF && Mask(16, 1) == 0x0000FFFF
  {
    Pow2Words();
    MaskStep(8, 1);
    MaskStep(8, 2);
    MaskStep(16, 1);
  }

  lemma MaskStep(w: nat, n: nat)
    requires n > 0
    ensures Mask(w, n) == Pow2(w) - 1 + Shl(Mask(w, n - 1), 2 * w)
    ensures w == 4 ==> Shl(Mask(w, n - 1), 2 * w) == 0x100 * Mask(w, n - 1)
    ensures w == 8 ==> Shl(Mask(w, n - 1), 2 * w) == 0x1_0000 * Mask(w, n - 1)
    ensures w == 16 ==> Shl(Mask(w, n - 1), 2 * w) == WORD * Mask(w, n - 1)
  {
    ShlBytes(Mask(w, n - 1));
  }

  lemma NarrowMasks()
    ensures Mask(1, 16) == 0x55555555 && Mask(2, 8) == 0x33333333
  {
    Pow2Words();
    assert Mask(1, 4) == 0x55;
    assert Mask(1, 8) == 0x5555;
    assert Mask(1, 12) == 0x555555;
    assert Mask(2, 2) == 0x33;
    assert Mask(2, 4) == 0x3333;
    assert Mask(2, 6) == 0x333333;
  }

  lemma Capacities()
    ensures Capacity(1, 16) == WORD && Capacity(2, 8) == WORD && Capacity(4, 4) == WORD
    ensures Capacity(8, 2) == WORD && Capacity(16, 1) == WORD
  {
    assert Capacity(1, 4) == 256;
    assert Capacity(1, 8) == 0x1_0000;
    assert Capacity(1, 12) == 0x100_0000;
    assert Capacity(2, 2) == 256;
    assert Capacity(2, 4) == 0x1_0000;
    assert Capacity(2, 6) == 0x100_0000;
    ShlBytes(1);
    ShlBytes(0x100);
    ShlBytes(0x1_0000);
    ShlBytes(0x100_0000);
    assert Capacity(4, 2) == 0x1_0000;
    assert Capacity(4, 3) == 0x100_0000;
    assert Capacity(8, 1) == 0x1_0000;
  }

  /** The n fields of w bits in v add up to the set bits of x. */
  ghost predicate Tallies(v: nat, w: nat, n: nat, x: nat) {
    v < WORD && FieldSum(v, w, n) == CountBits(x, 32)
  }

  /** One line of bitCount on machine words, with shift k and mask m. */
  method Fold(v: nat, k: nat, m: nat, ghost n: nat, ghost x: nat) returns (c: nat)
    requires k > 0 && m == Mask(k, n) && Capacity(k, n) == WORD && Tallies(v, k, 2 * n, x)
    ensures Tallies(c, 2 * k, n, x)
  {
    FoldKeepsSum(v, k, n);
    c := AddWords(And(v, m), And(Shr(v, k), m));
  }

  /** An addition that does not overflow. */
  method AddWords(x: nat, y: nat) returns (sum: nat)
    requires x + y < WORD
    ensures sum == x + y
  {
    sum := (x + y) % WORD;
  }

  /** bitCount: the number of set bits, for every word; no addition overflows. */
  method BitCount(x: nat) returns (c: nat)
    requires x < WORD
    ensures c == |SetBits(x, 32)| == CountBits(x, 32) <= 32
  {
    SingleBits(x);
    c := FoldNarrow(x);
    c := FoldWide(c, x);
    WholeWord(c, x);
  }

  method FoldNarrow(x: nat) returns (c: nat)
    requires Tallies(x, 1, 32, x)
    ensures Tallies(c, 4, 8, x)
  {
    MaskValues();
    Capacities();
    c := Fold(x, 1, 0x55555555, 16, x);
    c := Fold(c, 2, 0x33333333, 8, x);
  }

  method FoldWide(v: nat, ghost x: nat) returns (c: nat)
    requires Tallies(v, 4, 8, x)
    ensures Tallies(c, 32, 1, x)
  {
    MaskValues();
    Capacities();
    c := Fold(v, 4, 0x0F0F0F0F, 4, x);
    c := Fold(c, 8, 0x00FF00FF, 2, x);
    c := Fold(c, 16, 0x0000FFFF, 1, x);
  }

  lemma SingleBits(x: nat)
    requires x < WORD
    ensures Tallies(x, 1, 32, x)
  {
    SingleBitFields(x, 32);
  }

  lemma {:induction false} LowOfSmall(c: nat, w: nat)
    requires c < Pow2(w)
    ensures Low(c, w) == c
  {
    if w > 0 { LowOfSmall(c / 2, w - 1); }
  }

  lemma WholeWord(c: nat, x: nat)
    requires Tallies(c, 32, 1, x)
    ensures c == |SetBits(x, 32)| == CountBits(x, 32) <= 32
  {
    Pow2Words();
    LowOfSmall(c, 32);
    assert FieldSum(Shr(c, 32), 32, 0) == 0;
    CountBitsIsSize(x, 32);
  }
}
