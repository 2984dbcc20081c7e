/** Machine words as natural numbers: powers of two, bitwise operations and masks. */
module Words {
  import opened Arithmetic

  type byte = b: int | 0 <= b < 256

  /** One more than the largest 32-bit word. */
  const WORD: nat := 0x1_0000_0000

  /** One more than the largest int. */
  const INT_LIMIT: int := 0x8000_0000

  function Pow2(k: nat): (p: nat)
    ensures p > 0
  {
    if k == 0 then 1 else 2 * Pow2(k - 1)
  }

  /** Bitwise `&` of two unsigned words. */
  function And(x: nat, y: nat): nat
  {
    if x == 0 || y == 0 then 0 else 2 * And(x / 2, y / 2) + (x % 2) * (y % 2)
  }

  lemma EvenHalves(x: nat, m: nat)
    requires m > 0
    ensures x % (2 * m) == 2 * ((x / 2) % m) + x % 2
  {
    var q, r := (x / 2) / m, (x / 2) % m;
    assert x == (2 * m) * q + (2 * r + x % 2) by {
      assert x / 2 == m * q + r;
      assert x == 2 * (x / 2) + x % 2;
    }
    assert 0 <= 2 * r + x % 2 < 2 * m;
    ModIsUnique(x, 2 * m, q, 2 * r + x % 2);
  }

  lemma Pow2Mono(k: nat, w: nat)
    requires k <= w
    ensures Pow2(k) <= Pow2(w)
  {
    if k < w { Pow2Mono(k, w - 1); }
  }

  lemma {:induction false} MaskAll(x: nat, w: nat)
    requires x < Pow2(w)
    ensures And(x, Pow2(w) - 1) == x
  {
    if w > 0 && x > 0 {
      MaskAll(x / 2, w - 1);
      AndStep(x, Pow2(w) - 1, Pow2(w - 1) - 1, 1);
    }
  }

  lemma AndStep(x: nat, y: nat, h: nat, b: nat)
    requires y == 2 * h + b && b < 2
    ensures And(x, y) == 2 * And(x / 2, h) + (x % 2) * b
  {
    assert y / 2 == h && y % 2 == b;
  }

  /** Masking a w-bit word with ~(2^k - 1) rounds it down to a multiple of 2^k. */
  lemma {:induction false} MaskRoundsDown(x: nat, k: nat, w: nat)
    requires k <= w && x < Pow2(w)
    ensures Pow2(k) <= Pow2(w)
    ensures And(x, Pow2(w) - Pow2(k)) == x - x % Pow2(k)
  {
    Pow2Mono(k, w);
    if k == 0 {
      MaskAll(x, w);
    } else {
      MaskRoundsDown(x / 2, k - 1, w - 1);
      MaskStep(x, Pow2(k - 1), Pow2(w - 1) - Pow2(k - 1), Pow2(w) - Pow2(k));
    }
  }

  lemma MaskStep(x: nat, p: nat, h: nat, y: nat)
    requires p > 0 && y == 2 * h && And(x / 2, h) == x / 2 - x / 2 % p
    ensures And(x, y) == x - x % (2 * p)
  {
    AndDouble(x, h);
    EvenHalves(x, p);
    HalvesAddUp(x, x / 2, x % 2, x / 2 % p, x % (2 * p), And(x / 2, h), And(x, y));
  }

  lemma AndDouble(x: nat, h: nat)
    ensures And(x, 2 * h) == 2 * And(x / 2, h)
  {
    AndStep(x, 2 * h, h, 0);
  }

  lemma HalvesAddUp(x: nat, half: nat, bit: nat, r: nat, rest: nat, masked: nat, result: nat)
    requires x == 2 * half + bit && rest == 2 * r + bit && masked == half - r && result == 2 * masked
    ensures result == x - rest
  {
  }

  lemma Pow2Values()
    ensures Pow2(9) == 512 && Pow2(18) == 0x40000 && Pow2(64) == 0x1_0000_0000_0000_0000
  {
    assert Pow2(8) == 256;
    assert Pow2(16) == 0x10000;
    assert Pow2(24) == 0x100_0000;
    assert Pow2(32) == 0x1_0000_0000;
    assert Pow2(40) == 0x100_0000_0000;
    assert Pow2(48) == 0x1_0000_0000_0000;
    assert Pow2(56) == 0x100_0000_0000_0000;
  }
}
