/** Arithmetic the models share. */
module Arithmetic {

  function Max(a: nat, b: nat): nat {
    if a < b then b else a
  }

  function Min(a: nat, b: nat): nat {
    if a < b then a else b
  }

  lemma ModIsUnique(x: int, m: nat, q: int, r: int)
    requires m > 0 && x == m * q + r && 0 <= r < m
    ensures x % m == r && x / m == q
  {
    var d := x / m - q;
    assert m * d == r - x % m;
    assert d > 0 ==> m * d >= m;
    assert d < 0 ==> m * d + m <= 0;
  }

  lemma MulMono(n: nat, a: nat, b: nat)
    requires a <= b
    ensures n * a <= n * b
  {
  }

  lemma ModIsInjective(a: nat, b: nat, n: nat)
    requires n > 0 && a < b < a + n
    ensures a % n != b % n
  {
    var p, q := a / n, b / n;
    assert a == n * p + a % n && b == n * q + b % n;
    var d := q - p;
    assert n * q - n * p == n * d;
    assert d >= 1 ==> n * d >= n;
    assert d <= -1 ==> n * d + n <= 0;
  }

  lemma NextIndex(a: nat, n: nat)
    requires n > 0
    ensures (a % n + 1) % n == (a + 1) % n && (a + n) % n == a % n
  {
    var q, r := a / n, a % n;
    assert a == n * q + r;
    assert n * (q + 1) == n * q + n;
    ModIsUnique(a + n, n, q + 1, r);
    if r + 1 < n {
      ModIsUnique(a + 1, n, q, r + 1);
      ModIsUnique(r + 1, n, 0, r + 1);
    } else {
      ModIsUnique(a + 1, n, q + 1, 0);
      ModIsUnique(r + 1, n, 1, 0);
    }
  }

  lemma Distribute(q: nat, s: nat, i: nat, k: nat)
    ensures q * (s * i + k) == (q * s) * i + q * k
    ensures q * (k + 1) == q * k + q
    ensures q * k >= 0
  {
  }

  lemma DivMod(x: nat, m: nat)
    requires m > 0
    ensures x == m * (x / m) + x % m && 0 <= x % m < m
  {
  }

  lemma TwoDigits(pos: nat, q: nat, s: nat, m: nat, g: nat, i: nat, k: nat, r: nat)
    requires r < q && k < s && m == q * s && g == s * i + k && pos == q * g + r
    ensures 0 <= q * k + r < m && pos / m == i && pos % m == q * k + r
    ensures (q * k + r) / q == k && (q * k + r) % q == r
  {
    Distribute(q, s, i, k);
    MulMono(q, k + 1, s);
    ModIsUnique(pos, m, i, q * k + r);
    ModIsUnique(q * k + r, q, k, r);
  }

  /** Splitting a position into list item, slot and offset by divisions agrees with splitting it
      into page number and offset first. */
  lemma AddressSplits(pos: nat, q: nat, s: nat, m: nat)
    requires q > 0 && s > 0 && m == q * s
    ensures m > 0 && pos / m == (pos / q) / s
    ensures (pos % m) / q == (pos / q) % s
    ensures (pos % m) % q == pos % q
  {
    DivMod(pos, q);
    DivMod(pos / q, s);
    TwoDigits(pos, q, s, m, pos / q, (pos / q) / s, (pos / q) % s, pos % q);
  }
}
