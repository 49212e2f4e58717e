/** C's `|` on unsigned values, as arithmetic. */
module Bits {
  import opened Words

  /** Bit by bit. */
  function Or(a: nat, b: nat): nat
    decreases a + b
  {
    if a == 0 && b == 0 then 0 else 2 * Or(a / 2, b / 2) + if a % 2 == 1 || b % 2 == 1 then 1 else 0
  }

  function Pow2(n: nat): (p: nat)
    ensures p > 0
  {
    if n == 0 then 1 else 2 * Pow2(n - 1)
  }

  lemma {:induction false} OrZero(a: nat)
    ensures Or(a, 0) == a
  {
    if a > 0 {
      OrZero(a / 2);
    }
  }

  lemma Halves(p: nat, x: nat, b: nat)
    ensures (2 * p * x) / 2 == p * x && (2 * p * x) % 2 == 0 && b == 2 * (b / 2) + b % 2
  {
    assert 2 * p * x == 2 * (p * x);
  }

  /** Below n free bits an or is an addition. */
  lemma {:induction false} OrIsAdd(x: nat, b: nat, n: nat)
    requires b < Pow2(n)
    ensures Or(Pow2(n) * x, b) == Pow2(n) * x + b
  {
    if n == 0 {
      OrZero(x);
    } else {
      Halves(Pow2(n - 1), x, b);
      OrIsAdd(x, b / 2, n - 1);
    }
  }

  lemma OrByte(w: uint64, b: byte)
    requires w % 256 == 0
    ensures Or(w, b) == w + b
  {
    assert Pow2(8) == 256;
    OrIsAdd(w / 256, b, 8);
  }

  lemma DoubleMod(x: nat, r: nat, p: nat)
    requires r < 2 && p > 0
    ensures (2 * x + r) % (2 * p) == 2 * (x % p) + r
  {
    var q := x / p;
    assert x == p * q + x % p;
    assert 2 * x + r == (2 * p) * q + (2 * (x % p) + r);
    ModIs(2 * p, q, 2 * (x % p) + r);
  }

  lemma ModIs(m: nat, q: nat, r: nat)
    requires r < m
    ensures (m * q + r) % m == r
  {
    var x := m * q + r;
    assert x == m * (x / m) + x % m;
    var d := q - x / m;
    assert m * d == x % m - r;
    if d != 0 {
      FarMultiple(m, d);
    }
  }

  lemma FarMultiple(m: nat, d: int)
    requires m > 0 && d != 0
    ensures m * d >= m || m * d <= -(m as int)
  {
    if d > 0 {
      assert m * (d - 1) >= 0;
    } else {
      assert m * (-d - 1) >= 0;
    }
  }

  /** The low bits of an or are those of one side where the other has none. */
  lemma {:induction false} OrLowBits(a: nat, b: nat, n: nat)
    requires a % Pow2(n) == 0
    ensures Or(a, b) % Pow2(n) == b % Pow2(n)
  {
    if n > 0 {
      var p := Pow2(n - 1);
      DoubleMod(a / 2, a % 2, p);
      OrLowBits(a / 2, b / 2, n - 1);
      DoubleMod(b / 2, b % 2, p);
      DoubleMod(Or(a / 2, b / 2), b % 2, p);
    }
  }

  lemma {:induction false} OrFits(a: nat, b: nat, n: nat)
    requires a < Pow2(n) && b < Pow2(n)
    ensures Or(a, b) < Pow2(n)
  {
    if n > 0 {
      OrFits(a / 2, b / 2, n - 1);
    }
  }
}
