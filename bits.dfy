/**
 * Unsigned bit-vector arithmetic on naturals: powers of two, truncation to a width and
 * shifts.  Each is defined one bit at a time, so reasoning about them needs only linear
 * arithmetic; the lemmas at the end relate them to division, remainder and
 * multiplication by powers of two.
 */
module Bits {

  function Pow2(n: nat): (r: nat)
    ensures 1 <= r
  {
    if n == 0 then 1 else 2 * Pow2(n - 1)
  }

  /** The low `w` bits of `v`. */
  function Truncate(w: nat, v: nat): nat {
    if w == 0 then 0 else 2 * Truncate(w - 1, v / 2) + v % 2
  }

  /** The low `w` bits of `v`, each inverted. */
  function Complement(w: nat, v: nat): nat {
    if w == 0 then 0 else 2 * Complement(w - 1, v / 2) + (1 - v % 2)
  }

  /** `v` shifted right by `n` bits. */
  function ShiftRight(v: nat, n: nat): nat {
    if n == 0 then v else ShiftRight(v / 2, n - 1)
  }

  /** `v` shifted left by `n` bits. */
  function ShiftLeft(v: nat, n: nat): nat {
    if n == 0 then v else 2 * ShiftLeft(v, n - 1)
  }

  /** The low `w` bits are below 2^w. */
  lemma {:induction false} TruncateBound(w: nat, v: nat)
    ensures Truncate(w, v) < Pow2(w)
  {
    if w > 0 {
      TruncateBound(w - 1, v / 2);
    }
  }

  /** A value below 2^w is its own low `w` bits. */
  lemma {:induction false} TruncateSmall(w: nat, v: nat)
    requires v < Pow2(w)
    ensures Truncate(w, v) == v
  {
    if w > 0 {
      TruncateSmall(w - 1, v / 2);
    }
  }

  /** Truncating twice is truncating once. */
  lemma {:induction false} TruncateTwice(w: nat, v: nat)
    ensures Truncate(w, Truncate(w, v)) == Truncate(w, v)
  {
    TruncateBound(w, v);
    TruncateSmall(w, Truncate(w, v));
  }

  /** Inverting the low `w` bits is subtracting them from all ones. */
  lemma {:induction false} ComplementIsSubtraction(w: nat, v: nat)
    ensures Truncate(w, v) + Complement(w, v) == Pow2(w) - 1
  {
    if w > 0 {
      ComplementIsSubtraction(w - 1, v / 2);
    }
  }

  /** A complement is its own low `w` bits. */
  lemma {:induction false} ComplementSmall(w: nat, v: nat)
    ensures Truncate(w, Complement(w, v)) == Complement(w, v)
  {
    ComplementIsSubtraction(w, v);
    TruncateSmall(w, Complement(w, v));
  }

  // The bridge to division, remainder and multiplication.

  lemma {:induction false} MulBounds(p: int, q: int)
    requires p > 0
    ensures q >= 1 ==> p * q >= p
    ensures q <= -1 ==> p * q <= -p
  {
    if q >= 1 {
      assert p * q == p * (q - 1) + p;
      assert p * (q - 1) >= 0;
    } else if q <= -1 {
      assert p * q == p * (q + 1) - p;
      assert p * -(q + 1) >= 0;
    }
  }

  /** Quotient and remainder are the only ones that recompose `v`. */
  lemma {:induction false} DivModUnique(v: nat, d: nat, q: int, r: int)
    requires d > 0 && 0 <= r < d && v == d * q + r
    ensures v / d == q && v % d == r
  {
    var q0, r0 := v / d, v % d;
    assert d * q0 + r0 == d * q + r;
    assert d * (q0 - q) == r - r0;
    MulBounds(d, q0 - q);
  }

  /** Dividing by 2p is halving, then dividing by p; the remainder is assembled likewise. */
  lemma {:induction false} HalveDivMod(v: nat, p: nat)
    requires p > 0
    ensures v / (2 * p) == (v / 2) / p
    ensures v % (2 * p) == 2 * ((v / 2) % p) + v % 2
  {
    var h := v / 2;
    var q, r := h / p, h % p;
    assert h == p * q + r;
    assert v == 2 * h + v % 2;
    assert v == (2 * p) * q + (2 * r + v % 2);
    DivModUnique(v, 2 * p, q, 2 * r + v % 2);
  }

  lemma {:induction false} TruncateIsMod(w: nat, v: nat)
    ensures Truncate(w, v) == v % Pow2(w)
  {
    if w == 0 {
      DivModUnique(v, 1, v, 0);
    } else {
      TruncateIsMod(w - 1, v / 2);
      HalveDivMod(v, Pow2(w - 1));
    }
  }

  lemma {:induction false} ShiftRightIsDiv(v: nat, n: nat)
    ensures ShiftRight(v, n) == v / Pow2(n)
  {
    if n == 0 {
      DivModUnique(v, 1, v, 0);
    } else {
      ShiftRightIsDiv(v / 2, n - 1);
      HalveDivMod(v, Pow2(n - 1));
    }
  }

  lemma {:induction false} ShiftLeftIsMul(v: nat, n: nat)
    ensures ShiftLeft(v, n) == v * Pow2(n)
  {
    if n > 0 {
      ShiftLeftIsMul(v, n - 1);
      assert v * (2 * Pow2(n - 1)) == 2 * (v * Pow2(n - 1));
    }
  }
}
