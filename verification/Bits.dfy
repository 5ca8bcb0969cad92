/** Machine-word arithmetic on natural numbers: powers of two, the bitwise
    operators the C++ code uses on them, and what those operators compute. */
module Bits {

  function Pow2(k: nat): (p: nat)
    ensures p > 0
  {
    if k == 0 then 1 else 2 * Pow2(k - 1)
  }

  /** Bitwise conjunction, one binary digit at a time. */
  function And(a: nat, b: nat): (r: nat)
    ensures r <= b
  {
    if a == 0 then 0
    else (if a % 2 == 1 && b % 2 == 1 then 1 else 0) + 2 * And(a / 2, b / 2)
  }

  /** Bitwise disjunction, one binary digit at a time. */
  function Or(a: nat, b: nat): nat
    decreases a + b
  {
    if a == 0 && b == 0 then 0
    else (if a % 2 == 1 || b % 2 == 1 then 1 else 0) + 2 * Or(a / 2, b / 2)
  }

  /** The number of distinct values of an unsigned 64-bit word. */
  const WORD64: nat := 0x1_0000_0000_0000_0000
  /** The number of distinct values of an unsigned 32-bit word. */
  const WORD32: nat := 0x1_0000_0000

  /** `~x` on an unsigned 64-bit word. */
  function Not64(x: nat): nat
    requires x < WORD64
  {
    WORD64 - 1 - x
  }

  /** `a - b` on unsigned 64-bit words. */
  function Sub64(a: nat, b: nat): nat {
    (a - b) % WORD64
  }

  ghost predicate IsPow2(n: nat) {
    exists k: nat :: n == Pow2(k)
  }

  // ---- Division and remainder ----

  /** The only multiple of `d` strictly between `-d` and `d` is zero. */
  lemma BoundedMultiple(d: int, k: int)
    requires d > 0
    ensures k >= 1 ==> d * k >= d
    ensures k <= -1 ==> d * k <= -d
  {
  }

  lemma DivModUnique(a: int, d: int, q: int, r: int)
    requires d > 0 && a == d * q + r && 0 <= r < d
    ensures a / d == q && a % d == r
  {
    var q', r' := a / d, a % d;
    assert a == d * q' + r';
    assert d * (q - q') == r' - r by {
      assert d * q - d * q' == d * (q - q');
    }
    BoundedMultiple(d, q - q');
  }

  lemma DivNonneg(v: nat, d: nat)
    requires d > 0
    ensures v / d >= 0
  {
    assert v == d * (v / d) + v % d;
    BoundedMultiple(d, v / d);
  }

  lemma MulAssoc(x: int, y: int, z: int)
    ensures x * (y * z) == (x * y) * z
  {
  }

  lemma MulAdd(x: int, y: int, z: int)
    ensures x * (y + z) == x * y + x * z
  {
  }

  lemma MulMonotone(x: nat, y: int, z: int)
    requires y <= z
    ensures x * y <= x * z
  {
  }

  /** Reducing modulo a multiple of `n` first does not change the residue modulo `n`. */
  lemma ModOfMod(a: nat, n: nat, m: nat)
    requires n > 0 && m > 0
    ensures n * m > 0 && (a % (n * m)) % n == a % n
  {
    assert n * m > 0;
    var w := n * m;
    var q, r := a / w, a % w;
    assert a == w * q + r;
    var u, v := r / n, r % n;
    assert r == n * u + v;
    assert a == n * (m * q + u) + v by {
      assert w * q == n * (m * q);
      assert n * (m * q) + n * u == n * (m * q + u);
    }
    DivModUnique(a, n, m * q + u, v);
  }

  /** Two indices less than `n` apart have different residues modulo `n`. */
  lemma ResiduesDiffer(i: nat, j: nat, n: nat)
    requires n > 0 && i < j < i + n
    ensures i % n != j % n
  {
    if i % n == j % n {
      var d := j / n - i / n;
      assert j - i == n * d by {
        assert n * (j / n) - n * (i / n) == n * d;
      }
      BoundedMultiple(n, d);
    }
  }

  /** Distances survive the wrap of a 64-bit counter. */
  lemma DistanceSurvivesWrap(h: nat, t: nat)
    requires t <= h < t + WORD64
    ensures Sub64(h % WORD64, t % WORD64) == h - t
  {
    var a, b := h % WORD64, t % WORD64;
    assert a - b == WORD64 * (t / WORD64 - h / WORD64) + (h - t);
    DivModUnique(a - b, WORD64, t / WORD64 - h / WORD64, h - t);
  }

  lemma IncrementWraps(h: nat)
    ensures (h % WORD64 + 1) % WORD64 == (h + 1) % WORD64
  {
  }

  // ---- Powers of two ----

  lemma {:induction false} Pow2Add(a: nat, b: nat)
    ensures Pow2(a + b) == Pow2(a) * Pow2(b)
  {
    if a == 0 {
    } else {
      Pow2Add(a - 1, b);
      assert Pow2(a + b) == 2 * Pow2(a - 1 + b);
    }
  }

  lemma {:induction false} Pow2Monotone(a: nat, b: nat)
    requires a <= b
    ensures Pow2(a) <= Pow2(b)
  {
    if a < b {
      Pow2Monotone(a, b - 1);
    }
  }

  lemma {:induction false} Pow2StrictlyMonotone(a: nat, b: nat)
    requires a < b
    ensures 2 * Pow2(a) <= Pow2(b)
  {
    Pow2Monotone(a + 1, b);
  }

  lemma WordSizes()
    ensures Pow2(64) == WORD64 && Pow2(32) == WORD32
  {
    assert Pow2(8) == 256;
    Pow2Add(8, 8);
    assert Pow2(16) == 65536;
    Pow2Add(16, 16);
    assert Pow2(32) == WORD32;
    Pow2Add(32, 32);
  }

  /** A power of two below 2^64 divides 2^64. */
  lemma Pow2DividesWord(n: nat) returns (m: nat)
    requires IsPow2(n) && n <= WORD64
    ensures m > 0 && n * m == WORD64
  {
    var k: nat :| n == Pow2(k);
    WordSizes();
    if k > 64 {
      Pow2StrictlyMonotone(64, k);
      assert false;
    }
    Pow2Add(k, 64 - k);
    m := Pow2(64 - k);
  }

  // ---- Masks ----

  lemma {:induction false} AndSelf(a: nat)
    ensures And(a, a) == a
  {
    if a != 0 {
      AndSelf(a / 2);
    }
  }

  lemma {:induction false} AndZero(a: nat)
    ensures And(a, 0) == 0
  {
    if a != 0 {
      AndZero(a / 2);
    }
  }

  lemma AndStep(a: nat, b: nat)
    ensures And(a, b) == (if a % 2 == 1 && b % 2 == 1 then 1 else 0) + 2 * And(a / 2, b / 2)
  {
  }

  lemma SplitLowBit(a: nat, p: nat)
    requires p > 0
    ensures a % (2 * p) == a % 2 + 2 * ((a / 2) % p)
  {
    var u, v := (a / 2) / p, (a / 2) % p;
    assert a / 2 == p * u + v;
    assert a == (2 * p) * u + (2 * v + a % 2) by {
      assert 2 * (p * u) == (2 * p) * u;
    }
    DivModUnique(a, 2 * p, u, 2 * v + a % 2);
  }

  /** Masking with `2^k - 1` keeps the residue modulo `2^k`. */
  lemma {:induction false} MaskIsMod(a: nat, k: nat)
    ensures And(a, Pow2(k) - 1) == a % Pow2(k)
  {
    if k == 0 {
      AndZero(a);
    } else {
      var p := Pow2(k - 1);
      var m := 2 * p - 1;
      assert m % 2 == 1 && m / 2 == p - 1;
      MaskIsMod(a / 2, k - 1);
      SplitLowBit(a, p);
      AndStep(a, m);
    }
  }

  /** A mask with a clear low bit masks the remaining digits only. */
  lemma AndDoubled(a: nat, m: nat)
    ensures And(a, 2 * m) == 2 * And(a / 2, m)
  {
    assert (2 * m) % 2 == 0 && (2 * m) / 2 == m;
    AndStep(a, 2 * m);
  }

  /** Clearing one digit more: the mask doubles, and what is cleared doubles and gains the low bit. */
  lemma ClearStep(a: nat, m: nat, r: nat, p: nat)
    requires p > 0 && r == a / 2 % p && And(a / 2, m) == a / 2 - r
    ensures And(a, 2 * m) == a - a % (2 * p)
  {
    AndDoubled(a, m);
    SplitLowBit(a, p);
  }

  lemma ClearNone(a: nat, w: nat)
    requires a < Pow2(w)
    ensures And(a, Pow2(w) - 1) == a - a % 1
  {
    MaskIsMod(a, w);
    DivModUnique(a, Pow2(w), 0, a);
    DivModUnique(a, 1, a, 0);
  }

  /** Masking with `2^w - 2^k` clears the low `k` of the low `w` digits. */
  lemma {:induction false} ClearLowBits(a: nat, w: nat, k: nat)
    requires k <= w && a < Pow2(w)
    ensures Pow2(k) <= Pow2(w)
    ensures And(a, Pow2(w) - Pow2(k)) == a - a % Pow2(k)
  {
    Pow2Monotone(k, w);
    if k == 0 {
      ClearNone(a, w);
    } else {
      var p, q := Pow2(k - 1), Pow2(w - 1);
      var m, r := q - p, a / 2 % p;
      ClearLowBits(a / 2, w - 1, k - 1);
      assert And(a / 2, m) == a / 2 - r;
      ClearStep(a, m, r, p);
      assert 2 * m == Pow2(w) - Pow2(k);
    }
  }

  /** `v != 0 && (v & (v - 1)) == 0` recognises exactly the powers of two. */
  lemma {:induction false} PowerOfTwoTest(v: nat)
    ensures v != 0 && And(v, v - 1) == 0 <==> IsPow2(v)
  {
    if v == 0 {
    } else if v == 1 {
      assert v == Pow2(0);
    } else if v % 2 == 0 {
      var u := v / 2;
      assert (v - 1) % 2 == 1 && (v - 1) / 2 == u - 1;
      assert And(v, v - 1) == 2 * And(u, u - 1);
      PowerOfTwoTest(u);
      if IsPow2(u) {
        var k: nat :| u == Pow2(k);
        assert v == Pow2(k + 1);
      }
      if IsPow2(v) {
        var k: nat :| v == Pow2(k);
        assert k > 0 && u == Pow2(k - 1);
      }
    } else {
      assert (v - 1) % 2 == 0 && (v - 1) / 2 == v / 2;
      AndSelf(v / 2);
      assert And(v, v - 1) == 2 * (v / 2);
      forall k: nat
        ensures v != Pow2(k)
      {
        assert k > 0 ==> Pow2(k) % 2 == 0;
      }
    }
  }

  lemma {:induction false} OrZero(b: nat)
    ensures Or(0, b) == b
  {
    if b != 0 {
      OrZero(b / 2);
    }
  }

  /** Combining digits at disjoint positions is addition. */
  lemma {:induction false} OrDisjoint(a: nat, b: nat, k: nat)
    requires a < Pow2(k)
    ensures Or(a, b * Pow2(k)) == a + b * Pow2(k)
    decreases k
  {
    var c := b * Pow2(k);
    if k == 0 {
      OrZero(c);
    } else {
      assert c == 2 * (b * Pow2(k - 1));
      assert c % 2 == 0 && c / 2 == b * Pow2(k - 1);
      OrDisjoint(a / 2, b, k - 1);
    }
  }
}
