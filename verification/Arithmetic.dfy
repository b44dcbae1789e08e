/** Division with remainder, powers of two and bit operations on naturals. */
module Arithmetic {

  lemma DivModUnique(v: int, d: int, q: int, r: int)
    requires d > 0 && v == q * d + r && 0 <= r < d
    ensures v / d == q && v % d == r
  {
    var q', r' := v / d, v % d;
    assert (q - q') * d == r' - r;
    assert q - q' >= 1 ==> (q - q') * d >= d;
    assert q - q' <= -1 ==> (q - q') * d <= 0 - d;
  }

  /** a is the high digit and x the low part of a number in base p; q bounds the digit. */
  lemma PairBound(a: nat, x: nat, p: nat, q: nat)
    requires a < q && x < p
    ensures a * p + x < q * p
  {
    assert (a + 1) * p <= q * p;
  }

  lemma DigitsAbove(h: nat, w: nat, p: nat, n: nat)
    requires w > 0 && p > 0
    ensures ((h * w) * p + n) / p == h * w + n / p
    ensures (h * w + n / p) % w == n / p % w
  {
    DivModUnique((h * w) * p + n, p, h * w + n / p, n % p);
    DivModUnique(h * w + n / p, w, h + n / p / w, n / p % w);
  }

  /** The two lowest digits, in bases p and w, are the remainder modulo w * p. */
  lemma LowDigits(n: nat, w: nat, p: nat)
    requires w > 0 && p > 0
    ensures w * p > 0 && (n / p % w) * p + n % p == n % (w * p)
  {
    var q, r := n / p / w, n / p % w;
    assert n / p == q * w + r;
    assert n == (q * w + r) * p + n % p;
    assert (q * w + r) * p == q * (w * p) + r * p;
    PairBound(r, n % p, p, w);
    DivModUnique(n, w * p, q, r * p + n % p);
  }

  function Pow2(n: nat): (p: nat)
    ensures p > 0
  {
    if n == 0 then 1 else 2 * Pow2(n - 1)
  }

  lemma TwiceProduct(x: nat, y: nat)
    ensures 2 * (x * y) == (2 * x) * y
  {
  }

  lemma {:induction false} Pow2Add(a: nat, b: nat)
    ensures Pow2(a + b) == Pow2(a) * Pow2(b)
  {
    if a > 0 {
      Pow2Add(a - 1, b);
      TwiceProduct(Pow2(a - 1), Pow2(b));
    }
  }

  lemma {:induction false} Pow2Mono(a: nat, b: nat)
    requires a <= b
    ensures Pow2(a) <= Pow2(b)
  {
    if a < b {
      Pow2Mono(a, b - 1);
    }
  }

  /** Bitwise or. */
  function Or(a: nat, b: nat): nat {
    if a == 0 && b == 0 then 0 else 2 * Or(a / 2, b / 2) + (if a % 2 == 1 || b % 2 == 1 then 1 else 0)
  }

  /** Bitwise and. */
  function And(a: nat, b: nat): nat {
    if a == 0 || b == 0 then 0 else 2 * And(a / 2, b / 2) + (if a % 2 == 1 && b % 2 == 1 then 1 else 0)
  }

  lemma {:induction false} OrZero(a: nat)
    ensures Or(a, 0) == a
  {
    if a > 0 {
      OrZero(a / 2);
    }
  }

  lemma MulTwo(h: nat, p: nat)
    ensures h * (2 * p) == 2 * (h * p)
  {
  }

  lemma OrEven(a: nat, b: nat)
    requires Or(a, b / 2) == a + b / 2
    ensures Or(2 * a, b) == 2 * a + b
  {
    assert (2 * a) / 2 == a && (2 * a) % 2 == 0;
  }

  /** Or-ing a number into the zero bits below a multiple of a power of two adds it. */
  lemma {:induction false} OrIntoLowBits(h: nat, s: nat, b: nat)
    requires b < Pow2(s)
    ensures Or(h * Pow2(s), b) == h * Pow2(s) + b
    decreases s
  {
    if s == 0 {
      OrZero(h);
    } else {
      hide Or;
      var p := Pow2(s - 1);
      OrIntoLowBits(h, s - 1, b / 2);
      OrEven(h * p, b);
      MulTwo(h, p);
    }
  }

  lemma LowBitApart(a: nat, p: nat)
    requires p > 0
    ensures a % (2 * p) == 2 * ((a / 2) % p) + a % 2
  {
    var q, r := a / 2 / p, (a / 2) % p;
    assert a / 2 == q * p + r;
    assert a == q * (2 * p) + (2 * r + a % 2);
    DivModUnique(a, 2 * p, q, 2 * r + a % 2);
  }

  /** Masking with w one bits is the remainder modulo 2^w. */
  lemma {:induction false} AndMask(a: nat, w: nat)
    ensures And(a, Pow2(w) - 1) == a % Pow2(w)
    decreases w
  {
    if w > 0 {
      AndMask(a / 2, w - 1);
      var p := Pow2(w - 1);
      LowBitApart(a, p);
      assert (2 * p - 1) / 2 == p - 1;
      if a > 0 && p == 1 {
        assert And(a / 2, 0) == 0;
      }
    }
  }

  // ---------------------------------------------------------------------
  // Bit strings, most significant bit first
  // ---------------------------------------------------------------------

  function Bits(v: nat, n: nat): (b: seq<bool>)
    ensures |b| == n
  {
    if n == 0 then [] else Bits(v / 2, n - 1) + [v % 2 == 1]
  }

  function Val(b: seq<bool>): nat {
    if b == [] then 0 else 2 * Val(b[..|b| - 1]) + (if b[|b| - 1] then 1 else 0)
  }

  lemma {:induction false} ValBound(b: seq<bool>)
    ensures Val(b) < Pow2(|b|)
  {
    if b != [] {
      ValBound(b[..|b| - 1]);
    }
  }

  lemma {:induction false} ValOfBits(v: nat, n: nat)
    requires v < Pow2(n)
    ensures Val(Bits(v, n)) == v
  {
    if n > 0 {
      ValOfBits(v / 2, n - 1);
      assert Bits(v, n)[..n - 1] == Bits(v / 2, n - 1);
    }
  }

  lemma {:induction false} BitsOfVal(b: seq<bool>)
    ensures Bits(Val(b), |b|) == b
  {
    if b != [] {
      BitsOfVal(b[..|b| - 1]);
      assert b == b[..|b| - 1] + [b[|b| - 1]];
    }
  }

  lemma {:induction false} ValConcat(a: seq<bool>, b: seq<bool>)
    ensures Val(a + b) == Val(a) * Pow2(|b|) + Val(b)
  {
    if b == [] {
      assert a + b == a;
    } else {
      var b' := b[..|b| - 1];
      assert (a + b)[..|a + b| - 1] == a + b';
      ValConcat(a, b');
      MulTwo(Val(a), Pow2(|b'|));
    }
  }

  /** The remainder modulo 2^k of a sum does not see multiples of 2^k. */
  lemma ModMultiple(x: int, m: int, d: int)
    requires d > 0
    ensures (x + m * d) % d == x % d
  {
    assert x + m * d == (x / d + m) * d + x % d by {
      assert (x / d + m) * d == x / d * d + m * d;
    }
    DivModUnique(x + m * d, d, x / d + m, x % d);
  }

  /** Middle bits: shifting and masking agrees with masking and shifting. */
  lemma MiddleBits(x: int, a: nat, b: nat)
    ensures (x / Pow2(a)) % Pow2(b) == (x % Pow2(a + b)) / Pow2(a)
    ensures x % Pow2(a) == (x % Pow2(a + b)) % Pow2(a)
  {
    hide Pow2;
    var p, q := Pow2(a), Pow2(b);
    Pow2Add(a, b);
    var y, z := x / p, x % p;
    var h, m := y / q, y % q;
    assert x == (h * q + m) * p + z;
    assert (h * q + m) * p == h * (p * q) + m * p;
    PairBound(m, z, p, q);
    assert q * p == p * q;
    DivModUnique(x, p * q, h, m * p + z);
    DivModUnique(m * p + z, p, m, z);
  }
}
