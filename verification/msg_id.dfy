/**
 * The replacement MTProto message-id generator installed at start-up: whole
 * seconds go in the high 32 bits, nanoseconds shifted left by two in the low
 * bits, and the whole is masked to 63 bits. Python integers are unbounded, so
 * `<<`, `|` and `&` are modelled on `nat` bit by bit.
 */
module MsgId {
  import opened Powers

  /** The sign-bit-free mask `0x7FFFFFFFFFFFFFFF`. */
  const Mask63: nat := 0x7FFF_FFFF_FFFF_FFFF
  const TwoTo32: nat := 0x1_0000_0000
  const TwoTo63: nat := 0x8000_0000_0000_0000
  /** Nanoseconds in a second; the nanosecond field is always below this. */
  const NanosPerSecond: nat := 1_000_000_000

  /** Python's `a | b` on non-negative integers. */
  function BitOr(a: nat, b: nat): nat
    decreases a + b
  {
    if a == 0 then b
    else if b == 0 then a
    else 2 * BitOr(a / 2, b / 2) + (if a % 2 == 1 || b % 2 == 1 then 1 else 0)
  }

  /** Python's `a & b` on non-negative integers. */
  function BitAnd(a: nat, b: nat): nat
    decreases a + b
  {
    if a == 0 || b == 0 then 0
    else 2 * BitAnd(a / 2, b / 2) + (if a % 2 == 1 && b % 2 == 1 then 1 else 0)
  }

  /** `((seconds << 32) | (nanoseconds << 2)) & 0x7FFFFFFFFFFFFFFF`. */
  function Generate(seconds: nat, nanoseconds: nat): nat
  {
    BitAnd(BitOr(seconds * TwoTo32, nanoseconds * 4), Mask63)
  }

  // ------------------------------------------------------------ bit facts

  lemma Pow2Values()
    ensures Pow2(2) == 4 && Pow2(32) == TwoTo32 && Pow2(63) == TwoTo63
  {
    assert Pow2(2) == 4 && Pow2(3) == 8;
    Pow2Add(2, 2);
    Pow2Add(4, 4);
    Pow2Add(8, 8);
    Pow2Add(16, 16);
    Pow2Add(8, 3);
    Pow2Add(16, 11);
    Pow2Add(32, 27);
    Pow2Add(59, 4);
  }

  lemma MulAtLeast(d: int, k: int)
    requires d > 0 && k >= 1
    ensures d * k >= d
  {
    assert d * k == d + d * (k - 1);
  }

  /** Division and remainder are determined by any witness decomposition. */
  lemma DivModUnique(x: int, d: int, q: int, r: int)
    requires d > 0 && 0 <= r < d && x == d * q + r
    ensures x / d == q && x % d == r
  {
    var q' := x / d;
    var r' := x % d;
    assert x == d * q' + r';
    assert d * (q' - q) == r - r';
    if q' > q {
      MulAtLeast(d, q' - q);
    } else if q' < q {
      MulAtLeast(d, q - q');
    }
  }

  /** `(2x + r) % (2m) == 2 (x % m) + r` for a bit `r`. */
  lemma ModDouble(x: nat, r: nat, m: nat)
    requires r < 2 && m > 0
    ensures (2 * x + r) % (2 * m) == 2 * (x % m) + r
  {
    var q := x / m;
    var u := x % m;
    assert x == m * q + u;
    assert 2 * x + r == (2 * m) * q + (2 * u + r);
    DivModUnique(2 * x + r, 2 * m, q, 2 * u + r);
  }

  /** `2m - 1` halves to `m - 1` and is odd. */
  lemma MaskHalves(m: nat)
    requires m >= 1
    ensures (2 * m - 1) / 2 == m - 1 && (2 * m - 1) % 2 == 1
  {
    DivModUnique(2 * m - 1, 2, m - 1, 1);
  }

  /** One step of `&` against an odd mask keeps the low bit of `x`. */
  lemma AndOddStep(x: nat, y: nat)
    requires x > 0 && y % 2 == 1
    ensures BitAnd(x, y) == 2 * BitAnd(x / 2, y / 2) + x % 2
  {
  }

  /** The inductive step of `AndLowMask`, for a mask `2m - 1`. */
  lemma AndLowMaskStep(x: nat, m: nat)
    requires x > 0 && m >= 1
    requires BitAnd(x / 2, m - 1) == (x / 2) % m
    ensures BitAnd(x, 2 * m - 1) == x % (2 * m)
  {
    MaskHalves(m);
    AndOddStep(x, 2 * m - 1);
    ModDouble(x / 2, x % 2, m);
    assert x == 2 * (x / 2) + x % 2;
  }

  /** Masking with `2^k - 1` keeps the low `k` bits. */
  lemma {:induction false} AndLowMask(x: nat, k: nat)
    ensures BitAnd(x, Pow2(k) - 1) == x % Pow2(k)
    decreases k
  {
    if k == 0 {
      assert Pow2(k) - 1 == 0;
    } else if x == 0 {
      assert BitAnd(x, Pow2(k) - 1) == 0;
    } else {
      var m := Pow2(k - 1);
      AndLowMask(x / 2, k - 1);
      AndLowMaskStep(x, m);
      assert Pow2(k) == 2 * m;
    }
  }

  /** Or-ing a value below `2^k` into a multiple of `2^k` is addition. */
  lemma {:induction false} OrDisjoint(a: nat, b: nat, k: nat)
    requires b < Pow2(k)
    ensures BitOr(a * Pow2(k), b) == a * Pow2(k) + b
    decreases k
  {
    if k > 0 && a * Pow2(k) != 0 && b != 0 {
      var m := Pow2(k - 1);
      assert a * Pow2(k) == 2 * (a * m);
      assert (a * Pow2(k)) / 2 == a * m;
      assert (a * Pow2(k)) % 2 == 0;
      OrDisjoint(a, b / 2, k - 1);
      assert BitOr(a * Pow2(k), b) == 2 * (a * m + b / 2) + b % 2;
    }
  }

  /** A multiple of `2m` halves to a multiple of `m`. */
  lemma HalfOfMultiple(a: nat, m: nat)
    requires m > 0 && a % (2 * m) == 0
    ensures a % 2 == 0 && (a / 2) % m == 0
  {
    var t := a / (2 * m);
    assert a == (2 * m) * t;
    DivModUnique(a, 2, m * t, 0);
    DivModUnique(a / 2, m, t, 0);
  }

  /** One step of `|` on two even numbers. */
  lemma OrEvenStep(a: nat, b: nat)
    requires a != 0 && b != 0 && a % 2 == 0 && b % 2 == 0
    ensures BitOr(a, b) == 2 * BitOr(a / 2, b / 2)
  {
  }

  /** Doubling a multiple of `m` gives a multiple of `2m`. */
  lemma DoubleMultiple(c: nat, m: nat)
    requires m > 0 && c % m == 0
    ensures (2 * c) % (2 * m) == 0
  {
    assert c == m * (c / m);
    DivModUnique(2 * c, 2 * m, c / m, 0);
  }

  /** Or of two multiples of `2^k` is a multiple of `2^k`. */
  lemma {:induction false} OrKeepsLowZeros(a: nat, b: nat, k: nat)
    requires a % Pow2(k) == 0 && b % Pow2(k) == 0
    ensures BitOr(a, b) % Pow2(k) == 0
    decreases k
  {
    if k > 0 && a != 0 && b != 0 {
      var m := Pow2(k - 1);
      assert Pow2(k) == 2 * m;
      HalfOfMultiple(a, m);
      HalfOfMultiple(b, m);
      OrKeepsLowZeros(a / 2, b / 2, k - 1);
      OrEvenStep(a, b);
      DoubleMultiple(BitOr(a / 2, b / 2), m);
    }
  }

  // ----------------------------------------------------- msg_id properties

  /** The id always fits in 63 bits: it is a valid positive signed 64-bit value. */
  lemma Below63Bits(seconds: nat, nanoseconds: nat)
    ensures Generate(seconds, nanoseconds) < TwoTo63
    ensures Generate(seconds, nanoseconds) == BitOr(seconds * TwoTo32, nanoseconds * 4) % TwoTo63
  {
    Pow2Values();
    AndLowMask(BitOr(seconds * TwoTo32, nanoseconds * 4), 63);
  }

  /** The two low bits are clear, as MTProto requires of client message ids. */
  lemma DivisibleByFour(seconds: nat, nanoseconds: nat)
    ensures Generate(seconds, nanoseconds) % 4 == 0
  {
    var x := BitOr(seconds * TwoTo32, nanoseconds * 4);
    PackedDivisibleByFour(seconds, nanoseconds);
    Below63Bits(seconds, nanoseconds);
    assert TwoTo63 == 4 * 0x2000_0000_0000_0000;
    ModKeepsDivisor(x, 0x2000_0000_0000_0000, 4);
  }

  /** Before the mask, both shifted fields and so their or are multiples of four. */
  lemma PackedDivisibleByFour(seconds: nat, nanoseconds: nat)
    ensures BitOr(seconds * TwoTo32, nanoseconds * 4) % 4 == 0
  {
    assert Pow2(2) == 4;
    assert (seconds * TwoTo32) % 4 == 0 by {
      assert seconds * TwoTo32 == 4 * (seconds * 0x4000_0000);
    }
    OrKeepsLowZeros(seconds * TwoTo32, nanoseconds * 4, 2);
  }

  /** Reducing modulo a multiple of `d` keeps divisibility by `d`. */
  lemma ModKeepsDivisor(x: nat, a: nat, d: nat)
    requires a > 0 && d > 0 && x % d == 0
    ensures (x % (d * a)) % d == 0
  {
    var m := d * a;
    var q := x / m;
    var u := x % m;
    var b := x / d;
    assert x == m * q + u;
    assert x == d * b;
    assert m * q == d * (a * q);
    assert u == d * (b - a * q);
    DivModUnique(u, d, b - a * q, 0);
  }

  /** Within a real clock reading the fields are disjoint: the id is `seconds * 2^32 + 4 * nanoseconds`. */
  lemma Layout(seconds: nat, nanoseconds: nat)
    requires seconds < 0x8000_0000 && nanoseconds < NanosPerSecond
    ensures Generate(seconds, nanoseconds) == seconds * TwoTo32 + 4 * nanoseconds
  {
    Pow2Values();
    OrDisjoint(seconds, nanoseconds * 4, 32);
    Below63Bits(seconds, nanoseconds);
    assert seconds * TwoTo32 + 4 * nanoseconds < TwoTo63;
  }

  /** The low 32 bits carry four times the nanoseconds. */
  lemma LowWordIsNanos(seconds: nat, nanoseconds: nat)
    requires seconds < 0x8000_0000 && nanoseconds < NanosPerSecond
    ensures Generate(seconds, nanoseconds) % TwoTo32 == 4 * nanoseconds
  {
    Layout(seconds, nanoseconds);
  }

  /** The high bits carry the Unix time in seconds, as MTProto's `msg_id ≈ unixtime * 2^32` asks. */
  lemma HighWordIsSeconds(seconds: nat, nanoseconds: nat)
    requires seconds < 0x8000_0000 && nanoseconds < NanosPerSecond
    ensures Generate(seconds, nanoseconds) / TwoTo32 == seconds
  {
    Layout(seconds, nanoseconds);
  }

  /** A later clock reading yields a larger id. */
  lemma Monotone(s1: nat, n1: nat, s2: nat, n2: nat)
    requires s1 < 0x8000_0000 && n1 < NanosPerSecond
    requires s2 < 0x8000_0000 && n2 < NanosPerSecond
    requires s1 < s2 || (s1 == s2 && n1 < n2)
    ensures Generate(s1, n1) < Generate(s2, n2)
  {
    Layout(s1, n1);
    Layout(s2, n2);
    if s1 < s2 {
      assert s1 * TwoTo32 + TwoTo32 <= s2 * TwoTo32;
    }
  }
}
