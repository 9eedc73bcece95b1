/**
 * Java `int` arithmetic and the two bitwise operators the colour picker uses.
 *
 * A Java `int` is a 32-bit two's-complement integer. Here it is a Dafny `int`
 * in the range InInt32; `|` and `&` are defined on the unsigned 32-bit view
 * of their operands, bit by bit, and the result is read back as a signed value.
 */
module JavaInt {
  const TWO31: int := 0x8000_0000
  const TWO32: int := 0x1_0000_0000

  predicate InInt32(x: int) {
    -TWO31 <= x < TWO31
  }

  /** The value of a Java `int` expression that overflows: reduced modulo 2^32. */
  function Wrap32(x: int): (r: int)
    ensures InInt32(r)
    ensures (r - x) % TWO32 == 0
    ensures InInt32(x) ==> r == x
  {
    var u := x % TWO32;
    if u < TWO31 then u else u - TWO32
  }

  function Pow2(k: nat): (p: nat)
    ensures p >= 1
  {
    if k == 0 then 1 else 2 * Pow2(k - 1)
  }

  /** Bitwise or of two naturals, lowest bit first. */
  function BitOr(a: nat, b: nat): nat
    decreases a + b
  {
    if a == 0 then b
    else if b == 0 then a
    else 2 * BitOr(a / 2, b / 2) + (if a % 2 == 1 || b % 2 == 1 then 1 else 0)
  }

  /** Bitwise and of two naturals, lowest bit first. */
  function BitAnd(a: nat, b: nat): nat
    decreases a + b
  {
    if a == 0 || b == 0 then 0
    else 2 * BitAnd(a / 2, b / 2) + (if a % 2 == 1 && b % 2 == 1 then 1 else 0)
  }

  /** The unsigned 32-bit pattern of a Java `int`. */
  function Unsigned(x: int): (u: nat)
    requires InInt32(x)
    ensures u < TWO32
    ensures (u - x) % TWO32 == 0
  {
    if x < 0 then x + TWO32 else x
  }

  /** The Java `int` whose bit pattern is `u`. */
  function Signed(u: nat): (x: int)
    requires u < TWO32
    ensures InInt32(x)
    ensures Unsigned(x) == u
  {
    if u < TWO31 then u else u - TWO32
  }

  /** Java's `a | b` on `int`. */
  function Or32(a: int, b: int): (r: int)
    requires InInt32(a) && InInt32(b)
    ensures InInt32(r)
    ensures 0 <= a && 0 <= b ==> 0 <= r
  {
    OrBounds(a, b);
    Signed(BitOr(Unsigned(a), Unsigned(b)))
  }

  /** Java's `a & b` on `int`. */
  function And32(a: int, b: int): (r: int)
    requires InInt32(a) && InInt32(b)
    ensures InInt32(r)
  {
    BitAndBound(Unsigned(a), Unsigned(b));
    Signed(BitAnd(Unsigned(a), Unsigned(b)))
  }

  lemma Pow2Values()
    ensures Pow2(8) == 256 && Pow2(10) == 1024 && Pow2(16) == 65536
    ensures Pow2(31) == TWO31 && Pow2(32) == TWO32
  {
    assert Pow2(4) == 16;
    assert Pow2(8) == 256;
    assert Pow2(12) == 4096;
    assert Pow2(16) == 65536;
    assert Pow2(20) == 0x10_0000;
    assert Pow2(24) == 0x100_0000;
    assert Pow2(28) == 0x1000_0000;
  }

  lemma OrBounds(a: int, b: int)
    requires InInt32(a) && InInt32(b)
    ensures BitOr(Unsigned(a), Unsigned(b)) < TWO32
    ensures 0 <= a && 0 <= b ==> BitOr(Unsigned(a), Unsigned(b)) < TWO31
  {
    Pow2Values();
    BitOrBound(Unsigned(a), Unsigned(b), 32);
    if 0 <= a && 0 <= b {
      BitOrBound(Unsigned(a), Unsigned(b), 31);
    }
  }

  lemma {:induction false} BitOrBound(a: nat, b: nat, k: nat)
    requires a < Pow2(k) && b < Pow2(k)
    ensures BitOr(a, b) < Pow2(k)
    decreases k
  {
    if a != 0 && b != 0 {
      BitOrBound(a / 2, b / 2, k - 1);
    }
  }

  lemma {:induction false} BitAndBound(a: nat, b: nat)
    ensures BitAnd(a, b) <= a
    decreases a + b
  {
    if a != 0 && b != 0 {
      BitAndBound(a / 2, b / 2);
    }
  }

  /** The recursive step of BitOr also holds when an operand is zero. */
  lemma BitOrUnfold(a: nat, b: nat)
    ensures BitOr(a, b) == 2 * BitOr(a / 2, b / 2) + (if a % 2 == 1 || b % 2 == 1 then 1 else 0)
  {
  }

  lemma {:induction false} BitOrCommutes(a: nat, b: nat)
    ensures BitOr(a, b) == BitOr(b, a)
    decreases a + b
  {
    if a != 0 && b != 0 {
      BitOrCommutes(a / 2, b / 2);
    }
  }

  lemma {:induction false} BitOrAssociates(a: nat, b: nat, c: nat)
    ensures BitOr(BitOr(a, b), c) == BitOr(a, BitOr(b, c))
    decreases a + b + c
  {
    if a != 0 && b != 0 && c != 0 {
      BitOrAssociates(a / 2, b / 2, c / 2);
      BitOrHalves(a, b);
      BitOrHalves(b, c);
      BitOrUnfold(BitOr(a, b), c);
      BitOrUnfold(a, BitOr(b, c));
    }
  }

  /** Halving an or halves both operands; its low bit is set when either low bit is. */
  lemma BitOrHalves(a: nat, b: nat)
    ensures BitOr(a, b) / 2 == BitOr(a / 2, b / 2)
    ensures BitOr(a, b) % 2 == (if a % 2 == 1 || b % 2 == 1 then 1 else 0)
  {
    BitOrUnfold(a, b);
    DivModUnique(BitOr(a, b), 2, BitOr(a / 2, b / 2), if a % 2 == 1 || b % 2 == 1 then 1 else 0);
  }

  /**
   * On non-negative operands the grouping of two `|` does not matter:
   * `(a | b) | c == (a | c) | b`.
   */
  lemma Or32Regroup(a: int, b: int, c: int)
    requires 0 <= a < TWO31 && 0 <= b < TWO31 && 0 <= c < TWO31
    ensures Or32(Or32(a, b), c) == Or32(Or32(a, c), b)
  {
    OrBounds(a, b);
    OrBounds(a, c);
    BitOrAssociates(a, b, c);
    BitOrAssociates(a, c, b);
    BitOrCommutes(b, c);
  }

  /** Or-ing a value below 2^k with a multiple of 2^k is addition: the bits do not overlap. */
  lemma {:induction false} BitOrDisjoint(a: nat, m: nat, k: nat)
    requires a < Pow2(k)
    ensures BitOr(a, m * Pow2(k)) == a + m * Pow2(k)
    decreases k
  {
    if a != 0 && m != 0 && k != 0 {
      var p := Pow2(k - 1);
      assert m * Pow2(k) == 2 * (m * p);
      BitOrDisjoint(a / 2, m, k - 1);
    }
  }

  /** And-ing with k low one bits keeps the remainder modulo 2^k. */
  lemma {:induction false} BitAndLowBits(a: nat, k: nat)
    ensures BitAnd(a, Pow2(k) - 1) == a % Pow2(k)
    decreases k
  {
    if k == 0 {
      assert Pow2(0) == 1;
      assert BitAnd(a, 0) == 0;
      assert a % 1 == 0;
    } else if a == 0 {
      assert BitAnd(0, Pow2(k) - 1) == 0;
      assert 0 % Pow2(k) == 0;
    } else {
      BitAndLowBits(a / 2, k - 1);
      LowBitsStep(a, k);
      assert BitAnd(a, Pow2(k) - 1) == a % Pow2(k);
    }
  }

  /** One bit of BitAndLowBits: both sides split into the low bit of `a` and the same thing for `a / 2`. */
  lemma LowBitsStep(a: nat, k: nat)
    requires a != 0 && k >= 1
    ensures BitAnd(a, Pow2(k) - 1) == 2 * BitAnd(a / 2, Pow2(k - 1) - 1) + a % 2
    ensures a % Pow2(k) == a % 2 + 2 * ((a / 2) % Pow2(k - 1))
  {
    var p := Pow2(k - 1);
    assert Pow2(k) == 2 * p;
    BitAndOddMask(a, p);
    ModHalf(a, p);
  }

  /** One step of `a & (2p - 1)`: the low bit of `a` survives, the rest is `(a / 2) & (p - 1)`. */
  lemma BitAndOddMask(a: nat, p: nat)
    requires a != 0 && p >= 1
    ensures BitAnd(a, 2 * p - 1) == 2 * BitAnd(a / 2, p - 1) + a % 2
  {
    OddHalf(p);
  }

  /** 2p - 1 is odd, and halving it drops its low bit. */
  lemma OddHalf(p: nat)
    requires p >= 1
    ensures (2 * p - 1) / 2 == p - 1 && (2 * p - 1) % 2 == 1
  {
    DivModUnique(2 * p - 1, 2, p - 1, 1);
  }

  lemma {:induction false} MulAtLeast(d: int, x: int)
    requires d > 0 && x >= 1
    ensures d * x >= d
    decreases x
  {
    if x > 1 {
      MulAtLeast(d, x - 1);
      assert d * x == d * (x - 1) + d;
    }
  }

  /** Quotient and remainder are determined by any decomposition a == d * q + s with 0 <= s < d. */
  lemma DivModUnique(a: int, d: int, q: int, s: int)
    requires d > 0 && 0 <= s < d && a == d * q + s
    ensures a / d == q && a % d == s
  {
    var q0, s0 := a / d, a % d;
    assert a == d * q0 + s0;
    assert d * (q - q0) == s0 - s by {
      assert d * (q - q0) == d * q - d * q0;
    }
    if q > q0 {
      MulAtLeast(d, q - q0);
    } else if q < q0 {
      MulAtLeast(d, q0 - q);
    }
  }

  lemma ModHalf(a: nat, p: nat)
    requires p >= 1
    ensures a % (2 * p) == a % 2 + 2 * ((a / 2) % p)
  {
    var q := (a / 2) / p;
    var r := (a / 2) % p;
    assert a / 2 == p * q + r;
    assert a == (2 * p) * q + (2 * r + a % 2);
    DivModUnique(a, 2 * p, q, 2 * r + a % 2);
  }

  /** `x & 0xFF` on a non-negative Java `int` is its remainder modulo 256. */
  lemma AndLowByte(x: int)
    requires 0 <= x < TWO31
    ensures And32(x, 0xFF) == x % 256
  {
    Pow2Values();
    BitAndLowBits(x, 8);
  }
}
