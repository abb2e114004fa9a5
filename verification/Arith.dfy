/** The wide arithmetic that the compiled code calls: shift-and-subtract division of any
    width, signed division on top of it, and exponentiation by squaring. */
module Arith {
  import opened Words

  // ---------------------------------------------------------------- powers of two and bits

  lemma {:induction false} Pow2Add(a: nat, b: nat)
    ensures Pow2(a + b) == Pow2(a) * Pow2(b)
  {
    if a > 0 { Pow2Add(a - 1, b); }
  }

  lemma Pow2Square(n: nat, v: nat)
    requires Pow2(n) == v
    ensures Pow2(2 * n) == v * v
  {
    Pow2Add(n, n);
  }

  lemma Powers16(n: nat)
    requires n == 4
    ensures Pow2(4 * n) == 0x1_0000
  {
    assert Pow2(n) == 2 * Pow2(n - 1) == 4 * Pow2(n - 2) == 8 * Pow2(n - 3);
    Pow2Square(n, 0x10);
    Pow2Square(2 * n, 0x100);
  }

  lemma PowersOf(n: nat)
    requires Pow2(n) == 0x1_0000 && n > 0
    ensures Pow2(4 * n) == TWO64 && Pow2(16 * n) == TWO256 && Pow2(16 * n - 1) == TWO255
  {
    Pow2Square(n, 0x1_0000);
    Pow2Square(2 * n, 0x1_0000_0000);
    Pow2Square(4 * n, TWO64);
    Pow2Square(8 * n, 0x1_0000000000000000_0000000000000000);
    assert Pow2(16 * n) == 2 * Pow2(16 * n - 1);
  }

  lemma WordSize()
    ensures Pow2(256) == TWO256 && Pow2(255) == TWO255 && Pow2(64) == TWO64
  {
    var n: nat :| n == 4;
    Powers16(n);
    PowersOf(4 * n);
  }

  lemma {:induction false} Pow2Monotone(a: nat, b: nat)
    requires a <= b
    ensures Pow2(a) <= Pow2(b)
    decreases b
  {
    if a < b { Pow2Monotone(a, b - 1); }
  }

  lemma Pow2Order(a: nat, b: nat)
    requires Pow2(a) < Pow2(b)
    ensures a < b
  {
    if b <= a { Pow2Monotone(b, a); }
  }

  /** Position after the highest set bit. */
  function BitLen(x: nat): nat {
    if x == 0 then 0 else 1 + BitLen(x / 2)
  }

  lemma {:induction false} BitLenBounds(x: nat)
    ensures x < Pow2(BitLen(x))
    ensures x > 0 ==> Pow2(BitLen(x) - 1) <= x
  {
    if x > 0 { BitLenBounds(x / 2); }
  }

  lemma BitLenMonotone(x: nat, y: nat)
    requires x <= y
    ensures BitLen(x) <= BitLen(y)
  {
    BitLenBounds(x);
    BitLenBounds(y);
    if x > 0 { Pow2Order(BitLen(x) - 1, BitLen(y)); }
  }

  lemma BitLenFits(x: nat, width: nat)
    requires x < Pow2(width)
    ensures BitLen(x) <= width
  {
    BitLenBounds(x);
    if x > 0 { Pow2Order(BitLen(x) - 1, width); }
  }

  /** Leading zeroes of a non-zero value of the given width. */
  function LeadingZeroes(x: nat, width: nat): nat
    requires 0 < x < Pow2(width)
  {
    BitLenFits(x, width);
    width - BitLen(x)
  }

  // ---------------------------------------------------------------- division

  /** y shifted left to the length of x: the highest bits line up, and nothing is shifted out. */
  lemma AlignedDivisor(x: nat, y: nat, width: nat)
    requires 0 < y <= x < Pow2(width)
    ensures LeadingZeroes(y, width) >= LeadingZeroes(x, width)
    ensures var i := LeadingZeroes(y, width) - LeadingZeroes(x, width);
      y * Pow2(i) < Pow2(width) && x < 2 * (y * Pow2(i))
  {
    var i := LeadingZeroes(y, width) - LeadingZeroes(x, width);
    BitLenMonotone(y, x);
    BitLenBounds(x);
    BitLenBounds(y);
    BitLenFits(x, width);
    Pow2Add(BitLen(y), i);
    Pow2Add(BitLen(y) - 1, i);
    Pow2Monotone(BitLen(x), width);
    MulMonotone(y, Pow2(BitLen(y)), Pow2(i));
    MulMonotone(Pow2(BitLen(y) - 1), y, Pow2(i));
  }

  lemma MulMonotone(a: nat, b: nat, c: nat)
    requires a <= b && c > 0
    ensures a * c <= b * c && (a < b ==> a * c < b * c)
  {
  }

  lemma DivModUnique(x: int, y: int, q: int, r: int)
    requires y > 0 && x == q * y + r && 0 <= r < y
    ensures q == x / y && r == x % y
  {
    var a, b := x / y, x % y;
    assert (q - a) * y == b - r && (a - q) * y == r - b;
    if q > a { MulMonotone(1, q - a, y); }
    if q < a { MulMonotone(1, a - q, y); }
  }

  /** The emitted loop on values of the given width; all operations are modulo 2^width. */
  method UDivRem(x: nat, y: nat, width: nat) returns (q: nat, r: nat)
    requires x < Pow2(width) && 0 < y < Pow2(width)
    ensures q == x / y && r == x % y
  {
    if y > x {
      DivModUnique(x, y, 0, x);
      return 0, x;
    }
    AlignedDivisor(x, y, width);
    var i: nat := LeadingZeroes(y, width) - LeadingZeroes(x, width);
    var yPhi: nat := Shl(y, i, width);
    r := x;
    q := 0;
    while true
      invariant Aligned(x, y, width, i, yPhi, q, r)
      decreases i
    {
      var rGEy := r >= yPhi;
      var r1 := if rGEy then r - yPhi else r;
      var q1 := if rGEy then BitOr(q, 1) else q;
      OrOne(q);
      DivStep(x, yPhi, q, r);
      if i == 0 {
        DivModUnique(x, y, q1, r1);
        return q1, r1;
      }
      NextDivisor(x, y, width, i, yPhi, q1, r1);
      q := Shl(q1, 1, width);
      yPhi := yPhi / 2;
      r := r1;
      i := i - 1;
    }
  }

  /** The loop's invariant: the divisor is y * 2^i, and x = q * divisor + r. */
  ghost predicate Aligned(x: nat, y: nat, width: nat, i: nat, yPhi: nat, q: nat, r: nat) {
    && 0 < y <= x < Pow2(width)
    && yPhi == y * Pow2(i) && yPhi < Pow2(width)
    && x == q * yPhi + r && r < 2 * yPhi
    && q % 2 == 0
  }

  /** Shift left, modulo 2^width. */
  function Shl(x: nat, n: nat, width: nat): (y: nat)
    ensures x * Pow2(n) < Pow2(width) ==> y == x * Pow2(n)
  {
    var z := x * Pow2(n);
    if z < Pow2(width) then
      DivModUnique(z, Pow2(width), 0, z);
      z % Pow2(width)
    else z % Pow2(width)
  }

  /** One subtraction keeps x = q * y + r. */
  lemma DivStep(x: nat, y: nat, q: nat, r: nat)
    requires x == q * y + r && r < 2 * y
    ensures r >= y ==> x == (q + 1) * y + (r - y)
  {
  }

  lemma MulTwo(a: nat, b: nat)
    ensures a * (2 * b) == 2 * (a * b)
  {
  }

  lemma Halve(x: nat, h: nat, q: nat, r: nat)
    requires h > 0 && x == q * (2 * h) + r
    ensures x == (2 * q) * h + r && 2 * q <= x
  {
    assert q * (2 * h) == (2 * q) * h;
    MulMonotone(1, h, 2 * q + 1);
  }

  lemma ShlOne(q: nat, width: nat)
    requires 2 * q < Pow2(width)
    ensures Shl(q, 1, width) == 2 * q
  {
    assert Pow2(1) == 2 * Pow2(0) == 2;
    assert q * Pow2(1) == 2 * q;
  }

  lemma Doubled(y: nat, p: nat, p2: nat, yPhi: nat)
    requires p2 == 2 * p && p > 0 && y > 0 && yPhi == y * p2
    ensures 0 < yPhi / 2 == y * p && yPhi == 2 * (yPhi / 2)
  {
    MulTwo(y, p);
    MulMonotone(0, y, p);
  }

  lemma HalfDivisor(x: nat, h: nat, q: nat, r: nat)
    requires h > 0 && x == q * (2 * h) + r && r < 2 * h
    ensures x == (2 * q) * h + r && r < 2 * h && 2 * q <= x && (2 * q) % 2 == 0
  {
    Halve(x, h, q, r);
  }

  /** Halving the divisor and doubling the quotient keeps it too, and nothing is shifted out. */
  lemma NextDivisor(x: nat, y: nat, width: nat, i: nat, yPhi: nat, q: nat, r: nat)
    requires 0 < y <= x < Pow2(width) && yPhi == y * Pow2(i) < Pow2(width)
    requires i > 0 && x == q * yPhi + r && r < yPhi
    ensures Shl(q, 1, width) == 2 * q
    ensures Aligned(x, y, width, i - 1, yPhi / 2, 2 * q, r)
  {
    Doubled(y, Pow2(i - 1), Pow2(i), yPhi);
    HalfDivisor(x, yPhi / 2, q, r);
    ShlOne(q, width);
  }

  // ---------------------------------------------------------------- signed division

  function Neg(x: Word): Word {
    (0 - x) % TWO256
  }

  function Abs(x: Word): Word {
    if x >= TWO255 then Neg(x) else x
  }

  lemma DivModFit(x: Word, y: Word)
    requires y > 0
    ensures 0 <= x / y <= x && 0 <= x % y < y
  {
    var q, r := x / y, x % y;
    assert x == q * y + r;
    if q > x { MulMonotone(1, y, q); }
  }

  /** Quotient and remainder as the emitted function puts them together from UDivRem. */
  function SDivRem(x: Word, y: Word): (Word, Word)
    requires y != 0
  {
    DivModFit(Abs(x), Abs(y));
    var qAbs: Word := Abs(x) / Abs(y);
    var rAbs: Word := Abs(x) % Abs(y);
    var xIsNeg, yIsNeg := x >= TWO255, y >= TWO255;
    (if xIsNeg != yIsNeg then Neg(qAbs) else qAbs, if xIsNeg then Neg(rAbs) else rAbs)
  }

  // ---------------------------------------------------------------- exponentiation

  lemma ModShift(a: int, k: int, m: int)
    requires m > 0
    ensures (a + k * m) % m == a % m
  {
    assert a + k * m == (a / m + k) * m + a % m;
    DivModUnique(a + k * m, m, a / m + k, a % m);
  }

  /** Reducing a factor does not change a product modulo m. */
  lemma ModMul(x: int, y: int, m: int)
    requires m > 0
    ensures ((x % m) * y) % m == (x * y) % m
  {
    var q := x / m;
    assert x * y == (x % m) * y + (q * y) * m;
    ModShift((x % m) * y, q * y, m);
  }

  lemma ModMulSame(x: int, z: int, y: int, m: int)
    requires m > 0 && x % m == z % m
    ensures (y * x) % m == (y * z) % m
  {
    ModMul(x, y, m);
    ModMul(z, y, m);
    assert y * x == x * y && y * z == z * y;
  }

  lemma ModMod(x: int, m: int)
    requires m > 0
    ensures (x % m) % m == x % m
  {
    DivModUnique(x % m, m, 0, x % m);
  }

  lemma {:induction false} PowSquare(b: int, e: nat)
    ensures Pow(b * b, e) == Pow(b, 2 * e)
  {
    if e > 0 {
      PowSquare(b, e - 1);
      var p := Pow(b, 2 * e - 2);
      assert Pow(b, 2 * e) == b * (b * p);
      assert b * (b * p) == (b * b) * p;
    }
  }

  lemma {:induction false} PowMod(b: int, e: nat, m: int)
    requires m > 0
    ensures Pow(b % m, e) % m == Pow(b, e) % m
  {
    if e > 0 {
      PowMod(b, e - 1, m);
      var p, q := Pow(b % m, e - 1), Pow(b, e - 1);
      ModMulSame(p, q, b % m, m);
      ModMul(b, q, m);
    }
  }

  /** One round of the loop: what is still to be multiplied stays the same modulo m. */
  lemma ExpRound(r: int, b: int, e: nat, m: int)
    requires m > 0 && e > 0
    ensures var r1 := if e % 2 != 0 then (r * b) % m else r;
      (r1 * Pow((b * b) % m, e / 2)) % m == (r * Pow(b, e)) % m
  {
    var h := e / 2;
    var p1, p := Pow((b * b) % m, h), Pow(b * b, h);
    PowMod(b * b, h, m);
    PowSquare(b, h);
    if e % 2 == 0 {
      ModMulSame(p1, p, r, m);
    } else {
      var r1 := (r * b) % m;
      ModMulSame(p1, p, r1, m);
      ModMul(r * b, p, m);
      assert (r * b) * p == r * (b * p);
      assert Pow(b, e) == b * p;
    }
  }

  /** Square and multiply, as emitted, and as run at compile time on constants. */
  method Exp(base: Word, exponent: Word) returns (r: Word)
    ensures r == Wrap(Pow(base, exponent))
  {
    r := 1;
    var b: Word, e: nat := base, exponent;
    while e != 0
      invariant (r * Pow(b, e)) % TWO256 == Pow(base, exponent) % TWO256
    {
      ExpRound(r, b, e, TWO256);
      if e % 2 != 0 {
        r := Wrap(r * b);
      }
      b := Wrap(b * b);
      e := e / 2;
    }
    ModMod(r, TWO256);
  }

  // ---------------------------------------------------------------- bitwise operations

  function BitAnd(a: nat, b: nat): nat {
    if a == 0 then 0 else 2 * BitAnd(a / 2, b / 2) + Min(a % 2, b % 2)
  }

  function BitOr(a: nat, b: nat): nat
    decreases a + b
  {
    if a == 0 then b else 2 * BitOr(a / 2, b / 2) + Max(a % 2, b % 2)
  }

  function BitXor(a: nat, b: nat): nat
    decreases a + b
  {
    if a == 0 && b == 0 then 0 else 2 * BitXor(a / 2, b / 2) + (if a % 2 == b % 2 then 0 else 1)
  }

  lemma MaskStep(w: nat, m: nat, m2: nat)
    requires m > 0 && m2 == 2 * m && BitAnd(w / 2, m - 1) == (w / 2) % m
    ensures BitAnd(w, m2 - 1) == w % m2
  {
    ModHalf(w, m);
    AndStep(w, m - 1);
  }

  /** Masking with 2^k - 1 keeps the k low bits. */
  lemma {:induction false} MaskLow(w: nat, k: nat)
    ensures BitAnd(w, Pow2(k) - 1) == w % Pow2(k)
    decreases k
  {
    if k == 0 {
      AndZero(w);
    } else {
      MaskLow(w / 2, k - 1);
      MaskStep(w, Pow2(k - 1), Pow2(k));
    }
  }

  lemma AndStep(w: nat, a: nat)
    ensures BitAnd(w, 2 * a + 1) == 2 * BitAnd(w / 2, a) + w % 2
  {
    assert (2 * a + 1) / 2 == a && (2 * a + 1) % 2 == 1;
  }

  lemma OrStep(w: nat, a: nat, bit: nat)
    requires bit <= 1
    ensures BitOr(w, 2 * a + bit) == 2 * BitOr(w / 2, a) + Max(w % 2, bit)
  {
    assert (2 * a + bit) / 2 == a && (2 * a + bit) % 2 == bit;
  }

  lemma {:induction false} OrZero(w: nat)
    ensures BitOr(w, 0) == w
  {
    if w > 0 { OrZero(w / 2); }
  }

  /** Setting the lowest bit of an even number adds 1. */
  lemma OrOne(q: nat)
    requires q % 2 == 0
    ensures BitOr(q, 1) == q + 1
  {
    OrZero(q / 2);
  }

  lemma {:induction false} AndZero(w: nat)
    ensures BitAnd(w, 0) == 0
  {
    if w > 0 { AndZero(w / 2); }
  }

  lemma ModHalf(w: nat, m: nat)
    requires m > 0
    ensures w % (2 * m) == 2 * ((w / 2) % m) + w % 2
  {
    var h := w / 2;
    var q := h / m;
    assert w == q * (2 * m) + (2 * (h % m) + w % 2) by {
      assert h == q * m + h % m;
      assert q * (2 * m) == 2 * (q * m);
    }
    DivModUnique(w, 2 * m, q, 2 * (h % m) + w % 2);
  }

  /** Flipping all n bits is subtraction from 2^n - 1. */
  lemma {:induction false} XorOnes(w: nat, n: nat)
    requires w < Pow2(n)
    ensures BitXor(w, Pow2(n) - 1) == Pow2(n) - 1 - w
    decreases n
  {
    if n > 0 {
      var m := Pow2(n - 1);
      XorOnes(w / 2, n - 1);
      XorStep(w, m - 1);
    }
  }

  lemma XorStep(w: nat, a: nat)
    ensures BitXor(w, 2 * a + 1) == 2 * BitXor(w / 2, a) + 1 - w % 2
  {
    assert (2 * a + 1) / 2 == a && (2 * a + 1) % 2 == 1;
  }

  lemma {:induction false} SetAll(w: nat, n: nat)
    requires w < Pow2(n)
    ensures BitOr(w, Pow2(n) - 1) == Pow2(n) - 1
    decreases n
  {
    if n > 0 {
      SetAll(w / 2, n - 1);
      OrStep(w, Pow2(n - 1) - 1, 1);
    }
  }

  lemma HighStep(w: nat, l: nat, m: nat, l2: nat, m2: nat)
    requires 0 < l <= m && l2 == 2 * l && m2 == 2 * m
    requires BitOr(w / 2, m - l) == (w / 2) % l + (m - l)
    ensures BitOr(w, m2 - l2) == w % l2 + (m2 - l2)
  {
    ModHalf(w, l);
    OrEven(w, m - l, m2 - l2, w % l2, (w / 2) % l);
  }

  /** Setting the bits from k up to n, where l = 2^k and m = 2^n. */
  lemma {:induction false} SetFrom(w: nat, k: nat, n: nat, l: nat, m: nat)
    requires w < m == Pow2(n) && l == Pow2(k) && k <= n
    ensures 0 < l <= m && BitOr(w, m - l) == w % l + (m - l)
    decreases n
  {
    Pow2Monotone(k, n);
    if k == 0 {
      SetAll(w, n);
    } else {
      SetFrom(w / 2, k - 1, n - 1, Pow2(k - 1), Pow2(n - 1));
      HighStep(w, Pow2(k - 1), Pow2(n - 1), l, m);
    }
  }

  lemma SetHigh(w: nat, k: nat, n: nat)
    requires w < Pow2(n) && k <= n
    ensures Pow2(k) <= Pow2(n)
    ensures BitOr(w, Pow2(n) - Pow2(k)) == w % Pow2(k) + (Pow2(n) - Pow2(k))
  {
    SetFrom(w, k, n, Pow2(k), Pow2(n));
  }

  lemma OrEven(w: nat, a: nat, b: nat, c: nat, d: nat)
    requires b == 2 * a && c == 2 * d + w % 2 && BitOr(w / 2, a) == d + a
    ensures BitOr(w, b) == c + b
  {
    OrStep(w, a, 0);
  }
}
