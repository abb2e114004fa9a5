/** The arithmetic handlers of the emitted code meet the definitions of the Yellow Paper on
    every input. */
module ArithRefinement {
  import opened Words
  import opened Instructions
  import opened Arith
  import Jit
  import YP = YellowPaper

  // ---------------------------------------------------------------- signed division

  lemma NegDivisor(a: nat, b: int)
    requires b < 0
    ensures a / b == -(a / (-b)) && a % b == a % (-b)
  {
    var c := -b;
    var q, r := a / c, a % c;
    var p, s := a / b, a % b;
    assert a == q * c + r && a == p * b + s;
    assert p * b == (-p) * c;
    assert a == (-p) * c + s;
    DivModUnique(a, c, -p, s);
  }

  /** Rounding toward zero is division of the magnitudes, with the sign of the quotient. */
  lemma TruncByMagnitude(a: int, b: int)
    requires b != 0
    ensures var q := (if a >= 0 then a else -a) / (if b > 0 then b else -b);
      YP.TruncDiv(a, b) == if (a < 0) != (b < 0) then -q else q
  {
    if b < 0 {
      NegDivisor(if a >= 0 then a else -a, b);
    }
  }

  lemma AbsIsMagnitude(x: Word)
    ensures Abs(x) == var s := ToSigned(x); if s >= 0 then s else -s
  {
  }

  lemma ModByMagnitude(a: int, b: int)
    requires b != 0
    ensures var r := (if a >= 0 then a else -a) % (if b > 0 then b else -b);
      YP.TruncMod(a, b) == if a < 0 then -r else r
  {
    TruncByMagnitude(a, b);
    RemainderSign(if a >= 0 then a else -a, if b > 0 then b else -b, a < 0, b < 0);
  }

  lemma SDivRemAgrees(x: Word, y: Word)
    requires y != 0
    ensures SDivRem(x, y).0 == Wrap(YP.TruncDiv(ToSigned(x), ToSigned(y)))
    ensures SDivRem(x, y).1 == Wrap(YP.TruncMod(ToSigned(x), ToSigned(y)))
  {
    AbsIsMagnitude(x);
    AbsIsMagnitude(y);
    TruncByMagnitude(ToSigned(x), ToSigned(y));
    ModByMagnitude(ToSigned(x), ToSigned(y));
    DivModFit(Abs(x), Abs(y));
  }

  lemma RemainderSign(x: nat, y: nat, xNeg: bool, yNeg: bool)
    requires y > 0
    ensures var a: int := if xNeg then 0 - x else x;
      var b: int := if yNeg then 0 - y else y;
      var q: int := if xNeg != yNeg then -(x / y) else x / y;
      a - b * q == if xNeg then -(x % y) else x % y
  {
    var q := x / y;
    assert x == q * y + x % y;
    assert y * q == q * y && y * -q == -(q * y);
    assert (0 - y) * q == -(q * y) && (0 - y) * -q == q * y;
  }

  /** The quotient and the remainder that the Yellow Paper's rounding defines are the only
      ones with a remainder smaller than the divisor and of the sign of the dividend. */
  lemma TruncSpec(a: int, b: int)
    requires b != 0
    ensures a == b * YP.TruncDiv(a, b) + YP.TruncMod(a, b)
    ensures var r := YP.TruncMod(a, b);
      (r != 0 ==> (r < 0 <==> a < 0)) && -(if b > 0 then b else -b) < r < (if b > 0 then b else -b)
  {
    TruncByMagnitude(a, b);
    RemainderSign(if a >= 0 then a else -a, if b > 0 then b else -b, a < 0, b < 0);
  }

  lemma ByMinusOne(a: int)
    ensures YP.TruncDiv(a, -1) == -a && YP.TruncMod(a, -1) == 0
  {
    TruncByMagnitude(a, -1);
  }

  /** SDIV, with its guards against division by zero and by -1. */
  lemma SDivAgrees(d: Word, n: Word)
    ensures Jit.SDivOp(d, n) == if n == 0 then 0 else Wrap(YP.TruncDiv(ToSigned(d), ToSigned(n)))
  {
    if n == TWO256 - 1 {
      ByMinusOne(ToSigned(d));
    } else if n != 0 {
      SDivRemAgrees(d, n);
    }
  }

  lemma SModAgrees(d: Word, n: Word)
    ensures Jit.SModOp(d, n) == if n == 0 then 0 else Wrap(YP.TruncMod(ToSigned(d), ToSigned(n)))
  {
    if n == TWO256 - 1 {
      ByMinusOne(ToSigned(d));
    } else if n != 0 {
      SDivRemAgrees(d, n);
    }
  }

  /** The one quotient that does not fit: -2^255 / -1 wraps around to -2^255. */
  lemma MinByMinusOne()
    ensures Jit.SDivOp(TWO255, TWO256 - 1) == TWO255
    ensures Jit.SModOp(TWO255, TWO256 - 1) == 0
  {
  }

  // ---------------------------------------------------------------- bytes and sign extension

  lemma Distribute(p: int, b: int, s: int, a: int)
    ensures (p * b + s) * a == p * (a * b) + s * a
  {
    assert (p * b) * a == p * (a * b);
  }

  lemma DivDiv(x: nat, a: nat, b: nat)
    requires a > 0 && b > 0
    ensures a * b > 0 && (x / a) / b == x / (a * b)
  {
    MulMonotone(0, a, b);
    DivDivAt(x, a, b, x / a, x % a, (x / a) / b, (x / a) % b);
  }

  lemma DivDivAt(x: nat, a: nat, b: nat, q: nat, r: nat, p: nat, s: nat)
    requires x == q * a + r && q == p * b + s && r < a && s < b && a * b > 0
    ensures p == x / (a * b)
  {
    Distribute(p, b, s, a);
    MulMonotone(s + 1, b, a);
    assert b * a == a * b && (s + 1) * a == s * a + a;
    DivModUnique(x, a * b, p, s * a + r);
  }

  lemma {:induction false} ToBytesAt(x: nat, n: nat, i: nat)
    requires i < n
    ensures ToBytes(x, n)[i] == (x / Pow2(8 * (n - 1 - i))) % 256
    decreases n
  {
    if i < n - 1 {
      ToBytesAt(x / 256, n - 1, i);
      Byte8(n - 1 - i);
      DivDiv(x, 256, Pow2(8 * (n - 2 - i)));
    }
  }

  lemma Byte8(k: nat)
    requires k > 0
    ensures Pow2(8 * k) == 256 * Pow2(8 * (k - 1))
  {
    Pow2Add(8 * (k - 1), 8);
    assert Pow2(8) == 256;
  }

  lemma ByteAgrees(i: Word, x: Word)
    ensures Jit.ByteOp(i, x) == YP.ByteOf(i, x)
  {
    if i < 32 {
      ToBytesAt(x, 32, i);
    }
  }

  /** The low part of twice a power: one more bit. */
  lemma ModSplit(x: nat, m: nat)
    requires m > 0
    ensures x % (2 * m) == ((x / m) % 2) * m + x % m
  {
    var h := x / m;
    assert x == (h / 2) * (2 * m) + ((h % 2) * m + x % m) by {
      assert x == h * m + x % m && h == (h / 2) * 2 + h % 2;
      assert ((h / 2) * 2 + h % 2) * m == (h / 2) * (2 * m) + (h % 2) * m;
    }
    DivModUnique(x, 2 * m, h / 2, (h % 2) * m + x % m);
  }

  lemma Complement(m: nat)
    requires 0 < m < TWO256 && BitXor(m - 1, TWO256 - 1) == TWO256 - 1 - (m - 1)
    ensures Wrap(BitXor(m - 1, TWO256 - 1)) == TWO256 - m
  {
    WrapSmall(TWO256 - m);
  }

  lemma BelowWord(p: nat)
    requires p < 256
    ensures Pow2(p) < Pow2(256) == TWO256
  {
    WordSize();
    Pow2Monotone(p, 255);
  }

  /** The masks of SIGNEXTEND are 2^p - 1 and its complement. */
  lemma MasksOf(x: Word, p: nat)
    requires p < 256
    ensures Pow2(p) < TWO256
    ensures Wrap(BitXor(Pow2(p) - 1, TWO256 - 1)) == TWO256 - Pow2(p)
    ensures BitAnd(x, Pow2(p) - 1) == x % Pow2(p)
    ensures BitOr(x, TWO256 - Pow2(p)) == x % Pow2(p) + (TWO256 - Pow2(p))
  {
    BelowWord(p);
    XorOnes(Pow2(p) - 1, 256);
    Complement(Pow2(p));
    MaskLow(x, p);
    SetHigh(x, p, 256);
  }

  /** The extension of the sign bit p, where m = 2^p. */
  function Extended(x: Word, m: nat): Word
    requires 0 < m < TWO256
  {
    if (x / m) % 2 == 1 then Wrap(x % m + (TWO256 - m)) else Wrap(x % m)
  }

  lemma MaskedIsExtended(x: Word, p: nat)
    requires p < 256
    ensures Pow2(p) < TWO256 && Jit.SignMasked(x, p) == Extended(x, Pow2(p))
  {
    MasksOf(x, p);
    var m := Pow2(p);
    WrapSmall(m);
    WrapSmall(m - 1);
    var mask := Wrap(Wrap(m) - 1);
    assert mask == m - 1;
    assert Wrap(BitXor(mask, TWO256 - 1)) == TWO256 - m;
  }

  lemma PaperIsExtended(k: Word, x: Word, p: nat)
    requires k <= 30 && p == 8 * k + 7 && Pow2(p) < TWO256
    ensures YP.SignExtendAt(k, x) == Extended(x, Pow2(p))
  {
    var m, n: nat := Pow2(p), 8 * (k + 1);
    assert Pow2(n) == 2 * m;
    ModSplit(x, m);
    var bit, low: nat, both: nat := (x / m) % 2, x % m, x % Pow2(n);
    if bit == 1 {
      assert both == m + low;
    } else {
      assert both == low;
    }
  }

  lemma SignExtendAgrees(k: Word, x: Word)
    ensures Jit.SignExtendOp(k, x) == YP.SignExtendAt(k, x)
  {
    if k <= 30 {
      MaskedIsExtended(x, 8 * k + 7);
      assert k % 32 == k;
      PaperIsExtended(k, x, 8 * k + 7);
    }
  }

  // ---------------------------------------------------------------- all pure instructions

  lemma AddMulModAgree(a: Word, b: Word, n: Word, undef: Word)
    ensures Jit.AddModOp(a, b, n, undef) == if n == 0 then 0 else (a as int + b) % n
    ensures Jit.MulModOp(a, b, n, undef) == if n == 0 then 0 else (a as int * b) % n
  {
  }

  lemma NotAgrees(x: Word)
    ensures Wrap(BitXor(x, TWO256 - 1)) == TWO256 - 1 - x
  {
    WordSize();
    XorOnes(x, 256);
  }

  /** Every pure instruction, whatever the undefined remainder by zero is. */
  lemma PureAgrees(undef: Word, p: PureOp, a: seq<Word>)
    ensures Jit.Pure(undef, p, a) == YP.Pure(p, a)
  {
    if |a| == Arity(p) {
      match p
      case SDiv => SDivAgrees(a[0], a[1]);
      case SMod => SModAgrees(a[0], a[1]);
      case AddMod => AddMulModAgree(a[0], a[1], a[2], undef);
      case MulMod => AddMulModAgree(a[0], a[1], a[2], undef);
      case SignExtend => SignExtendAgrees(a[0], a[1]);
      case Not => NotAgrees(a[0]);
      case ByteAt => ByteAgrees(a[0], a[1]);
      case _ =>
    }
  }

  // ---------------------------------------------------------------- the price of EXP

  lemma BitLen4(x: nat)
    requires x >= 8
    ensures BitLen(x) == 4 + BitLen(x / 16)
  {
    var a := x / 2;
    var b := a / 2;
    var c := b / 2;
    assert c / 2 == x / 16;
    assert BitLen(x) == 1 + BitLen(a) && BitLen(a) == 1 + BitLen(b);
    assert BitLen(b) == 1 + BitLen(c) && BitLen(c) == 1 + BitLen(c / 2);
  }

  lemma {:induction false} ExpBytes(x: nat)
    ensures (BitLen(x) + 7) / 8 == YP.ByteLen(x)
  {
    if x >= 256 {
      BitLen4(x);
      BitLen4(x / 16);
      assert (x / 16) / 16 == x / 256;
      ExpBytes(x / 256);
    } else if x > 0 {
      BitLenFits(x, 8);
      assert x / 256 == 0;
    }
  }
}
