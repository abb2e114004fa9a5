/** Division instructions end to end: the handler's guards and selects around the functions
    that replace wide division, each of them a run of the shift-and-subtract loop. */
module LoweredArith {
  import opened Words
  import opened Instructions
  import opened Arith
  import opened ArithRefinement
  import YP = YellowPaper

  /** evm.udivrem.i256. */
  method UDivRem256(x: Word, y: Word) returns (q: Word, r: Word)
    requires y != 0
    ensures q == x / y && r == x % y
  {
    WordSize();
    DivModFit(x, y);
    var q0, r0 := UDivRem(x, y, 256);
    q, r := q0, r0;
  }

  /** evm.sdivrem.i256: the remainder has the sign of the dividend. */
  method SDivRem256(x: Word, y: Word) returns (q: Word, r: Word)
    requires y != 0
    ensures q == Wrap(YP.TruncDiv(ToSigned(x), ToSigned(y)))
    ensures r == Wrap(YP.TruncMod(ToSigned(x), ToSigned(y)))
  {
    var xIsNeg, yIsNeg := x >= TWO255, y >= TWO255;
    var xAbs := if xIsNeg then Neg(x) else x;
    var yAbs := if yIsNeg then Neg(y) else y;
    var qAbs, rAbs := UDivRem256(xAbs, yAbs);
    r := if xIsNeg then Neg(rAbs) else rAbs;
    q := if xIsNeg != yIsNeg then Neg(qAbs) else qAbs;
    SDivRemAgrees(x, y);
  }

  /** Sums and products of words fit 512 bits. */
  lemma DoubleWord(a: Word, b: Word)
    ensures a + b < Pow2(512) && 0 <= a * b < Pow2(512)
  {
    WordSize();
    Pow2Add(256, 256);
    ProductGrows(a, b, TWO256);
    MulMonotone(a, TWO256, TWO256);
  }

  lemma ProductGrows(a: nat, b: nat, c: nat)
    requires b <= c
    ensures 0 <= a * b <= a * c
  {
  }

  /** evm.urem.i512; by zero it may give anything. */
  method URem512(x: nat, y: Word) returns (r: nat)
    requires x < Pow2(512)
    ensures y != 0 ==> r == x % y
  {
    r := *;
    if y != 0 {
      WordSize();
      Pow2Monotone(256, 512);
      var _, rem := UDivRem(x, y, 512);
      r := rem;
    }
  }

  /** DIV and MOD. */
  method Unsigned(d: Word, n: Word) returns (q: Word, r: Word)
    ensures q == YP.Pure(Div, [d, n]) && r == YP.Pure(Mod, [d, n])
  {
    var divByZero := n == 0;
    q, r := UDivRem256(d, if divByZero then 1 else n);
    q := if divByZero then 0 else q;
    r := if divByZero then 0 else r;
  }

  /** SDIV and SMOD, with the guards against division by zero and of -2^255 by -1. */
  method Signed(d: Word, n: Word) returns (q: Word, r: Word)
    ensures q == YP.Pure(SDiv, [d, n]) && r == YP.Pure(SMod, [d, n])
  {
    var divByZero, divByMinusOne := n == 0, n == TWO256 - 1;
    q, r := SDivRem256(d, if divByZero then 1 else n);
    q := if divByZero then 0 else q;
    r := if divByZero then 0 else r;
    q := if divByMinusOne then Neg(d) else q;
    r := if divByMinusOne then 0 else r;
    ByMinusOne(ToSigned(d));
  }

  lemma ResidueFits(x: nat, m: Word)
    requires m != 0
    ensures 0 <= x % m < TWO256 && Wrap(x % m) == x % m
  {
    WrapSmall(x % m);
  }

  /** ADDMOD: the sum does not wrap in 512 bits. */
  method AddModulo(a: Word, b: Word, m: Word) returns (s: Word)
    ensures s == YP.Pure(AddMod, [a, b, m])
  {
    DoubleWord(a, b);
    var sum := URem512(a + b, m);
    if m != 0 { ResidueFits(a + b, m); }
    s := if m == 0 then 0 else Wrap(sum);
  }

  /** MULMOD: neither does the product. */
  method MulModulo(a: Word, b: Word, m: Word) returns (p: Word)
    ensures p == YP.Pure(MulMod, [a, b, m])
  {
    DoubleWord(a, b);
    var product := URem512(a * b, m);
    if m != 0 { ResidueFits(a * b, m); }
    p := if m == 0 then 0 else Wrap(product);
  }
}
