/** Natural numbers bit by bit: what the bitwise operations, shifts and truncations do to each
    bit. */
module Bits {
  import opened Words
  import opened Arith

  /** Bit k of x, the lowest being bit 0. */
  predicate Bit(x: nat, k: nat) {
    if k == 0 then x % 2 == 1 else Bit(x / 2, k - 1)
  }

  lemma {:induction false} AndBit(a: nat, b: nat, k: nat)
    ensures Bit(BitAnd(a, b), k) <==> Bit(a, k) && Bit(b, k)
    decreases k
  {
    if a == 0 {
      ZeroBit(k);
    } else if k > 0 {
      AndBit(a / 2, b / 2, k - 1);
    }
  }

  lemma {:induction false} OrBit(a: nat, b: nat, k: nat)
    ensures Bit(BitOr(a, b), k) <==> Bit(a, k) || Bit(b, k)
    decreases k
  {
    if a == 0 {
      ZeroBit(k);
    } else if k > 0 {
      OrBit(a / 2, b / 2, k - 1);
    }
  }

  lemma {:induction false} XorBit(a: nat, b: nat, k: nat)
    ensures Bit(BitXor(a, b), k) <==> Bit(a, k) != Bit(b, k)
    decreases k
  {
    if a == 0 && b == 0 {
      ZeroBit(k);
    } else if k > 0 {
      XorBit(a / 2, b / 2, k - 1);
    }
  }

  lemma {:induction false} ZeroBit(k: nat)
    ensures !Bit(0, k)
  {
    if k > 0 { ZeroBit(k - 1); }
  }

  /** Two numbers side by side: the low n bits, and the others. */
  lemma {:induction false} JoinBit(low: nat, high: nat, n: nat, k: nat)
    requires low < Pow2(n)
    ensures Bit(low + high * Pow2(n), k) == if k < n then Bit(low, k) else Bit(high, k - n)
    decreases n
  {
    if n > 0 {
      var h := high * Pow2(n - 1);
      assert low + high * Pow2(n) == low + 2 * h;
      assert (low + 2 * h) / 2 == low / 2 + h && (low + 2 * h) % 2 == low % 2;
      if k > 0 { JoinBit(low / 2, high, n - 1, k - 1); }
    }
  }

  lemma ShiftLeftBit(x: nat, s: nat, k: nat)
    ensures Bit(x * Pow2(s), k) <==> k >= s && Bit(x, k - s)
  {
    JoinBit(0, x, s, k);
    ZeroBit(k);
  }

  lemma DivideBy(x: nat, p: nat)
    requires p > 0
    ensures 0 <= x / p && 0 <= x % p < p && x == x % p + x / p * p
  {
  }

  /** Cutting a number in two: q is x shifted right by n, r its low n bits. */
  lemma SplitBit(x: nat, n: nat, q: nat, r: nat, k: nat)
    requires q == x / Pow2(n) && r == x % Pow2(n)
    ensures Bit(q, k) == Bit(x, k + n)
    ensures Bit(r, k) <==> k < n && Bit(x, k)
  {
    DivideBy(x, Pow2(n));
    JoinBit(r, q, n, k);
    JoinBit(r, q, n, k + n);
    if k >= n { HighBit(r, n, k); }
  }

  /** A number below 2^n has no bits from n on. */
  lemma HighBit(x: nat, n: nat, k: nat)
    requires x < Pow2(n) && k >= n
    ensures !Bit(x, k)
  {
    JoinBit(x, 0, n, k);
    ZeroBit(k - n);
  }

  lemma {:induction false} ComplementBit(x: nat, n: nat, k: nat)
    requires x < Pow2(n) && k < n
    ensures Bit(Pow2(n) - 1 - x, k) == !Bit(x, k)
    decreases n
  {
    var p := Pow2(n - 1);
    assert (2 * p - 1 - x) / 2 == p - 1 - x / 2 && (2 * p - 1 - x) % 2 == 1 - x % 2;
    if k > 0 { ComplementBit(x / 2, n - 1, k - 1); }
  }

  lemma {:induction false} XorFits(a: nat, b: nat, n: nat)
    requires a < Pow2(n) && b < Pow2(n)
    ensures BitXor(a, b) < Pow2(n)
    decreases n
  {
    if n > 0 { XorFits(a / 2, b / 2, n - 1); }
  }

  lemma {:induction false} OrFits(a: nat, b: nat, n: nat)
    requires a < Pow2(n) && b < Pow2(n)
    ensures BitOr(a, b) < Pow2(n)
    decreases n
  {
    if n > 0 && a > 0 { OrFits(a / 2, b / 2, n - 1); }
  }

  lemma {:induction false} AndFits(a: nat, b: nat, n: nat)
    requires a < Pow2(n) && b < Pow2(n)
    ensures BitAnd(a, b) < Pow2(n)
    decreases n
  {
    if n > 0 && a > 0 { AndFits(a / 2, b / 2, n - 1); }
  }

  /** The bits determine the number. */
  lemma {:induction false} SameBits(a: nat, b: nat)
    requires forall k: nat :: Bit(a, k) == Bit(b, k)
    ensures a == b
    decreases a + b
  {
    assert Bit(a, 0) == Bit(b, 0);
    if a > 0 || b > 0 {
      forall k: nat ensures Bit(a / 2, k) == Bit(b / 2, k) {
        assert Bit(a, k + 1) == Bit(b, k + 1);
      }
      SameBits(a / 2, b / 2);
    }
  }

  /** The constants of the integer types. */
  lemma Widths()
    ensures TWO63 == Pow2(63) && TWO64 == Pow2(64) && TWO160 == Pow2(160)
    ensures TWO255 == Pow2(255) && TWO256 == Pow2(256)
  {
    WordSize();
    Pow2Add(1, 63);
    assert Pow2(5) == 32 && Pow2(1) == 2;
    Pow2Square(5, 32);
    Pow2Square(10, 0x400);
    Pow2Square(20, 0x10_0000);
    Pow2Square(40, 0x100_0000_0000);
    Pow2Square(80, 0x1_0000000000_0000000000);
  }

  /** Storing a number and loading it again. */
  lemma {:induction false} BytesRoundTrip(x: nat, n: nat)
    requires x < Pow2(8 * n)
    ensures FromBytes(ToBytes(x, n)) == x
    decreases n
  {
    if n > 0 {
      Pow2Add(8, 8 * (n - 1));
      assert Pow2(8) == 256;
      BytesRoundTrip(x / 256, n - 1);
      assert ToBytes(x, n)[..n - 1] == ToBytes(x / 256, n - 1);
    }
  }
}
