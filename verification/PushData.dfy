/** Reading and skipping the data of a push instruction with a moving cursor. */
module PushData {
  import opened Words
  import opened Instructions
  import opened Arith

  /** Or-ing a byte into a shifted value adds it. */
  lemma {:induction false} OrLow(v: nat, b: nat, k: nat)
    requires b < Pow2(k)
    ensures BitOr(v * Pow2(k), b) == v * Pow2(k) + b
    decreases k
  {
    if k == 0 {
      OrZero(v);
    } else {
      var h := v * Pow2(k - 1);
      assert v * Pow2(k) == 2 * h;
      OrLow(v, b / 2, k - 1);
      assert (2 * h) / 2 == h && (2 * h) % 2 == 0;
      if h == 0 { assert v * Pow2(k) == 0; }
    }
  }

  /** Shifting by a byte, and adding one, modulo 2^256. */
  lemma ShiftByte(r: Word, b: Byte)
    ensures exists low: nat :: Wrap(r * 256) == low * 256 && Wrap(r * 256 + b) == low * 256 + b
  {
    var top := TWO256 / 256;
    var q, low := r / top, r % top;
    assert r * 256 == q * TWO256 + low * 256;
    DivModUnique(r * 256, TWO256, q, low * 256);
    DivModUnique(r * 256 + b, TWO256, q, low * 256 + b);
    assert Wrap(r * 256) == low * 256;
  }

  /** Appending a byte to a big-endian number modulo 2^256. */
  lemma ShiftIn(x: nat, b: Byte)
    ensures BitOr(Wrap(Wrap(x) * 256), b) == Wrap(x * 256 + b)
  {
    var q, r := x / TWO256, Wrap(x);
    assert x * 256 + b == (r * 256 + b) + (q * 256) * TWO256;
    ModShift(r * 256 + b, q * 256, TWO256);
    ShiftByte(r, b);
    var low: nat :| Wrap(r * 256) == low * 256 && Wrap(r * 256 + b) == low * 256 + b;
    assert Pow2(8) == 256;
    OrLow(low, b, 8);
  }

  lemma SliceGrows(s: seq<Byte>, from: nat, n: nat)
    ensures FromBytes(Slice(s, from, n + 1))
      == FromBytes(Slice(s, from, n)) * 256 + (if from + n < |s| then s[from + n] else 0)
  {
    assert Slice(s, from, n + 1)[..n] == Slice(s, from, n);
  }

  /** The constant of the push under the cursor; the cursor moves to the last byte read. */
  method ReadPushData(code: seq<Byte>, curr: nat, end: nat) returns (value: Word, last: nat)
    requires curr < end <= |code| && IsPush(code[curr])
    ensures value == PushConstant(code[..end], curr)
    ensures last + 1 == Next(code[..end], curr)
  {
    var numBytes := code[curr] - PUSH1 + 1;
    value := 0;
    var it := curr + 1;
    for i := 0 to numBytes
      invariant it == curr + 1 + Min(i, end - curr - 1)
      invariant value == Wrap(FromBytes(Slice(code[..end], curr + 1, i)))
    {
      SliceGrows(code[..end], curr + 1, i);
      ShiftIn(FromBytes(Slice(code[..end], curr + 1, i)), if it != end then code[it] else 0);
      var b := 0;
      if it != end {
        b := code[it];
        it := it + 1;
      }
      value := Wrap(value * 256);
      value := BitOr(value, b);
    }
    last := it - 1;
  }

  /** The cursor moves over the data, as ReadPushData moves it. */
  method SkipPushData(code: seq<Byte>, curr: nat, end: nat) returns (last: nat)
    requires curr < end <= |code| && IsPush(code[curr])
    ensures last + 1 == Next(code[..end], curr)
  {
    var numBytes := code[curr] - PUSH1 + 1;
    var final := end - 1;
    last := curr;
    var i := 0;
    while i < numBytes && last < final
      invariant 0 <= i <= numBytes && last == curr + i <= final
    {
      i, last := i + 1, last + 1;
    }
  }

  /** Reading up to the end of a block is reading up to the end of the code: a block is cut
      inside push data only where the code itself ends. */
  lemma BlockEndSuffices(code: seq<Byte>, curr: nat, end: nat)
    requires curr < end <= |code| && IsPush(code[curr]) && Next(code, curr) <= end
    ensures Next(code[..end], curr) == Next(code, curr)
    ensures PushConstant(code[..end], curr) == PushConstant(code, curr)
  {
    var n := code[curr] - PUSH1 + 1;
    assert Slice(code[..end], curr + 1, n) == Slice(code, curr + 1, n);
  }
}
