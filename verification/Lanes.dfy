/** The lanes of the code: 64-bit words, loaded from and stored to the bytes of the state. */
module Lanes {
  import opened Words
  import opened Arith
  import opened Bits
  import opened Keccak

  // ---------------------------------------------------------------- the operations

  lemma TwoTo64()
    ensures Pow2(64) == TWO64
  {
    WordSize();
  }

  function Xor64(x: U64, y: U64): U64 {
    TwoTo64();
    XorFits(x, y, 64);
    BitXor(x, y)
  }

  function And64(x: U64, y: U64): U64 {
    TwoTo64();
    AndFits(x, y, 64);
    BitAnd(x, y)
  }

  function Or64(x: U64, y: U64): U64 {
    TwoTo64();
    OrFits(x, y, 64);
    BitOr(x, y)
  }

  function Not64(x: U64): U64 {
    TWO64 - 1 - x
  }

  function ShiftLeft(x: U64, s: nat): U64 {
    Trunc64(x * Pow2(s))
  }

  function ShiftRight(x: U64, s: nat): U64 {
    ShrinksTo(x, Pow2(s));
    x / Pow2(s)
  }

  lemma ShrinksTo(x: nat, p: nat)
    requires p > 0
    ensures 0 <= x / p <= x
  {
    DivideBy(x, p);
    if x / p > 0 { MulMonotone(1, p, x / p); }
  }

  /** The macro rol; its shifts are defined for the rotations of the tables, 1 to 63. */
  function Rol(x: U64, s: nat): U64 {
    if 0 < s < 64 then Or64(ShiftLeft(x, s), ShiftRight(x, 64 - s)) else x
  }

  function WORDS(): Ops<U64> {
    Ops(0, (x, y) => Xor64(x, y), (x, s) => Rol(x, s), (b, c, d) => Xor64(b, And64(Not64(c), d)))
  }

  // ---------------------------------------------------------------- bit by bit

  lemma XorLaneBit(x: U64, y: U64, k: nat)
    ensures Bit(Xor64(x, y), k) <==> Bit(x, k) != Bit(y, k)
  {
    XorBit(x, y, k);
  }

  /** The operation of chi, by its truth table. */
  lemma MixLaneBit(b: U64, c: U64, d: U64, k: nat)
    requires k < 64
    ensures Bit(WORDS().mix(b, c, d), k) <==> Bit(b, k) != (!Bit(c, k) && Bit(d, k))
  {
    TwoTo64();
    XorLaneBit(b, And64(Not64(c), d), k);
    AndBit(Not64(c), d, k);
    ComplementBit(c, 64, k);
  }

  lemma ShiftLeftBit(x: U64, s: nat, k: nat)
    requires k < 64
    ensures Bit(ShiftLeft(x, s), k) <==> k >= s && Bit(x, k - s)
  {
    TwoTo64();
    var y := x * Pow2(s);
    SplitBit(y, 64, y / Pow2(64), ShiftLeft(x, s), k);
    JoinBit(0, x, s, k);
    ZeroBit(k);
  }

  lemma ShiftRightBit(x: U64, s: nat, k: nat)
    ensures Bit(ShiftRight(x, s), k) == Bit(x, k + s)
  {
    DivideBy(x, Pow2(s));
    SplitBit(x, s, ShiftRight(x, s), x % Pow2(s), k);
  }

  lemma RotatedBit(x: U64, s: nat, j: nat)
    requires 0 < s < 64 && j < 64
    ensures Bit(Rol(x, s), j) <==> (j >= s && Bit(x, j - s)) || Bit(x, j + (64 - s))
  {
    OrBit(ShiftLeft(x, s), ShiftRight(x, 64 - s), j);
    ShiftLeftBit(x, s, j);
    ShiftRightBit(x, 64 - s, j);
  }

  lemma NoBitAbove(x: U64, k: nat)
    ensures !Bit(x, k + 64)
  {
    TwoTo64();
    HighBit(x, 64, k + 64);
  }

  lemma WhereTo(x: U64, r: U64, s: nat, k: nat, j: nat)
    requires 0 < s < 64 && k < 64 && j == if k + s < 64 then k + s else k + s - 64
    requires Bit(r, j) <==> (j >= s && Bit(x, j - s)) || Bit(x, j + (64 - s))
    ensures Bit(r, j) == Bit(x, k)
  {
    if k + s < 64 {
      NoBitAbove(x, k);
      assert j - s == k && j + (64 - s) == k + 64;
    } else {
      assert j + (64 - s) == k;
    }
  }

  /** A rotation to the left: bit k goes to bit k + s modulo 64. */
  lemma RolBit(x: U64, s: nat, k: nat)
    requires 0 < s < 64 && k < 64
    ensures Bit(Rol(x, s), (k + s) % 64) == Bit(x, k)
  {
    var j := (k + s) % 64;
    RotatedBit(x, s, j);
    WhereTo(x, Rol(x, s), s, k, j);
  }

  lemma WordsAreNeutral()
    ensures ZeroIsNeutral(WORDS())
  {
    forall v: U64 ensures WORDS().xor(WORDS().zero, v) == v {
      forall k: nat ensures Bit(Xor64(0, v), k) == Bit(v, k) {
        XorLaneBit(0, v, k);
        ZeroBit(k);
      }
      SameBits(Xor64(0, v), v);
    }
  }

  /** The code's table RC: the constant of each round. */
  function RcAt(i: nat): U64 {
    match i
    case 0 => 0x1 case 1 => 0x8082 case 2 => 0x800000000000808a
    case 3 => 0x8000000080008000 case 4 => 0x808b case 5 => 0x80000001
    case 6 => 0x8000000080008081 case 7 => 0x8000000000008009 case 8 => 0x8a
    case 9 => 0x88 case 10 => 0x80008009 case 11 => 0x8000000a
    case 12 => 0x8000808b case 13 => 0x800000000000008b case 14 => 0x8000000000008089
    case 15 => 0x8000000000008003 case 16 => 0x8000000000008002 case 17 => 0x8000000000000080
    case 18 => 0x800a case 19 => 0x800000008000000a case 20 => 0x8000000080008081
    case 21 => 0x8000000000008080 case 22 => 0x80000001 case _ => 0x8000000080008008
  }

  function RC(): (rc: seq<U64>)
    ensures |rc| == 24 && forall i :: 0 <= i < 24 ==> rc[i] == RcAt(i)
  {
    seq(24, (i: nat) requires i < 24 => RcAt(i))
  }

  // ---------------------------------------------------------------- bytes

  /** The number with these bytes, lowest first. */
  function FromLittle(bs: seq<Byte>): nat {
    if bs == [] then 0 else bs[0] + FromLittle(bs[1..]) * 256
  }

  lemma {:induction false} LittleFits(bs: seq<Byte>)
    ensures FromLittle(bs) < Pow2(8 * |bs|)
  {
    if bs != [] {
      LittleFits(bs[1..]);
      Pow2Add(8, 8 * |bs[1..]|);
      assert Pow2(8) == 256;
    }
  }

  lemma {:induction false} LittleBit(bs: seq<Byte>, k: nat)
    requires k < 8 * |bs|
    ensures Bit(FromLittle(bs), k) == Bit(bs[k / 8], k % 8)
  {
    assert Pow2(8) == 256;
    JoinBit(bs[0], FromLittle(bs[1..]), 8, k);
    if k >= 8 {
      LittleBit(bs[1..], k - 8);
    }
  }

  /** Lane i of the state. */
  function LaneOf(s: seq<Byte>, i: nat): U64
    requires 8 * i + 8 <= |s|
  {
    TwoTo64();
    LittleFits(s[8 * i..8 * i + 8]);
    FromLittle(s[8 * i..8 * i + 8])
  }

  /** Byte k of a lane. */
  function ByteOf(v: U64, k: nat): Byte {
    ShiftRight(v, 8 * k) % 256
  }

  function LanesOf(s: seq<Byte>): (a: seq<U64>)
    requires |s| == 200
    ensures |a| == 25
  {
    seq(25, (i: nat) requires i < 25 => LaneOf(s, i))
  }

  function BytesOf(a: seq<U64>): (s: seq<Byte>)
    requires |a| == 25
    ensures |s| == 200
  {
    seq(200, (k: nat) requires k < 200 => ByteOf(a[k / 8], k % 8))
  }

  lemma ByteBit(v: U64, k: nat, j: nat)
    requires j < 8
    ensures Bit(ByteOf(v, k), j) == Bit(v, 8 * k + j)
  {
    assert Pow2(8) == 256;
    var w := ShiftRight(v, 8 * k);
    SplitBit(w, 8, w / 256, ByteOf(v, k), j);
    ShiftRightBit(v, 8 * k, j);
  }

  // ---------------------------------------------------------------- in place

  /** Keccak-f[1600] on 200 bytes. */
  function KeccakP(s: seq<Byte>): (t: seq<Byte>)
    ensures |s| == 200 ==> |t| == 200
  {
    if |s| == 200 then BytesOf(Rounds(WORDS(), LanesOf(s), RC())) else s
  }

  method LoadLanes(state: array<Byte>, a: array<U64>)
    requires state.Length == 200 && a.Length == 25
    modifies a
    ensures a[..] == LanesOf(state[..])
  {
    ghost var goal := LanesOf(state[..]);
    for i := 0 to 25
      invariant forall k :: 0 <= k < i ==> a[k] == goal[k]
    {
      a[i] := LaneOf(state[..], i);
    }
  }

  method StoreLanes(state: array<Byte>, a: array<U64>)
    requires state.Length == 200 && a.Length == 25
    modifies state
    ensures state[..] == BytesOf(a[..])
  {
    ghost var goal := BytesOf(a[..]);
    for i := 0 to 200
      invariant forall k :: 0 <= k < i ==> state[k] == goal[k]
    {
      state[i] := ByteOf(a[i / 8], i % 8);
    }
  }

  /** The bytes of a state are its lanes seen through a pointer of another type; here they are
      carried over and back. */
  method PermuteBytes(state: array<Byte>)
    requires state.Length == 200
    modifies state
    ensures state[..] == KeccakP(old(state[..]))
  {
    var a := new U64[25];
    LoadLanes(state, a);
    WordsAreNeutral();
    KeccakF(WORDS(), a, RC());
    StoreLanes(state, a);
  }
}
