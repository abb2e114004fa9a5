/** The round constants of Keccak-f[1600], derived from the shift register of section 3.2.5
    of FIPS 202. */
module RoundConstants {
  import opened Words
  import opened Arith
  import opened Bits
  import Lanes

  // ---------------------------------------------------------------- the register

  /** The eight bits of the register. */
  datatype Reg = Reg(r0: bool, r1: bool, r2: bool, r3: bool, r4: bool, r5: bool, r6: bool, r7: bool)

  /** One step of the register: a shift, with the bit shifted out fed back. */
  function ShiftRegister(r: Reg): Reg {
    Reg(r.r7, r.r0, r.r1, r.r2, r.r3 != r.r7, r.r4 != r.r7, r.r5 != r.r7, r.r6)
  }

  function Register(t: nat): Reg {
    if t == 0 then Reg(true, false, false, false, false, false, false, false) else ShiftRegister(Register(t - 1))
  }

  /** rc(t). */
  predicate Rc(t: nat) {
    Register(t).r0
  }

  /** Bit z of the constant of a round: only those at 2^j - 1 can be set. */
  predicate RoundBit(round: nat, z: nat) {
    match z
    case 0 => Rc(7 * round)
    case 1 => Rc(7 * round + 1)
    case 3 => Rc(7 * round + 2)
    case 7 => Rc(7 * round + 3)
    case 15 => Rc(7 * round + 4)
    case 31 => Rc(7 * round + 5)
    case 63 => Rc(7 * round + 6)
    case _ => false
  }

  // ---------------------------------------------------------------- the table

  function One(b: bool): nat {
    if b then 1 else 0
  }

  function Upper(b4: bool, b5: bool, b6: bool): nat {
    One(b4) + 0x1_0000 * (One(b5) + 0x1_0000_0000 * One(b6))
  }

  /** The number with these bits at 0, 1, 3, 7, 15, 31 and 63. */
  function Spread(b0: bool, b1: bool, b2: bool, b3: bool, b4: bool, b5: bool, b6: bool): nat {
    One(b0) + 2 * (One(b1) + 4 * (One(b2) + 16 * (One(b3) + 256 * Upper(b4, b5, b6))))
  }

  /** The constant collected from a state of the register and its six successors. */
  function Collect(r: Reg): nat {
    var r1 := ShiftRegister(r);
    var r2 := ShiftRegister(r1);
    var r3 := ShiftRegister(r2);
    var r4 := ShiftRegister(r3);
    var r5 := ShiftRegister(r4);
    var r6 := ShiftRegister(r5);
    Spread(r.r0, r1.r0, r2.r0, r3.r0, r4.r0, r5.r0, r6.r0)
  }

  /** The same in terms of the first state alone. */
  function Gather(r: Reg): nat {
    Spread(r.r0, r.r7, r.r6, r.r5 != r.r7, (r.r4 != r.r7) != r.r6, ((r.r3 != r.r7) != r.r6) != (r.r5 != r.r7),
           ((r.r2 != r.r6) != (r.r5 != r.r7)) != ((r.r4 != r.r7) != r.r6))
  }

  lemma CollectIsGather(r: Reg)
    ensures Collect(r) == Gather(r)
  {
  }

  function Seven(r: Reg): Reg {
    ShiftRegister(ShiftRegister(ShiftRegister(ShiftRegister(ShiftRegister(ShiftRegister(ShiftRegister(r)))))))
  }

  /** The register after 7 * i steps. */
  function RegisterAt(i: nat): Reg {
    match i
    case 0 => Reg(true, false, false, false, false, false, false, false)
    case 1 => Reg(false, false, false, false, false, false, false, true)
    case 2 => Reg(false, false, false, true, true, false, true, true)
    case 3 => Reg(false, true, false, true, true, false, false, false)
    case 4 => Reg(true, true, true, true, true, false, true, true)
    case 5 => Reg(true, false, false, true, false, false, false, false)
    case 6 => Reg(true, false, true, false, true, true, false, false)
    case 7 => Reg(true, true, true, true, false, false, true, false)
    case 8 => Reg(false, true, false, true, false, false, true, true)
    case 9 => Reg(false, false, false, false, true, true, true, false)
    case 10 => Reg(true, false, false, false, false, false, true, false)
    case 11 => Reg(false, false, true, true, false, true, true, true)
    case 12 => Reg(true, false, true, false, true, false, true, true)
    case 13 => Reg(true, false, true, true, false, false, true, true)
    case 14 => Reg(true, true, false, false, false, true, true, false)
    case 15 => Reg(true, true, false, true, false, true, false, true)
    case 16 => Reg(false, true, false, true, false, true, false, true)
    case 17 => Reg(false, true, false, true, false, true, false, false)
    case 18 => Reg(false, true, false, false, true, true, true, true)
    case 19 => Reg(false, false, false, true, false, true, true, true)
    case 20 => Reg(true, true, true, false, true, true, false, false)
    case 21 => Reg(false, true, true, true, true, true, false, false)
    case 22 => Reg(true, true, false, true, false, false, false, false)
    case _ => Reg(false, false, true, false, false, false, true, false)
  }

  lemma NextEarly(i: nat)
    requires 0 <= i < 8
    ensures Seven(RegisterAt(i)) == RegisterAt(i + 1)
  {
    match i
    case 0 =>
    case 1 =>
    case 2 =>
    case 3 =>
    case 4 =>
    case 5 =>
    case 6 =>
    case _ =>
  }

  lemma NextMiddle(i: nat)
    requires 8 <= i < 16
    ensures Seven(RegisterAt(i)) == RegisterAt(i + 1)
  {
    match i
    case 8 =>
    case 9 =>
    case 10 =>
    case 11 =>
    case 12 =>
    case 13 =>
    case 14 =>
    case _ =>
  }

  lemma NextLate(i: nat)
    requires 16 <= i < 23
    ensures Seven(RegisterAt(i)) == RegisterAt(i + 1)
  {
    match i
    case 16 =>
    case 17 =>
    case 18 =>
    case 19 =>
    case 20 =>
    case 21 =>
    case _ =>
  }

  lemma NextAt(i: nat)
    requires i < 23
    ensures Seven(RegisterAt(i)) == RegisterAt(i + 1)
  {
    if i < 8 { NextEarly(i); } else if i < 16 { NextMiddle(i); } else { NextLate(i); }
  }

  lemma FirstConstants(i: nat)
    requires 0 <= i < 4
    ensures Lanes.RcAt(i) == Gather(RegisterAt(i))
  {
    match i
    case 0 =>
    case 1 =>
    case 2 =>
    case _ =>
  }

  lemma SecondConstants(i: nat)
    requires 4 <= i < 8
    ensures Lanes.RcAt(i) == Gather(RegisterAt(i))
  {
    match i
    case 4 =>
    case 5 =>
    case 6 =>
    case _ =>
  }

  lemma ThirdConstants(i: nat)
    requires 8 <= i < 12
    ensures Lanes.RcAt(i) == Gather(RegisterAt(i))
  {
    match i
    case 8 =>
    case 9 =>
    case 10 =>
    case _ =>
  }

  lemma FourthConstants(i: nat)
    requires 12 <= i < 16
    ensures Lanes.RcAt(i) == Gather(RegisterAt(i))
  {
    match i
    case 12 =>
    case 13 =>
    case 14 =>
    case _ =>
  }

  lemma FifthConstants(i: nat)
    requires 16 <= i < 20
    ensures Lanes.RcAt(i) == Gather(RegisterAt(i))
  {
    match i
    case 16 =>
    case 17 =>
    case 18 =>
    case _ =>
  }

  lemma LastConstants(i: nat)
    requires 20 <= i < 24
    ensures Lanes.RcAt(i) == Gather(RegisterAt(i))
  {
    match i
    case 20 =>
    case 21 =>
    case 22 =>
    case _ =>
  }

  lemma ConstantAt(i: nat)
    requires i < 24
    ensures Lanes.RcAt(i) == Collect(RegisterAt(i))
  {
    CollectIsGather(RegisterAt(i));
    match i / 4
    case 0 => FirstConstants(i);
    case 1 => SecondConstants(i);
    case 2 => ThirdConstants(i);
    case 3 => FourthConstants(i);
    case 4 => FifthConstants(i);
    case _ => LastConstants(i);
  }

  lemma SevenSteps(t: nat)
    ensures Register(t + 7) == Seven(Register(t))
  {
    assert Register(t + 2) == ShiftRegister(ShiftRegister(Register(t)));
    assert Register(t + 4) == ShiftRegister(ShiftRegister(Register(t + 2)));
    assert Register(t + 6) == ShiftRegister(ShiftRegister(Register(t + 4)));
  }

  lemma SevenFrom(t: nat, u: nat, r: Reg)
    requires u == t + 7 && Register(t) == r
    ensures Register(u) == Seven(r)
  {
    SevenSteps(t);
  }

  lemma {:induction false} RegisterIsTable(i: nat)
    requires i < 24
    ensures Register(7 * i) == RegisterAt(i)
  {
    if i == 0 {
      assert Register(0) == RegisterAt(0);
    } else {
      RegisterIsTable(i - 1);
      SevenFrom(7 * (i - 1), 7 * i, RegisterAt(i - 1));
      NextAt(i - 1);
    }
  }

  // ---------------------------------------------------------------- bit by bit

  /** A lowest bit, n - 1 zeroes, and a number above them. */
  lemma LowestBit(b: bool, high: nat, n: nat, p: nat, k: nat)
    requires n > 0 && p == Pow2(n)
    ensures Bit(One(b) + p * high, k) <==> if k == 0 then b else k >= n && Bit(high, k - n)
  {
    assert Pow2(n) == 2 * Pow2(n - 1);
    JoinBit(One(b), high, n, k);
    if k > 0 { ZeroBit(k - 1); }
  }

  lemma SmallPowers()
    ensures Pow2(1) == 2 && Pow2(2) == 4 && Pow2(4) == 16 && Pow2(8) == 256
    ensures Pow2(16) == 0x1_0000 && Pow2(32) == 0x1_0000_0000
  {
    assert Pow2(2) == 4;
    Pow2Square(2, 4);
    Pow2Square(4, 16);
    Pow2Square(8, 256);
    Pow2Square(16, 0x1_0000);
  }

  lemma UpperBit(b4: bool, b5: bool, b6: bool, k: nat)
    ensures Bit(Upper(b4, b5, b6), k) <==>
      match k
      case 0 => b4
      case 16 => b5
      case 48 => b6
      case _ => false
  {
    SmallPowers();
    var n5 := One(b5) + 0x1_0000_0000 * One(b6);
    LowestBit(b4, n5, 16, 0x1_0000, k);
    if k >= 16 { LowestBit(b5, One(b6), 32, 0x1_0000_0000, k - 16); }
    if k > 48 { ZeroBit(k - 49); }
  }

  lemma MiddleBit(b2: bool, b3: bool, upper: nat, k: nat)
    ensures Bit(One(b2) + 16 * (One(b3) + 256 * upper), k) <==>
      match k
      case 0 => b2
      case 4 => b3
      case _ => k >= 12 && Bit(upper, k - 12)
  {
    SmallPowers();
    LowestBit(b2, One(b3) + 256 * upper, 4, 16, k);
    if k >= 4 { LowestBit(b3, upper, 8, 256, k - 4); }
  }

  lemma LowerBit(b0: bool, b1: bool, middle: nat, z: nat)
    ensures Bit(One(b0) + 2 * (One(b1) + 4 * middle), z) <==>
      match z
      case 0 => b0
      case 1 => b1
      case _ => z >= 3 && Bit(middle, z - 3)
  {
    SmallPowers();
    LowestBit(b0, One(b1) + 4 * middle, 1, 2, z);
    if z >= 1 { LowestBit(b1, middle, 2, 4, z - 1); }
  }

  lemma SpreadBit(b0: bool, b1: bool, b2: bool, b3: bool, b4: bool, b5: bool, b6: bool, z: nat)
    ensures Bit(Spread(b0, b1, b2, b3, b4, b5, b6), z) <==>
      match z
      case 0 => b0
      case 1 => b1
      case 3 => b2
      case 7 => b3
      case 15 => b4
      case 31 => b5
      case 63 => b6
      case _ => false
  {
    LowerBit(b0, b1, One(b2) + 16 * (One(b3) + 256 * Upper(b4, b5, b6)), z);
    if z >= 3 { MiddleBit(b2, b3, Upper(b4, b5, b6), z - 3); }
    if z >= 15 { UpperBit(b4, b5, b6, z - 15); }
  }

  lemma Successors(i: nat)
    ensures Collect(Register(7 * i)) == Spread(Rc(7 * i), Rc(7 * i + 1), Rc(7 * i + 2), Rc(7 * i + 3),
                                               Rc(7 * i + 4), Rc(7 * i + 5), Rc(7 * i + 6))
  {
    var t := 7 * i;
    assert Register(t + 1) == ShiftRegister(Register(t)) && Register(t + 2) == ShiftRegister(Register(t + 1));
    assert Register(t + 3) == ShiftRegister(Register(t + 2)) && Register(t + 4) == ShiftRegister(Register(t + 3));
    assert Register(t + 5) == ShiftRegister(Register(t + 4)) && Register(t + 6) == ShiftRegister(Register(t + 5));
  }

  /** The code's round constants, bit by bit, are those of section 3.2.5. */
  lemma RcIsRegister(i: nat, z: nat)
    requires i < 24
    ensures Bit(Lanes.RC()[i], z) == RoundBit(i, z)
  {
    RegisterIsTable(i);
    ConstantAt(i);
    Successors(i);
    SpreadBit(Rc(7 * i), Rc(7 * i + 1), Rc(7 * i + 2), Rc(7 * i + 3), Rc(7 * i + 4), Rc(7 * i + 5), Rc(7 * i + 6), z);
  }
}
