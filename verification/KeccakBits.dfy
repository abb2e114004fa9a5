/** The permutation on the 200 bytes of the code, bit by bit: it is Keccak-f[1600] of FIPS 202. */
module KeccakBits {
  import opened Words
  import opened Bits
  import opened Lanes
  import F = Fips202
  import K = Keccak
  import RoundConstants

  /** The bits of bytes, the lowest of each byte first (section B.1 of FIPS 202). */
  function BitsOfBytes(s: seq<Byte>): (b: F.Bitstring)
    ensures |b| == 8 * |s|
  {
    seq(8 * |s|, (k: nat) requires k < 8 * |s| => Bit(s[k / 8], k % 8))
  }

  /** The bits of lanes. */
  function BitsOf(a: seq<U64>): (b: F.Bitstring)
    ensures |b| == 64 * |a|
  {
    seq(64 * |a|, (k: nat) requires k < 64 * |a| => Bit(a[k / 64], k % 64))
  }

  lemma AtIs(a: seq<U64>, x: nat, y: nat, z: nat)
    requires |a| == 25 && x < 5 && y < 5 && z < 64
    ensures F.At(BitsOf(a), x, y, z) == Bit(a[5 * y + x], z)
  {
    var i := 5 * y + x;
    assert (64 * i + z) / 64 == i && (64 * i + z) % 64 == z;
  }

  // ---------------------------------------------------------------- the steps

  lemma ParityBit(a: seq<U64>, x: nat, z: nat)
    requires |a| == 25 && x < 5 && z < 64
    ensures Bit(K.Parity(WORDS(), a, x), z) == F.Column(BitsOf(a), x, z)
  {
    AtIs(a, x, 0, z);
    AtIs(a, x, 1, z);
    AtIs(a, x, 2, z);
    AtIs(a, x, 3, z);
    AtIs(a, x, 4, z);
    var p2 := Xor64(a[x], a[x + 5]);
    var p3 := Xor64(p2, a[x + 10]);
    var p4 := Xor64(p3, a[x + 15]);
    XorLaneBit(a[x], a[x + 5], z);
    XorLaneBit(p2, a[x + 10], z);
    XorLaneBit(p3, a[x + 15], z);
    XorLaneBit(p4, a[x + 20], z);
  }

  /** Bit z of a rotated lane is bit z - s modulo 64. */
  lemma RotatedFrom(v: U64, s: nat, z: nat)
    requires 0 < s < 64 && z < 64
    ensures Bit(Rol(v, s), z) == Bit(v, (z + 64 - s) % 64)
  {
    var k := if z >= s then z - s else z + 64 - s;
    assert (k + s) % 64 == z && (z + 64 - s) % 64 == k;
    RolBit(v, s, k);
  }

  lemma XorTwice(w: U64, p: U64, r: U64, z: nat)
    ensures Bit(Xor64(w, Xor64(p, r)), z) == F.Xor(Bit(w, z), F.Xor(Bit(p, z), Bit(r, z)))
  {
    XorLaneBit(p, r, z);
    XorLaneBit(w, Xor64(p, r), z);
  }

  lemma ThetaLane(a: seq<U64>, x: nat, y: nat)
    requires |a| == 25 && x < 5 && y < 5
    ensures K.Theta(WORDS(), a)[5 * y + x] ==
      Xor64(a[5 * y + x], Xor64(K.Parity(WORDS(), a, (x + 4) % 5), Rol(K.Parity(WORDS(), a, (x + 1) % 5), 1)))
  {
    K.Coordinates(x, y);
  }

  lemma ThetaBit(a: seq<U64>, x: nat, y: nat, z: nat)
    requires |a| == 25 && x < 5 && y < 5 && z < 64
    ensures Bit(K.Theta(WORDS(), a)[5 * y + x], z) == F.ThetaAt(BitsOf(a), x, y, z)
  {
    var q := K.Parity(WORDS(), a, (x + 1) % 5);
    ThetaLane(a, x, y);
    XorTwice(a[5 * y + x], K.Parity(WORDS(), a, (x + 4) % 5), Rol(q, 1), z);
    AtIs(a, x, y, z);
    ParityBit(a, (x + 4) % 5, z);
    ParityBit(a, (x + 1) % 5, (z + 63) % 64);
    RotatedFrom(q, 1, z);
  }

  lemma Offsets(i: nat)
    requires 0 < i < 25
    ensures 0 < K.OffsetOf(i) < 64
  {
  }

  lemma RhoBit(a: seq<U64>, x: nat, y: nat, z: nat)
    requires |a| == 25 && x < 5 && y < 5 && z < 64
    ensures Bit(K.Rho(WORDS(), a)[5 * y + x], z) == F.RhoAt(BitsOf(a), x, y, z)
  {
    var i := 5 * y + x;
    if i == 0 {
      AtIs(a, x, y, z);
    } else {
      Offsets(i);
      RotatedFrom(a[i], K.OffsetOf(i), z);
      AtIs(a, x, y, (z + 64 - K.OffsetOf(i)) % 64);
    }
  }

  lemma PiBit(a: seq<U64>, x: nat, y: nat, z: nat)
    requires |a| == 25 && x < 5 && y < 5 && z < 64
    ensures Bit(K.Pi(a)[5 * y + x], z) == F.PiAt(BitsOf(a), x, y, z)
  {
    K.Coordinates(x, y);
    AtIs(a, (x + 3 * y) % 5, x, z);
  }

  lemma ChiBit(a: seq<U64>, x: nat, y: nat, z: nat)
    requires |a| == 25 && x < 5 && y < 5 && z < 64
    ensures Bit(K.Chi(WORDS(), a)[5 * y + x], z) == F.ChiAt(BitsOf(a), x, y, z)
  {
    K.ChiRowLane(WORDS(), a, x, y);
    AtIs(a, x, y, z);
    AtIs(a, (x + 1) % 5, y, z);
    AtIs(a, (x + 2) % 5, y, z);
    MixLaneBit(a[5 * y + x], a[5 * y + (x + 1) % 5], a[5 * y + (x + 2) % 5], z);
  }

  lemma IotaBit(a: seq<U64>, round: nat, k: nat)
    requires |a| == 25 && round < 24 && k < 1600
    ensures Bit(K.Iota(WORDS(), a, RC()[round])[k / 64], k % 64) == F.Iota(BitsOf(a), round)[k]
  {
    if k < 64 {
      XorLaneBit(a[0], RC()[round], k);
      RoundConstants.RcIsRegister(round, k);
    }
  }

  /** The coordinates of a bit. */
  lemma Place(k: nat)
    requires k < 1600
    ensures var x, y, z := k / 64 % 5, k / 320, k % 64;
      x < 5 && y < 5 && z < 64 && k / 64 == 5 * y + x
  {
  }

  // On the bits of the lanes the step mappings are those of section 3.2.

  lemma ThetaOnBits(a: seq<U64>)
    requires |a| == 25
    ensures BitsOf(K.Theta(WORDS(), a)) == F.Theta(BitsOf(a))
  {
    var b, goal := K.Theta(WORDS(), a), F.Theta(BitsOf(a));
    forall k: nat | k < 1600 ensures Bit(b[k / 64], k % 64) == goal[k] {
      Place(k);
      ThetaBit(a, k / 64 % 5, k / 320, k % 64);
    }
    assert BitsOf(b) == goal;
  }

  lemma RhoOnBits(a: seq<U64>)
    requires |a| == 25
    ensures BitsOf(K.Rho(WORDS(), a)) == F.Rho(BitsOf(a))
  {
    var b, goal := K.Rho(WORDS(), a), F.Rho(BitsOf(a));
    forall k: nat | k < 1600 ensures Bit(b[k / 64], k % 64) == goal[k] {
      Place(k);
      RhoBit(a, k / 64 % 5, k / 320, k % 64);
    }
    assert BitsOf(b) == goal;
  }

  lemma PiOnBits(a: seq<U64>)
    requires |a| == 25
    ensures BitsOf(K.Pi(a)) == F.Pi(BitsOf(a))
  {
    var b, goal := K.Pi(a), F.Pi(BitsOf(a));
    forall k: nat | k < 1600 ensures Bit(b[k / 64], k % 64) == goal[k] {
      Place(k);
      PiBit(a, k / 64 % 5, k / 320, k % 64);
    }
    assert BitsOf(b) == goal;
  }

  lemma ChiOnBits(a: seq<U64>)
    requires |a| == 25
    ensures BitsOf(K.Chi(WORDS(), a)) == F.Chi(BitsOf(a))
  {
    var b, goal := K.Chi(WORDS(), a), F.Chi(BitsOf(a));
    forall k: nat | k < 1600 ensures Bit(b[k / 64], k % 64) == goal[k] {
      Place(k);
      ChiBit(a, k / 64 % 5, k / 320, k % 64);
    }
    assert BitsOf(b) == goal;
  }

  lemma IotaOnBits(a: seq<U64>, round: nat)
    requires |a| == 25 && round < 24
    ensures BitsOf(K.Iota(WORDS(), a, RC()[round])) == F.Iota(BitsOf(a), round)
  {
    forall k: nat | k < 1600
      ensures BitsOf(K.Iota(WORDS(), a, RC()[round]))[k] == F.Iota(BitsOf(a), round)[k] {
      IotaBit(a, round, k);
    }
  }

  lemma RoundOnBits(a: seq<U64>, round: nat)
    requires |a| == 25 && round < 24
    ensures BitsOf(K.Round(WORDS(), a, RC()[round])) == F.Round(BitsOf(a), round)
  {
    var a1 := K.Theta(WORDS(), a);
    var a2 := K.Rho(WORDS(), a1);
    var a3 := K.Pi(a2);
    ThetaOnBits(a);
    RhoOnBits(a1);
    PiOnBits(a2);
    ChiOnBits(a3);
    IotaOnBits(K.Chi(WORDS(), a3), round);
  }

  lemma {:induction false} RoundsOnBits(a: seq<U64>, n: nat)
    requires |a| == 25 && n <= 24
    ensures BitsOf(K.Rounds(WORDS(), a, RC()[..n])) == F.RoundsBefore(BitsOf(a), n)
  {
    if n > 0 {
      RoundsOnBits(a, n - 1);
      K.RoundsStep(WORDS(), a, RC(), n - 1);
      RoundOnBits(K.Rounds(WORDS(), a, RC()[..n - 1]), n - 1);
    }
  }

  // ---------------------------------------------------------------- bytes

  lemma LoadBit(s: seq<Byte>, k: nat)
    requires |s| == 200 && k < 1600
    ensures Bit(LanesOf(s)[k / 64], k % 64) == Bit(s[k / 8], k % 8)
  {
    var i, z := k / 64, k % 64;
    LittleBit(s[8 * i..8 * i + 8], z);
    assert 8 * i + z / 8 == k / 8 && z % 8 == k % 8;
  }

  lemma StoreBit(a: seq<U64>, k: nat)
    requires |a| == 25 && k < 1600
    ensures Bit(BytesOf(a)[k / 8], k % 8) == Bit(a[k / 64], k % 64)
  {
    var j := k / 8;
    assert j / 8 == k / 64 && 8 * (j % 8) + k % 8 == k % 64;
    ByteBit(a[j / 8], j % 8, k % 8);
  }

  lemma LoadOnBits(s: seq<Byte>)
    requires |s| == 200
    ensures BitsOf(LanesOf(s)) == BitsOfBytes(s)
  {
    forall k: nat | k < 1600 ensures BitsOf(LanesOf(s))[k] == BitsOfBytes(s)[k] {
      LoadBit(s, k);
    }
  }

  lemma StoreOnBits(a: seq<U64>)
    requires |a| == 25
    ensures BitsOfBytes(BytesOf(a)) == BitsOf(a)
  {
    forall k: nat | k < 1600 ensures BitsOfBytes(BytesOf(a))[k] == BitsOf(a)[k] {
      StoreBit(a, k);
    }
  }

  lemma AllRoundsOnBits(a: seq<U64>)
    requires |a| == 25
    ensures BitsOf(K.Rounds(WORDS(), a, RC())) == F.KeccakF(BitsOf(a))
  {
    var rc := RC();
    assert rc[..24] == rc;
    RoundsOnBits(a, 24);
  }

  /** On the bits of any state, the permutation of the code is Keccak-f[1600] (section 3.4). */
  lemma PermutationIsKeccakF(s: seq<Byte>)
    requires |s| == 200
    ensures BitsOfBytes(KeccakP(s)) == F.KeccakF(BitsOfBytes(s))
  {
    LoadOnBits(s);
    AllRoundsOnBits(LanesOf(s));
    StoreOnBits(K.Rounds(WORDS(), LanesOf(s), RC()));
  }

  /** The offsets of rho are those of the walk of section 3.2.2. */
  lemma OffsetsFollowWalk(t: nat)
    requires t < 24
    ensures K.OffsetOf(K.Index(K.Walk(t))) == ((t + 1) * (t + 2) / 2) % 64
  {
    K.WalkIsTable(t);
    K.TableStep(t);
    K.TriangleStep(t);
  }
}
