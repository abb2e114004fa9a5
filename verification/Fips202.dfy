/** The hash as FIPS 202 defines it, on strings of bits: the permutation of section 3 with
    width 1600 and 24 rounds, the sponge of section 4, and the padding of section 5.1. */
module Fips202 {
  import Keccak
  import RoundConstants

  type Bitstring = seq<bool>

  predicate Xor(a: bool, b: bool) {
    a != b
  }

  // ---------------------------------------------------------------- the step mappings

  /** A[x, y, z] of section 3.1.2. */
  predicate At(s: Bitstring, x: nat, y: nat, z: nat)
    requires |s| == 1600 && x < 5 && y < 5 && z < 64
  {
    s[64 * (5 * y + x) + z]
  }

  /** Section 3.2.1. */
  predicate Column(s: Bitstring, x: nat, z: nat)
    requires |s| == 1600 && x < 5 && z < 64
  {
    Xor(Xor(Xor(Xor(At(s, x, 0, z), At(s, x, 1, z)), At(s, x, 2, z)), At(s, x, 3, z)), At(s, x, 4, z))
  }

  predicate ThetaAt(s: Bitstring, x: nat, y: nat, z: nat)
    requires |s| == 1600 && x < 5 && y < 5 && z < 64
  {
    Xor(At(s, x, y, z), Xor(Column(s, (x + 4) % 5, z), Column(s, (x + 1) % 5, (z + 63) % 64)))
  }

  function Theta(s: Bitstring): (t: Bitstring)
    requires |s| == 1600
    ensures |t| == 1600
  {
    seq(1600, (k: nat) requires k < 1600 => ThetaAt(s, k / 64 % 5, k / 320, k % 64))
  }

  /** Section 3.2.2, with the offset of each lane. */
  predicate RhoAt(s: Bitstring, x: nat, y: nat, z: nat)
    requires |s| == 1600 && x < 5 && y < 5 && z < 64
  {
    At(s, x, y, (z + 64 - Keccak.OffsetOf(5 * y + x)) % 64)
  }

  function Rho(s: Bitstring): (t: Bitstring)
    requires |s| == 1600
    ensures |t| == 1600
  {
    seq(1600, (k: nat) requires k < 1600 => RhoAt(s, k / 64 % 5, k / 320, k % 64))
  }

  /** Section 3.2.3. */
  predicate PiAt(s: Bitstring, x: nat, y: nat, z: nat)
    requires |s| == 1600 && x < 5 && y < 5 && z < 64
  {
    At(s, (x + 3 * y) % 5, x, z)
  }

  function Pi(s: Bitstring): (t: Bitstring)
    requires |s| == 1600
    ensures |t| == 1600
  {
    seq(1600, (k: nat) requires k < 1600 => PiAt(s, k / 64 % 5, k / 320, k % 64))
  }

  /** Section 3.2.4. */
  predicate ChiAt(s: Bitstring, x: nat, y: nat, z: nat)
    requires |s| == 1600 && x < 5 && y < 5 && z < 64
  {
    Xor(At(s, x, y, z), !At(s, (x + 1) % 5, y, z) && At(s, (x + 2) % 5, y, z))
  }

  function Chi(s: Bitstring): (t: Bitstring)
    requires |s| == 1600
    ensures |t| == 1600
  {
    seq(1600, (k: nat) requires k < 1600 => ChiAt(s, k / 64 % 5, k / 320, k % 64))
  }

  /** Section 3.2.5: bits of lane (0, 0) at positions 2^j - 1 only. */
  function Iota(s: Bitstring, round: nat): (t: Bitstring)
    requires |s| == 1600
    ensures |t| == 1600
  {
    seq(1600, (k: nat) requires k < 1600 => if k < 64 then Xor(s[k], RoundConstants.RoundBit(round, k)) else s[k])
  }

  // ---------------------------------------------------------------- the permutation

  /** Section 3.3. */
  function Round(s: Bitstring, round: nat): (t: Bitstring)
    requires |s| == 1600
    ensures |t| == 1600
  {
    Iota(Chi(Pi(Rho(Theta(s)))), round)
  }

  function RoundsBefore(s: Bitstring, n: nat): (t: Bitstring)
    requires |s| == 1600
    ensures |t| == 1600
  {
    if n == 0 then s else Round(RoundsBefore(s, n - 1), n - 1)
  }

  /** Keccak-f[1600] (section 3.4). */
  function KeccakF(s: Bitstring): (t: Bitstring)
    requires |s| == 1600
    ensures |t| == 1600
  {
    RoundsBefore(s, 24)
  }

  // ---------------------------------------------------------------- the sponge

  function Zeros(n: nat): (s: Bitstring)
    ensures |s| == n
  {
    seq(n, (_: nat) => false)
  }

  /** pad10*1 (section 5.1), to a multiple of r bits after a message of m bits. */
  function Pad(r: nat, m: nat): Bitstring
    requires r > 0
  {
    [true] + Zeros((-(m as int) - 2) % r) + [true]
  }

  function XorBlock(s: Bitstring, p: Bitstring): (t: Bitstring)
    ensures |t| == |s|
  {
    seq(|s|, (k: nat) requires k < |s| => if k < |p| then Xor(s[k], p[k]) else s[k])
  }

  /** The blocks of p, each xored into the state, which is then permuted. */
  function Absorb(r: nat, s: Bitstring, p: Bitstring): (t: Bitstring)
    requires r > 0 && |s| == 1600
    ensures |t| == 1600
    decreases |p|
  {
    if |p| < r then s else Absorb(r, KeccakF(XorBlock(s, p[..r])), p[r..])
  }

  /** d bits of output. */
  function Squeeze(r: nat, s: Bitstring, d: nat): (z: Bitstring)
    requires 0 < r <= 1600 && |s| == 1600
    ensures |z| == d
    decreases d
  {
    if d <= r then s[..d] else s[..r] + Squeeze(r, KeccakF(s), d - r)
  }

  /** SPONGE[Keccak-f[1600], pad10*1, r](message, d) (section 4). */
  function Sponge(r: nat, message: Bitstring, d: nat): (z: Bitstring)
    requires 0 < r <= 1600
    ensures |z| == d
  {
    Squeeze(r, Absorb(r, Zeros(1600), message + Pad(r, |message|)), d)
  }
}
