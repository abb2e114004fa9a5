/** The hash of the code, bit by bit: it is the sponge of FIPS 202 over Keccak-f[1600] with the
    padding pad10*1. */
module SpongeBits {
  import opened Words
  import opened Bits
  import opened KeccakBits
  import opened Sponge
  import Arith
  import F = Fips202
  import Lanes

  // ---------------------------------------------------------------- strings

  lemma JoinBits(a: seq<Byte>, b: seq<Byte>)
    ensures BitsOfBytes(a + b) == BitsOfBytes(a) + BitsOfBytes(b)
  {
    forall k: nat | k < 8 * |a + b|
      ensures BitsOfBytes(a + b)[k] == (BitsOfBytes(a) + BitsOfBytes(b))[k] {
      if k >= 8 * |a| {
        assert (a + b)[k / 8] == b[k / 8 - |a|] && k / 8 - |a| == (k - 8 * |a|) / 8;
      }
    }
  }

  lemma CutBits(s: seq<Byte>, n: nat)
    requires n <= |s|
    ensures BitsOfBytes(s[..n]) == BitsOfBytes(s)[..8 * n] && BitsOfBytes(s[n..]) == BitsOfBytes(s)[8 * n..]
  {
    JoinBits(s[..n], s[n..]);
    assert s[..n] + s[n..] == s;
  }

  lemma ZeroBits(n: nat)
    ensures BitsOfBytes(ZeroBytes(BYTES(), n)) == F.Zeros(8 * n)
  {
    forall k: nat | k < 8 * n ensures !BitsOfBytes(ZeroBytes(BYTES(), n))[k] {
      ZeroBit(k % 8);
    }
  }

  lemma XorBits(s: seq<Byte>, src: seq<Byte>)
    ensures BitsOfBytes(XorInto(BYTES(), s, src)) == F.XorBlock(BitsOfBytes(s), BitsOfBytes(src))
  {
    var t := XorInto(BYTES(), s, src);
    forall k: nat | k < 8 * |s|
      ensures BitsOfBytes(t)[k] == F.XorBlock(BitsOfBytes(s), BitsOfBytes(src))[k] {
      if k < 8 * |src| {
        assert t[k / 8] == XorByte(s[k / 8], src[k / 8]);
        XorBit(s[k / 8], src[k / 8], k % 8);
      }
    }
  }

  // ---------------------------------------------------------------- padding

  /** The delimiter has its lowest bit set, the last byte its highest. */
  lemma MarkBits(k: nat)
    requires k < 8
    ensures Bit(0x01, k) <==> k == 0
    ensures Bit(0x80, k) <==> k == 7
  {
    if k > 0 { ZeroBit(k - 1); }
    assert Pow2(7) == 128;
    JoinBit(0, 1, 7, k);
    ZeroBit(k);
  }

  lemma FillingBit(q: nat, f: Byte, k: nat)
    requires k < 8 * q && f == Filling(BYTES(), q, 0x01)[k / 8]
    ensures Bit(f, k % 8) <==> k == 0 || k == 8 * q - 1
  {
    FillingAt(BYTES(), q, 0x01, k / 8);
    MarkBits(k % 8);
    ZeroBit(k % 8);
    if q == 1 {
      XorBit(0x01, 0x80, k % 8);
    }
  }

  /** The filling of q bytes is a 1, zeroes, and a 1. */
  lemma FillingBits(q: nat)
    requires q > 0
    ensures BitsOfBytes(Filling(BYTES(), q, 0x01)) == [true] + F.Zeros(8 * q - 2) + [true]
  {
    var f := Filling(BYTES(), q, 0x01);
    var goal := [true] + F.Zeros(8 * q - 2) + [true];
    assert |goal| == 8 * q && forall k :: 0 <= k < 8 * q ==> goal[k] == (k == 0 || k == 8 * q - 1);
    forall k: nat | k < 8 * q ensures BitsOfBytes(f)[k] == goal[k] {
      FillingBit(q, f[k / 8], k);
    }
  }

  lemma PadLength(m: nat, rate: nat)
    requires rate > 0
    ensures (-(8 * m as int) - 2) % (8 * rate) == 8 * (rate - m % rate) - 2
  {
    var d, r := m / rate, m % rate;
    assert m == d * rate + r;
    assert -(8 * m as int) - 2 == -(d + 1) * (8 * rate) + (8 * (rate - r) - 2);
    Arith.DivModUnique(-(8 * m as int) - 2, 8 * rate, -(d + 1), 8 * (rate - r) - 2);
  }

  /** With the delimiter 1, the padded message is the message and pad10*1 (section 5.1). */
  lemma PadIsPad101(msg: seq<Byte>, rate: nat)
    requires rate > 0
    ensures BitsOfBytes(Pad(BYTES(), msg, rate, 0x01)) == BitsOfBytes(msg) + F.Pad(8 * rate, 8 * |msg|)
  {
    JoinBits(msg, Filling(BYTES(), rate - |msg| % rate, 0x01));
    FillingBits(rate - |msg| % rate);
    PadLength(|msg|, rate);
  }

  // ---------------------------------------------------------------- the sponge

  lemma PermutationKeepsSize()
    ensures KeepsSize(Lanes.KeccakP)
  {
  }

  lemma {:induction false} AbsorbOnBits(rate: nat, s: seq<Byte>, m: seq<Byte>)
    requires rate > 0 && |s| == STATE_SIZE
    ensures |Absorb(BYTES(), Lanes.KeccakP, rate, s, m)| == STATE_SIZE
    ensures BitsOfBytes(Absorb(BYTES(), Lanes.KeccakP, rate, s, m))
      == F.Absorb(8 * rate, BitsOfBytes(s), BitsOfBytes(m))
    decreases |m|
  {
    if |m| >= rate {
      var t := XorInto(BYTES(), s, m[..rate]);
      CutBits(m, rate);
      XorBits(s, m[..rate]);
      PermutationIsKeccakF(t);
      AbsorbOnBits(rate, Lanes.KeccakP(t), m[rate..]);
    }
  }

  /** Squeezing a whole block first, also if nothing is wanted after it. */
  lemma SqueezeFirst(r: nat, s: F.Bitstring, d: nat)
    requires 0 < r <= 1600 && |s| == 1600 && d >= r
    ensures F.Squeeze(r, s, d) == s[..r] + F.Squeeze(r, F.KeccakF(s), d - r)
  {
    if d == r {
      assert F.Squeeze(r, F.KeccakF(s), 0) == [];
      assert s[..r] + [] == s[..r];
    }
  }

  lemma SqueezeStep(rate: nat, s: seq<Byte>, n: nat, rest: seq<Byte>)
    requires 0 < rate <= n && rate < STATE_SIZE && |s| == STATE_SIZE
    requires BitsOfBytes(rest) == F.Squeeze(8 * rate, F.KeccakF(BitsOfBytes(s)), 8 * (n - rate))
    ensures BitsOfBytes(s[..rate] + rest) == F.Squeeze(8 * rate, BitsOfBytes(s), 8 * n)
  {
    CutBits(s, rate);
    JoinBits(s[..rate], rest);
    SqueezeFirst(8 * rate, BitsOfBytes(s), 8 * n);
  }

  lemma SqueezeLast(rate: nat, s: seq<Byte>, n: nat)
    requires n < rate < STATE_SIZE && |s| == STATE_SIZE
    ensures BitsOfBytes(s[..n]) == F.Squeeze(8 * rate, BitsOfBytes(s), 8 * n)
  {
    CutBits(s, n);
  }

  lemma {:induction false} SqueezeOnBits(rate: nat, s: seq<Byte>, n: nat, out: seq<Byte>)
    requires 0 < rate < STATE_SIZE && |s| == STATE_SIZE && KeepsSize(Lanes.KeccakP)
    requires out == Squeeze(Lanes.KeccakP, rate, s, n)
    ensures BitsOfBytes(out) == F.Squeeze(8 * rate, BitsOfBytes(s), 8 * n)
    decreases n
  {
    if n < rate {
      SqueezeLast(rate, s, n);
    } else {
      var t := Lanes.KeccakP(s);
      var rest := Squeeze(Lanes.KeccakP, rate, t, n - rate);
      assert out == s[..rate] + rest;
      SqueezeOnBits(rate, t, n - rate, rest);
      assert BitsOfBytes(t) == F.KeccakF(BitsOfBytes(s)) by {
        PermutationIsKeccakF(s);
      }
      SqueezeStep(rate, s, n, rest);
    }
  }

  /** For every message, rate and output length, the bits of the hash with delimiter 1 are those
      of SPONGE[Keccak-f[1600], pad10*1, r] of section 4. */
  lemma HashIsSponge(msg: seq<Byte>, rate: nat, n: nat)
    requires 0 < rate < STATE_SIZE
    ensures KeepsSize(Lanes.KeccakP)
    ensures BitsOfBytes(Hashed(BYTES(), Lanes.KeccakP, rate, 0x01, msg, n))
      == F.Sponge(8 * rate, BitsOfBytes(msg), 8 * n)
  {
    PermutationKeepsSize();
    var m := Pad(BYTES(), msg, rate, 0x01);
    var start := ZeroBytes(BYTES(), STATE_SIZE);
    PadIsPad101(msg, rate);
    ZeroBits(STATE_SIZE);
    AbsorbOnBits(rate, start, m);
    var s := Absorb(BYTES(), Lanes.KeccakP, rate, start, m);
    SqueezeOnBits(rate, s, n, Squeeze(Lanes.KeccakP, rate, s, n));
  }

  /** keccak_256: at most 32 bytes, rate 136, delimiter 1. The bits written are those of
      SPONGE[Keccak-f[1600], pad10*1, 1088]. */
  method Keccak256(out: array?<Byte>, outlen: nat, src: array?<Byte>, inlen: nat) returns (code: int)
    requires (out != null ==> outlen <= out.Length) && (src != null ==> inlen <= src.Length)
    modifies if out == null then {} else {out}
    ensures code == if outlen > 32 || out == null || (src == null && inlen != 0) then -1 else 0
    ensures code == -1 && out != null ==> out[..] == old(out[..])
    ensures code == 0 ==> out[outlen..] == old(out[outlen..])
    ensures code == 0 ==>
      BitsOfBytes(out[..outlen]) == F.Sponge(1088, BitsOfBytes(old(Message(src, inlen))), 8 * outlen)
  {
    if outlen > 32 {
      return -1;
    }
    BytesObeyXorLaws();
    ghost var message := Message(src, inlen);
    HashIsSponge(message, 136, outlen);
    code := Hash(BYTES(), Lanes.KeccakP, out, outlen, src, inlen, 136, 0x01);
    if code == 0 {
      assert out[..outlen] == Hashed(BYTES(), Lanes.KeccakP, 136, 0x01, message, outlen);
    }
  }
}
