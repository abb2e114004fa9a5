/** The sponge: absorbing the message and its padding in place, block by block, against the
    definition of section 4 of FIPS 202, for any permutation of 200 bytes. */
module Sponge {
  import opened Words
  import Arith
  import Bits

  const STATE_SIZE: nat := 200

  /** What is used of bytes: zero, xor, and the byte 0x80. */
  datatype ByteOps<!B> = ByteOps(zero: B, xor: (B, B) -> B, last: B)

  ghost predicate XorLaws<B(!new)>(o: ByteOps<B>) {
    && (forall x :: o.xor(x, o.zero) == x)
    && (forall x, y :: o.xor(o.xor(x, y), o.last) == o.xor(x, o.xor(y, o.last)))
  }

  type Permutation<!B> = seq<B> -> seq<B>

  ghost predicate KeepsSize<B(!new)>(p: Permutation<B>) {
    forall s :: |s| == STATE_SIZE ==> |p(s)| == STATE_SIZE
  }

  // ---------------------------------------------------------------- definition

  function ZeroBytes<B(!new)>(o: ByteOps<B>, n: nat): (s: seq<B>)
    ensures |s| == n
  {
    seq(n, _ => o.zero)
  }

  /** The delimiter, zeroes, and a last bit in the top of the last byte (section 5.1 on
      bytes); the two fall into one byte if only one is left. */
  function Filling<B(!new)>(o: ByteOps<B>, q: nat, delim: B): (s: seq<B>)
    requires q > 0
    ensures |s| == q
  {
    if q == 1 then [o.xor(delim, o.last)] else [delim] + ZeroBytes(o, q - 2) + [o.last]
  }

  /** The message padded to whole blocks. */
  function Pad<B(!new)>(o: ByteOps<B>, msg: seq<B>, rate: nat, delim: B): (s: seq<B>)
    requires rate > 0
  {
    msg + Filling(o, rate - |msg| % rate, delim)
  }

  /** s with src xored into its front. */
  function XorInto<B(!new)>(o: ByteOps<B>, s: seq<B>, src: seq<B>): (t: seq<B>)
    ensures |t| == |s|
  {
    seq(|s|, (i: nat) requires i < |s| => if i < |src| then o.xor(s[i], src[i]) else s[i])
  }

  /** Every whole block is xored into the state, which is then permuted. */
  function Absorb<B(!new)>(o: ByteOps<B>, p: Permutation<B>, rate: nat, s: seq<B>, m: seq<B>): seq<B>
    requires rate > 0
    decreases |m|
  {
    if |m| < rate then s else Absorb(o, p, rate, p(XorInto(o, s, m[..rate])), m[rate..])
  }

  /** n bytes of output, rate bytes from each state. */
  function Squeeze<B(!new)>(p: Permutation<B>, rate: nat, s: seq<B>, n: nat): (out: seq<B>)
    requires 0 < rate < STATE_SIZE && |s| == STATE_SIZE && KeepsSize(p)
    ensures |out| == n
    decreases n
  {
    if n < rate then s[..n] else s[..rate] + Squeeze(p, rate, p(s), n - rate)
  }

  lemma {:induction false} AbsorbSize<B(!new)>(o: ByteOps<B>, p: Permutation<B>, rate: nat, s: seq<B>, m: seq<B>)
    requires rate > 0 && KeepsSize(p) && |s| == STATE_SIZE
    ensures |Absorb(o, p, rate, s, m)| == STATE_SIZE
    decreases |m|
  {
    if |m| >= rate {
      AbsorbSize(o, p, rate, p(XorInto(o, s, m[..rate])), m[rate..]);
    }
  }

  /** The sponge over the padded message (section 4). */
  function Hashed<B(!new)>(o: ByteOps<B>, p: Permutation<B>, rate: nat, delim: B, msg: seq<B>, n: nat): (out: seq<B>)
    requires 0 < rate < STATE_SIZE && KeepsSize(p)
    ensures |out| == n
  {
    AbsorbSize(o, p, rate, ZeroBytes(o, STATE_SIZE), Pad(o, msg, rate, delim));
    Squeeze(p, rate, Absorb(o, p, rate, ZeroBytes(o, STATE_SIZE), Pad(o, msg, rate, delim)), n)
  }

  // ---------------------------------------------------------------- padding

  lemma RemainderStep(n: nat, rate: nat)
    requires 0 < rate <= n
    ensures (n - rate) % rate == n % rate
  {
    var q, r := n / rate, n % rate;
    assert n - rate == (q - 1) * rate + r;
    Arith.DivModUnique(n - rate, rate, q - 1, r);
  }

  /** The padded message is whole blocks, at least one. */
  lemma PadIsWholeBlocks<B(!new)>(o: ByteOps<B>, msg: seq<B>, rate: nat, delim: B)
    requires rate > 0
    ensures |Pad(o, msg, rate, delim)| % rate == 0 && msg <= Pad(o, msg, rate, delim)
    ensures |msg| < |Pad(o, msg, rate, delim)| <= |msg| + rate
  {
    var q, r := |msg| / rate, |msg| % rate;
    assert |Pad(o, msg, rate, delim)| == (q + 1) * rate;
    Arith.DivModUnique((q + 1) * rate, rate, q + 1, 0);
  }

  /** Absorbing a first whole block leaves a message padded the same way. */
  lemma AbsorbBlock<B(!new)>(o: ByteOps<B>, p: Permutation<B>, rate: nat, s: seq<B>, delim: B, rest: seq<B>)
    requires 0 < rate <= |rest|
    ensures Absorb(o, p, rate, s, Pad(o, rest, rate, delim))
      == Absorb(o, p, rate, p(XorInto(o, s, rest[..rate])), Pad(o, rest[rate..], rate, delim))
  {
    RemainderStep(|rest|, rate);
    var m := Pad(o, rest, rate, delim);
    assert m[..rate] == rest[..rate];
    assert m[rate..] == Pad(o, rest[rate..], rate, delim);
  }

  /** The last block is the tail with its filling. */
  lemma AbsorbTail<B(!new)>(o: ByteOps<B>, p: Permutation<B>, rate: nat, s: seq<B>, delim: B, tail: seq<B>)
    requires |tail| < rate
    ensures Absorb(o, p, rate, s, Pad(o, tail, rate, delim))
      == p(XorInto(o, s, tail + Filling(o, rate - |tail|, delim)))
  {
    var m := Pad(o, tail, rate, delim);
    assert |tail| % rate == |tail|;
    assert m == tail + Filling(o, rate - |tail|, delim);
    assert m[..rate] == m && m[rate..] == [];
  }

  /** Byte i of a filling of q bytes. */
  lemma FillingAt<B(!new)>(o: ByteOps<B>, q: nat, delim: B, i: nat)
    requires i < q
    ensures Filling(o, q, delim)[i]
      == if q == 1 then o.xor(delim, o.last) else if i == 0 then delim else if i == q - 1 then o.last else o.zero
  {
  }

  /** The bytes that the delimiter and the last bit change, one after the other. */
  function Marked<B(!new)>(o: ByteOps<B>, s: seq<B>, n: nat, rate: nat, delim: B): (t: seq<B>)
    requires n < rate <= |s|
    ensures |t| == |s|
  {
    var s1 := s[n := o.xor(s[n], delim)];
    s1[rate - 1 := o.xor(s1[rate - 1], o.last)]
  }

  lemma MarkedAt<B(!new)>(o: ByteOps<B>, s: seq<B>, n: nat, rate: nat, delim: B, i: nat)
    requires n < rate <= |s| && i < |s| && XorLaws(o)
    ensures Marked(o, s, n, rate, delim)[i]
      == if n <= i < rate then o.xor(s[i], Filling(o, rate - n, delim)[i - n]) else s[i]
  {
    if n <= i < rate {
      FillingAt(o, rate - n, delim, i - n);
      assert o.xor(o.xor(s[i], delim), o.last) == o.xor(s[i], o.xor(delim, o.last));
    }
  }

  /** Xoring the delimiter, the last bit and the tail one after the other is xoring the block. */
  lemma FillInPlace<B(!new)>(o: ByteOps<B>, s: seq<B>, rate: nat, delim: B, tail: seq<B>)
    requires |tail| < rate < |s| && XorLaws(o)
    ensures XorInto(o, Marked(o, s, |tail|, rate, delim), tail)
      == XorInto(o, s, tail + Filling(o, rate - |tail|, delim))
  {
    forall i: nat | i < |s|
      ensures Marked(o, s, |tail|, rate, delim)[i]
        == if |tail| <= i < rate then o.xor(s[i], Filling(o, rate - |tail|, delim)[i - |tail|]) else s[i] {
      MarkedAt(o, s, |tail|, rate, delim, i);
    }
    XorInTwo(o, s, Marked(o, s, |tail|, rate, delim), tail, Filling(o, rate - |tail|, delim));
  }

  lemma XorInTwo<B(!new)>(o: ByteOps<B>, s: seq<B>, m: seq<B>, front: seq<B>, back: seq<B>)
    requires |front| + |back| <= |s| == |m|
    requires forall i: nat :: i < |s| ==>
      m[i] == if |front| <= i < |front| + |back| then o.xor(s[i], back[i - |front|]) else s[i]
    ensures XorInto(o, m, front) == XorInto(o, s, front + back)
  {
    forall i | 0 <= i < |s| ensures XorInto(o, m, front)[i] == XorInto(o, s, front + back)[i] {
      if i < |front| {
        assert (front + back)[i] == front[i];
      } else if i < |front| + |back| {
        assert (front + back)[i] == back[i - |front|];
      }
    }
  }

  // ---------------------------------------------------------------- in place

  method XorIn<B(!new)>(o: ByteOps<B>, a: array<B>, src: array?<B>, pos: nat, len: nat)
    requires len <= a.Length && (len > 0 ==> src != null && pos + len <= src.Length)
    requires src != a
    modifies a
    ensures a[..] == XorInto(o, old(a[..]), if len > 0 then src[pos..pos + len] else [])
  {
    ghost var was := a[..];
    ghost var s := if len > 0 then src[pos..pos + len] else [];
    ghost var goal := XorInto(o, was, s);
    for i := 0 to len
      invariant len > 0 ==> s == src[pos..pos + len]
      invariant forall k :: 0 <= k < a.Length ==> a[k] == if k < i then goal[k] else was[k]
    {
      assert s[i] == src[pos + i];
      a[i] := o.xor(a[i], src[pos + i]);
    }
  }

  method SetOut<B(!new)>(a: array<B>, out: array<B>, pos: nat, len: nat)
    requires len <= a.Length && pos + len <= out.Length && a != out
    modifies out
    ensures out[..] == old(out[..pos]) + a[..len] + old(out[pos + len..])
  {
    ghost var was := out[..];
    for i := 0 to len
      invariant forall k :: 0 <= k < out.Length ==> out[k] == if pos <= k < pos + i then a[k - pos] else was[k]
    {
      out[pos + i] := a[i];
    }
  }

  method Permute<B(!new)>(p: Permutation<B>, a: array<B>)
    requires a.Length == STATE_SIZE && KeepsSize(p)
    modifies a
    ensures a[..] == p(old(a[..]))
  {
    var s := p(a[..]);
    forall i | 0 <= i < a.Length {
      a[i] := s[i];
    }
  }

  ghost function Message<B(!new)>(src: array?<B>, len: nat): (m: seq<B>)
    requires src != null ==> len <= src.Length
    reads src
  {
    if src == null then [] else src[..len]
  }

  /** Absorbs the whole blocks; gives the position of the tail. */
  method AbsorbBlocks<B(!new)>(o: ByteOps<B>, p: Permutation<B>, a: array<B>, src: array?<B>, inlen: nat,
      rate: nat, ghost delim: B)
    returns (pos: nat)
    requires a.Length == STATE_SIZE && KeepsSize(p) && 0 < rate < STATE_SIZE && src != a
    requires if src == null then inlen == 0 else inlen <= src.Length
    modifies a
    ensures pos <= inlen < pos + rate
    ensures Absorb(o, p, rate, a[..], Pad(o, Message(src, inlen)[pos..], rate, delim))
      == old(Absorb(o, p, rate, a[..], Pad(o, Message(src, inlen), rate, delim)))
  {
    ghost var msg := Message(src, inlen);
    ghost var goal := Absorb(o, p, rate, a[..], Pad(o, msg, rate, delim));
    assert msg[0..] == msg;
    pos := 0;
    while inlen - pos >= rate
      invariant pos <= inlen && msg == Message(src, inlen)
      invariant Absorb(o, p, rate, a[..], Pad(o, msg[pos..], rate, delim)) == goal
    {
      AbsorbBlock(o, p, rate, a[..], delim, msg[pos..]);
      assert msg[pos..][..rate] == src[pos..pos + rate] && msg[pos..][rate..] == msg[pos + rate..];
      XorIn(o, a, src, pos, rate);
      Permute(p, a);
      pos := pos + rate;
    }
  }

  method Mark<B(!new)>(o: ByteOps<B>, a: array<B>, len: nat, rate: nat, delim: B)
    requires len < rate <= a.Length
    modifies a
    ensures a[..] == Marked(o, old(a[..]), len, rate, delim)
  {
    a[len] := o.xor(a[len], delim);
    a[rate - 1] := o.xor(a[rate - 1], o.last);
  }

  /** The tail, its delimiter and the last bit are xored into the state. */
  method XorRest<B(!new)>(o: ByteOps<B>, a: array<B>, src: array?<B>, pos: nat, len: nat, rate: nat, delim: B,
      ghost tail: seq<B>)
    requires a.Length == STATE_SIZE && src != a && XorLaws(o) && len < rate < STATE_SIZE
    requires len > 0 ==> src != null && pos + len <= src.Length
    requires tail == if len > 0 then src[pos..pos + len] else []
    modifies a
    ensures a[..] == XorInto(o, old(a[..]), tail + Filling(o, rate - len, delim))
  {
    Mark(o, a, len, rate, delim);
    FillInPlace(o, old(a[..]), rate, delim, tail);
    XorIn(o, a, src, pos, len);
  }

  method AbsorbRest<B(!new)>(o: ByteOps<B>, p: Permutation<B>, a: array<B>, src: array?<B>, inlen: nat, pos: nat,
      rate: nat, delim: B)
    requires a.Length == STATE_SIZE && KeepsSize(p) && src != a && XorLaws(o)
    requires pos <= inlen < pos + rate && rate < STATE_SIZE
    requires if src == null then inlen == 0 else inlen <= src.Length
    modifies a
    ensures a[..] == old(Absorb(o, p, rate, a[..], Pad(o, Message(src, inlen)[pos..], rate, delim)))
  {
    ghost var tail := Message(src, inlen)[pos..];
    XorRest(o, a, src, pos, inlen - pos, rate, delim, tail);
    Permute(p, a);
    AbsorbTail(o, p, rate, old(a[..]), delim, tail);
  }

  /** Writes outlen bytes of output. */
  method SqueezeOut<B(!new)>(p: Permutation<B>, a: array<B>, out: array<B>, outlen: nat, rate: nat)
    requires a.Length == STATE_SIZE && KeepsSize(p) && 0 < rate < STATE_SIZE && a != out && outlen <= out.Length
    modifies a, out
    ensures out[..] == old(Squeeze(p, rate, a[..], outlen)) + old(out[outlen..])
  {
    ghost var was, goal := out[..], Squeeze(p, rate, a[..], outlen);
    var pos := 0;
    while outlen - pos >= rate
      invariant pos <= outlen
      invariant out[..pos] + Squeeze(p, rate, a[..], outlen - pos) == goal
      invariant out[pos..] == was[pos..]
    {
      ghost var s, done := a[..], out[..pos];
      SetOut(a, out, pos, rate);
      Permute(p, a);
      assert out[..pos + rate] == done + s[..rate];
      assert out[pos + rate..] == was[pos + rate..];
      assert done + (s[..rate] + Squeeze(p, rate, a[..], outlen - pos - rate)) == goal;
      assert (done + s[..rate]) + Squeeze(p, rate, a[..], outlen - pos - rate)
        == done + (s[..rate] + Squeeze(p, rate, a[..], outlen - pos - rate));
      pos := pos + rate;
    }
    ghost var done := out[..pos];
    SetOut(a, out, pos, outlen - pos);
    assert a[..outlen - pos] == Squeeze(p, rate, a[..], outlen - pos);
    assert out[..] == done + a[..outlen - pos] + was[outlen..];
  }

  /** 0 and the hash, or -1 and no change. The source is read before any output is written, so
      the two may be the same array. */
  method Hash<B(!new)>(o: ByteOps<B>, p: Permutation<B>, out: array?<B>, outlen: nat, src: array?<B>, inlen: nat,
      rate: nat, delim: B)
    returns (code: int)
    requires KeepsSize(p) && XorLaws(o) && rate > 0
    requires (out != null ==> outlen <= out.Length) && (src != null ==> inlen <= src.Length)
    modifies if out == null then {} else {out}
    ensures code == if out == null || (src == null && inlen != 0) || rate >= STATE_SIZE then -1 else 0
    ensures code == -1 && out != null ==> out[..] == old(out[..])
    ensures code == 0 ==>
      out[..] == Hashed(o, p, rate, delim, old(Message(src, inlen)), outlen) + old(out[outlen..])
  {
    if out == null || (src == null && inlen != 0) || rate >= STATE_SIZE {
      return -1;
    }
    var a := new B[STATE_SIZE](_ => o.zero);
    assert a[..] == ZeroBytes(o, STATE_SIZE);
    var pos := AbsorbBlocks(o, p, a, src, inlen, rate, delim);
    AbsorbRest(o, p, a, src, inlen, pos, rate, delim);
    SqueezeOut(p, a, out, outlen, rate);
    return 0;
  }

  function XorByte(x: Byte, y: Byte): Byte {
    assert Pow2(8) == 256;
    Bits.XorFits(x, y, 8);
    Arith.BitXor(x, y)
  }

  function BYTES(): ByteOps<Byte> {
    ByteOps(0, (x, y) => XorByte(x, y), 0x80)
  }

  lemma XorZero(x: Byte)
    ensures XorByte(x, 0) == x
  {
    forall k: nat ensures Bits.Bit(XorByte(x, 0), k) == Bits.Bit(x, k) {
      Bits.XorBit(x, 0, k);
      Bits.ZeroBit(k);
    }
    Bits.SameBits(XorByte(x, 0), x);
  }

  lemma XorAssociates(x: Byte, y: Byte, z: Byte)
    ensures XorByte(XorByte(x, y), z) == XorByte(x, XorByte(y, z))
  {
    forall k: nat
      ensures Bits.Bit(XorByte(XorByte(x, y), z), k) == Bits.Bit(XorByte(x, XorByte(y, z)), k) {
      Bits.XorBit(x, y, k);
      Bits.XorBit(XorByte(x, y), z, k);
      Bits.XorBit(y, z, k);
      Bits.XorBit(x, XorByte(y, z), k);
    }
    Bits.SameBits(XorByte(XorByte(x, y), z), XorByte(x, XorByte(y, z)));
  }

  lemma BytesObeyXorLaws()
    ensures XorLaws(BYTES())
  {
    forall x: Byte ensures BYTES().xor(x, BYTES().zero) == x {
      XorZero(x);
    }
    forall x: Byte, y: Byte
      ensures BYTES().xor(BYTES().xor(x, y), BYTES().last) == BYTES().xor(x, BYTES().xor(y, BYTES().last)) {
      XorAssociates(x, y, BYTES().last);
    }
  }
}
