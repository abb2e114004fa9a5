/** The emitted code of an instruction does what the Yellow Paper says wherever its memory
    requests are right: its clamps, copies and truncations lose nothing. */
module Refinement {
  import opened Words
  import opened Machine
  import opened Hosts
  import opened MemoryLaws
  import Jit
  import YP = YellowPaper

  // ---------------------------------------------------------------- truncation and copies

  /** A range inside memory, or an empty one. */
  predicate Inside(mem: seq<Byte>, offset: nat, size: nat) {
    size > 0 ==> offset + size <= |mem| <= 2 * Jit.INPUT_MAX
  }

  lemma SliceAgrees(mem: seq<Byte>, offset: Word, size: Word)
    requires Inside(mem, offset, size)
    ensures Trunc64(size) == size
    ensures Slice(mem, Trunc64(offset), Trunc64(size)) == Slice(mem, offset, size)
    ensures Clip(mem, Trunc64(offset), Trunc64(size)) == Clip(mem, offset, size)
    ensures Jit.CopyWords(Trunc64(size)) == CeilWords(size)
  {
  }

  lemma SpliceAgrees(mem: seq<Byte>, offset: Word, bytes: seq<Byte>)
    requires Inside(mem, offset, |bytes|)
    ensures Splice(mem, Trunc64(offset), bytes) == Splice(mem, offset, bytes)
  {
  }

  lemma RangeFits(mem: seq<Byte>, dest: Word, req: Word)
    requires Inside(mem, dest, req)
    ensures Trunc64(req) == req < TWO63 && Inside(mem, Trunc64(dest), req)
    ensures req > 0 ==> Trunc64(dest) == dest
  {
  }

  /** Where nothing is written the position does not matter. */
  lemma SpliceNothing(mem: seq<Byte>, at: nat, pos: nat, bytes: seq<Byte>)
    requires |bytes| > 0 ==> at == pos
    ensures Splice(mem, at, bytes) == Splice(mem, pos, bytes)
  {
  }

  lemma CopiedBytes(size: U64, srcIdx: Word, req: U64)
    requires size < TWO63
    ensures Jit.BytesToCopy(size, srcIdx, req) == if srcIdx >= size then 0 else Min(size - srcIdx, req)
  {
  }

  /** How many bytes there are to copy, and that they exist. */
  lemma CopyPlan(size: U64, srcIdx: Word, req: U64)
    requires size < TWO63
    ensures var n := Jit.BytesToCopy(size, srcIdx, req);
      && n <= req && Trunc64(req - n) == req - n
      && (n > 0 ==> Trunc64(srcIdx) == srcIdx && srcIdx + n <= size)
      && (n < req ==> srcIdx as int + n >= size)
  {
    CopiedBytes(size, srcIdx, req);
  }

  /** The bytes that exist and the zeroes are the zero-extended slice. */
  lemma CopiedThenZeroes(src: seq<Byte>, at: nat, from: nat, n: nat, len: nat)
    requires n <= len && (n > 0 ==> at == from && from + n <= |src|) && (n < len ==> from + n >= |src|)
    ensures Slice(src, at, n) + Zeroes(len - n) == Slice(src, from, len)
  {
  }

  lemma FillIsSplice(mem: seq<Byte>, src: seq<Byte>, dst: U64, at: nat, from: nat, n: nat, len: nat)
    requires n <= len && (n > 0 ==> at == from && from + n <= |src|) && (n < len ==> from + n >= |src|)
    requires Inside(mem, dst, len)
    ensures Splice(Splice(mem, dst, Slice(src, at, n)), Trunc64(dst + n), Zeroes(len - n))
      == Splice(mem, dst, Slice(src, from, len))
  {
    CopiedThenZeroes(src, at, from, n, len);
    SpliceTwice(mem, dst, Slice(src, at, n), Zeroes(len - n));
    if len > 0 { TruncSmall(dst + n); } else { TruncSmall(dst); }
  }

  /** memcpy and memset together write the source slice, extended by zeroes on the right;
      the subtractions that may wrap are on branches that are not selected. */
  lemma PaddedAgrees(mem: seq<Byte>, src: Bytes, dest: Word, srcIdx: Word, req: Word)
    requires Inside(mem, dest, req)
    ensures Jit.Padded(mem, src, Trunc64(dest), srcIdx, Trunc64(req)) ==
            Splice(mem, dest, Slice(src, srcIdx, req))
  {
    RangeFits(mem, dest, req);
    CopyPlan(|src|, srcIdx, req);
    FillIsSplice(mem, src, Trunc64(dest), Trunc64(srcIdx), srcIdx, Jit.BytesToCopy(|src|, srcIdx, req), req);
    SpliceNothing(mem, dest, Trunc64(dest), Slice(src, srcIdx, req));
  }

  lemma SpliceTwice(mem: seq<Byte>, at: nat, a: seq<Byte>, b: seq<Byte>)
    ensures Splice(Splice(mem, at, a), at + |a|, b) == Splice(mem, at, a + b)
  {
  }

  /** CALLDATALOAD is the 32-byte padded copy. */
  lemma LoadCallDataAgrees(data: Bytes, index: Word)
    ensures Jit.LoadCallData(data, index) == YP.WordAt(data, index)
  {
    var idx: nat := if index < |data| then index else |data|;
    var n: nat := Min(|data| - idx, 32);
    assert Trunc64(idx) == idx && Trunc64(idx + 32) == idx + 32;
    assert Trunc64(32 - n) == 32 - n && Trunc64(n) == n;
    assert Slice(data, idx, n) + Zeroes(32 - n) == Slice(data, index, 32);
  }

  // ---------------------------------------------------------------- one instruction

  /** What an instruction keeps: whole words of memory that never shrink, and of gas and
      the price of memory together there is never more. */
  ghost predicate Kept(m: Mach, n: Mach) {
    Sized(n) && |m.mem| <= |n.mem| && n.gas + Paid(n) <= m.gas + Paid(m)
  }

  /** Both sides agree, and leave what has to be kept. */
  ghost predicate Agree(j: Option<Mach>, y: Option<Mach>, m: Mach) {
    j == y && (j.Some? ==> Kept(m, j.value))
  }

  ghost predicate EffectsAgree(j: Option<Effect>, y: Option<Effect>, m: Mach) {
    j == y && (j.Some? ==> Kept(m, j.value.m))
  }

  lemma HashAgrees(h: Host, m: Mach, offset: Word, size: Word)
    requires Sized(m) && ClampIsRight(m, offset, size)
    ensures EffectsAgree(Jit.HashOp(h, m, offset, size), YP.HashOf(h, m, offset, size), m)
  {
    RequireAgrees(m, offset, size);
    var n := Jit.Require(m, offset, size);
    if n.Some? {
      SliceAgrees(n.value.mem, offset, size);
    }
  }

  lemma LoadAgrees(m: Mach, addr: Word)
    requires Sized(m) && ClampIsRight(m, addr, 32)
    ensures EffectsAgree(Jit.LoadOp(m, addr), YP.Load(m, addr), m)
  {
    RequireAgrees(m, addr, 32);
    var n := Jit.Require(m, addr, 32);
    if n.Some? {
      SliceAgrees(n.value.mem, addr, 32);
    }
  }

  lemma StoreAgrees(m: Mach, addr: Word, bytes: seq<Byte>)
    requires |bytes| <= 32 && Sized(m) && ClampIsRight(m, addr, |bytes|)
    ensures Agree(Jit.StoreOp(m, addr, bytes), YP.Store(m, addr, bytes), m)
  {
    RequireAgrees(m, addr, |bytes|);
    var n := Jit.Require(m, addr, |bytes|);
    if n.Some? {
      SpliceAgrees(n.value.mem, addr, bytes);
    }
  }

  lemma OutputAgrees(m: Mach, offset: Word, size: Word)
    requires Sized(m) && ClampIsRight(m, offset, size)
    ensures Agree(Jit.ReturnOp(m, offset, size), YP.Output(m, offset, size), m)
  {
    RequireAgrees(m, offset, size);
    var n := Jit.Require(m, offset, size);
    if n.Some? {
      SliceAgrees(n.value.mem, offset, size);
    }
  }

  /** Capping a cost at INT64_MAX changes nothing for counters that cannot pay INT64_MAX. */
  lemma ChargeWordIsPay(m: Mach, cost: Word)
    requires m.gas < GAS_MAX
    ensures Jit.ChargeWord(m, cost) == YP.Pay(m, cost)
  {
  }

  lemma LogAgrees(h: Host, m: Mach, offset: Word, size: Word, topics: seq<Word>)
    requires m.gas < GAS_MAX && Sized(m) && ClampIsRight(m, offset, size)
    ensures Agree(Jit.LogOp(h, m, offset, size, topics), YP.LogData(h, m, offset, size, topics), m)
  {
    RequireAgrees(m, offset, size);
    var n := Jit.Require(m, offset, size);
    if n.Some? {
      SliceAgrees(n.value.mem, offset, size);
      WrapSmall(size as int * 8);
      ChargeWordIsPay(n.value, size as int * 8);
    }
  }

  lemma CopyAgrees(m: Mach, src: Bytes, dest: Word, from: Word, size: Word)
    requires Sized(m) && ClampIsRight(m, dest, size)
    ensures Agree(Jit.CopyBytes(m, src, dest, from, size), YP.CopyIn(m, src, dest, from, size), m)
  {
    RequireAgrees(m, dest, size);
    var n := Jit.Require(m, dest, size);
    if n.Some? {
      SliceAgrees(n.value.mem, dest, size);
      PaddedAgrees(n.value.mem, src, dest, from, size);
    }
  }

  /** The wrapped sum shows an overrun exactly when the true sum does. */
  lemma OverrunExact(from: Word, size: Word, available: U64)
    ensures var reqSize := Wrap(from as int + size);
      (reqSize < size || reqSize > available) <==> from as int + size > available
  {
  }

  /** Reading beyond the return buffer fails: the tripled penalty cannot be paid. */
  lemma OverrunFails(m: Mach, dest: Word, from: Word, size: Word)
    requires m.gas < TWO63 - 3 && from as int + size > |m.ret|
    ensures Jit.CopyNoPadding(m, dest, from, size).None?
  {
    OverrunExact(from, size, |m.ret|);
    var n := Jit.Require(m, dest, size);
    if n.Some? {
      TripledPenalty(n.value);
    }
  }

  /** Nothing is lost by truncating a request that the buffer can meet. */
  lemma ReturnedFits(mem: seq<Byte>, ret: Bytes, dest: Word, from: Word, size: Word)
    requires Inside(mem, dest, size) && from as int + size <= |ret|
    ensures Trunc64(from) == from && Trunc64(size) == size
    ensures Trunc64(Jit.CopyWords(size) * 3) == 3 * CeilWords(size)
    ensures Splice(mem, Trunc64(dest), Slice(ret, from, size)) == Splice(mem, dest, Slice(ret, from, size))
  {
    TruncSmall(from);
    TruncSmall(size);
    SliceAgrees(mem, dest, size);
    TruncSmall(3 * CeilWords(size));
    SpliceAgrees(mem, dest, Slice(ret, from, size));
  }

  lemma ReturnedCopied(m: Mach, dest: Word, from: Word, size: Word)
    requires Sized(m) && ClampIsRight(m, dest, size) && from as int + size <= |m.ret|
    ensures Agree(Jit.CopyNoPadding(m, dest, from, size), YP.CopyIn(m, m.ret, dest, from, size), m)
  {
    RequireAgrees(m, dest, size);
    OverrunExact(from, size, |m.ret|);
    var n := Jit.Require(m, dest, size);
    if n.Some? {
      ReturnedFits(n.value.mem, m.ret, dest, from, size);
    }
  }

  lemma CopyReturnedAgrees(m: Mach, dest: Word, from: Word, size: Word)
    requires Sized(m) && ClampIsRight(m, dest, size)
    requires m.gas < TWO63 - 3 || from as int + size <= |m.ret|
    ensures Agree(Jit.CopyNoPadding(m, dest, from, size), YP.CopyReturned(m, dest, from, size), m)
  {
    if from as int + size > |m.ret| {
      OverrunFails(m, dest, from, size);
    } else {
      ReturnedCopied(m, dest, from, size);
    }
  }
}
