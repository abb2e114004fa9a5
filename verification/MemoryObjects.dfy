/** Memory as the emitted functions update it: a buffer that is reallocated, filled and copied
    into, with sizes and prices in wrapping 64-bit arithmetic. For requests that are right
    every method does what the Yellow Paper defines, and no access leaves the buffer. */
module MemoryObjects {
  import opened Words
  import opened Machine
  import opened MemoryPrice
  import opened MemoryLaws
  import opened Refinement
  import Jit
  import YP = YellowPaper

  // ---------------------------------------------------------------- buffers

  method MemCpy(dst: array<Byte>, at: nat, src: seq<Byte>)
    requires |src| > 0 ==> at + |src| <= dst.Length
    modifies dst
    ensures dst[..] == Splice(old(dst[..]), at, src)
  {
    ghost var was := dst[..];
    for i := 0 to |src|
      invariant forall k :: 0 <= k < dst.Length ==> dst[k] == if at <= k < at + i then src[k - at] else was[k]
    {
      dst[at + i] := src[i];
    }
  }

  method MemSet(dst: array<Byte>, at: nat, n: nat)
    requires n > 0 ==> at + n <= dst.Length
    modifies dst
    ensures dst[..] == Splice(old(dst[..]), at, Zeroes(n))
  {
    ghost var was := dst[..];
    for i := 0 to n
      invariant forall k :: 0 <= k < dst.Length ==> dst[k] == if at <= k < at + i then 0 else was[k]
    {
      dst[at + i] := 0;
    }
  }

  /** A larger buffer with the old content in front; the rest holds anything. */
  method Realloc(data: array<Byte>, newSize: nat) returns (newData: array<Byte>)
    requires data.Length <= newSize
    ensures fresh(newData) && newData.Length == newSize && newData[..data.Length] == data[..]
  {
    newData := new Byte[newSize];
    MemCpy(newData, 0, data[..]);
  }

  /** The price of w words, every operation modulo 2^64. */
  function Price64(w: U64): U64 {
    Trunc64(Trunc64(w * 3) + Trunc64(w * w) / 512)
  }

  /** No product or sum wraps for memory up to 2^34 bytes. */
  lemma PriceFits(w: U64)
    requires 32 * w <= 2 * Jit.INPUT_MAX
    ensures Price64(w) == CMem(w) < TWO63
  {
    SquareMonotone(w, 0x2000_0000);
    TruncSmall(w * w);
    TruncSmall(w * 3);
  }

  /** The clamped and rounded size of a request. */
  function SizeReq64(offset: Word, size: Word): U64 {
    var blkO := if offset <= Jit.INPUT_MAX then Trunc64(offset) else Jit.INPUT_MAX;
    var blkS := if size <= Jit.INPUT_MAX then Trunc64(size) else Jit.INPUT_MAX;
    Trunc64(Trunc64(blkO + blkS) + 31) / 32 * 32
  }

  lemma SizeReqFits(offset: Word, size: Word)
    ensures SizeReq64(offset, size) == Jit.ClampedSize(offset, size) <= 2 * Jit.INPUT_MAX
    ensures SizeReq64(offset, size) % 32 == 0
  {
    ClampedNoLarger(offset, size);
    ClampFacts(offset);
    ClampFacts(size);
  }

  /** The price of growing; the difference does not wrap either. */
  lemma GrowthFits(from: U64, to: U64)
    requires from % 32 == to % 32 == 0 && from <= to <= 2 * Jit.INPUT_MAX
    ensures Trunc64(Price64(to / 32) - Price64(from / 32)) == CMem(to / 32) - CMem(from / 32) < TWO63
  {
    PriceFits(to / 32);
    PriceFits(from / 32);
    CMemMonotone(from / 32, to / 32);
    TruncSmall(CMem(to / 32) - CMem(from / 32));
  }

  /** The positions that CALLDATALOAD computes. */
  lemma LoadPlan(size: U64, index: Word)
    requires size < TWO63
    ensures var idx := Trunc64(if index < size then index else size);
      var end0 := Trunc64(idx + 32);
      var end := if end0 <= size then end0 else size;
      var n := Min(32, size - idx);
      && idx == Min(index, size) && Trunc64(end - idx) == n && Trunc64(32 - n) == 32 - n
  {
    var idx: nat := if index < size then index else size;
    TruncSmall(idx);
    TruncSmall(idx + 32);
    TruncSmall(Min(32, size - idx));
  }

  // ---------------------------------------------------------------- the running program

  class Runtime {
    var gas: Gas
    var data: array<Byte>
    var size: U64
    var ret: Bytes
    var world: World
    var out: seq<Byte>

    ghost predicate Valid()
      reads this
    {
      data.Length == size && size % 32 == 0 && size <= 2 * Jit.INPUT_MAX
    }

    ghost function State(): Mach
      reads this, data
    {
      Mach(gas, data[..], ret, world, out)
    }

    constructor (gas: Gas, world: World)
      ensures Valid() && State() == Mach(gas, [], [], world, [])
    {
      this.gas, this.world := gas, world;
      data, size, ret, out := new Byte[0], 0, [], [];
    }

    /** gas.check: the counter is stored only if it does not become negative. */
    method GasCheck(cost: U64) returns (ok: bool)
      requires cost < TWO63
      modifies this`gas
      ensures ok == Jit.Charge(old(State()), cost).Some?
      ensures gas == if ok then old(gas) - cost else old(gas)
    {
      var gasUpdated := gas - cost;
      ok := gasUpdated >= 0;
      if ok {
        gas := gasUpdated;
      }
    }

    /** array.extend: reallocate, and zero what was added. */
    method Extend(newSize: U64)
      requires data.Length == size <= newSize
      modifies this`data, this`size
      ensures data.Length == size == newSize && fresh(data)
      ensures data[..] == old(data[..]) + Zeroes(newSize - old(size))
    {
      var extSize := Trunc64(newSize - size);
      ghost var was := data[..];
      var newData := Realloc(data, newSize);
      MemSet(newData, size, extSize);
      assert newData[..] == was + Zeroes(extSize);
      data, size := newData, newSize;
    }

    /** mem.require. */
    method Require(offset: Word, blkSize: Word) returns (ok: bool)
      requires Valid()
      modifies this`gas, this`data, this`size
      ensures Valid() && (data == old(data) || fresh(data))
      ensures ok == Jit.Require(old(State()), offset, blkSize).Some?
      ensures State() == if ok then Jit.Require(old(State()), offset, blkSize).value else old(State())
    {
      if blkSize == 0 {
        return true;
      }
      var sizeReq := SizeReq64(offset, blkSize);
      SizeReqFits(offset, blkSize);
      if sizeReq <= size {
        return true;
      }
      GrowthFits(size, sizeReq);
      var cc := Trunc64(Price64(sizeReq / 32) - Price64(size / 32));
      ok := GasCheck(if offset <= Jit.INPUT_MAX && blkSize <= Jit.INPUT_MAX then cc else GAS_MAX);
      if ok {
        Extend(sizeReq);
      }
    }

    /** MLOAD: 32 bytes, the first the most significant. */
    method LoadWord(addr: Word) returns (ok: bool, w: Word)
      requires Valid() && ClampIsRight(State(), addr, 32)
      modifies this`gas, this`data, this`size
      ensures Valid() && (data == old(data) || fresh(data))
      ensures ok == YP.Load(old(State()), addr).Some?
      ensures ok ==> YP.Load(old(State()), addr) == Some(Effect(State(), [w]))
    {
      w := 0;
      RequireAgrees(State(), addr, 32);
      ok := Require(addr, 32);
      if ok {
        TruncSmall(addr);
        var index := Trunc64(addr);
        assert data[index..index + 32] == Slice(data[..], addr, 32);
        w := Wrap(FromBytes(data[index..index + 32]));
      }
    }

    /** MSTORE and MSTORE8, given the bytes to store. */
    method StoreBytes(addr: Word, bytes: seq<Byte>) returns (ok: bool)
      requires Valid() && 0 < |bytes| <= 32 && ClampIsRight(State(), addr, |bytes|)
      modifies this`gas, this`data, this`size, data
      ensures Valid() && (data == old(data) || fresh(data))
      ensures ok == YP.Store(old(State()), addr, bytes).Some?
      ensures State() == if ok then YP.Store(old(State()), addr, bytes).value else old(State())
    {
      RequireAgrees(State(), addr, |bytes|);
      ok := Require(addr, |bytes|);
      if ok {
        TruncSmall(addr);
        MemCpy(data, Trunc64(addr), bytes);
      }
    }

    /** memcpy of what the source has, memset of the rest; the differences may wrap where
        they are not selected. */
    method Fill(src: array<Byte>, srcIdx: Word, dst: U64, req: U64)
      requires src != data && src.Length < TWO63 && Inside(data[..], dst, req)
      modifies data
      ensures data[..] == Splice(old(data[..]), dst, Slice(src[..], srcIdx, req))
    {
      var n := Jit.BytesToCopy(src.Length, srcIdx, req);
      CopyPlan(src.Length, srcIdx, req);
      var copied := if n == 0 then [] else src[Trunc64(srcIdx)..Trunc64(srcIdx) + n];
      assert copied == Slice(src[..], Trunc64(srcIdx), n);
      FillIsSplice(data[..], src[..], dst, Trunc64(srcIdx), srcIdx, n, req);
      MemCpy(data, dst, copied);
      MemSet(data, Trunc64(dst + n), Trunc64(req - n));
    }

    /** The charge for copying, per word. */
    method CountCopy(req: U64) returns (ok: bool)
      requires req < TWO63
      modifies this`gas
      ensures ok == YP.Pay(old(State()), 3 * CeilWords(req)).Some?
      ensures gas == if ok then old(gas) - 3 * CeilWords(req) else old(gas)
    {
      TruncSmall(req + 31);
      ok := GasCheck(Trunc64(req + 31) / 32 * 3);
    }

    /** A request that is right, met: the range survives truncation. */
    method RequireRange(dest: Word, req: Word) returns (ok: bool)
      requires Valid() && ClampIsRight(State(), dest, req)
      modifies this`gas, this`data, this`size
      ensures Valid() && (data == old(data) || fresh(data))
      ensures ok == YP.Use(old(State()), dest, req).Some?
      ensures ok ==> Some(State()) == YP.Use(old(State()), dest, req)
      ensures ok ==> Trunc64(req) == req < TWO63 && Inside(data[..], Trunc64(dest), req)
      ensures ok ==> req > 0 ==> Trunc64(dest) == dest
    {
      RequireAgrees(State(), dest, req);
      ok := Require(dest, req);
      if ok {
        RangeFits(data[..], dest, req);
      }
    }

    /** CALLDATACOPY, CODECOPY, EXTCODECOPY: memory is made to cover the destination, the copy
        is paid for, and the range filled. */
    method CopyBytes(src: array<Byte>, srcIdx: Word, dest: Word, req: Word) returns (ok: bool)
      requires Valid() && ClampIsRight(State(), dest, req) && src != data && src.Length < TWO63
      modifies this`gas, this`data, this`size, data
      ensures Valid() && (data == old(data) || fresh(data)) && src[..] == old(src[..])
      ensures ok == YP.CopyIn(old(State()), src[..], dest, srcIdx, req).Some?
      ensures ok ==> Some(State()) == YP.CopyIn(old(State()), src[..], dest, srcIdx, req)
    {
      ok := RequireRange(dest, req);
      if ok {
        ok := CountCopy(Trunc64(req));
        if ok {
          SpliceNothing(data[..], dest, Trunc64(dest), Slice(src[..], srcIdx, req));
          Fill(src, srcIdx, Trunc64(dest), Trunc64(req));
        }
      }
    }

    /** The charge for copying from the return buffer: the tripled penalty if it is overrun. */
    method CountReturned(srcIdx: Word, req: Word) returns (ok: bool)
      requires req < TWO63
      modifies this`gas
      ensures ok <==> if srcIdx as int + req <= |ret| then 3 * CeilWords(req) <= old(gas) else old(gas) >= TWO63 - 3
      ensures ok ==>
        gas == old(gas) - (if srcIdx as int + req <= |ret| then 3 * CeilWords(req) else TWO63 - 3)
      ensures !ok ==> gas == old(gas)
    {
      var reqSize := Wrap(srcIdx as int + req);
      var bufferOverrun := reqSize < req || reqSize > |ret|;
      OverrunExact(srcIdx, req, |ret|);
      if bufferOverrun {
        ok := GasCheck(Trunc64(GAS_MAX * 3));
      } else {
        ok := CountCopy(Trunc64(req));
      }
    }

    /** RETURNDATACOPY. */
    method CopyBytesNoPadding(srcIdx: Word, dest: Word, req: Word) returns (ok: bool)
      requires Valid() && ClampIsRight(State(), dest, req)
      requires gas < TWO63 - 3 || srcIdx as int + req <= |ret|
      modifies this`gas, this`data, this`size, data
      ensures Valid() && (data == old(data) || fresh(data))
      ensures ok == YP.CopyReturned(old(State()), dest, srcIdx, req).Some?
      ensures ok ==> Some(State()) == YP.CopyReturned(old(State()), dest, srcIdx, req)
    {
      ok := RequireRange(dest, req);
      if ok {
        ok := CountReturned(srcIdx, req);
        if ok {
          TruncSmall(srcIdx);
          var bytes := ret[Trunc64(srcIdx)..Trunc64(srcIdx) + req];
          SliceOf(ret, srcIdx, req);
          SpliceNothing(data[..], dest, Trunc64(dest), bytes);
          MemCpy(data, Trunc64(dest), bytes);
        }
      }
    }
  }

  lemma SliceOf(s: seq<Byte>, from: nat, n: nat)
    requires from + n <= |s|
    ensures s[from..from + n] == Slice(s, from, n)
  {
  }

  /** CALLDATALOAD through a 32-byte buffer. */
  method LoadCallData(src: array<Byte>, index: Word) returns (w: Word)
    requires src.Length < TWO63
    ensures w == YP.WordAt(src[..], index)
  {
    var size: U64 := src.Length;
    var buffer := new Byte[32];
    var idx: U64 := Trunc64(if index < size then index else size);
    var end0 := Trunc64(idx + 32);
    var end := if end0 <= size then end0 else size;
    LoadPlan(size, index);
    var copySize := Trunc64(end - idx);
    var padSize := Trunc64(32 - copySize);
    var copied := src[idx..idx + copySize];
    PaddedWord(src[..], index, idx, copySize);
    SpliceTwice(buffer[..], 0, copied, Zeroes(padSize));
    ghost var before := buffer[..];
    MemCpy(buffer, 0, copied);
    MemSet(buffer, copySize, padSize);
    SpliceAll(before, Slice(src[..], index, 32));
    w := Wrap(FromBytes(buffer[..]));
  }

  lemma SpliceAll(s: seq<Byte>, t: seq<Byte>)
    requires |s| == |t|
    ensures Splice(s, 0, t) == t
  {
  }

  lemma PaddedWord(src: seq<Byte>, index: Word, idx: nat, n: nat)
    requires idx == Min(index, |src|) && n == Min(32, |src| - idx)
    ensures src[idx..idx + n] + Zeroes(32 - n) == Slice(src, index, 32)
  {
  }
}
