/** Memory requests of any machine, whatever its gas: when the clamped request is the right
    one, and what a run of requests costs altogether. */
module MemoryLaws {
  import opened Words
  import opened Machine
  import opened MemoryPrice
  import Jit
  import YP = YellowPaper

  // ---------------------------------------------------------------- the gas check

  /** The penalty of INT64_MAX fails for every counter but the greatest one, which pays it. */
  lemma PenaltyIsFinal(m: Mach)
    ensures Jit.Charge(m, GAS_MAX).None? <==> m.gas < GAS_MAX
  {
  }

  /** Tripled modulo 2^64, as for reading beyond the return buffer, two more counters pay it. */
  lemma TripledPenalty(m: Mach)
    ensures Jit.Charge(m, Trunc64(GAS_MAX * 3)).None? <==> m.gas < TWO63 - 3
  {
    assert Trunc64(GAS_MAX * 3) == TWO63 - 3;
  }

  // ---------------------------------------------------------------- sizes

  lemma CeilFacts(bytes: nat)
    ensures bytes <= 32 * CeilWords(bytes) < bytes + 32
  {
  }

  lemma ClampFacts(x: Word)
    ensures Jit.Clamp(x) == Min(x, Jit.INPUT_MAX)
  {
  }

  lemma ClampedExact(offset: Word, size: Word)
    requires size <= Jit.INPUT_MAX && offset <= Jit.INPUT_MAX
    ensures Jit.ClampedSize(offset, size) == CeilWords(offset + size) * 32
  {
    ClampFacts(offset);
    ClampFacts(size);
  }

  lemma ClampedNoLarger(offset: Word, size: Word)
    ensures Jit.ClampedSize(offset, size) <= 32 * CeilWords(offset as int + size)
    ensures Jit.ClampedSize(offset, size) <= 2 * Jit.INPUT_MAX
    ensures Jit.ClampedSize(offset, size) % 32 == 0
  {
    ClampFacts(offset);
    ClampFacts(size);
  }

  /** The memory of every machine that the emitted code reaches. */
  predicate Sized(m: Mach) {
    |m.mem| % 32 == 0 && |m.mem| <= 2 * Jit.INPUT_MAX
  }

  /** The price of a machine's memory. */
  function Paid(m: Mach): nat {
    CMem(|m.mem| / 32)
  }

  // ---------------------------------------------------------------- what is defined

  /** The number of words that cover so many bytes. */
  function WordsFor(bytes: nat): nat {
    if bytes % 32 == 0 then bytes / 32 else bytes / 32 + 1
  }

  /** Memory use as defined, spelled out: memory covers the range in whole words, new bytes are
      zero, and each w words cost 3 w and a 512th of w^2 altogether. */
  lemma UseLeaves(m: Mach, offset: nat, size: nat)
    requires |m.mem| % 32 == 0
    ensures var v := |m.mem| / 32;
      var w := if size == 0 then v else Max(v, WordsFor(offset + size));
      var price := 3 * w + w * w / 512 - (3 * v + v * v / 512);
      match YP.Use(m, offset, size)
      case None => price > m.gas
      case Some(n) =>
        && n == m.(gas := m.gas - price, mem := n.mem) && |n.mem| == 32 * w
        && forall k :: 0 <= k < |n.mem| ==> n.mem[k] == if k < |m.mem| then m.mem[k] else 0
  {
  }

  // ---------------------------------------------------------------- one request

  predicate InRange(offset: Word, size: Word) {
    size == 0 || (offset <= Jit.INPUT_MAX && size <= Jit.INPUT_MAX)
  }

  /** The request lies in memory already. */
  predicate Covered(m: Mach, offset: Word, size: Word) {
    32 * CeilWords(offset as int + size) <= |m.mem|
  }

  /** What a request really costs, for a request that memory does not cover. */
  function Price(m: Mach, offset: Word, size: Word): int {
    CMem(CeilWords(offset as int + size)) - Paid(m)
  }

  /** A request beyond 2^33 is handled rightly if memory covers it, or if memory is smaller
      than the clamped request and neither the true price nor the penalty can be paid. */
  predicate ClampIsRight(m: Mach, offset: Word, size: Word) {
    || InRange(offset, size)
    || Covered(m, offset, size)
    || (|m.mem| < Jit.ClampedSize(offset, size) && m.gas < Price(m, offset, size) && m.gas < GAS_MAX)
  }

  lemma UseGrows(m: Mach, offset: Word, size: Word)
    requires |m.mem| % 32 == 0 && size > 0 && !Covered(m, offset, size)
    ensures var n := YP.Use(m, offset, size);
      && (n.Some? <==> Price(m, offset, size) <= m.gas)
      && (n.Some? ==> |n.value.mem| == 32 * CeilWords(offset as int + size) > |m.mem|)
      && (n.Some? ==> n.value.gas == m.gas - Price(m, offset, size))
  {
  }

  /** No memory that a clamped request asks for costs as much as the penalty. */
  lemma PriceBelowPenalty(bytes: nat)
    requires bytes <= 2 * Jit.INPUT_MAX
    ensures CMem(bytes / 32) < GAS_MAX
  {
    CMemMonotone(bytes / 32, 0x2000_0000);
  }

  /** The greatest counter pays the penalty instead of the price. */
  lemma PenaltyInsteadOfPrice(m: Mach, offset: Word, size: Word)
    requires Sized(m) && !InRange(offset, size) && !Covered(m, offset, size) && m.gas == GAS_MAX
    requires |m.mem| < Jit.ClampedSize(offset, size)
    ensures Jit.Require(m, offset, size) != YP.Use(m, offset, size)
  {
    UseGrows(m, offset, size);
    ClampedNoLarger(offset, size);
    PriceBelowPenalty(Jit.ClampedSize(offset, size));
    assert Jit.Require(m, offset, size).value.gas == 0;
    assert |Jit.Require(m, offset, size).value.mem| == Jit.ClampedSize(offset, size);
  }

  lemma InRangeAgrees(m: Mach, offset: Word, size: Word)
    requires |m.mem| % 32 == 0 && InRange(offset, size)
    ensures Jit.Require(m, offset, size) == YP.Use(m, offset, size)
  {
    if size == 0 {
      assert YP.Use(m, offset, size) == Some(m.(gas := m.gas - 0));
    } else {
      ClampedExact(offset, size);
      var w, v := CeilWords(offset + size), |m.mem| / 32;
      assert |m.mem| == 32 * v && (w * 32) / 32 == w;
      assert w <= v <==> w * 32 <= |m.mem|;
    }
  }

  lemma CoveredAgrees(m: Mach, offset: Word, size: Word)
    requires |m.mem| % 32 == 0 && Covered(m, offset, size)
    ensures Jit.Require(m, offset, size) == Some(m) == YP.Use(m, offset, size)
  {
    ClampedNoLarger(offset, size);
    assert YP.ActiveWords(|m.mem| / 32, offset, size) == |m.mem| / 32;
    assert Some(m) == Some(m.(gas := m.gas - 0));
  }

  /** For every machine whatever its gas: mem.require does what the definition asks for
      exactly when ClampIsRight. */
  lemma RequireExact(m: Mach, offset: Word, size: Word)
    requires Sized(m)
    ensures Jit.Require(m, offset, size) == YP.Use(m, offset, size) <==> ClampIsRight(m, offset, size)
  {
    if InRange(offset, size) {
      InRangeAgrees(m, offset, size);
    } else if Covered(m, offset, size) {
      CoveredAgrees(m, offset, size);
    } else {
      UseGrows(m, offset, size);
      if |m.mem| < Jit.ClampedSize(offset, size) && m.gas == GAS_MAX {
        PenaltyInsteadOfPrice(m, offset, size);
      }
    }
  }

  /** Without ClampIsRight: with 2^33 bytes of memory, any larger size at offset 0 is granted
      for nothing although memory does not cover it. */
  lemma ClampGrantsTooMuch(m: Mach, size: Word)
    requires |m.mem| == Jit.INPUT_MAX && size > Jit.INPUT_MAX
    ensures Jit.Require(m, 0, size) == Some(m) && size > |m.mem|
    ensures YP.Use(m, 0, size) != Some(m)
  {
    ClampFacts(0);
    ClampFacts(size);
    UseGrows(m, 0, size);
  }

  // ---------------------------------------------------------------- what a request leaves

  /** What a met request guarantees: the range lies inside memory, so its offsets survive
      truncation to 64 bits; and the charge is exactly the price of the growth. */
  ghost predicate Met(m: Mach, n: Mach, offset: nat, size: nat) {
    && Sized(n) && m.mem <= n.mem && n.gas + Paid(n) == m.gas + Paid(m)
    && n.ret == m.ret && n.world == m.world && n.out == m.out
    && (size > 0 ==> offset + size <= |n.mem|)
  }

  datatype Request = Request(offset: Word, size: Word)

  /** The size a request asks for; none for an empty one. */
  function Wanted(r: Request): nat {
    if r.size == 0 then 0 else Jit.ClampedSize(r.offset, r.size)
  }

  /** What a granted request does. */
  lemma RequireGrows(m: Mach, r: Request)
    requires |m.mem| % 32 == 0 && (m.gas < GAS_MAX || InRange(r.offset, r.size))
    ensures var n := Jit.Require(m, r.offset, r.size); n.Some? ==>
      && |n.value.mem| == Max(|m.mem|, Wanted(r)) && |n.value.mem| % 32 == 0
      && n.value.mem == m.mem + Zeroes(|n.value.mem| - |m.mem|)
      && m.gas - n.value.gas == Paid(n.value) - Paid(m)
      && n.value == m.(gas := n.value.gas, mem := n.value.mem)
  {
    ClampedNoLarger(r.offset, r.size);
  }

  /** Clamping is sound: a request that is right, if granted, leaves memory covering it. */
  lemma RequireAgrees(m: Mach, offset: Word, size: Word)
    requires Sized(m) && ClampIsRight(m, offset, size)
    ensures Jit.Require(m, offset, size) == YP.Use(m, offset, size)
    ensures var n := Jit.Require(m, offset, size); n.Some? ==> Met(m, n.value, offset, size)
  {
    RequireExact(m, offset, size);
    ClampedNoLarger(offset, size);
    if InRange(offset, size) {
      RequireGrows(m, Request(offset, size));
      if size > 0 {
        ClampedExact(offset, size);
        CeilFacts(offset + size);
      }
    } else if Covered(m, offset, size) {
      CoveredAgrees(m, offset, size);
      CeilFacts(offset as int + size);
    }
  }

  // ---------------------------------------------------------------- runs of requests

  function RequireAll(m: Mach, rs: seq<Request>): Option<Mach>
    decreases |rs|
  {
    if rs == [] then Some(m)
    else
      var n :- Jit.Require(m, rs[0].offset, rs[0].size);
      RequireAll(n, rs[1..])
  }

  /** The largest of a starting size and all requests. */
  function Largest(size: nat, rs: seq<Request>): (n: nat)
    ensures n >= size
    decreases |rs|
  {
    if rs == [] then size else Largest(Max(size, Wanted(rs[0])), rs[1..])
  }

  /** Whatever requests were granted, in whatever order: the total charged is the price of the
      final size less the price of the initial one; the final size is the largest rounded
      request, and what was added is zero. */
  lemma {:induction false} GasTelescopes(m: Mach, rs: seq<Request>)
    requires |m.mem| % 32 == 0 && m.gas < GAS_MAX
    ensures var n := RequireAll(m, rs); n.Some? ==>
      && |n.value.mem| == Largest(|m.mem|, rs) && |n.value.mem| % 32 == 0
      && n.value.mem == m.mem + Zeroes(|n.value.mem| - |m.mem|)
      && m.gas - n.value.gas == Paid(n.value) - Paid(m)
      && n.value == m.(gas := n.value.gas, mem := n.value.mem)
    decreases |rs|
  {
    if rs != [] {
      var n := Jit.Require(m, rs[0].offset, rs[0].size);
      RequireGrows(m, rs[0]);
      if n.Some? {
        GasTelescopes(n.value, rs[1..]);
        var k := RequireAll(n.value, rs[1..]);
        if k.Some? {
          ZeroesJoin(|n.value.mem| - |m.mem|, |k.value.mem| - |n.value.mem|);
        }
      } else {
        assert RequireAll(m, rs).None?;
      }
    } else {
      assert m.mem == m.mem + Zeroes(0);
    }
  }

  lemma ZeroesJoin(a: nat, b: nat)
    ensures Zeroes(a) + Zeroes(b) == Zeroes(a + b)
  {
  }

  /** Requests in range are all granted exactly if the price of the largest can be paid: the
      order of the requests, and how they are split, makes no difference. */
  lemma {:induction false} OrderIsFree(m: Mach, rs: seq<Request>)
    requires |m.mem| % 32 == 0 && forall k :: 0 <= k < |rs| ==> InRange(rs[k].offset, rs[k].size)
    ensures RequireAll(m, rs).Some? <==>
      CMem(Largest(|m.mem|, rs) / 32) - CMem(|m.mem| / 32) <= m.gas
    decreases |rs|
  {
    if rs != [] {
      var n := Jit.Require(m, rs[0].offset, rs[0].size);
      var size := Max(|m.mem|, Wanted(rs[0]));
      RequireGrows(m, rs[0]);
      CMemMonotone(|m.mem| / 32, size / 32);
      CMemMonotone(size / 32, Largest(size, rs[1..]) / 32);
      if n.Some? {
        OrderIsFree(n.value, rs[1..]);
      } else {
        assert RequireAll(m, rs).None?;
      }
    }
  }
}
