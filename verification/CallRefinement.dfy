/** CALL and CREATE: the step-by-step charges of the emitted code are the one-shot price of
    the Yellow Paper, and the failure flag in the top bit of the returned gas loses nothing. */
module CallRefinement {
  import opened Words
  import opened Instructions
  import opened Machine
  import opened Hosts
  import opened MemoryPrice
  import opened MemoryLaws
  import opened Refinement
  import Jit
  import YP = YellowPaper

  // ---------------------------------------------------------------- the encoded result

  /** The top bit decodes to the outcome, and the rest to the gas, on success and failure. */
  lemma GasRoundTrip(success: bool, gas: nat)
    requires gas < TWO63
    ensures Jit.DecodeGas(Jit.EncodeGas(success, gas)) == gas
    ensures Jit.EncodeGas(success, gas) >= 0 <==> success
  {
  }

  /** The wrapper's result stands for the end of the message. */
  predicate Encodes(w: Jit.Wrapped, e: YP.Ended, world: World) {
    && Jit.DecodeGas(w.r) == e.left
    && (w.r >= 0 <==> e.success)
    && (match w.callee
        case Some(c) => c.output == e.output && c.created == e.created && c.world == e.world
        case None => e.output == [] && e.world == world && !e.success)
  }

  lemma WrapperAgrees(h: Host, world: World, msg: Msg)
    requires msg.gas < TWO63
    ensures Encodes(Jit.CallWrapper(h, world, msg), YP.Execute(h, world, msg), world)
  {
    GasRoundTrip(false, msg.gas);
    if YP.Callable(h, world, msg) {
      var c := h.call(world, msg);
      GasRoundTrip(c.success, GasReturned(msg, c));
    }
  }

  /** What the wrapper gives back: the gas that an executed callee did not use, and otherwise
      all of it. */
  lemma WrapperReturns(h: Host, world: World, msg: Msg)
    requires msg.gas < TWO63
    ensures var w, c := Jit.CallWrapper(h, world, msg), h.call(world, msg);
      if YP.Callable(h, world, msg)
      then w.callee == Some(c) && Jit.DecodeGas(w.r) == (if c.gasUsed <= msg.gas then msg.gas - c.gasUsed else 0)
      else w.callee == None && Jit.DecodeGas(w.r) == msg.gas
  {
    WrapperAgrees(h, world, msg);
  }

  // ---------------------------------------------------------------- CREATE

  lemma DeployAgrees(h: Host, cfg: Config, m: Mach, value: Word, offset: Word, size: Word)
    requires Inside(m.mem, offset, size)
    ensures Jit.Deploy(h, cfg, m, value, offset, size) == YP.Deploy(h, cfg, m, value, offset, size)
  {
    SliceAgrees(m.mem, offset, size);
    var given := if cfg.rev >= TANGERINE_WHISTLE then YP.AllBut64th(m.gas) else m.gas;
    WrapperAgrees(h, m.world, Msg(CreateKind, given, 0, value, Clip(m.mem, offset, size)));
  }

  lemma CreateAgrees(h: Host, cfg: Config, m: Mach, value: Word, offset: Word, size: Word)
    requires Sized(m) && ClampIsRight(m, offset, size)
    ensures EffectsAgree(Jit.CreateOp(h, cfg, m, value, offset, size),
                         YP.CreateContract(h, cfg, m, value, offset, size), m)
  {
    RequireAgrees(m, offset, size);
    var r := Jit.Require(m, offset, size);
    if r.Some? {
      DeployAgrees(h, cfg, r.value, value, offset, size);
    }
  }

  // ---------------------------------------------------------------- CALL

  /** Growing memory twice costs and does the same as growing it once. */
  lemma ExpandTwice(m: Mach, v: nat, w: nat)
    requires |m.mem| % 32 == 0 && |m.mem| / 32 <= v <= w
    ensures YP.Expand(m, w) ==
      var n := YP.Expand(m, v);
      if n.None? then None else YP.Expand(n.value, w)
  {
    CMemMonotone(|m.mem| / 32, v);
    CMemMonotone(v, w);
    var n := YP.Expand(m, v);
    if n.Some? {
      assert |n.value.mem| == 32 * v;
      assert YP.GrowTo(n.value.mem, w) == YP.GrowTo(m.mem, w);
    }
  }

  /** The requests of a call are right: that for the output, and after it that for the input. */
  predicate BothRight(m: Mach, inOff: Word, inSize: Word, outOff: Word, outSize: Word) {
    && ClampIsRight(m, outOff, outSize)
    && var n := Jit.Require(m, outOff, outSize); n.Some? ==> ClampIsRight(n.value, inOff, inSize)
  }

  /** The memory of a call: output and input range. */
  lemma BothRangesAgree(m: Mach, inOff: Word, inSize: Word, outOff: Word, outSize: Word)
    returns (n: Option<Mach>)
    requires Sized(m) && BothRight(m, inOff, inSize, outOff, outSize)
    ensures n == YP.Expand(m, YP.ActiveWords(YP.ActiveWords(|m.mem| / 32, inOff, inSize), outOff, outSize))
    ensures var m1 := Jit.Require(m, outOff, outSize);
      n == if m1.None? then None else Jit.Require(m1.value, inOff, inSize)
    ensures n.Some? ==>
      && Kept(m, n.value) && Inside(n.value.mem, inOff, inSize) && Inside(n.value.mem, outOff, outSize)
  {
    RequireAgrees(m, outOff, outSize);
    var w := |m.mem| / 32;
    var v := YP.ActiveWords(w, outOff, outSize);
    var both := YP.ActiveWords(YP.ActiveWords(w, inOff, inSize), outOff, outSize);
    assert both == YP.ActiveWords(v, inOff, inSize);
    ExpandTwice(m, v, both);
    var m1 := Jit.Require(m, outOff, outSize);
    if m1.None? {
      n := None;
    } else {
      RequireAgrees(m1.value, inOff, inSize);
      n := Jit.Require(m1.value, inOff, inSize);
      assert |m1.value.mem| / 32 == v;
    }
  }

  lemma PriceAgrees(h: Host, cfg: Config, kind: CallKind, m: Mach, to: Word, value: Word)
    requires m.gas < GAS_MAX
    ensures Jit.CallPrice(h, cfg, kind, m, to, value) ==
      if kind == PlainCall && cfg.staticCall && value != 0 then None
      else YP.Pay(m, YP.ExtraGas(h, cfg, kind, m.world, to, value))
  {
  }

  lemma ReceiveAgrees(m: Mach, w: Jit.Wrapped, e: YP.Ended, outOff: Word, outSize: Word)
    requires Encodes(w, e, m.world) && Inside(m.mem, outOff, outSize) && m.gas + e.left <= GAS_MAX
    ensures Jit.Receive(m, w, outOff, outSize) == YP.Receive(m, e, outOff, outSize)
  {
    SliceAgrees(m.mem, outOff, outSize);
    SpliceAgrees(m.mem, outOff, e.output[..Min(outSize, |e.output|)]);
  }

  lemma MessageAgrees(h: Host, m: Mach, msg: Msg, outOff: Word, outSize: Word)
    requires m.gas + msg.gas <= GAS_MAX && Inside(m.mem, outOff, outSize)
    ensures Jit.Transmit(h, m, msg, outOff, outSize) == YP.Transmit(h, m, msg, outOff, outSize)
  {
    WrapperAgrees(h, m.world, msg);
    ReceiveAgrees(m, Jit.CallWrapper(h, m.world, msg), YP.Execute(h, m.world, msg), outOff, outSize);
  }

  /** The message of a call, and the gas it takes along. */
  function MessageOf(m: Mach, kind: CallKind, callGas: nat, to: Word, value: Word, inOff: Word, inSize: Word): Msg {
    Msg(kind, callGas + YP.Stipend(value), AddressOf(to), value, Clip(m.mem, inOff, inSize))
  }

  lemma JitSends(h: Host, cfg: Config, kind: CallKind, m: Mach, wanted: Word, to: Word, value: Word,
                 inOff: Word, inSize: Word, outOff: Word, outSize: Word)
    requires m.gas < GAS_MAX && m.gas + YP.Stipend(value) <= GAS_MAX && Inside(m.mem, inOff, inSize)
    ensures var callGas := Jit.CapCallGas(cfg, m.gas, wanted);
      Jit.Send(h, cfg, kind, m, wanted, to, value, inOff, inSize, outOff, outSize) ==
      if callGas > m.gas then None
      else Some(Jit.Transmit(h, m.(gas := m.gas - callGas),
                             MessageOf(m, kind, callGas, to, value, inOff, inSize), outOff, outSize))
  {
    var callGas := Jit.CapCallGas(cfg, m.gas, wanted);
    ChargeWordIsPay(m, callGas);
    var n := Jit.ChargeWord(m, callGas);
    if n.Some? {
      TruncSmall(callGas);
      SliceAgrees(m.mem, inOff, inSize);
      assert n.value == m.(gas := m.gas - callGas);
      assert Jit.InputOf(n.value, inOff, inSize) == Clip(m.mem, inOff, inSize);
    } else {
      assert callGas > m.gas;
    }
  }

  lemma PaperSends(h: Host, cfg: Config, kind: CallKind, m: Mach, wanted: Word, to: Word, value: Word,
                   inOff: Word, inSize: Word, outOff: Word, outSize: Word)
    requires m.gas + YP.Stipend(value) <= GAS_MAX
    ensures var callGas := Jit.CapCallGas(cfg, m.gas, wanted);
      YP.Send(h, cfg, kind, m, wanted, to, value, inOff, inSize, outOff, outSize) ==
      if callGas > m.gas then None
      else Some(YP.Transmit(h, m.(gas := m.gas - callGas),
                            MessageOf(m, kind, callGas, to, value, inOff, inSize), outOff, outSize))
  {
    CapIsMinimum(cfg, m.gas, wanted);
  }

  lemma CapIsMinimum(cfg: Config, gas: Gas, wanted: Word)
    ensures Jit.CapCallGas(cfg, gas, wanted)
      == if cfg.rev >= TANGERINE_WHISTLE then Min(wanted, YP.AllBut64th(gas)) else wanted
  {
  }

  lemma SendAgrees(h: Host, cfg: Config, kind: CallKind, m: Mach, wanted: Word, to: Word, value: Word,
                   inOff: Word, inSize: Word, outOff: Word, outSize: Word)
    requires m.gas < GAS_MAX && m.gas + YP.Stipend(value) <= GAS_MAX
    requires Inside(m.mem, inOff, inSize) && Inside(m.mem, outOff, outSize)
    ensures Jit.Send(h, cfg, kind, m, wanted, to, value, inOff, inSize, outOff, outSize) ==
            YP.Send(h, cfg, kind, m, wanted, to, value, inOff, inSize, outOff, outSize)
  {
    JitSends(h, cfg, kind, m, wanted, to, value, inOff, inSize, outOff, outSize);
    PaperSends(h, cfg, kind, m, wanted, to, value, inOff, inSize, outOff, outSize);
    var callGas := Jit.CapCallGas(cfg, m.gas, wanted);
    if callGas <= m.gas {
      MessageAgrees(h, m.(gas := m.gas - callGas), MessageOf(m, kind, callGas, to, value, inOff, inSize),
                    outOff, outSize);
    }
  }

  lemma CallKeeps(h: Host, cfg: Config, kind: CallKind, n: Mach, wanted: Word, to: Word, value: Word,
                  inOff: Word, inSize: Word, outOff: Word, outSize: Word)
    requires Sized(n)
    ensures var k := Jit.CallPrice(h, cfg, kind, n, to, value);
      k.Some? ==>
        && k.value.gas + Jit.Stipend(value) <= n.gas
        && var r := Jit.Send(h, cfg, kind, k.value, wanted, to, value, inOff, inSize, outOff, outSize);
           r.Some? ==> Kept(n, r.value.m)
  {
  }

  /** A call's charges one by one are the one-shot price, and both leave the same machine. */
  lemma CallAgrees(h: Host, cfg: Config, kind: CallKind, m: Mach, wanted: Word, to: Word, value: Word,
                   inOff: Word, inSize: Word, outOff: Word, outSize: Word)
    requires m.gas < GAS_MAX && Sized(m) && BothRight(m, inOff, inSize, outOff, outSize)
    ensures EffectsAgree(Jit.CallInstr(h, cfg, kind, m, wanted, to, value, inOff, inSize, outOff, outSize),
                         YP.CallContract(h, cfg, kind, m, wanted, to, value, inOff, inSize, outOff, outSize), m)
  {
    var n := BothRangesAgree(m, inOff, inSize, outOff, outSize);
    if n.Some? {
      PriceAgrees(h, cfg, kind, n.value, to, value);
      CallKeeps(h, cfg, kind, n.value, wanted, to, value, inOff, inSize, outOff, outSize);
      var k := Jit.CallPrice(h, cfg, kind, n.value, to, value);
      if k.Some? {
        SendAgrees(h, cfg, kind, k.value, wanted, to, value, inOff, inSize, outOff, outSize);
      }
    }
  }

  // ---------------------------------------------------------------- EIP-150

  /** From Tangerine Whistle on a call never fails for asking too much, and whatever the
      callee does, a 64th of the gas at hand stays; without a failed price the caller
      never ends with more than it had, the stipend included. */
  lemma CallWithholds(h: Host, cfg: Config, kind: CallKind, m: Mach, wanted: Word, to: Word, value: Word,
                      inOff: Word, inSize: Word, outOff: Word, outSize: Word)
    requires cfg.rev >= TANGERINE_WHISTLE && m.gas < GAS_MAX && m.gas + Jit.Stipend(value) <= GAS_MAX
    ensures var r := Jit.Send(h, cfg, kind, m, wanted, to, value, inOff, inSize, outOff, outSize);
      r.Some? && m.gas / 64 <= r.value.m.gas <= m.gas + Jit.Stipend(value)
  {
    ChargeWordIsPay(m, Jit.CapCallGas(cfg, m.gas, wanted));
    TruncSmall(Jit.CapCallGas(cfg, m.gas, wanted));
  }

  lemma CreateWithholds(h: Host, cfg: Config, m: Mach, value: Word, offset: Word, size: Word)
    requires cfg.rev >= TANGERINE_WHISTLE
    ensures m.gas / 64 <= Jit.Deploy(h, cfg, m, value, offset, size).m.gas <= m.gas
  {
  }
}
