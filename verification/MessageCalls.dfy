/** What a call and a creation leave behind, spelled out in terms of the host's answer. */
module MessageCalls {
  import opened Words
  import opened Instructions
  import opened Machine
  import opened Hosts
  import YP = YellowPaper

  /** The input of a message: the range of memory it names, which an empty one need not lie in. */
  function InputAt(mem: seq<Byte>, offset: nat, size: nat): seq<Byte>
    requires size > 0 ==> offset + size <= |mem|
  {
    if size == 0 then [] else mem[offset..offset + size]
  }

  lemma InputIs(mem: seq<Byte>, offset: nat, size: nat)
    requires size > 0 ==> offset + size <= |mem| < TWO63
    ensures Clip(mem, offset, size) == InputAt(mem, offset, size)
  {
  }

  /** A message is executed if depth and the caller's balance allow it. */
  predicate Executed(h: Host, world: World, kind: CallKind, value: Word) {
    && h.depth < 1024
    && (kind == DelegateCall || value == 0 || value <= h.balance(world, h.env(Address) % TWO160))
  }

  /** The gas a call passes on, without stipend: from EIP-150 on a 64th is withheld. */
  function PassedOn(cfg: Config, gas: nat, wanted: Word): nat {
    if cfg.rev >= TANGERINE_WHISTLE && wanted > gas - gas / 64 then gas - gas / 64 else wanted
  }

  /** n is m after a call that passed on given gas, of which used was used. */
  predicate GasAfter(m: Mach, n: Mach, given: nat, stipend: nat, used: nat) {
    if used <= given + stipend then n.gas == m.gas - used + stipend else n.gas == m.gas - given
  }

  /** The output, as far as there is room for it, is in memory, and nothing else has changed. */
  ghost predicate Received(mem: seq<Byte>, now: seq<Byte>, output: Bytes, outOff: nat, outSize: nat) {
    |now| == |mem| && forall k :: 0 <= k < |mem| ==>
      now[k] == if outOff <= k < outOff + outSize && k - outOff < |output| then output[k - outOff] else mem[k]
  }

  /** A call, once memory and price are settled: it fails only if it asks for more gas than there
      is. If the host executes it, it pushes 1 on success and 0 otherwise, costs the gas used
      less the stipend, and leaves the host's output; if not, it pushes 0 and costs nothing. */
  lemma CallLeaves(h: Host, cfg: Config, kind: CallKind, m: Mach, wanted: Word, to: Word, value: Word,
                   inOff: Word, inSize: Word, outOff: Word, outSize: Word)
    requires m.gas + (if value == 0 then 0 else 2300) <= GAS_MAX
    requires inSize > 0 ==> inOff as int + inSize <= |m.mem| < TWO63
    ensures var given := PassedOn(cfg, m.gas, wanted);
      var stipend := if value == 0 then 0 else 2300;
      var msg := Msg(kind, given + stipend, to % TWO160, value, InputAt(m.mem, inOff, inSize));
      match YP.Send(h, cfg, kind, m, wanted, to, value, inOff, inSize, outOff, outSize)
      case None => given > m.gas
      case Some(Effect(n, results)) =>
        && given <= m.gas && n.out == m.out
        && if Executed(h, m.world, kind, value) then
             var c := h.call(m.world, msg);
             && results == [if c.success then 1 else 0]
             && GasAfter(m, n, given, stipend, c.gasUsed)
             && n.ret == c.output && n.world == c.world && Received(m.mem, n.mem, c.output, outOff, outSize)
           else
             results == [0] && n.gas == m.gas + stipend && n.ret == [] && n.world == m.world && n.mem == m.mem
  {
    InputIs(m.mem, inOff, inSize);
  }

  /** A creation: the address on success and 0 otherwise; the gas used is gone, and where
      nothing was executed none is. */
  lemma CreateLeaves(h: Host, cfg: Config, m: Mach, value: Word, offset: Word, size: Word)
    requires size > 0 ==> offset as int + size <= |m.mem| < TWO63
    ensures var all := if cfg.rev >= TANGERINE_WHISTLE then m.gas - m.gas / 64 else m.gas;
      var msg := Msg(CreateKind, all, 0, value, InputAt(m.mem, offset, size));
      var Effect(n, results) := YP.Deploy(h, cfg, m, value, offset, size);
      && n.out == m.out && n.mem == m.mem
      && if Executed(h, m.world, CreateKind, value) then
           var c := h.call(m.world, msg);
           && results == [if c.success then c.created % TWO160 else 0]
           && GasAfter(m, n, all, 0, c.gasUsed) && n.ret == c.output && n.world == c.world
         else results == [0] && n.gas == m.gas && n.ret == [] && n.world == m.world
  {
    InputIs(m.mem, offset, size);
  }
}
