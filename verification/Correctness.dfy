/** The main result: compiling a code and running it gives the outcome that the Yellow Paper
    defines, whatever the gas, as long as the memory requests of the run are right. */
module Correctness {
  import opened Words
  import opened Instructions
  import opened Machine
  import opened Hosts
  import opened BlockCutter
  import opened Program
  import opened ProgramCorrect
  import opened ArithRefinement
  import opened MemoryLaws
  import opened Refinement
  import opened CallRefinement
  import opened OpcodeRefinement
  import OpcodeMachine
  import Jit
  import YP = YellowPaper

  // ---------------------------------------------------------------- one instruction

  /** The emitted code of an instruction is right on these operands and this machine: its
      memory requests are, and the penalties that it may charge cannot be paid. */
  predicate Right(d: DynOp, a: seq<Word>, m: Mach) {
    |a| == DynPops(d) ==>
      match d
      case MLoad => ClampIsRight(m, a[0], 32)
      case MStore => ClampIsRight(m, a[0], 32)
      case MStore8 => ClampIsRight(m, a[0], 1)
      case Sha3 => ClampIsRight(m, a[0], a[1])
      case ReturnData => ClampIsRight(m, a[0], a[1])
      case Log(_) => m.gas < GAS_MAX && ClampIsRight(m, a[0], a[1])
      case CallDataCopy => ClampIsRight(m, a[0], a[2])
      case CodeCopy => ClampIsRight(m, a[0], a[2])
      case ExtCodeCopy => ClampIsRight(m, a[1], a[3])
      case ReturnDataCopy =>
        ClampIsRight(m, a[0], a[2]) && (m.gas < TWO63 - 3 || a[1] as int + a[2] <= |m.ret|)
      case Create => ClampIsRight(m, a[1], a[2])
      case CallOp(kind) =>
        m.gas < GAS_MAX &&
        if kind == PlainCall || kind == CallCode then BothRight(m, a[3], a[4], a[5], a[6])
        else BothRight(m, a[2], a[3], a[4], a[5])
      case _ => true
  }

  lemma CopiesAgree(h: Host, d: DynOp, a: seq<Word>, m: Mach)
    requires Sized(m) && Copies(d) && |a| == DynPops(d) && Right(d, a, m)
    ensures Agree(Jit.ActCopy(h, d, a, m), YP.ActCopy(h, d, a, m), m)
  {
    match d
    case CallDataCopy => CopyAgrees(m, h.callData, a[0], a[1], a[2]);
    case CodeCopy => CopyAgrees(m, h.code, a[0], a[1], a[2]);
    case ExtCodeCopy => CopyAgrees(m, h.codeOf(m.world, AddressOf(a[0])), a[1], a[2], a[3]);
    case ReturnDataCopy => CopyReturnedAgrees(m, a[0], a[1], a[2]);
  }

  lemma AccessesAgree(h: Host, d: DynOp, a: seq<Word>, m: Mach)
    requires Sized(m) && Accesses(d) && |a| == DynPops(d) && Right(d, a, m)
    ensures EffectsAgree(Jit.ActAccess(h, d, a, m), YP.ActAccess(h, d, a, m), m)
  {
    match d
    case Sha3 => HashAgrees(h, m, a[0], a[1]);
    case MLoad => LoadAgrees(m, a[0]);
    case MStore => StoreAgrees(m, a[0], ToBytes(a[1], 32));
    case MStore8 => StoreAgrees(m, a[0], [a[1] % 256]);
    case Log(_) => LogAgrees(h, m, a[0], a[1], a[2..]);
    case ReturnData => OutputAgrees(m, a[0], a[1]);
  }

  lemma CallsAgree(h: Host, cfg: Config, d: DynOp, a: seq<Word>, m: Mach)
    requires Sized(m) && Calls(d) && |a| == DynPops(d) && Right(d, a, m)
    ensures EffectsAgree(Jit.ActCall(h, cfg, d, a, m), YP.ActCall(h, cfg, d, a, m), m)
  {
    if d.Create? {
      CreateAgrees(h, cfg, m, a[0], a[1], a[2]);
    } else if d.kind == PlainCall || d.kind == CallCode {
      CallAgrees(h, cfg, d.kind, m, a[0], a[1], a[2], a[3], a[4], a[5], a[6]);
    } else {
      CallAgrees(h, cfg, d.kind, m, a[0], a[1], 0, a[2], a[3], a[4], a[5]);
    }
  }

  lemma PlainAgrees(h: Host, cfg: Config, d: DynOp, a: seq<Word>, m: Mach)
    requires Sized(m) && !Copies(d) && !Accesses(d) && !Calls(d) && |a| == DynPops(d)
    ensures EffectsAgree(Jit.ActPlain(h, cfg, d, a, m), YP.ActPlain(h, cfg, d, a, m), m)
  {
    if d.Exp? {
      ExpBytes(a[1]);
    } else if d.CallDataLoad? {
      LoadCallDataAgrees(h.callData, a[0]);
    } else if d.BlockHash? && a[0] <= GAS_MAX {
      TruncSmall(a[0]);
    }
  }

  /** Every instruction with a run-time effect, where it is right. */
  lemma ActAgrees(h: Host, cfg: Config, d: DynOp, a: seq<Word>, m: Mach)
    requires Sized(m) && Right(d, a, m)
    ensures EffectsAgree(Jit.Act(h, cfg, d, a, m), YP.Act(h, cfg, d, a, m), m)
  {
    if |a| == DynPops(d) {
      if Copies(d) {
        CopiesAgree(h, d, a, m);
      } else if Accesses(d) {
        AccessesAgree(h, d, a, m);
      } else if Calls(d) {
        CallsAgree(h, cfg, d, a, m);
      } else {
        PlainAgrees(h, cfg, d, a, m);
      }
    }
  }

  // ---------------------------------------------------------------- whole runs

  /** Two meanings of the instructions that agree wherever they are right. */
  ghost predicate SemsAgree(j: Sem, y: Sem) {
    && (forall p, args :: j.pure(p, args) == y.pure(p, args))
    && (forall d, args, m :: Sized(m) && Right(d, args, m) ==>
          EffectsAgree(j.act(d, args, m), y.act(d, args, m), m))
  }

  lemma SemanticsAgree(h: Host, cfg: Config, undef: Word)
    ensures SemsAgree(Jit.JitSem(h, cfg, undef), YP.PaperSem(h, cfg))
  {
    var j, y := Jit.JitSem(h, cfg, undef), YP.PaperSem(h, cfg);
    forall p, args ensures j.pure(p, args) == y.pure(p, args) {
      PureAgrees(undef, p, args);
    }
    forall d, args, m | Sized(m) && Right(d, args, m)
      ensures EffectsAgree(j.act(d, args, m), y.act(d, args, m), m) {
      ActAgrees(h, cfg, d, args, m);
    }
  }

  /** The operation with run-time effect that an instruction performs. */
  function EffectOf(i: Ins): Option<DynOp> {
    match i
    case Dyn(d) => Some(d)
    case Halt(e, _) => e
    case _ => None
  }

  /** An instruction that passes its checks is right. */
  predicate StepIsRight(i: Instr, s: IState) {
    StackOk(i.ins, |s.stack|) && s.m.gas >= i.cost && EffectOf(i.ins).Some? ==>
      var d := EffectOf(i.ins).value;
      DynPops(d) <= |s.stack| && Right(d, s.stack[..DynPops(d)], s.m.(gas := s.m.gas - i.cost))
  }

  /** Every instruction of a run is right. */
  ghost predicate RunIsRight(sem: Sem, cfg: Config, code: seq<Byte>, pc: nat, s: IState)
    requires GasOk(sem)
    decreases s.m.gas, |code| - pc
  {
    pc < |code| ==>
      var i := Decode(cfg, code, pc);
      && StepIsRight(i, s)
      && match Step(sem, i, s)
         case Some(Stepped(t, Fall)) => RunIsRight(sem, cfg, code, Next(code, pc), t)
         case Some(Stepped(t, Goto(w))) => ValidDest(code, w) ==> RunIsRight(sem, cfg, code, w, t)
         case _ => true
  }

  lemma PerformAgrees(j: Sem, y: Sem, i: Ins, s: IState)
    requires SemsAgree(j, y) && Sized(s.m) && StackOk(i, |s.stack|)
    requires EffectOf(i).Some? ==> Right(EffectOf(i).value, s.stack[..DynPops(EffectOf(i).value)], s.m)
    ensures Perform(j, i, s) == Perform(y, i, s)
    ensures var r := Perform(y, i, s); r.Some? ==> Kept(s.m, r.value.s.m)
  {
    if EffectOf(i).Some? {
      var d := EffectOf(i).value;
      var args := s.stack[..DynPops(d)];
      assert EffectsAgree(j.act(d, args, s.m), y.act(d, args, s.m), s.m);
    }
  }

  lemma StepAgrees(j: Sem, y: Sem, i: Instr, s: IState)
    requires SemsAgree(j, y) && Sized(s.m) && StepIsRight(i, s)
    ensures Step(j, i, s) == Step(y, i, s)
    ensures var r := Step(y, i, s); r.Some? ==> Kept(s.m, r.value.s.m)
  {
    if StackOk(i.ins, |s.stack|) && s.m.gas >= i.cost {
      PerformAgrees(j, y, i.ins, IState(s.m.(gas := s.m.gas - i.cost), s.stack));
    }
  }

  /** Then the interpreter gives the same outcome with either on every right run. */
  lemma {:induction false} RunsAgree(j: Sem, y: Sem, cfg: Config, code: seq<Byte>, pc: nat, s: IState)
    requires SemsAgree(j, y) && Sized(s.m) && GasOk(j) && GasOk(y) && RunIsRight(y, cfg, code, pc, s)
    ensures Run(j, cfg, code, pc, s) == Run(y, cfg, code, pc, s)
    decreases s.m.gas, |code| - pc
  {
    if pc < |code| {
      var i := Decode(cfg, code, pc);
      StepAgrees(j, y, i, s);
      var r := Step(y, i, s);
      if r.Some? && r.value.ctl.Fall? {
        RunsAgree(j, y, cfg, code, Next(code, pc), r.value.s);
      } else if r.Some? && r.value.ctl.Goto? && ValidDest(code, r.value.ctl.dest) {
        RunsAgree(j, y, cfg, code, r.value.ctl.dest, r.value.s);
      }
    }
  }

  /** The machine that a message call starts with. */
  function Fresh(gas: Gas, world: World): Mach {
    Mach(gas, [], [], world, [])
  }

  /** The run that the Yellow Paper defines is right from the start. */
  ghost predicate StartsRight(h: Host, cfg: Config, code: seq<Byte>, gas: Gas, world: World) {
    GasOk(YP.PaperSem(h, cfg)) && RunIsRight(YP.PaperSem(h, cfg), cfg, code, 0, IState(Fresh(gas, world), []))
  }

  /** Running a compiled program has the outcome that the instruction set of the Yellow Paper,
      opcode by opcode, gives the code. */
  ghost predicate RunsAsDefined(h: Host, cfg: Config, undef: Word, code: seq<Byte>, p: Prog,
                                gas: Gas, world: World, slots: seq<Word>)
  {
    var sem := Jit.JitSem(h, cfg, undef);
    && GasOk(sem) && AllEnd(p)
    && RunCompiled(sem, p, Fresh(gas, world), slots) == OpcodeMachine.RunOf(h, cfg, code, gas, world)
  }

  /** The compiled program and the interpreter on the emitted code of the instructions. */
  lemma CompiledRunsAsInterpreted(h: Host, cfg: Config, undef: Word, code: seq<Byte>, cuts: seq<Block>,
                                  gas: Gas, world: World, slots: seq<Word>)
    requires WellCut(code, cuts) && |slots| == STACK_LIMIT
    ensures forall k :: 0 <= k < |cuts| ==> cuts[k].end <= |code|
    ensures var sem := Jit.JitSem(h, cfg, undef);
      var p := ProgramOf(sem.pure, cfg, code, cuts);
      && GasOk(sem) && AllEnd(p)
      && RunCompiled(sem, p, Fresh(gas, world), slots) == Run(sem, cfg, code, 0, IState(Fresh(gas, world), []))
  {
    Jit.JitIsSane(h, cfg, undef);
    CompiledRunsLikeInterpreter(Jit.JitSem(h, cfg, undef), cfg, code, cuts, Fresh(gas, world), slots);
  }

  /** For every host, revision, code and gas, content of uninitialised stack memory, and value
      of the undefined remainder by zero: if the defined run is right, the compiled program
      has its outcome. */
  lemma CompiledRunsAsDefined(h: Host, cfg: Config, undef: Word, code: seq<Byte>, cuts: seq<Block>,
                              gas: Gas, world: World, slots: seq<Word>)
    requires WellCut(code, cuts) && |slots| == STACK_LIMIT && StartsRight(h, cfg, code, gas, world)
    ensures forall k :: 0 <= k < |cuts| ==> cuts[k].end <= |code|
    ensures RunsAsDefined(h, cfg, undef, code, ProgramOf(Jit.JitSem(h, cfg, undef).pure, cfg, code, cuts),
                          gas, world, slots)
  {
    CompiledRunsAsInterpreted(h, cfg, undef, code, cuts, gas, world, slots);
    SemanticsAgree(h, cfg, undef);
    RunsAgree(Jit.JitSem(h, cfg, undef), YP.PaperSem(h, cfg), cfg, code, 0, IState(Fresh(gas, world), []));
    SameRun(h, cfg, code, 0, IState(Fresh(gas, world), []));
  }
}
