/** What the compiler makes of the instructions of one basic block. */
module BlockCompiler {
  import opened Words
  import opened Instructions
  import opened Ir
  import opened LocalStacks

  // ---------------------------------------------------------------- gas metering

  /** The current cost block: the static cost counted so far, and where its check was emitted. */
  datatype Meter = Meter(blockCost: nat, check: Option<nat>)

  datatype Metered = Metered(g: Meter, e: Emitted)

  ghost predicate MeterOk(g: Meter, e: Emitted) {
    match g.check
    case None => g.blockCost == 0
    case Some(k) => k < |e.ops| && e.ops[k].Check?
  }

  /** Count an instruction; the first of a cost block emits the check, its cost still unknown. */
  function Count(g: Meter, e: Emitted, cost: nat): Metered {
    if g.check.None?
    then Metered(Meter(g.blockCost + cost, Some(|e.ops|)), Emitted(e.ops + [Check(0)], e.nregs))
    else Metered(g.(blockCost := g.blockCost + cost), e)
  }

  /** End the cost block: fill in the cost of its check, or erase a check of nothing. */
  function Commit(g: Meter, e: Emitted): Metered
    requires MeterOk(g, e)
  {
    match g.check
    case None => Metered(g, e)
    case Some(k) =>
      var ops := if g.blockCost == 0 then e.ops[..k] + e.ops[k + 1..]
                 else e.ops[k := Check(g.blockCost)];
      Metered(Meter(0, None), Emitted(ops, e.nregs))
  }

  // ---------------------------------------------------------------- one instruction

  /** A successor of a block: not known yet, the jump table, a code block, or one of the
      special blocks. */
  datatype Succ = Unset | JumpTable | CodeBlock(i: nat) | StopBlock | AbortBlock

  /** A terminator. A branch made for a jump instruction remembers the destination operand. */
  datatype Term =
    | Ret(rc: ReturnCode)
    | Br(succ: Succ, dest: Option<Val>)
    | CondBr(cond: Val, succ: Succ, other: Succ, dest: Option<Val>)

  /** The state of the compiler inside a block. */
  datatype CState = CState(ls: Locals, e: Emitted, g: Meter, term: Option<Term>)

  const START: CState := CState(EMPTY, Emitted([], 0), Meter(0, None), None)

  type Folder = (PureOp, seq<Word>) -> Word

  predicate AllConst(vs: seq<Val>) {
    forall k :: 0 <= k < |vs| ==> vs[k].Const?
  }

  /** An operation on operands; the builder folds operations on constants. */
  function EmitPure(fold: Folder, e: Emitted, p: PureOp, args: seq<Val>): (r: (Emitted, Val)) {
    if AllConst(args) then (e, Const(fold(p, Values(args, []))))
    else (Emitted(e.ops + [Eval(p, args)], e.nregs + 1), Reg(e.nregs))
  }

  /** An operation on constants emits nothing and gives a constant, so that a computed
      destination can still be a direct edge. */
  lemma ConstantsFold(fold: Folder, e: Emitted, p: PureOp, args: seq<Val>, ws: seq<Word>)
    requires |args| == |ws| && forall k :: 0 <= k < |ws| ==> args[k] == Const(ws[k])
    ensures EmitPure(fold, e, p, args) == (e, Const(fold(p, ws)))
  {
    assert Values(args, []) == ws;
  }

  function EmitDo(e: Emitted, d: DynOp, args: seq<Val>): Emitted {
    Emitted(e.ops + [Do(d, args)], e.nregs + DynPushes(d))
  }

  lemma {:induction false} PopsKeepMeter(ls: Locals, e: Emitted, n: nat, g: Meter)
    requires MeterOk(g, e)
    ensures MeterOk(g, PopVals(ls, e, n).e)
    decreases n
  {
    if n > 0 {
      var h := PopVal(ls, e);
      PopsKeepMeter(h.ls, h.e, n - 1, g);
    }
  }

  /** What holds between instructions. */
  ghost predicate CsOk(cs: CState) {
    MeterOk(cs.g, cs.e) && Wf(cs.ls, cs.e.nregs)
  }

  /** The extreme sizes recorded by the compiler are exactly those that checking the
      instruction on its own would need, although items are fetched only once. */
  ghost predicate BoundsExact(l: Locals, t: Locals, i: Ins) {
    && t.Size() == l.Size() - Pops(i) + Pushes(i)
    && t.min == Min(l.min, l.Size() - Needs(i))
    && t.max == Max(l.max, l.Size() - Pops(i) + Pushes(i))
  }

  ghost predicate Translated(cs: CState, t: CState, i: Ins) {
    CsOk(t) && BoundsExact(cs.ls, t.ls, i)
  }

  /** The result of an instruction is pushed after its operands were popped. */
  function PushResult(cs: CState, g: GotN, e: Emitted, m: Meter, v: Val, i: Ins): (t: CState)
    requires Wf(g.ls, g.e.nregs) && g.e.nregs <= e.nregs && Defined(v, e.nregs) && MeterOk(m, e)
    requires Pops(i) == Needs(i) && Pushes(i) == 1
    requires g.ls.Size() == cs.ls.Size() - Pops(i) && g.ls.max == cs.ls.max
    requires g.ls.min == Min(cs.ls.min, cs.ls.Size() - Pops(i))
    ensures Translated(cs, t, i)
  {
    WfMore(g.ls, g.e.nregs, e.nregs);
    PushBounds(g.ls, v, e.nregs);
    CState(PushVal(g.ls, v), e, m, cs.term)
  }

  function CommitIf(commit: bool, g: Meter, e: Emitted): (m: Metered)
    requires MeterOk(g, e)
    ensures MeterOk(m.g, m.e) && m.e.nregs == e.nregs
  {
    if commit then Commit(g, e) else Metered(g, e)
  }

  function TranslateDup(cs: CState, n: nat): (t: CState)
    requires CsOk(cs)
    ensures Translated(cs, t, Dup(n))
  {
    DupBounds(cs.ls, cs.e, n);
    var g := DupVal(cs.ls, cs.e, n);
    cs.(ls := g.ls, e := g.e)
  }

  function TranslateSwap(cs: CState, n: nat): (t: CState)
    requires CsOk(cs) && n > 0
    ensures Translated(cs, t, Swap(n))
  {
    SwapBounds(cs.ls, cs.e, n);
    var g := SwapVal(cs.ls, cs.e, n);
    cs.(ls := g.ls, e := g.e)
  }

  function TranslatePure(fold: Folder, cs: CState, p: PureOp): (t: CState)
    requires CsOk(cs)
    ensures Translated(cs, t, Pure(p))
  {
    PopsKeepMeter(cs.ls, cs.e, Arity(p), cs.g);
    PopsBounds(cs.ls, cs.e, Arity(p));
    var g := PopVals(cs.ls, cs.e, Arity(p));
    var (e, v) := EmitPure(fold, g.e, p, g.vs);
    PushResult(cs, g, e, cs.g, v, Pure(p))
  }

  function FinishDyn(cs: CState, g: GotN, m: Metered, d: DynOp): (t: CState)
    requires Wf(g.ls, g.e.nregs) && m.e.nregs == g.e.nregs && MeterOk(m.g, m.e)
    requires g.ls.Size() == cs.ls.Size() - DynPops(d) && g.ls.max == cs.ls.max
    requires g.ls.min == Min(cs.ls.min, cs.ls.Size() - DynPops(d)) && CsOk(cs)
    ensures Translated(cs, t, Dyn(d))
  {
    var e := EmitDo(m.e, d, g.vs);
    if DynPushes(d) == 0 then CState(g.ls, e, m.g, cs.term)
    else PushResult(cs, g, e, m.g, Reg(m.e.nregs), Dyn(d))
  }

  function TranslateDyn(cs: CState, d: DynOp): (t: CState)
    requires CsOk(cs)
    ensures Translated(cs, t, Dyn(d))
  {
    PopsKeepMeter(cs.ls, cs.e, DynPops(d), cs.g);
    PopsBounds(cs.ls, cs.e, DynPops(d));
    var g := PopVals(cs.ls, cs.e, DynPops(d));
    FinishDyn(cs, g, CommitIf(Commits(d), cs.g, g.e), d)
  }

  function TranslateJump(cs: CState): (t: CState)
    requires CsOk(cs)
    ensures Translated(cs, t, Jump)
  {
    PopsKeepMeter(cs.ls, cs.e, 1, cs.g);
    PopsBounds(cs.ls, cs.e, 1);
    var g := PopVals(cs.ls, cs.e, 1);
    CState(g.ls, g.e, cs.g, Some(Br(JumpTable, Some(g.vs[0]))))
  }

  function TranslateJumpI(cs: CState): (t: CState)
    requires CsOk(cs)
    ensures Translated(cs, t, JumpI)
  {
    PopsKeepMeter(cs.ls, cs.e, 2, cs.g);
    PopsBounds(cs.ls, cs.e, 2);
    var g := PopVals(cs.ls, cs.e, 2);
    CState(g.ls, g.e, cs.g, Some(CondBr(g.vs[1], JumpTable, Unset, Some(g.vs[0]))))
  }

  function TranslateHalt(cs: CState, d: DynOp, rc: ReturnCode): (t: CState)
    requires CsOk(cs) && GoodIns(Halt(Some(d), rc))
    ensures Translated(cs, t, Halt(Some(d), rc))
  {
    PopsKeepMeter(cs.ls, cs.e, DynPops(d), cs.g);
    PopsBounds(cs.ls, cs.e, DynPops(d));
    var g := PopVals(cs.ls, cs.e, DynPops(d));
    CState(g.ls, EmitDo(g.e, d, g.vs), cs.g, Some(Ret(rc)))
  }

  function TranslatePop(cs: CState): (t: CState)
    requires CsOk(cs)
    ensures Translated(cs, t, Pop)
  {
    PopBounds(cs.ls, cs.e);
    var g := PopVal(cs.ls, cs.e);
    cs.(ls := g.ls, e := g.e)
  }

  function TranslatePush(cs: CState, w: Word): (t: CState)
    requires CsOk(cs)
    ensures Translated(cs, t, Push(w))
  {
    PushBounds(cs.ls, Const(w), cs.e.nregs);
    cs.(ls := PushVal(cs.ls, Const(w)))
  }

  /** The body of the instruction switch. */
  function Translate(fold: Folder, cs: CState, i: Ins): (t: CState)
    requires CsOk(cs) && GoodIns(i)
    ensures Translated(cs, t, i)
  {
    match i
    case Push(w) => TranslatePush(cs, w)
    case Dup(n) => TranslateDup(cs, n)
    case Swap(n) => TranslateSwap(cs, n)
    case Pop => TranslatePop(cs)
    case JumpDest => cs
    case Pure(p) => TranslatePure(fold, cs, p)
    case Dyn(d) => TranslateDyn(cs, d)
    case Jump => TranslateJump(cs)
    case JumpI => TranslateJumpI(cs)
    case Halt(None, rc) => cs.(term := Some(Ret(rc)))
    case Halt(Some(d), rc) => TranslateHalt(cs, d, rc)
    case Invalid => cs.(term := Some(Ret(OutOfGas)))
  }

  /** Instructions that do not commit leave the cost block alone and only add operations. */
  lemma ExtendsAll(fold: Folder, cs: CState, i: Ins)
    requires CsOk(cs) && GoodIns(i) && !(i.Dyn? && Commits(i.d))
    ensures var t := Translate(fold, cs, i); t.g == cs.g && Extends(cs.e, t.e)
  {
    PopsBounds(cs.ls, cs.e, Pops(i));
    if i.Dup? { DupBounds(cs.ls, cs.e, i.n); }
    if i.Swap? { SwapBounds(cs.ls, cs.e, i.n); }
    if i.Pop? { PopBounds(cs.ls, cs.e); }
  }

  function CompileIns(fold: Folder, cs: CState, i: Instr): (r: CState)
    requires CsOk(cs) && GoodIns(i.ins)
    ensures CsOk(r)
  {
    var m := Count(cs.g, cs.e, i.cost);
    var c := cs.(g := m.g, e := m.e);
    Translate(fold, c, i.ins)
  }

  // ---------------------------------------------------------------- one block

  ghost predicate AllGood(instrs: seq<Instr>) {
    forall k :: 0 <= k < |instrs| ==> GoodIns(instrs[k].ins)
  }

  /** An invalid instruction was met: the rest of the block is not compiled. */
  predicate Aborted(cs: CState) {
    cs.term == Some(Ret(OutOfGas))
  }

  function CompileInstrs(fold: Folder, cs: CState, instrs: seq<Instr>): (r: CState)
    requires CsOk(cs) && AllGood(instrs)
    ensures CsOk(r)
    decreases |instrs|
  {
    if instrs == [] || Aborted(cs) then cs
    else CompileInstrs(fold, CompileIns(fold, cs, instrs[0]), instrs[1..])
  }

  /** A compiled block: where its code begins, the arguments of its stack.prepare call
      (least size, greatest size, change of size), its operations and its terminator. */
  datatype CBlock = CBlock(begin: nat, min: int, max: int, diff: int, ops: seq<Op>, term: Option<Term>)

  function FinishBlock(begin: nat, cs: CState): CBlock
    requires CsOk(cs)
  {
    var m := Commit(cs.g, cs.e);
    CBlock(begin, cs.ls.min, cs.ls.max, cs.ls.Size(), m.e.ops + Stores(cs.ls, cs.ls.Size()), cs.term)
  }

  /** The instructions laid out from one position up to another. */
  function InstrsOf(cfg: Config, code: seq<Byte>, from: nat, to: nat): (instrs: seq<Instr>)
    requires to <= |code|
    ensures AllGood(instrs)
    decreases |code| - from
  {
    if from >= to then []
    else [Decode(cfg, code, from)] + InstrsOf(cfg, code, Next(code, from), to)
  }

  function CompileBlock(fold: Folder, cfg: Config, code: seq<Byte>, begin: nat, end: nat): CBlock
    requires end <= |code|
  {
    FinishBlock(begin, CompileInstrs(fold, START, InstrsOf(cfg, code, begin, end)))
  }
}
