/** The compiler: it cuts the bytecode, walks through each block, and resolves the jumps of
    the blocks it has compiled in place. */
module Compilers {
  import opened Words
  import opened Instructions
  import opened Ir
  import opened LocalStacks
  import opened BlockCompiler
  import opened BlockCutter
  import opened Program
  import opened ProgramCorrect
  import opened PushData
  import opened CompilerObjects

  class Compiler {
    const cfg: Config
    const fold: Folder
    const builder: Builder
    const gasMeter: GasMeter
    var blocks: seq<CBlock>
    var jumpTable: map<nat, nat>
    var phi: map<nat, Val>

    constructor (cfg: Config, fold: Folder)
      ensures this.cfg == cfg && this.fold == fold && fresh(builder) && fresh(gasMeter)
      ensures gasMeter.Value() == Meter(0, None) && blocks == [] && jumpTable == map[] && phi == map[]
    {
      this.cfg, this.fold := cfg, fold;
      builder := new Builder();
      gasMeter := new GasMeter();
      blocks, jumpTable, phi := [], map[], map[];
    }

    /** The state of a block under compilation. */
    function State(stack: LocalStack, term: Option<Term>): CState
      reads stack, builder, gasMeter
    {
      CState(stack.Value(), builder.Code(), gasMeter.Value(), term)
    }

    /** Folds constants, or emits the operation. */
    method Operate(p: PureOp, args: seq<Val>) returns (v: Val)
      modifies builder
      ensures (builder.Code(), v) == old(EmitPure(fold, builder.Code(), p, args))
    {
      if AllConst(args) {
        v := Const(fold(p, Values(args, [])));
      } else {
        v := builder.Insert(Eval(p, args), 1);
      }
    }

    method CompilePure(stack: LocalStack, p: PureOp, ghost term: Option<Term>)
      requires CsOk(State(stack, term))
      modifies stack, builder
      ensures State(stack, term) == old(TranslatePure(fold, State(stack, term), p))
    {
      var args := stack.PopN(builder, Arity(p));
      var v := Operate(p, args);
      stack.Push(v);
    }

    /** Ends the cost block before an instruction that looks at the gas counter. */
    method CommitFor(d: DynOp)
      requires MeterOk(gasMeter.Value(), builder.Code())
      modifies builder, gasMeter
      ensures Metered(gasMeter.Value(), builder.Code())
        == old(CommitIf(Commits(d), gasMeter.Value(), builder.Code()))
    {
      if Commits(d) {
        gasMeter.CommitCostBlock(builder);
      }
    }

    /** The operation, after the end of a cost block if need be, and the push of its result. */
    method EmitDyn(stack: LocalStack, d: DynOp, args: seq<Val>)
      requires MeterOk(gasMeter.Value(), builder.Code())
      modifies stack, builder, gasMeter
      ensures var m := old(CommitIf(Commits(d), gasMeter.Value(), builder.Code()));
        && gasMeter.Value() == m.g && builder.Code() == EmitDo(m.e, d, args)
        && stack.Value() == old(if DynPushes(d) == 0 then stack.Value() else PushVal(stack.Value(), Reg(builder.nregs)))
    {
      CommitFor(d);
      var v := builder.Insert(Do(d, args), DynPushes(d));
      if DynPushes(d) != 0 {
        stack.Push(v);
      }
    }

    method CompileDyn(stack: LocalStack, d: DynOp, ghost term: Option<Term>)
      requires CsOk(State(stack, term))
      modifies stack, builder, gasMeter
      ensures State(stack, term) == old(TranslateDyn(State(stack, term), d))
    {
      PopsKeepMeter(stack.Value(), builder.Code(), DynPops(d), gasMeter.Value());
      var args := stack.PopN(builder, DynPops(d));
      EmitDyn(stack, d, args);
    }

    method CompileHalt(stack: LocalStack, d: DynOp, rc: ReturnCode, ghost term: Option<Term>) returns (t: Option<Term>)
      requires GoodIns(Halt(Some(d), rc)) && CsOk(State(stack, term))
      modifies stack, builder
      ensures State(stack, t) == old(TranslateHalt(State(stack, term), d, rc))
    {
      var args := stack.PopN(builder, DynPops(d));
      var _ := builder.Insert(Do(d, args), DynPushes(d));
      t := Some(Ret(rc));
    }

    /** Initially to the jump table; the destination is remembered for resolving. */
    method CompileJump(stack: LocalStack, ghost term: Option<Term>) returns (t: Option<Term>)
      requires CsOk(State(stack, term))
      modifies stack, builder
      ensures State(stack, t) == old(TranslateJump(State(stack, term)))
    {
      var args := stack.PopN(builder, 1);
      t := Some(Br(JumpTable, Some(args[0])));
    }

    method CompileJumpI(stack: LocalStack, ghost term: Option<Term>) returns (t: Option<Term>)
      requires CsOk(State(stack, term))
      modifies stack, builder
      ensures State(stack, t) == old(TranslateJumpI(State(stack, term)))
    {
      var args := stack.PopN(builder, 2);
      t := Some(CondBr(args[1], JumpTable, Unset, Some(args[0])));
    }

    /** The switch over the instructions. */
    method CompileInstruction(stack: LocalStack, i: Ins, term: Option<Term>) returns (t: Option<Term>)
      requires GoodIns(i) && CsOk(State(stack, term))
      modifies stack, builder, gasMeter
      ensures State(stack, t) == old(Translate(fold, State(stack, term), i))
    {
      t := term;
      match i
      case Push(w) => stack.Push(Const(w));
      case Dup(n) => stack.Dup(builder, n);
      case Swap(n) => stack.Swap(builder, n);
      case Pop => var _ := stack.Pop(builder);
      case JumpDest =>
      case Pure(p) => CompilePure(stack, p, term);
      case Dyn(d) => CompileDyn(stack, d, term);
      case Jump => t := CompileJump(stack, term);
      case JumpI => t := CompileJumpI(stack, term);
      case Halt(None, rc) => t := Some(Ret(rc));
      case Halt(Some(d), rc) => t := CompileHalt(stack, d, rc, term);
      case Invalid => t := Some(Ret(OutOfGas));
    }

    /** One instruction at the cursor; the cursor moves to its last byte, or to the block's
        last byte if the instruction is invalid. */
    method CompileAt(stack: LocalStack, code: seq<Byte>, curr: nat, end: nat, term: Option<Term>)
      returns (t: Option<Term>, last: nat)
      requires curr < end <= |code| && Next(code, curr) <= end && CsOk(State(stack, term))
      modifies stack, builder, gasMeter
      ensures State(stack, t) == old(CompileIns(fold, State(stack, term), Decode(cfg, code, curr)))
      ensures last + 1 == if Decode(cfg, code, curr).ins.Invalid? then end else Next(code, curr)
    {
      gasMeter.Count(builder, StepCost(cfg.rev, code[curr]));
      if IsPush(code[curr]) {
        BlockEndSuffices(code, curr, end);
        var value;
        value, last := ReadPushData(code, curr, end);
        stack.Push(Const(value));
        t := term;
      } else {
        var i := Classify(cfg, code, curr);
        t := CompileInstruction(stack, i, term);
        last := if i.Invalid? then end - 1 else curr;
      }
    }

    /** In this state, compiling the instructions from one position up to another leads to
        the goal. */
    ghost predicate Leads(cs: CState, code: seq<Byte>, from: nat, to: nat, goal: CState) {
      && CsOk(cs) && from <= to <= |code| && IsStart(code, from)
      && (from < to ==> !Aborted(cs))
      && CompileInstrs(fold, cs, InstrsOf(cfg, code, from, to)) == goal
    }

    /** One round of the loop. */
    method Advance(stack: LocalStack, code: seq<Byte>, curr: nat, end: nat, term: Option<Term>, ghost goal: CState)
      returns (t: Option<Term>, next: nat)
      requires curr < end <= |code| && Next(code, curr) <= end && IsStart(code, Next(code, curr)) && IsStart(code, end)
      requires Leads(State(stack, term), code, curr, end, goal)
      modifies stack, builder, gasMeter
      ensures curr < next && Leads(State(stack, t), code, next, end, goal)
    {
      ghost var s := State(stack, term);
      var last;
      t, last := CompileAt(stack, code, curr, end, term);
      next := last + 1;
      RestOfBlock(fold, s, State(stack, t), cfg, code, curr, next, end);
    }

    /** The loop over the instructions of a block. */
    method CompileInstructions(stack: LocalStack, code: seq<Byte>, index: nat, begin: nat, end: nat, ghost goal: CState)
      returns (term: Option<Term>)
      requires Chain(code, begin, end) && begin < end && Leads(State(stack, None), code, begin, end, goal)
      modifies stack, builder, gasMeter, this`jumpTable
      ensures State(stack, term) == goal && jumpTable == WithCase(old(jumpTable), code, index, begin)
    {
      ghost var table0, table1 := jumpTable, WithCase(jumpTable, code, index, begin);
      term := None;
      var it := begin;
      while it != end
        invariant begin <= it && Leads(State(stack, term), code, it, end, goal)
        invariant jumpTable == if it == begin then table0 else table1
        decreases end - it
      {
        InsideChain(code, begin, it, end);
        if code[it] == JUMPDEST {
          jumpTable := jumpTable[begin := index];
        }
        term, it := Advance(stack, code, it, end, term, goal);
      }
    }

    method CompileBasicBlock(code: seq<Byte>, index: nat, begin: nat, end: nat) returns (cb: CBlock)
      requires Chain(code, begin, end) && begin < end && gasMeter.Value() == Meter(0, None)
      modifies builder, gasMeter, this`jumpTable
      ensures cb == CompileBlock(fold, cfg, code, begin, end)
      ensures gasMeter.Value() == Meter(0, None)
      ensures jumpTable == WithCase(old(jumpTable), code, index, begin)
    {
      builder.SetInsertPoint();
      var stack := new LocalStack();
      assert State(stack, None) == START;
      ghost var goal := CompileInstrs(fold, START, InstrsOf(cfg, code, begin, end));
      var term := CompileInstructions(stack, code, index, begin, end, goal);
      gasMeter.CommitCostBlock(builder);
      stack.Finalize(builder);
      cb := CBlock(begin, stack.minSize, stack.maxSize, stack.Size(), builder.ops, term);
    }

    method SetTerminator(i: nat, term: Term)
      requires i < |blocks|
      modifies this`blocks
      ensures blocks == old(blocks[i := blocks[i].(term := Some(term))])
    {
      blocks := blocks[i := blocks[i].(term := Some(term))];
    }

    method ResolveDestination(i: nat, dest: Val) returns (succ: Succ)
      modifies this`phi
      ensures succ == DirectSucc(jumpTable, dest)
      ensures phi == old(if dest.Const? then phi else phi[i := dest])
    {
      if dest.Const? {
        succ := FindCase(jumpTable, dest.w);
      } else {
        phi := phi[i := dest];
        succ := JumpTable;
      }
    }

    /** Rewrites the branches of the compiled blocks in place. */
    method ResolveJumps()
      requires phi == map[]
      modifies this`blocks, this`phi
      ensures Prog(blocks, jumpTable, phi) == old(Resolve(blocks, jumpTable))
    {
      ghost var cbs, goal := blocks, Resolve(blocks, jumpTable);
      for i := 0 to |blocks|
        invariant |blocks| == |cbs| && forall k :: 0 <= k < |cbs| ==>
          blocks[k] == if k < i then goal.blocks[k] else cbs[k]
        invariant phi == map k: nat | k < i && PhiOperand(cbs[k].term).Some? :: PhiOperand(cbs[k].term).value
      {
        ResolveBlock(i);
      }
    }

    /** A block without terminator and an untaken branch go on to the next block, a constant
        destination becomes a direct edge, any other becomes an input of the phi. */
    method ResolveBlock(i: nat)
      requires i < |blocks|
      modifies this`blocks, this`phi
      ensures blocks == old(blocks[i := blocks[i].(term :=
        Some(ResolveTerm(blocks[i].term, NextSucc(i, |blocks|), jumpTable)))])
      ensures phi == old(var v := PhiOperand(blocks[i].term); if v.Some? then phi[i := v.value] else phi)
    {
      var next := NextSucc(i, |blocks|);
      match blocks[i].term
      case None => SetTerminator(i, Br(next, None));
      case Some(Br(JumpTable, Some(dest))) =>
        var succ := ResolveDestination(i, dest);
        SetTerminator(i, Br(succ, Some(dest)));
      case Some(CondBr(cond, JumpTable, _, Some(dest))) =>
        var succ := ResolveDestination(i, dest);
        SetTerminator(i, CondBr(cond, succ, next, Some(dest)));
      case _ =>
    }

    /** The code of a block to compile, and what it has to become. */
    ghost predicate Ready(code: seq<Byte>, cut: Block, cb: CBlock) {
      && Chain(code, cut.begin, cut.end) && cut.begin < cut.end
      && cb == CompileBlock(fold, cfg, code, cut.begin, cut.end)
    }

    ghost predicate AllReady(code: seq<Byte>, cuts: seq<Block>, cbs: seq<CBlock>) {
      && |cbs| == |cuts|
      && forall k {:trigger Ready(code, cuts[k], cbs[k])} :: 0 <= k < |cuts| ==> Ready(code, cuts[k], cbs[k])
    }

    method CompileBlocks(code: seq<Byte>, cuts: seq<Block>, ghost cbs: seq<CBlock>)
      requires gasMeter.Value() == Meter(0, None) && blocks == [] && jumpTable == map[] && phi == map[]
      requires AllReady(code, cuts, cbs)
      modifies this, builder, gasMeter
      ensures blocks == cbs && jumpTable == TableOf(code, cuts, |cuts|) && phi == map[]
    {
      for k := 0 to |cuts|
        invariant gasMeter.Value() == Meter(0, None) && phi == map[]
        invariant blocks == cbs[..k] && jumpTable == TableOf(code, cuts, k)
      {
        CompileNext(code, cuts, k, cbs);
        CaseStep(code, cuts, k);
        TakeOneMore(cbs, k);
      }
    }

    method CompileNext(code: seq<Byte>, cuts: seq<Block>, k: nat, ghost cbs: seq<CBlock>)
      requires gasMeter.Value() == Meter(0, None) && AllReady(code, cuts, cbs) && k < |cuts|
      modifies this`blocks, this`jumpTable, builder, gasMeter
      ensures gasMeter.Value() == Meter(0, None)
      ensures blocks == old(blocks) + [cbs[k]] && jumpTable == WithCase(old(jumpTable), code, k, cuts[k].begin)
    {
      assert Ready(code, cuts[k], cbs[k]);
      var c := CompileBasicBlock(code, k, cuts[k].begin, cuts[k].end);
      blocks := blocks + [c];
    }
  }

  lemma TakeOneMore<T>(s: seq<T>, k: nat)
    requires k < |s|
    ensures s[..k + 1] == s[..k] + [s[k]]
  {
  }

  lemma CaseStep(code: seq<Byte>, cuts: seq<Block>, k: nat)
    requires k < |cuts|
    ensures WithCase(TableOf(code, cuts, k), code, k, cuts[k].begin) == TableOf(code, cuts, k + 1)
  {
  }

  /** The compiler's entry point. */
  method Compile(cfg: Config, fold: Folder, code: seq<Byte>) returns (p: Prog, cuts: seq<Block>)
    ensures WellCut(code, cuts)
    ensures forall k :: 0 <= k < |cuts| ==> cuts[k].end <= |code|
    ensures p == ProgramOf(fold, cfg, code, cuts)
  {
    cuts := CreateBasicBlocks(code);
    CutsFit(code, cuts);
    var c := new Compiler(cfg, fold);
    c.CompileBlocks(code, cuts, CompileAll(fold, cfg, code, cuts));
    c.ResolveJumps();
    p := Prog(c.blocks, c.jumpTable, c.phi);
  }

  /** Inside a chain the next instruction begins inside it or at its end, and a JUMPDEST is
      the first. */
  lemma InsideChain(code: seq<Byte>, begin: nat, it: nat, end: nat)
    requires Chain(code, begin, end) && IsStart(code, it) && begin <= it < end
    ensures IsStart(code, Next(code, it)) && Next(code, it) <= end
    ensures code[it] == JUMPDEST ==> it == begin
  {
    ReachesNext(code, 0, it);
    NoStartInside(code, it, end);
  }

  function WithCase(table: map<nat, nat>, code: seq<Byte>, index: nat, begin: nat): map<nat, nat> {
    if begin < |code| && code[begin] == JUMPDEST then table[begin := index] else table
  }

  /** Compiling a block from an instruction on is compiling it and going on behind it, or
      not going on if it is invalid. */
  lemma RestOfBlock(fold: Folder, cs: CState, t: CState, cfg: Config, code: seq<Byte>, it: nat, next: nat, end: nat)
    requires it < end <= |code| && CsOk(cs) && !Aborted(cs)
    requires t == CompileIns(fold, cs, Decode(cfg, code, it))
    requires next == if Decode(cfg, code, it).ins.Invalid? then end else Next(code, it)
    ensures CsOk(t) && (next < end ==> !Aborted(t))
    ensures CompileInstrs(fold, t, InstrsOf(cfg, code, next, end))
      == CompileInstrs(fold, cs, InstrsOf(cfg, code, it, end))
  {
    var instrs := InstrsOf(cfg, code, it, end);
    assert instrs[1..] == InstrsOf(cfg, code, Next(code, it), end);
    CompiledTerm(fold, cs, Decode(cfg, code, it));
  }

  lemma CompiledTerm(fold: Folder, cs: CState, i: Instr)
    requires CsOk(cs) && GoodIns(i.ins) && !Aborted(cs)
    ensures Aborted(CompileIns(fold, cs, i)) <==> i.ins.Invalid?
  {
  }
}
