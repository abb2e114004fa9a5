/** Every run of the compiled program gives the outcome of the interpreter. */
module ProgramCorrect {
  import opened Words
  import opened Instructions
  import opened Machine
  import opened Ir
  import opened LocalStacks
  import opened BlockCompiler
  import opened BlockSimulation
  import opened BlockCutter
  import opened Program

  // ---------------------------------------------------------------- one block at run time

  /** The stack memory, bottom first, holds the interpreter's stack. */
  ghost predicate Shows(b: BState, s: IState) {
    && b.m == s.m && |b.slots| == STACK_LIMIT && b.size == |s.stack| <= STACK_LIMIT
    && forall k :: 0 <= k < |s.stack| ==> s.stack[k] == b.slots[b.size - 1 - k]
  }

  function Entry(b: BState): XState {
    XState(b.m, [], b.slots, b.size)
  }

  lemma StartAgrees(sem: Sem, b: BState, s: IState)
    requires Shows(b, s)
    ensures Agree(sem, START, Entry(b), Some(Stepped(s, Fall)))
  {
    var r := Some(Stepped(s, Fall));
    forall c: nat | Admissible(START, c) ensures AgreeAt(sem, START, Entry(b), r, c) {
      assert LessStep(r, 0) == r;
    }
  }

  /** With the last check filled in, the code so far is neither ahead nor behind. */
  lemma CommittedMatches(sem: Sem, cs: CState, s0: XState, r: Option<Stepped>)
    requires CsOk(cs) && !Aborted(cs) && Fits(cs.ls, s0.sp) && Agree(sem, cs, s0, r)
    ensures Matches(cs, s0, Exec(sem, Commit(cs.g, cs.e).e.ops, s0), r)
  {
    CommitFills(sem, cs.g, cs.e, s0);
    assert AgreeAt(sem, cs, s0, r, cs.g.blockCost);
    assert LessStep(r, 0) == r;
  }

  /** The finished block: the commit has filled in the last check, the stores have written
      the stack back. */
  lemma FinishMatches(sem: Sem, begin: nat, cs: CState, b: BState, r: Option<Stepped>)
    requires CsOk(cs) && !Aborted(cs) && Fits(cs.ls, b.size) && |b.slots| == STACK_LIMIT
    requires Agree(sem, cs, Entry(b), r)
    ensures var ran := RunBlock(sem, FinishBlock(begin, cs), b);
      if r.None? then ran.None?
      else ran.Some? && Shows(ran.value.b, r.value.s) && Follows(cs.term, r.value.ctl, ran.value.regs)
  {
    CommittedMatches(sem, cs, Entry(b), r);
    var ops := Commit(cs.g, cs.e).e.ops;
    ExecAppend(sem, ops, Stores(cs.ls, cs.ls.Size()), Entry(b));
    if r.Some? {
      var x := Exec(sem, ops, Entry(b)).value;
      var _ := WriteBack(sem, cs.ls, cs.e.nregs, x, r.value.s.stack);
    }
  }

  /** What a compiled block and the interpreter have to do with each other. */
  ghost predicate BlockMatches(term: Option<Term>, ran: Option<Ran>, r: Option<Stepped>) {
    if term == Some(Ret(OutOfGas)) || r.None? then r.None? && (ran.None? || term == Some(Ret(OutOfGas)))
    else ran.Some? && Shows(ran.value.b, r.value.s) && Follows(term, r.value.ctl, ran.value.regs)
  }

  /** One block: the compiled code fails iff the interpreter fails somewhere in the block, and
      otherwise leaves the same machine and the same stack and goes the same way. */
  lemma BlockCorrect(sem: Sem, cfg: Config, code: seq<Byte>, begin: nat, end: nat, b: BState, s: IState)
    requires GasOk(sem) && ShiftOk(sem) && end <= |code| && Shows(b, s)
    requires Straight(InstrsOf(cfg, code, begin, end))
    ensures var cb := CompileBlock(sem.pure, cfg, code, begin, end);
      BlockMatches(cb.term, RunBlock(sem, cb, b),
                   StepAll(sem, InstrsOf(cfg, code, begin, end), Some(Stepped(s, Fall))))
  {
    var instrs := InstrsOf(cfg, code, begin, end);
    var r := Some(Stepped(s, Fall));
    StartAgrees(sem, b, s);
    InstrsAgree(sem, START, Entry(b), r, instrs);
    var cs := CompileInstrs(sem.pure, START, instrs);
    if Fits(cs.ls, b.size) && !Aborted(cs) {
      FinishMatches(sem, begin, cs, b, StepAll(sem, instrs, r));
    }
  }

  // ---------------------------------------------------------------- the stack check alone

  /** Checking the stack height instruction by instruction. */
  predicate HeightsOk(instrs: seq<Instr>, height: nat)
    decreases |instrs|
  {
    instrs == [] ||
    (StackOk(instrs[0].ins, height) &&
     HeightsOk(instrs[1..], height - Pops(instrs[0].ins) + Pushes(instrs[0].ins)))
  }

  ghost predicate NoInvalid(instrs: seq<Instr>) {
    forall k :: 0 <= k < |instrs| ==> !instrs[k].ins.Invalid?
  }

  /** The instructions that are compiled: those up to the first invalid one, which aborts. */
  function Live(instrs: seq<Instr>): (live: seq<Instr>)
    ensures |live| <= |instrs|
    decreases |instrs|
  {
    if instrs == [] then []
    else if instrs[0].ins.Invalid? then [instrs[0]]
    else [instrs[0]] + Live(instrs[1..])
  }

  lemma {:induction false} AllLive(instrs: seq<Instr>)
    requires NoInvalid(instrs)
    ensures Live(instrs) == instrs
    decreases |instrs|
  {
    if instrs != [] { AllLive(instrs[1..]); }
  }

  /** The least size, relative to the size at the beginning, that some instruction needs or
      leaves; and the greatest that some instruction leaves. */
  function Low(instrs: seq<Instr>): int
    decreases |instrs|
  {
    if instrs == [] then 0
    else
      var i := instrs[0].ins;
      Min(0 - Needs(i), Pushes(i) - Pops(i) + Low(instrs[1..]))
  }

  function High(instrs: seq<Instr>): int
    decreases |instrs|
  {
    if instrs == [] then 0
    else
      var i := instrs[0].ins;
      Max(Pushes(i) - Pops(i), Pushes(i) - Pops(i) + High(instrs[1..]))
  }

  lemma {:induction false} HeightsByExtremes(instrs: seq<Instr>, height: nat)
    requires height <= STACK_LIMIT
    ensures HeightsOk(instrs, height) <==>
      height + Low(instrs) >= 0 && height + High(instrs) <= STACK_LIMIT
    decreases |instrs|
  {
    if instrs != [] && StackOk(instrs[0].ins, height) {
      HeightsByExtremes(instrs[1..], height - Pops(instrs[0].ins) + Pushes(instrs[0].ins));
    }
  }

  /** The compile-time stack before and after each instruction. */
  ghost predicate Trace(ls: seq<Locals>, instrs: seq<Instr>)
    decreases |instrs|
  {
    && |ls| == |instrs| + 1
    && (instrs != [] ==> BoundsExact(ls[0], ls[1], instrs[0].ins) && Trace(ls[1..], instrs[1..]))
  }

  /** Although items are fetched only once, the recorded sizes are the extreme ones. */
  lemma {:induction false} RecordedExtremes(ls: seq<Locals>, instrs: seq<Instr>)
    requires Trace(ls, instrs) && ls[0].min <= ls[0].Size() <= ls[0].max
    ensures ls[|instrs|].min == Min(ls[0].min, ls[0].Size() + Low(instrs))
    ensures ls[|instrs|].max == Max(ls[0].max, ls[0].Size() + High(instrs))
    decreases |instrs|
  {
    if instrs != [] {
      RecordedExtremes(ls[1..], instrs[1..]);
    }
  }

  lemma FirstOf(fold: Folder, cs: CState, instrs: seq<Instr>) returns (t: CState)
    requires CsOk(cs) && AllGood(instrs) && instrs != [] && cs.term.None?
    ensures CsOk(t) && CompileInstrs(fold, cs, instrs) == CompileInstrs(fold, t, instrs[1..])
    ensures BoundsExact(cs.ls, t.ls, instrs[0].ins)
    ensures !IsControl(instrs[0].ins) && !instrs[0].ins.Invalid? ==> t.term.None?
    ensures instrs[0].ins.Invalid? ==> CompileInstrs(fold, cs, instrs) == t
  {
    t := CompileIns(fold, cs, instrs[0]);
    if !IsControl(instrs[0].ins) {
      TermStays(fold, cs, instrs[0]);
    }
  }

  lemma TraceMore(l: Locals, rest: seq<Locals>, first: Instr, instrs: seq<Instr>) returns (ls: seq<Locals>)
    requires Trace(rest, instrs) && BoundsExact(l, rest[0], first.ins)
    ensures Trace(ls, [first] + instrs) && ls[0] == l && ls[|instrs| + 1] == rest[|instrs|]
  {
    ls := [l] + rest;
    assert ls[1..] == rest && ([first] + instrs)[1..] == instrs;
  }

  lemma TraceOne(l: Locals, t: Locals, first: Instr) returns (ls: seq<Locals>)
    requires BoundsExact(l, t, first.ins)
    ensures Trace(ls, [first]) && ls[0] == l && ls[1] == t
  {
    ls := TraceMore(l, [t], first, []);
    assert [first] + [] == [first];
  }

  lemma RestIsStraight(instrs: seq<Instr>)
    requires instrs != [] && AllGood(instrs) && Straight(instrs)
    ensures AllGood(instrs[1..]) && Straight(instrs[1..])
    ensures instrs[1..] == [] || !IsControl(instrs[0].ins)
  {
  }

  lemma {:induction false} CompiledTrace(fold: Folder, cs: CState, instrs: seq<Instr>, last: CState)
    returns (ls: seq<Locals>)
    requires CsOk(cs) && AllGood(instrs) && Straight(instrs) && (cs.term.None? || instrs == [])
    requires last == CompileInstrs(fold, cs, instrs)
    ensures Trace(ls, Live(instrs)) && ls[0] == cs.ls && ls[|Live(instrs)|] == last.ls
    decreases |instrs|
  {
    if instrs == [] {
      ls := [cs.ls];
      assert last == cs;
    } else {
      RestIsStraight(instrs);
      var t := FirstOf(fold, cs, instrs);
      if instrs[0].ins.Invalid? {
        ls := TraceOne(cs.ls, t.ls, instrs[0]);
      } else {
        var rest := CompiledTrace(fold, t, instrs[1..], last);
        ls := TraceMore(cs.ls, rest, instrs[0], Live(instrs[1..]));
      }
    }
  }

  /** The one-shot check of a block is exact: it passes iff no instruction of the block that
      is compiled would underflow or overflow the stack. */
  lemma StackCheckExact(fold: Folder, cfg: Config, code: seq<Byte>, begin: nat, end: nat, size: nat)
    requires end <= |code| && size <= STACK_LIMIT
    requires Straight(InstrsOf(cfg, code, begin, end))
    ensures var cb := CompileBlock(fold, cfg, code, begin, end);
      size + cb.min >= 0 && size + cb.max <= STACK_LIMIT
      <==> HeightsOk(Live(InstrsOf(cfg, code, begin, end)), size)
  {
    var instrs := InstrsOf(cfg, code, begin, end);
    var ls := CompiledTrace(fold, START, instrs, CompileInstrs(fold, START, instrs));
    CheckByExtremes(ls, Live(instrs), size);
  }

  /** Without invalid instructions, that is the whole block. */
  lemma WholeBlockChecked(fold: Folder, cfg: Config, code: seq<Byte>, begin: nat, end: nat, size: nat)
    requires end <= |code| && size <= STACK_LIMIT
    requires Straight(InstrsOf(cfg, code, begin, end)) && NoInvalid(InstrsOf(cfg, code, begin, end))
    ensures var cb := CompileBlock(fold, cfg, code, begin, end);
      size + cb.min >= 0 && size + cb.max <= STACK_LIMIT
      <==> HeightsOk(InstrsOf(cfg, code, begin, end), size)
  {
    StackCheckExact(fold, cfg, code, begin, end, size);
    AllLive(InstrsOf(cfg, code, begin, end));
  }

  lemma CheckByExtremes(ls: seq<Locals>, instrs: seq<Instr>, size: nat)
    requires Trace(ls, instrs) && ls[0] == EMPTY && size <= STACK_LIMIT
    ensures Fits(ls[|instrs|], size) <==> HeightsOk(instrs, size)
  {
    RecordedExtremes(ls, instrs);
    HeightsByExtremes(instrs, size);
  }

  // ---------------------------------------------------------------- the interpreter through a block

  lemma {:induction false} ChainIsStraight(cfg: Config, code: seq<Byte>, begin: nat, p: nat, end: nat)
    requires Chain(code, begin, end) && IsStart(code, p) && begin <= p < end
    ensures Straight(InstrsOf(cfg, code, p, end))
    decreases end - p
  {
    var next := Next(code, p);
    NoStartInside(code, p, end);
    ReachesNext(code, 0, p);
    if next < end {
      ChainIsStraight(cfg, code, begin, next, end);
      var rest := InstrsOf(cfg, code, next, end);
      var all := InstrsOf(cfg, code, p, end);
      assert !IsControl(all[0].ins);
      forall k | 0 <= k < |all| - 1 ensures !IsControl(all[k].ins) {
        if k > 0 { assert all[k] == rest[k - 1]; }
      }
    } else {
      assert InstrsOf(cfg, code, next, end) == [];
    }
  }

  /** Where the interpreter goes on after a block. */
  function Continue(sem: Sem, cfg: Config, code: seq<Byte>, end: nat, r: Option<Stepped>): Outcome
    requires GasOk(sem)
  {
    match r
    case None => Failed
    case Some(Stepped(t, Exit(rc))) => Finish(rc, t.m, t.stack)
    case Some(Stepped(t, Fall)) => Run(sem, cfg, code, end, t)
    case Some(Stepped(t, Goto(w))) =>
      if ValidDest(code, w) then Run(sem, cfg, code, w, t) else Failed
  }

  /** The interpreter, started at an instruction of a block, gets through the block. It
      only falls out of the block's end if the last instruction does not kill. */
  lemma {:induction false} RunThrough(sem: Sem, cfg: Config, code: seq<Byte>, begin: nat, p: nat, end: nat, s: IState)
    requires GasOk(sem) && Chain(code, begin, end) && IsStart(code, p) && begin <= p < end
    ensures var r := StepAll(sem, InstrsOf(cfg, code, p, end), Some(Stepped(s, Fall)));
      && Run(sem, cfg, code, p, s) == Continue(sem, cfg, code, end, r)
      && (r.Some? && r.value.ctl.Fall? ==> !Killed(code, end))
      && (r.Some? ==> r.value.s.m.gas <= s.m.gas)
      && (r.Some? && r.value.ctl.Goto? ==> r.value.s.m.gas < s.m.gas)
    decreases end - p
  {
    var next := Next(code, p);
    NoStartInside(code, p, end);
    ReachesNext(code, 0, p);
    var i := Decode(cfg, code, p);
    var instrs := InstrsOf(cfg, code, p, end);
    var rest := InstrsOf(cfg, code, next, end);
    assert instrs == [i] + rest && instrs[1..] == rest;
    var r := Step(sem, i, s);
    if r.Some? {
      if next == end {
        assert rest == [];
        assert LastBefore(code, p, end);
        EndIsKilled(code, p);
        assert StepAll(sem, rest, r) == r;
      } else {
        assert !Ends(code[p]);
        assert r.value.ctl == Fall;
        RunThrough(sem, cfg, code, begin, next, end, r.value.s);
      }
    }
  }

  // ---------------------------------------------------------------- jumps

  /** The cases of the switch are exactly the valid destinations, each leading to the
      block that begins there. */
  lemma {:induction false} TableCases(code: seq<Byte>, cuts: seq<Block>, n: nat, w: nat)
    requires n <= |cuts| && forall k :: 0 <= k < |cuts| ==> IsStart(code, cuts[k].begin)
    ensures var t := TableOf(code, cuts, n);
      && (w in t ==> t[w] < n && cuts[t[w]].begin == w && JumpDestAt(code, w))
      && (JumpDestAt(code, w) && (exists k :: 0 <= k < n && cuts[k].begin == w) ==> w in t)
  {
    if n > 0 {
      TableCases(code, cuts, n - 1, w);
    }
  }

  /** The switch, and a direct edge to a case of it, reach the block of a valid destination
      and Abort for any other. */
  lemma DestFound(code: seq<Byte>, cuts: seq<Block>, w: Word)
    requires WellCut(code, cuts)
    ensures var succ := FindCase(TableOf(code, cuts, |cuts|), w);
      if ValidDest(code, w)
      then succ.CodeBlock? && succ.i < |cuts| && cuts[succ.i].begin == w
      else succ == AbortBlock
  {
    forall k | 0 <= k < |cuts| ensures IsStart(code, cuts[k].begin) {
      assert Maximal(code, cuts[k]);
    }
    TableCases(code, cuts, |cuts|, w);
    ValidJumpsAreStarts(code, w);
    if ValidDest(code, w) {
      var j := DestBeginsBlock(code, cuts, w, 0);
    }
  }

  // ---------------------------------------------------------------- progress

  lemma {:induction false} StaticGasAppend(a: seq<Op>, b: seq<Op>)
    ensures StaticGas(a + b) == StaticGas(a) + StaticGas(b)
  {
    if b == [] {
      assert a + b == a;
    } else {
      StaticGasAppend(a, b[..|b| - 1]);
      assert (a + b)[..|a + b| - 1] == a + b[..|b| - 1];
    }
  }

  lemma CheckCounts(ops: seq<Op>, k: nat)
    requires k < |ops| && ops[k].Check?
    ensures StaticGas(ops) >= ops[k].cost
  {
    var one := [ops[k]];
    assert one[..0] == [];
    assert ops == ops[..k] + one + ops[k + 1..];
    StaticGasAppend(ops[..k] + one, ops[k + 1..]);
    StaticGasAppend(ops[..k], one);
  }

  ghost predicate JumpsCost(instrs: seq<Instr>) {
    forall k :: 0 <= k < |instrs| ==> instrs[k].ins.Jump? || instrs[k].ins.JumpI? ==> instrs[k].cost > 0
  }

  predicate Branches(term: Option<Term>) {
    term.Some? && !term.value.Ret?
  }

  lemma JumpIsCharged(fold: Folder, cs: CState, i: Instr)
    requires CsOk(cs) && GoodIns(i.ins) && cs.term.None?
    requires i.ins.Jump? || i.ins.JumpI? ==> i.cost > 0
    ensures var t := CompileIns(fold, cs, i);
      && (Branches(t.term) ==> t.g.blockCost > 0 && t.g.check.Some?)
  {
  }

  lemma {:induction false} BranchIsCharged(fold: Folder, cs: CState, instrs: seq<Instr>)
    requires CsOk(cs) && AllGood(instrs) && Straight(instrs) && JumpsCost(instrs)
    requires cs.term.None? || Aborted(cs) ||
      (instrs == [] && (Branches(cs.term) ==> cs.g.blockCost > 0 && cs.g.check.Some?))
    ensures var t := CompileInstrs(fold, cs, instrs);
      Branches(t.term) ==> t.g.blockCost > 0 && t.g.check.Some?
    decreases |instrs|
  {
    if instrs != [] && !Aborted(cs) {
      TermStays(fold, cs, instrs[0]);
      JumpIsCharged(fold, cs, instrs[0]);
      BranchIsCharged(fold, CompileIns(fold, cs, instrs[0]), instrs[1..]);
    }
  }

  lemma {:induction false} DecodedJumpsCost(cfg: Config, code: seq<Byte>, from: nat, to: nat)
    requires to <= |code|
    ensures JumpsCost(InstrsOf(cfg, code, from, to))
    decreases |code| - from
  {
    if from < to {
      DecodedJumpsCost(cfg, code, Next(code, from), to);
    }
  }

  /** A block that ends in a jump charges gas before it jumps. */
  lemma BranchingBlockCosts(fold: Folder, cfg: Config, code: seq<Byte>, begin: nat, end: nat)
    requires end <= |code| && Straight(InstrsOf(cfg, code, begin, end))
    ensures var cb := CompileBlock(fold, cfg, code, begin, end);
      Branches(cb.term) ==> StaticGas(cb.ops) > 0
  {
    var instrs := InstrsOf(cfg, code, begin, end);
    DecodedJumpsCost(cfg, code, begin, end);
    BranchIsCharged(fold, START, instrs);
    var cs := CompileInstrs(fold, START, instrs);
    if Branches(cs.term) {
      var ops := Commit(cs.g, cs.e).e.ops;
      CheckCounts(ops, cs.g.check.value);
      StaticGasAppend(ops, Stores(cs.ls, cs.ls.Size()));
    }
  }

  lemma CutsFit(code: seq<Byte>, cuts: seq<Block>)
    requires WellCut(code, cuts)
    ensures forall k :: 0 <= k < |cuts| ==>
      Chain(code, cuts[k].begin, cuts[k].end) && cuts[k].begin < cuts[k].end
  {
    forall k | 0 <= k < |cuts|
      ensures Chain(code, cuts[k].begin, cuts[k].end) && cuts[k].begin < cuts[k].end {
      assert Maximal(code, cuts[k]);
    }
  }

  /** Every compiled program is one that RunProgram accepts: all its runs end. */
  lemma CompiledRunsEnd(fold: Folder, cfg: Config, code: seq<Byte>, cuts: seq<Block>)
    requires WellCut(code, cuts)
    ensures forall k :: 0 <= k < |cuts| ==> cuts[k].end <= |code|
    ensures AllEnd(ProgramOf(fold, cfg, code, cuts))
  {
    CutsFit(code, cuts);
    var p := ProgramOf(fold, cfg, code, cuts);
    forall i | 0 <= i < |p.blocks| ensures BlockEnds(p.blocks[i], i) {
      ChainIsStraight(cfg, code, cuts[i].begin, cuts[i].begin, cuts[i].end);
      BranchingBlockCosts(fold, cfg, code, cuts[i].begin, cuts[i].end);
    }
  }

  // ---------------------------------------------------------------- whole runs

  /** As the block compiler makes them, branches lead to the jump table. */
  predicate ClearTerm(term: Option<Term>) {
    match term
    case Some(Br(succ, dest)) => succ == JumpTable && dest.Some?
    case Some(CondBr(_, succ, other, dest)) => succ == JumpTable && other == Unset && dest.Some?
    case _ => true
  }

  lemma {:induction false} CompiledIsClear(fold: Folder, cs: CState, instrs: seq<Instr>)
    requires CsOk(cs) && AllGood(instrs) && ClearTerm(cs.term)
    ensures ClearTerm(CompileInstrs(fold, cs, instrs).term)
    decreases |instrs|
  {
    if instrs != [] && !Aborted(cs) {
      CompiledIsClear(fold, CompileIns(fold, cs, instrs[0]), instrs[1..]);
    }
  }

  /** Where a resolved block goes, given that its terminator follows the control that the
      instructions ask for. */
  lemma ArrivesWhereAsked(cbs: seq<CBlock>, table: map<nat, nat>, i: nat, ctl: Control, regs: seq<Word>)
    requires i < |cbs| && Follows(cbs[i].term, ctl, regs) && ClearTerm(cbs[i].term)
    ensures var p := Resolve(cbs, table);
      var term := p.blocks[i].term.value;
      match ctl
      case Exit(rc) => term == Ret(rc)
      case Fall => !term.Ret? && Arrive(p, i, Taken(term, regs), regs) == NextSucc(i, |cbs|)
      case Goto(w) => !term.Ret? && Arrive(p, i, Taken(term, regs), regs) == FindCase(table, w)
  {
    var p := Resolve(cbs, table);
    var operand := PhiOperand(cbs[i].term);
    assert operand.Some? <==> i in p.phi;
    assert operand.Some? ==> p.phi[i] == operand.value;
  }

  lemma ShowsStack(b: BState, s: IState)
    requires Shows(b, s)
    ensures StackOf(b) == s.stack
  {
    forall k | 0 <= k < |s.stack| ensures StackOf(b)[k] == s.stack[k] {
      assert s.stack[k] == b.slots[b.size - 1 - k] == SlotAt(b.slots, b.size - 1 - k);
    }
  }

  function ArriveAt(sem: Sem, p: Prog, succ: Succ, b: BState): Outcome
    requires GasOk(sem) && AllEnd(p)
  {
    match succ
    case CodeBlock(j) => RunProgram(sem, p, j, b)
    case StopBlock => Done(Stop, b.m, StackOf(b))
    case _ => Failed
  }

  /** The instructions of a block, as the interpreter takes them. */
  function StepBlock(sem: Sem, cfg: Config, code: seq<Byte>, cut: Block, s: IState): Option<Stepped>
    requires cut.end <= |code|
  {
    StepAll(sem, InstrsOf(cfg, code, cut.begin, cut.end), Some(Stepped(s, Fall)))
  }

  /** Running block i does what its instructions ask for, and goes on accordingly. */
  ghost predicate GoesOn(sem: Sem, p: Prog, i: nat, b: BState, r: Option<Stepped>)
    requires GasOk(sem) && AllEnd(p) && i < |p.blocks|
  {
    var ran := RunBlock(sem, p.blocks[i], b);
    if r.None? then RunProgram(sem, p, i, b) == Failed
    else
      && ran.Some? && Shows(ran.value.b, r.value.s)
      && RunProgram(sem, p, i, b) ==
         match r.value.ctl
         case Exit(rc) => Finish(rc, r.value.s.m, r.value.s.stack)
         case Fall => ArriveAt(sem, p, NextSucc(i, |p.blocks|), ran.value.b)
         case Goto(w) => ArriveAt(sem, p, FindCase(p.table, w), ran.value.b)
  }

  lemma ResolvedGoesOn(sem: Sem, cbs: seq<CBlock>, table: map<nat, nat>, i: nat, b: BState, r: Option<Stepped>)
    requires GasOk(sem) && AllEnd(Resolve(cbs, table)) && i < |cbs| && ClearTerm(cbs[i].term)
    requires BlockMatches(cbs[i].term, RunBlock(sem, cbs[i], b), r)
    ensures GoesOn(sem, Resolve(cbs, table), i, b, r)
  {
    var p := Resolve(cbs, table);
    var ran := RunBlock(sem, cbs[i], b);
    assert RunBlock(sem, p.blocks[i], b) == ran;
    if r.Some? {
      ShowsStack(ran.value.b, r.value.s);
      ArrivesWhereAsked(cbs, table, i, r.value.ctl, ran.value.regs);
    }
  }

  /** A program whose blocks all do what the instructions of the cut ask for. */
  ghost predicate Faithful(sem: Sem, cfg: Config, code: seq<Byte>, cuts: seq<Block>, p: Prog)
    requires GasOk(sem)
  {
    && AllEnd(p) && |p.blocks| == |cuts| && p.table == TableOf(code, cuts, |cuts|)
    && forall i, b, s {:trigger GoesOn(sem, p, i, b, StepBlock(sem, cfg, code, cuts[i], s))} ::
         0 <= i < |cuts| && cuts[i].end <= |code| && Shows(b, s) ==>
         GoesOn(sem, p, i, b, StepBlock(sem, cfg, code, cuts[i], s))
  }

  /** Block i of the compiled program, before its jumps are resolved. */
  lemma MatchesAt(sem: Sem, cfg: Config, code: seq<Byte>, cut: Block, cb: CBlock, b: BState, s: IState)
    requires GasOk(sem) && ShiftOk(sem) && Shows(b, s)
    requires Chain(code, cut.begin, cut.end) && cut.begin < cut.end
    requires cb == CompileBlock(sem.pure, cfg, code, cut.begin, cut.end)
    ensures ClearTerm(cb.term) && BlockMatches(cb.term, RunBlock(sem, cb, b), StepBlock(sem, cfg, code, cut, s))
  {
    ChainIsStraight(cfg, code, cut.begin, cut.begin, cut.end);
    BlockCorrect(sem, cfg, code, cut.begin, cut.end, b, s);
    CompiledIsClear(sem.pure, START, InstrsOf(cfg, code, cut.begin, cut.end));
  }

  lemma FaithfulAt(sem: Sem, cfg: Config, code: seq<Byte>, cut: Block, cbs: seq<CBlock>,
                   table: map<nat, nat>, i: nat, b: BState, s: IState)
    requires GasOk(sem) && ShiftOk(sem) && i < |cbs| && Shows(b, s)
    requires Chain(code, cut.begin, cut.end) && cut.begin < cut.end
    requires cbs[i] == CompileBlock(sem.pure, cfg, code, cut.begin, cut.end)
    requires AllEnd(Resolve(cbs, table))
    ensures GoesOn(sem, Resolve(cbs, table), i, b, StepBlock(sem, cfg, code, cut, s))
  {
    MatchesAt(sem, cfg, code, cut, cbs[i], b, s);
    ResolvedGoesOn(sem, cbs, table, i, b, StepBlock(sem, cfg, code, cut, s));
  }

  lemma CompiledIsFaithful(sem: Sem, cfg: Config, code: seq<Byte>, cuts: seq<Block>)
    requires GasOk(sem) && ShiftOk(sem) && WellCut(code, cuts)
    ensures forall k :: 0 <= k < |cuts| ==> cuts[k].end <= |code|
    ensures Faithful(sem, cfg, code, cuts, ProgramOf(sem.pure, cfg, code, cuts))
  {
    CompiledRunsEnd(sem.pure, cfg, code, cuts);
    CutsFit(code, cuts);
    var cbs := CompileAll(sem.pure, cfg, code, cuts);
    var table := TableOf(code, cuts, |cuts|);
    forall i, b, s | 0 <= i < |cuts| && cuts[i].end <= |code| && Shows(b, s)
      ensures GoesOn(sem, Resolve(cbs, table), i, b, StepBlock(sem, cfg, code, cuts[i], s)) {
      FaithfulAt(sem, cfg, code, cuts[i], cbs, table, i, b, s);
    }
  }

  /** The beginning of a block, reached by the interpreter. */
  datatype Place = Place(i: nat, s: IState)

  /** Where the interpreter goes on after block i, given its result on the block: where the
      next block begins, or at the block of the jump's destination, or nowhere. */
  function NextPlace(table: map<nat, nat>, n: nat, i: nat, r: Option<Stepped>): Option<Place> {
    match r
    case None => None
    case Some(Stepped(_, Exit(_))) => None
    case Some(Stepped(t, Fall)) => if i + 1 < n then Some(Place(i + 1, t)) else None
    case Some(Stepped(t, Goto(w))) => if w in table then Some(Place(table[w], t)) else None
  }

  /** The outcome if it goes on nowhere. */
  function LastOutcome(r: Option<Stepped>): Outcome {
    match r
    case None => Failed
    case Some(Stepped(t, Exit(rc))) => Finish(rc, t.m, t.stack)
    case Some(Stepped(t, Fall)) => Done(Stop, t.m, t.stack)
    case Some(Stepped(_, Goto(_))) => Failed
  }

  /** A block whose last instruction does not kill is followed at once by the next. */
  lemma NextIsAtEnd(code: seq<Byte>, cuts: seq<Block>, i: nat)
    requires WellCut(code, cuts) && i < |cuts| && !Killed(code, cuts[i].end)
    ensures cuts[i].end == if i + 1 < |cuts| then cuts[i + 1].begin else |code|
  {
    assert Gap(code, cuts[i].end, NextBegin(code, cuts, i));
  }

  /** The switch successor of a destination, and whether there is one, are right. */
  predicate Directed(code: seq<Byte>, cuts: seq<Block>, table: map<nat, nat>, w: Word) {
    if ValidDest(code, w) then w in table && table[w] < |cuts| && cuts[table[w]].begin == w else w !in table
  }

  /** Where a block ends, the interpreter goes on at the beginning of a block, or ends. */
  lemma ContinuesAt(sem: Sem, cfg: Config, code: seq<Byte>, cuts: seq<Block>, table: map<nat, nat>, i: nat,
                    r: Option<Stepped>)
    requires GasOk(sem) && i < |cuts|
    requires r.Some? && r.value.ctl.Fall? ==>
      cuts[i].end == if i + 1 < |cuts| then cuts[i + 1].begin else |code|
    requires r.Some? && r.value.ctl.Goto? ==> Directed(code, cuts, table, r.value.ctl.dest)
    ensures match NextPlace(table, |cuts|, i, r)
      case None => Continue(sem, cfg, code, cuts[i].end, r) == LastOutcome(r)
      case Some(q) =>
        q.i < |cuts| && Continue(sem, cfg, code, cuts[i].end, r) == Run(sem, cfg, code, cuts[q.i].begin, q.s)
  {
  }

  lemma InterpreterGoesOn(sem: Sem, cfg: Config, code: seq<Byte>, cuts: seq<Block>, i: nat, s: IState)
    requires GasOk(sem) && WellCut(code, cuts) && i < |cuts| && cuts[i].end <= |code|
    ensures var r := StepBlock(sem, cfg, code, cuts[i], s);
      match NextPlace(TableOf(code, cuts, |cuts|), |cuts|, i, r)
      case None => Run(sem, cfg, code, cuts[i].begin, s) == LastOutcome(r)
      case Some(q) =>
        && q.i < |cuts| && Run(sem, cfg, code, cuts[i].begin, s) == Run(sem, cfg, code, cuts[q.i].begin, q.s)
        && (q.s.m.gas < s.m.gas || (q.s.m.gas == s.m.gas && q.i > i))
  {
    CutsFit(code, cuts);
    RunThrough(sem, cfg, code, cuts[i].begin, cuts[i].begin, cuts[i].end, s);
    var r := StepBlock(sem, cfg, code, cuts[i], s);
    if r.Some? && r.value.ctl.Fall? {
      NextIsAtEnd(code, cuts, i);
    } else if r.Some? && r.value.ctl.Goto? {
      DestFound(code, cuts, r.value.ctl.dest);
    }
    ContinuesAt(sem, cfg, code, cuts, TableOf(code, cuts, |cuts|), i, r);
  }

  lemma ProgramGoesOn(sem: Sem, p: Prog, i: nat, b: BState, r: Option<Stepped>) returns (c: BState)
    requires GasOk(sem) && AllEnd(p) && i < |p.blocks| && GoesOn(sem, p, i, b, r)
    ensures match NextPlace(p.table, |p.blocks|, i, r)
      case None => RunProgram(sem, p, i, b) == LastOutcome(r)
      case Some(q) => RunProgram(sem, p, i, b) == RunProgram(sem, p, q.i, c) && Shows(c, q.s)
  {
    c := b;
    if r.Some? {
      c := RunBlock(sem, p.blocks[i], b).value.b;
      ShowsStack(c, r.value.s);
    }
  }

  /** From matching states at the beginning of a block, a faithful program and the
      interpreter have the same outcome. */
  lemma {:induction false} BlocksSimulate(sem: Sem, cfg: Config, code: seq<Byte>, cuts: seq<Block>,
                                         p: Prog, i: nat, b: BState, s: IState)
    requires GasOk(sem) && WellCut(code, cuts) && Faithful(sem, cfg, code, cuts, p)
    requires i < |cuts| && Shows(b, s)
    ensures RunProgram(sem, p, i, b) == Run(sem, cfg, code, cuts[i].begin, s)
    decreases s.m.gas, |cuts| - i
  {
    CutsFit(code, cuts);
    var r := StepBlock(sem, cfg, code, cuts[i], s);
    assert GoesOn(sem, p, i, b, r);
    InterpreterGoesOn(sem, cfg, code, cuts, i, s);
    var c := ProgramGoesOn(sem, p, i, b, r);
    var next := NextPlace(p.table, |cuts|, i, r);
    if next.Some? {
      BlocksSimulate(sem, cfg, code, cuts, p, next.value.i, c, next.value.s);
    }
  }

  /** The compiled program as the Entry block starts it: an empty stack in uninitialised
      stack memory. */
  function RunCompiled(sem: Sem, p: Prog, m: Mach, slots: seq<Word>): Outcome
    requires GasOk(sem) && AllEnd(p)
  {
    RunProgram(sem, p, 0, BState(m, slots, 0))
  }

  /** For every code, starting machine, and content of the uninitialised stack memory: the
      compiled program and the interpreter have the same outcome. */
  lemma CompiledRunsLikeInterpreter(sem: Sem, cfg: Config, code: seq<Byte>, cuts: seq<Block>,
                                    m: Mach, slots: seq<Word>)
    requires GasOk(sem) && ShiftOk(sem) && WellCut(code, cuts) && |slots| == STACK_LIMIT
    ensures forall k :: 0 <= k < |cuts| ==> cuts[k].end <= |code|
    ensures AllEnd(ProgramOf(sem.pure, cfg, code, cuts))
    ensures RunCompiled(sem, ProgramOf(sem.pure, cfg, code, cuts), m, slots) ==
            Run(sem, cfg, code, 0, IState(m, []))
  {
    CompiledIsFaithful(sem, cfg, code, cuts);
    var b, s := BState(m, slots, 0), IState(m, []);
    ShowsStack(b, s);
    if |cuts| > 0 {
      BlocksSimulate(sem, cfg, code, cuts, ProgramOf(sem.pure, cfg, code, cuts), 0, b, s);
    }
  }
}
