/** One compiled block does what the interpreter does on the block's instructions: one
    stack check and one gas check per cost block decide exactly as the checks of the
    single instructions do. */
module BlockSimulation {
  import opened Words
  import opened Instructions
  import opened Machine
  import opened Ir
  import opened LocalStacks
  import opened BlockCompiler

  // ---------------------------------------------------------------- what is compared

  /** The interpreter's result with k gas less, if it has k gas. */
  function LessStep(r: Option<Stepped>, k: nat): Option<Stepped> {
    if r.Some? && r.value.s.m.gas >= k
    then Some(Stepped(IState(r.value.s.m.(gas := r.value.s.m.gas - k), r.value.s.stack), r.value.ctl))
    else None
  }

  /** A terminator, read with the values of the block, does what the instruction asks for. */
  ghost predicate Follows(term: Option<Term>, ctl: Control, regs: seq<Word>) {
    match term
    case None => ctl == Fall
    case Some(Ret(rc)) => ctl == Exit(rc)
    case Some(Br(_, Some(dest))) => ctl == Goto(Value(dest, regs))
    case Some(CondBr(cond, _, _, Some(dest))) =>
      ctl == if Value(cond, regs) != 0 then Goto(Value(dest, regs)) else Fall
    case _ => false
  }

  /** The emitted code ended in y, the interpreter in p: both failed, or same machine, and
      the compile-time stack stands for the interpreter's stack. */
  ghost predicate Matches(t: CState, x: XState, y: Option<XState>, p: Option<Stepped>) {
    if p.None? then y.None?
    else
      && y.Some?
      && y.value.m == p.value.s.m && y.value.slots == x.slots && y.value.sp == x.sp
      && StandsFor(t.ls, t.e.nregs, y.value, p.value.s.stack)
      && Follows(t.term, p.value.ctl, y.value.regs)
  }

  /** The operations so far with the pending check, if any, charging c. */
  function FilledOps(g: Meter, e: Emitted, c: nat): seq<Op>
    requires MeterOk(g, e)
  {
    match g.check
    case None => e.ops
    case Some(k) => e.ops[k := Check(c)]
  }

  function Filled(cs: CState, c: nat): seq<Op>
    requires MeterOk(cs.g, cs.e)
  {
    FilledOps(cs.g, cs.e, c)
  }

  predicate Admissible(cs: CState, c: nat) {
    cs.g.blockCost <= c && (cs.g.check.None? ==> c == 0)
  }

  /** The single check at the front of the block lets a stack of sp items pass. */
  predicate Fits(ls: Locals, sp: nat) {
    sp + ls.min >= 0 && sp + ls.max <= STACK_LIMIT
  }

  /** With a pending check that charges c, the emitted code is ahead of the interpreter by
      the part of c that is not counted yet. */
  ghost predicate AgreeAt(sem: Sem, cs: CState, s0: XState, r: Option<Stepped>, c: nat)
    requires MeterOk(cs.g, cs.e) && cs.g.blockCost <= c
  {
    Matches(cs, s0, Exec(sem, Filled(cs, c), s0), LessStep(r, c - cs.g.blockCost))
  }

  /** Compiler state and interpreter state agree, started from the same block entry s0. */
  ghost predicate Agree(sem: Sem, cs: CState, s0: XState, r: Option<Stepped>)
    requires CsOk(cs)
  {
    && (r.Some? ==> Fits(cs.ls, s0.sp))
    && (Aborted(cs) ==> r.None?)
    && (Fits(cs.ls, s0.sp) && !Aborted(cs) ==>
          forall c: nat :: Admissible(cs, c) ==> AgreeAt(sem, cs, s0, r, c))
  }

  // ---------------------------------------------------------------- counting

  function Charge(r: Option<Stepped>, cost: nat): Option<Stepped> {
    LessStep(r, cost)
  }

  lemma CountAgrees(sem: Sem, cs: CState, s0: XState, r: Option<Stepped>, cost: nat)
    requires CsOk(cs) && Agree(sem, cs, s0, r) && cs.term.None?
    ensures var m := Count(cs.g, cs.e, cost);
      && CsOk(cs.(g := m.g, e := m.e))
      && Agree(sem, cs.(g := m.g, e := m.e), s0, Charge(r, cost))
  {
    var m := Count(cs.g, cs.e, cost);
    var t := cs.(g := m.g, e := m.e);
    if Fits(cs.ls, s0.sp) {
      forall c: nat | Admissible(t, c) ensures AgreeAt(sem, t, s0, Charge(r, cost), c) {
        assert LessStep(Charge(r, cost), c - t.g.blockCost) == LessStep(r, c - cs.g.blockCost);
        if cs.g.check.None? {
          assert AgreeAt(sem, cs, s0, r, 0);
          assert Filled(t, c) == cs.e.ops + [Check(c)];
          ExecAppend(sem, cs.e.ops, [Check(c)], s0);
          var y := Exec(sem, cs.e.ops, s0);
          if y.Some? { ExecSingle(sem, Check(c), y.value); }
        } else {
          assert AgreeAt(sem, cs, s0, r, c);
        }
      }
    }
  }

  // ---------------------------------------------------------------- one instruction

  /** Running the operations that an instruction adds, from a state that stands for the
      interpreter's state, matches the interpreter's step. */
  ghost predicate StepMatches(sem: Sem, cs: CState, t: CState, i: Ins, x: XState, stack: seq<Word>)
    requires StackOk(i, |stack|)
  {
    && Extends(cs.e, t.e)
    && Matches(t, x, Exec(sem, Tail(cs.e, t.e), x), Perform(sem, i, IState(x.m, stack)))
  }

  lemma PureMatches(sem: Sem, cs: CState, p: PureOp, x: XState, stack: seq<Word>)
    requires CsOk(cs) && cs.term.None? && StandsFor(cs.ls, cs.e.nregs, x, stack)
    requires StackOk(Pure(p), |stack|)
    ensures StepMatches(sem, cs, TranslatePure(sem.pure, cs, p), Pure(p), x, stack)
  {
    var n := Arity(p);
    var g := PopVals(cs.ls, cs.e, n);
    var y := PopsStand(sem, cs.ls, cs.e, n, x, stack);
    var (e, v) := EmitPure(sem.pure, g.e, p, g.vs);
    if AllConst(g.vs) {
      assert Values(g.vs, []) == Values(g.vs, y.regs);
      PushStands(g.ls, g.e.nregs, v, y, stack[n..]);
    } else {
      var z := y.(regs := y.regs + [sem.pure(p, stack[..n])]);
      ExecSingle(sem, Eval(p, g.vs), y);
      assert Tail(g.e, e) == [Eval(p, g.vs)];
      TailThen(sem, cs.e, g.e, e, x, y);
      MoreRegs(g.ls, g.e.nregs, y, stack[n..], z);
      PushStands(g.ls, e.nregs, v, z, stack[n..]);
    }
  }

  /** An operation with run-time effect, after its operands were popped. */
  lemma DoMatches(sem: Sem, ls: Locals, e: Emitted, d: DynOp, vs: seq<Val>, x: XState,
                  args: seq<Word>, rest: seq<Word>)
    requires GasOk(sem) && StandsFor(ls, e.nregs, x, rest) && Values(vs, x.regs) == args
    ensures var y := Exec(sem, [Do(d, vs)], x);
      var l := if DynPushes(d) == 0 then ls else PushVal(ls, Reg(e.nregs));
      match sem.act(d, args, x.m)
      case None => y.None?
      case Some(eff) =>
        && y.Some? && y.value.m == eff.m && y.value.slots == x.slots && y.value.sp == x.sp
        && StandsFor(l, EmitDo(e, d, vs).nregs, y.value, eff.results + rest)
  {
    ExecSingle(sem, Do(d, vs), x);
    var eff := sem.act(d, args, x.m);
    if eff.Some? {
      var y := x.(m := eff.value.m, regs := x.regs + eff.value.results);
      MoreRegs(ls, e.nregs, x, rest, y);
      if DynPushes(d) == 0 {
        assert eff.value.results + rest == rest;
      } else {
        PushStands(ls, e.nregs + 1, Reg(e.nregs), y, rest);
        assert [Value(Reg(e.nregs), y.regs)] == eff.value.results;
      }
    }
  }

  lemma DynMatches(sem: Sem, cs: CState, d: DynOp, x: XState, stack: seq<Word>)
    requires GasOk(sem) && CsOk(cs) && cs.term.None? && StandsFor(cs.ls, cs.e.nregs, x, stack)
    requires StackOk(Dyn(d), |stack|) && !Commits(d)
    ensures StepMatches(sem, cs, TranslateDyn(cs, d), Dyn(d), x, stack)
  {
    var n := DynPops(d);
    var g := PopVals(cs.ls, cs.e, n);
    var y := PopsStand(sem, cs.ls, cs.e, n, x, stack);
    DoMatches(sem, g.ls, g.e, d, g.vs, y, stack[..n], stack[n..]);
    var e := EmitDo(g.e, d, g.vs);
    assert Tail(g.e, e) == [Do(d, g.vs)];
    TailThen(sem, cs.e, g.e, e, x, y);
  }

  lemma HaltMatches(sem: Sem, cs: CState, d: DynOp, rc: ReturnCode, x: XState, stack: seq<Word>)
    requires GasOk(sem) && CsOk(cs) && cs.term.None? && StandsFor(cs.ls, cs.e.nregs, x, stack)
    requires GoodIns(Halt(Some(d), rc)) && StackOk(Halt(Some(d), rc), |stack|)
    ensures StepMatches(sem, cs, TranslateHalt(cs, d, rc), Halt(Some(d), rc), x, stack)
  {
    var n := DynPops(d);
    var g := PopVals(cs.ls, cs.e, n);
    var y := PopsStand(sem, cs.ls, cs.e, n, x, stack);
    DoMatches(sem, g.ls, g.e, d, g.vs, y, stack[..n], stack[n..]);
    var e := EmitDo(g.e, d, g.vs);
    assert Tail(g.e, e) == [Do(d, g.vs)];
    TailThen(sem, cs.e, g.e, e, x, y);
  }

  lemma DupMatches(sem: Sem, cs: CState, n: nat, x: XState, stack: seq<Word>)
    requires CsOk(cs) && cs.term.None? && StandsFor(cs.ls, cs.e.nregs, x, stack)
    requires StackOk(Dup(n), |stack|)
    ensures StepMatches(sem, cs, TranslateDup(cs, n), Dup(n), x, stack)
  {
    var g := Get(cs.ls, cs.e, n);
    var y := GetStands(sem, cs.ls, cs.e, n, x, stack);
    PushStands(g.ls, g.e.nregs, g.v, y, stack);
  }

  lemma JumpMatches(sem: Sem, cs: CState, x: XState, stack: seq<Word>)
    requires CsOk(cs) && cs.term.None? && StandsFor(cs.ls, cs.e.nregs, x, stack)
    ensures |stack| >= 1 && StackOk(Jump, |stack|) ==>
      StepMatches(sem, cs, TranslateJump(cs), Jump, x, stack)
    ensures |stack| >= 2 && StackOk(JumpI, |stack|) ==>
      StepMatches(sem, cs, TranslateJumpI(cs), JumpI, x, stack)
  {
    if |stack| >= 1 {
      var g := PopVals(cs.ls, cs.e, 1);
      var y := PopsStand(sem, cs.ls, cs.e, 1, x, stack);
      assert Value(g.vs[0], y.regs) == Values(g.vs, y.regs)[0] == stack[..1][0];
    }
    if |stack| >= 2 {
      var g := PopVals(cs.ls, cs.e, 2);
      var y := PopsStand(sem, cs.ls, cs.e, 2, x, stack);
      assert Value(g.vs[0], y.regs) == Values(g.vs, y.regs)[0] == stack[..2][0];
      assert Value(g.vs[1], y.regs) == Values(g.vs, y.regs)[1] == stack[..2][1];
    }
  }

  lemma PlainMatches(sem: Sem, cs: CState, i: Ins, x: XState, stack: seq<Word>)
    requires GasOk(sem) && CsOk(cs) && cs.term.None? && StandsFor(cs.ls, cs.e.nregs, x, stack)
    requires GoodIns(i) && StackOk(i, |stack|) && !i.Invalid? && !(i.Dyn? && Commits(i.d))
    ensures StepMatches(sem, cs, Translate(sem.pure, cs, i), i, x, stack)
  {
    assert Tail(cs.e, cs.e) == [];
    match i
    case Push(w) => PushStands(cs.ls, cs.e.nregs, Const(w), x, stack);
    case Dup(n) => DupMatches(sem, cs, n, x, stack);
    case Swap(n) => var _ := SwapStands(sem, cs.ls, cs.e, n, x, stack);
    case Pop => var _ := PopStands(sem, cs.ls, cs.e, x, stack);
    case JumpDest =>
    case Pure(p) => PureMatches(sem, cs, p, x, stack);
    case Dyn(d) => DynMatches(sem, cs, d, x, stack);
    case Jump => JumpMatches(sem, cs, x, stack);
    case JumpI => JumpMatches(sem, cs, x, stack);
    case Halt(None, _) =>
    case Halt(Some(d), rc) => HaltMatches(sem, cs, d, rc, x, stack);
  }

  /** Gas taken away before an instruction that does not commit might as well be taken
      away after it. */
  lemma PerformShift(sem: Sem, i: Ins, m: Mach, stack: seq<Word>, k: nat)
    requires ShiftOk(sem) && GoodIns(i) && StackOk(i, |stack|) && !(i.Dyn? && Commits(i.d))
    requires k <= m.gas
    ensures Perform(sem, i, IState(m.(gas := m.gas - k), stack)) ==
            LessStep(Perform(sem, i, IState(m, stack)), k)
  {
    match i
    case Dyn(d) => var _ := Less(sem.act(d, stack[..DynPops(d)], m), k);
    case Halt(Some(d), _) => var _ := Less(sem.act(d, stack[..DynPops(d)], m), k);
    case _ =>
  }

  /** The interpreter's next state, gas check aside. */
  function After(sem: Sem, i: Ins, r: Option<Stepped>): Option<Stepped> {
    if r.Some? && StackOk(i, |r.value.s.stack|) then Perform(sem, i, r.value.s) else None
  }

  /** The block's check on the sizes so far, together with the instruction's own check,
      is the block's check on the sizes including the instruction. */
  lemma FitsStep(sem: Sem, cs: CState, t: CState, s0: XState, r: Option<Stepped>, i: Ins)
    requires CsOk(cs) && Agree(sem, cs, s0, r) && !Aborted(cs) && BoundsExact(cs.ls, t.ls, i)
    ensures Fits(t.ls, s0.sp) ==> Fits(cs.ls, s0.sp)
    ensures r.Some? ==> Fits(cs.ls, s0.sp) && |r.value.s.stack| == s0.sp + cs.ls.Size()
    ensures r.Some? ==> (Fits(t.ls, s0.sp) <==> StackOk(i, |r.value.s.stack|))
  {
    if r.Some? {
      assert AgreeAt(sem, cs, s0, r, cs.g.blockCost);
    }
  }

  lemma FilledTail(cs: CState, t: CState, c: nat)
    requires MeterOk(cs.g, cs.e) && MeterOk(t.g, t.e) && Extends(cs.e, t.e) && cs.g == t.g
    ensures Filled(t, c) == Filled(cs, c) + Tail(cs.e, t.e)
  {
  }

  /** From agreement before an instruction to agreement after it: u is the interpreter's
      next state, v the same started with less gas. */
  lemma Advance(sem: Sem, cs: CState, t: CState, s0: XState, r: Option<Stepped>, c: nat,
                u: Option<Stepped>, v: Option<Stepped>)
    requires CsOk(cs) && CsOk(t) && t.g == cs.g && Extends(cs.e, t.e) && cs.g.blockCost <= c
    requires AgreeAt(sem, cs, s0, r, c)
    requires r.None? ==> u.None?
    requires r.Some? && u.Some? ==> u.value.s.m.gas <= r.value.s.m.gas
    requires var p := LessStep(r, c - cs.g.blockCost);
      p.Some? ==>
        && v == LessStep(u, c - cs.g.blockCost)
        && var x := Exec(sem, Filled(cs, c), s0);
           x.Some? && Matches(t, x.value, Exec(sem, Tail(cs.e, t.e), x.value), v)
    ensures AgreeAt(sem, t, s0, u, c)
  {
    FilledTail(cs, t, c);
    ExecAppend(sem, Filled(cs, c), Tail(cs.e, t.e), s0);
  }

  ghost predicate StepsMatch(sem: Sem, cs: CState, t: CState, i: Ins)
    requires CsOk(cs)
  {
    forall x, stack {:trigger StepMatches(sem, cs, t, i, x, stack)} ::
      StandsFor(cs.ls, cs.e.nregs, x, stack) && StackOk(i, |stack|) ==>
      StepMatches(sem, cs, t, i, x, stack)
  }

  lemma PlainAgreesAt(sem: Sem, cs: CState, t: CState, s0: XState, r: Option<Stepped>, i: Ins, c: nat)
    requires GasOk(sem) && ShiftOk(sem)
    requires CsOk(cs) && GoodIns(i) && !i.Invalid? && !(i.Dyn? && Commits(i.d))
    requires Agree(sem, cs, s0, r) && !Aborted(cs) && CsOk(t) && StepsMatch(sem, cs, t, i)
    requires Fits(t.ls, s0.sp) && t.g == cs.g && Extends(cs.e, t.e) && BoundsExact(cs.ls, t.ls, i)
    requires Admissible(cs, c)
    ensures AgreeAt(sem, t, s0, After(sem, i, r), c)
  {
    var d := c - cs.g.blockCost;
    FitsStep(sem, cs, t, s0, r, i);
    assert AgreeAt(sem, cs, s0, r, c);
    var p := LessStep(r, d);
    var u := After(sem, i, r);
    var v := None;
    if r.Some? {
      PerformGas(sem, i, r.value.s);
    }
    if p.Some? {
      var x := Exec(sem, Filled(cs, c), s0).value;
      assert StepMatches(sem, cs, t, i, x, p.value.s.stack);
      PerformShift(sem, i, r.value.s.m, r.value.s.stack, d);
      v := Perform(sem, i, p.value.s);
    }
    Advance(sem, cs, t, s0, r, c, u, v);
  }

  lemma PerformGas(sem: Sem, i: Ins, s: IState)
    requires GasOk(sem) && StackOk(i, |s.stack|)
    ensures Perform(sem, i, s).Some? ==> Perform(sem, i, s).value.s.m.gas <= s.m.gas
  {
  }

  lemma PlainAgrees(sem: Sem, cs: CState, s0: XState, r: Option<Stepped>, i: Ins)
    requires GasOk(sem) && ShiftOk(sem)
    requires CsOk(cs) && cs.term.None? && GoodIns(i) && !(i.Dyn? && Commits(i.d))
    requires Agree(sem, cs, s0, r)
    ensures Agree(sem, Translate(sem.pure, cs, i), s0, After(sem, i, r))
  {
    var t := Translate(sem.pure, cs, i);
    FitsStep(sem, cs, t, s0, r, i);
    if Fits(t.ls, s0.sp) && !i.Invalid? {
      ExtendsAll(sem.pure, cs, i);
      forall x, stack | StandsFor(cs.ls, cs.e.nregs, x, stack) && StackOk(i, |stack|)
        ensures StepMatches(sem, cs, t, i, x, stack) {
        PlainMatches(sem, cs, i, x, stack);
      }
      forall c: nat | Admissible(t, c) ensures AgreeAt(sem, t, s0, After(sem, i, r), c) {
        PlainAgreesAt(sem, cs, t, s0, r, i, c);
      }
    }
  }

  // ---------------------------------------------------------------- committing

  /** Committing makes the pending check charge exactly what was counted. */
  lemma CommitFills(sem: Sem, g: Meter, e: Emitted, s0: XState)
    requires MeterOk(g, e)
    ensures Exec(sem, Commit(g, e).e.ops, s0) == Exec(sem, FilledOps(g, e, g.blockCost), s0)
  {
    if g.check.Some? && g.blockCost == 0 {
      var k := g.check.value;
      var ops := e.ops[k := Check(0)];
      assert ops[..k] == e.ops[..k] && ops[k + 1..] == e.ops[k + 1..];
      ExecErase(sem, ops, k, s0);
    }
  }

  /** Operations added before a commit run after the check that the commit fills in. */
  lemma CommitAppends(sem: Sem, cs: CState, e: Emitted, s0: XState)
    requires MeterOk(cs.g, cs.e) && MeterOk(cs.g, e) && Extends(cs.e, e)
    ensures Exec(sem, Commit(cs.g, e).e.ops, s0) ==
            AndThen(sem, Exec(sem, Filled(cs, cs.g.blockCost), s0), Tail(cs.e, e))
  {
    var bc := cs.g.blockCost;
    CommitFills(sem, cs.g, e, s0);
    assert FilledOps(cs.g, e, bc) == Filled(cs, bc) + Tail(cs.e, e);
    ExecAppend(sem, Filled(cs, bc), Tail(cs.e, e), s0);
  }

  /** The operands of a committing instruction are on hand after the commit. */
  lemma PopsThenCommit(sem: Sem, cs: CState, s0: XState, r: Option<Stepped>, n: nat) returns (x: Option<XState>)
    requires CsOk(cs) && Agree(sem, cs, s0, r) && !Aborted(cs) && Fits(cs.ls, s0.sp)
    requires r.Some? ==> n <= |r.value.s.stack|
    requires MeterOk(cs.g, PopVals(cs.ls, cs.e, n).e)
    ensures var g := PopVals(cs.ls, cs.e, n);
      && x == Exec(sem, Commit(cs.g, g.e).e.ops, s0)
      && if r.None? then x.None?
         else
           && x.Some? && x.value.m == r.value.s.m && x.value.slots == s0.slots && x.value.sp == s0.sp
           && StandsFor(g.ls, g.e.nregs, x.value, r.value.s.stack[n..])
           && Values(g.vs, x.value.regs) == r.value.s.stack[..n]
  {
    var g := PopVals(cs.ls, cs.e, n);
    PopsBounds(cs.ls, cs.e, n);
    CommitAppends(sem, cs, g.e, s0);
    x := Exec(sem, Commit(cs.g, g.e).e.ops, s0);
    assert AgreeAt(sem, cs, s0, r, cs.g.blockCost);
    if r.Some? {
      var y := Exec(sem, Filled(cs, cs.g.blockCost), s0).value;
      var _ := PopsStand(sem, cs.ls, cs.e, n, y, r.value.s.stack);
    }
  }

  /** The compiler's state after a committing instruction. */
  function Committed(cs: CState, d: DynOp): (t: CState)
    requires MeterOk(cs.g, PopVals(cs.ls, cs.e, DynPops(d)).e)
  {
    var g := PopVals(cs.ls, cs.e, DynPops(d));
    var e := Commit(cs.g, g.e).e;
    CState(PushVal(g.ls, Reg(e.nregs)), EmitDo(e, d, g.vs), Meter(0, None), cs.term)
  }

  lemma CommitIs(cs: CState, d: DynOp)
    requires CsOk(cs) && Commits(d)
    ensures MeterOk(cs.g, PopVals(cs.ls, cs.e, DynPops(d)).e) && TranslateDyn(cs, d) == Committed(cs, d)
  {
    PopsKeepMeter(cs.ls, cs.e, DynPops(d), cs.g);
  }

  /** The instruction itself, its operands at hand. */
  lemma DoAfter(sem: Sem, g: GotN, e: Emitted, d: DynOp, s0: XState, r: Stepped)
    requires GasOk(sem) && DynPushes(d) == 1 && DynPops(d) <= |r.s.stack| && StackOk(Dyn(d), |r.s.stack|)
    requires var x := Exec(sem, e.ops, s0);
      && x.Some? && x.value.m == r.s.m && x.value.slots == s0.slots && x.value.sp == s0.sp
      && StandsFor(g.ls, e.nregs, x.value, r.s.stack[DynPops(d)..])
      && Values(g.vs, x.value.regs) == r.s.stack[..DynPops(d)]
    ensures var t := CState(PushVal(g.ls, Reg(e.nregs)), EmitDo(e, d, g.vs), Meter(0, None), None);
      Matches(t, s0, Exec(sem, t.e.ops, s0), Perform(sem, Dyn(d), r.s))
  {
    var n, x := DynPops(d), Exec(sem, e.ops, s0).value;
    ExecAppend(sem, e.ops, [Do(d, g.vs)], s0);
    assert Exec(sem, EmitDo(e, d, g.vs).ops, s0) == Exec(sem, [Do(d, g.vs)], x);
    DoMatches(sem, g.ls, e, d, g.vs, x, r.s.stack[..n], r.s.stack[n..]);
  }

  /** The emitted code, its gas charged in full, performs the instruction. */
  lemma CommitMatches(sem: Sem, cs: CState, s0: XState, r: Option<Stepped>, d: DynOp)
    requires GasOk(sem) && CsOk(cs) && cs.term.None? && Commits(d) && Agree(sem, cs, s0, r) && Fits(cs.ls, s0.sp)
    requires MeterOk(cs.g, PopVals(cs.ls, cs.e, DynPops(d)).e)
    requires r.Some? ==> StackOk(Dyn(d), |r.value.s.stack|)
    ensures var t := Committed(cs, d);
      Matches(t, s0, Exec(sem, t.e.ops, s0), After(sem, Dyn(d), r))
  {
    var g := PopVals(cs.ls, cs.e, DynPops(d));
    var _ := PopsThenCommit(sem, cs, s0, r, DynPops(d));
    var e := Commit(cs.g, g.e).e;
    if r.Some? {
      DoAfter(sem, g, e, d, s0, r.value);
    } else {
      ExecAppend(sem, e.ops, [Do(d, g.vs)], s0);
    }
  }

  lemma CommitAgrees(sem: Sem, cs: CState, s0: XState, r: Option<Stepped>, d: DynOp)
    requires GasOk(sem) && CsOk(cs) && cs.term.None? && Commits(d) && Agree(sem, cs, s0, r)
    ensures Agree(sem, TranslateDyn(cs, d), s0, After(sem, Dyn(d), r))
  {
    var t := TranslateDyn(cs, d);
    FitsStep(sem, cs, t, s0, r, Dyn(d));
    CommitIs(cs, d);
    if Fits(t.ls, s0.sp) {
      CommitMatches(sem, cs, s0, r, d);
      assert Filled(t, 0) == t.e.ops && LessStep(After(sem, Dyn(d), r), 0) == After(sem, Dyn(d), r);
    }
  }

  // ---------------------------------------------------------------- the block

  /** The interpreter on a list of instructions, from its result so far. */
  function StepAll(sem: Sem, instrs: seq<Instr>, r: Option<Stepped>): Option<Stepped>
    decreases |instrs|
  {
    if instrs == [] || r.None? then r
    else StepAll(sem, instrs[1..], Step(sem, instrs[0], r.value.s))
  }

  /** Only the last instruction may leave the block. */
  ghost predicate Straight(instrs: seq<Instr>) {
    forall k :: 0 <= k < |instrs| - 1 ==> !IsControl(instrs[k].ins)
  }

  /** The order of the interpreter's two checks does not matter. */
  lemma StepIsAfter(sem: Sem, i: Instr, r: Option<Stepped>)
    ensures After(sem, i.ins, Charge(r, i.cost)) == if r.None? then None else Step(sem, i, r.value.s)
  {
  }

  lemma InstrAgrees(sem: Sem, cs: CState, s0: XState, r: Option<Stepped>, i: Instr)
    requires GasOk(sem) && ShiftOk(sem) && CsOk(cs) && GoodIns(i.ins)
    requires cs.term.None? && Agree(sem, cs, s0, r)
    ensures Agree(sem, CompileIns(sem.pure, cs, i), s0, After(sem, i.ins, Charge(r, i.cost)))
  {
    CountAgrees(sem, cs, s0, r, i.cost);
    var m := Count(cs.g, cs.e, i.cost);
    var c := cs.(g := m.g, e := m.e);
    if i.ins.Dyn? && Commits(i.ins.d) {
      CommitAgrees(sem, c, s0, Charge(r, i.cost), i.ins.d);
    } else {
      PlainAgrees(sem, c, s0, Charge(r, i.cost), i.ins);
    }
  }

  lemma {:induction false} InstrsAgree(sem: Sem, cs: CState, s0: XState, r: Option<Stepped>, instrs: seq<Instr>)
    requires GasOk(sem) && ShiftOk(sem) && CsOk(cs) && AllGood(instrs) && Straight(instrs)
    requires cs.term.None? || Aborted(cs) || instrs == []
    requires Agree(sem, cs, s0, r)
    ensures Agree(sem, CompileInstrs(sem.pure, cs, instrs), s0, StepAll(sem, instrs, r))
    decreases |instrs|
  {
    if instrs != [] && !Aborted(cs) {
      InstrAgrees(sem, cs, s0, r, instrs[0]);
      var t := CompileIns(sem.pure, cs, instrs[0]);
      StepIsAfter(sem, instrs[0], r);
      var u := After(sem, instrs[0].ins, Charge(r, instrs[0].cost));
      TermStays(sem.pure, cs, instrs[0]);
      InstrsAgree(sem, t, s0, u, instrs[1..]);
      if r.None? { assert StepAll(sem, instrs[1..], u) == u; }
    }
  }

  lemma TermStays(fold: Folder, cs: CState, i: Instr)
    requires CsOk(cs) && GoodIns(i.ins) && cs.term.None?
    ensures var t := CompileIns(fold, cs, i);
      (t.term.None? <==> !IsControl(i.ins) && !i.ins.Invalid?) &&
      (Aborted(t) <==> i.ins.Invalid?)
  {
  }
}
