/** The emitted accesses to stack memory: each entry item is fetched at most once, and where
    stack.prepare passes, no fetch or store leaves the stack. */
module StackSafety {
  import opened Words
  import opened Instructions
  import opened Machine
  import opened Ir
  import opened LocalStacks
  import opened BlockCompiler

  /** No write-back yet; what was fetched is remembered, and was fetched once. */
  ghost predicate FetchOk(ls: Locals, ops: seq<Op>) {
    && (forall i :: 0 <= i < |ops| ==> !ops[i].Store?)
    && (forall i :: 0 <= i < |ops| && ops[i].Fetch? ==>
          ops[i].slot < |ls.input| && ls.input[ops[i].slot].Some?)
    && (forall i, j :: 0 <= i < j < |ops| && ops[i].Fetch? && ops[j].Fetch? ==> ops[i].slot != ops[j].slot)
  }

  /** l remembers every fetched item that ls remembers. */
  ghost predicate Remembers(ls: Locals, l: Locals) {
    && |ls.input| <= |l.input|
    && forall k :: 0 <= k < |ls.input| && ls.input[k].Some? ==> l.input[k].Some?
  }

  lemma FetchMore(ls: Locals, l: Locals, ops: seq<Op>)
    requires FetchOk(ls, ops) && Remembers(ls, l)
    ensures FetchOk(l, ops)
  {
  }

  lemma GetFetch(ls: Locals, e: Emitted, index: nat)
    requires FetchOk(ls, e.ops)
    ensures var g := Get(ls, e, index); FetchOk(g.ls, g.e.ops) && Remembers(ls, g.ls)
  {
    var g := Get(ls, e, index);
    FetchMore(ls, g.ls, e.ops);
  }

  lemma PopFetch(ls: Locals, e: Emitted)
    requires FetchOk(ls, e.ops)
    ensures var g := PopVal(ls, e); FetchOk(g.ls, g.e.ops)
  {
    GetFetch(ls, e, 0);
    var g := Get(ls, e, 0);
    FetchMore(g.ls, PopVal(ls, e).ls, g.e.ops);
  }

  lemma {:induction false} PopsFetch(ls: Locals, e: Emitted, n: nat)
    requires FetchOk(ls, e.ops)
    ensures var g := PopVals(ls, e, n); FetchOk(g.ls, g.e.ops)
    decreases n
  {
    if n > 0 {
      var g := PopVal(ls, e);
      PopFetch(ls, e);
      PopsFetch(g.ls, g.e, n - 1);
    }
  }

  lemma DupFetch(ls: Locals, e: Emitted, index: nat)
    requires FetchOk(ls, e.ops)
    ensures var g := DupVal(ls, e, index); FetchOk(g.ls, g.e.ops)
  {
    GetFetch(ls, e, index);
    var g := Get(ls, e, index);
    FetchMore(g.ls, PushVal(g.ls, g.v), g.e.ops);
  }

  lemma SwapFetch(ls: Locals, e: Emitted, index: nat)
    requires FetchOk(ls, e.ops) && Wf(ls, e.nregs) && index > 0
    ensures var g := SwapVal(ls, e, index); FetchOk(g.ls, g.e.ops)
  {
    GetBounds(ls, e, index);
    GetFetch(ls, e, index);
    var g := Get(ls, e, index);
    GetBounds(g.ls, g.e, 0);
    GetFetch(g.ls, g.e, 0);
    var h := Get(g.ls, g.e, 0);
    FetchMore(h.ls, SwapVal(ls, e, index).ls, h.e.ops);
  }

  /** Appending operations that neither fetch nor store. */
  lemma FetchAppend(ls: Locals, ops: seq<Op>, op: Op)
    requires FetchOk(ls, ops) && !op.Fetch? && !op.Store?
    ensures FetchOk(ls, ops + [op])
  {
  }

  lemma CountFetch(ls: Locals, g: Meter, e: Emitted, cost: nat)
    requires FetchOk(ls, e.ops)
    ensures FetchOk(ls, Count(g, e, cost).e.ops)
  {
  }

  lemma CommitFetch(ls: Locals, g: Meter, e: Emitted)
    requires FetchOk(ls, e.ops) && MeterOk(g, e)
    ensures FetchOk(ls, Commit(g, e).e.ops)
  {
    match g.check
    case None =>
    case Some(k) =>
      if g.blockCost == 0 {
        RemoveFetch(ls, e.ops, k);
      } else {
        assert !e.ops[k].Fetch?;
      }
  }

  lemma RemoveFetch(ls: Locals, ops: seq<Op>, k: nat)
    requires FetchOk(ls, ops) && k < |ops|
    ensures FetchOk(ls, ops[..k] + ops[k + 1..])
  {
    var r := ops[..k] + ops[k + 1..];
    assert forall i :: 0 <= i < |r| ==> r[i] == ops[if i < k then i else i + 1];
  }

  lemma DynFetch(cs: CState, d: DynOp)
    requires CsOk(cs) && FetchOk(cs.ls, cs.e.ops)
    ensures var t := TranslateDyn(cs, d); FetchOk(t.ls, t.e.ops)
  {
    PopsFetch(cs.ls, cs.e, DynPops(d));
    PopsKeepMeter(cs.ls, cs.e, DynPops(d), cs.g);
    var g := PopVals(cs.ls, cs.e, DynPops(d));
    if Commits(d) {
      CommitFetch(g.ls, cs.g, g.e);
    }
    var m := CommitIf(Commits(d), cs.g, g.e);
    FetchAppend(g.ls, m.e.ops, Do(d, g.vs));
    FetchMore(g.ls, TranslateDyn(cs, d).ls, m.e.ops + [Do(d, g.vs)]);
  }

  lemma PureFetch(fold: Folder, cs: CState, p: PureOp)
    requires CsOk(cs) && FetchOk(cs.ls, cs.e.ops)
    ensures var t := TranslatePure(fold, cs, p); FetchOk(t.ls, t.e.ops)
  {
    PopsFetch(cs.ls, cs.e, Arity(p));
    var g := PopVals(cs.ls, cs.e, Arity(p));
    FetchAppend(g.ls, g.e.ops, Eval(p, g.vs));
    var t := TranslatePure(fold, cs, p);
    FetchMore(g.ls, t.ls, t.e.ops);
  }

  lemma HaltFetch(cs: CState, d: DynOp, rc: ReturnCode)
    requires CsOk(cs) && GoodIns(Halt(Some(d), rc)) && FetchOk(cs.ls, cs.e.ops)
    ensures var t := TranslateHalt(cs, d, rc); FetchOk(t.ls, t.e.ops)
  {
    PopsFetch(cs.ls, cs.e, DynPops(d));
    var g := PopVals(cs.ls, cs.e, DynPops(d));
    FetchAppend(g.ls, g.e.ops, Do(d, g.vs));
  }

  lemma TranslateFetch(fold: Folder, cs: CState, i: Ins)
    requires CsOk(cs) && GoodIns(i) && FetchOk(cs.ls, cs.e.ops)
    ensures var t := Translate(fold, cs, i); FetchOk(t.ls, t.e.ops)
  {
    match i
    case Push(w) => FetchMore(cs.ls, PushVal(cs.ls, Const(w)), cs.e.ops);
    case Dup(n) => DupFetch(cs.ls, cs.e, n);
    case Swap(n) => SwapFetch(cs.ls, cs.e, n);
    case Pop => PopFetch(cs.ls, cs.e);
    case Pure(p) => PureFetch(fold, cs, p);
    case Dyn(d) => DynFetch(cs, d);
    case Jump => PopsFetch(cs.ls, cs.e, 1);
    case JumpI => PopsFetch(cs.ls, cs.e, 2);
    case Halt(Some(d), rc) => HaltFetch(cs, d, rc);
    case _ =>
  }

  lemma {:induction false} InstrsFetch(fold: Folder, cs: CState, instrs: seq<Instr>)
    requires CsOk(cs) && AllGood(instrs) && FetchOk(cs.ls, cs.e.ops)
    ensures var t := CompileInstrs(fold, cs, instrs); FetchOk(t.ls, t.e.ops)
    decreases |instrs|
  {
    if instrs != [] && !Aborted(cs) {
      var m := Count(cs.g, cs.e, instrs[0].cost);
      CountFetch(cs.ls, cs.g, cs.e, instrs[0].cost);
      TranslateFetch(fold, cs.(g := m.g, e := m.e), instrs[0].ins);
      InstrsFetch(fold, CompileIns(fold, cs, instrs[0]), instrs[1..]);
    }
  }

  lemma {:induction false} StoresInside(ls: Locals, nregs: nat, bound: int, k: nat)
    requires Wf(ls, nregs) && -|ls.input| <= bound <= ls.Size() && k < |Stores(ls, bound)|
    ensures var op := Stores(ls, bound)[k]; op.Store? && ls.min <= op.to < bound
    decreases bound + |ls.input|
  {
    if bound > -|ls.input| {
      if k < |Stores(ls, bound - 1)| {
        StoresInside(ls, nregs, bound - 1, k);
      }
    }
  }

  /** The operations of a finished block: those of its instructions, then the write-back. */
  lemma BlockFetch(fold: Folder, cfg: Config, code: seq<Byte>, begin: nat, end: nat)
    returns (ls: Locals, nregs: nat, ops: seq<Op>)
    requires end <= |code|
    ensures Wf(ls, nregs) && FetchOk(ls, ops)
    ensures var cb := CompileBlock(fold, cfg, code, begin, end);
      cb.ops == ops + Stores(ls, ls.Size()) && cb.min == ls.min && cb.max == ls.max
  {
    var cs := CompileInstrs(fold, START, InstrsOf(cfg, code, begin, end));
    InstrsFetch(fold, START, InstrsOf(cfg, code, begin, end));
    CommitFetch(cs.ls, cs.g, cs.e);
    ls, nregs, ops := cs.ls, cs.e.nregs, Commit(cs.g, cs.e).e.ops;
  }

  /** A fetch is of an item that is there, a store below the limit. */
  predicate Inside(op: Op, size: nat) {
    match op
    case Fetch(slot) => slot < size <= 1024
    case Store(to, _) => 0 <= size + to < 1024
    case _ => true
  }

  lemma InsideAt(ls: Locals, nregs: nat, ops: seq<Op>, size: nat, k: nat)
    requires Wf(ls, nregs) && FetchOk(ls, ops) && k < |ops + Stores(ls, ls.Size())|
    requires size + ls.min >= 0 && size + ls.max <= STACK_LIMIT
    ensures Inside((ops + Stores(ls, ls.Size()))[k], size)
  {
    if k >= |ops| {
      StoresInside(ls, nregs, ls.Size(), k - |ops|);
    }
  }

  /** If the one check of the block passes, every access of the block is inside the stack: a
      fetch among the items that are there, a store below the limit. */
  lemma AccessesInside(fold: Folder, cfg: Config, code: seq<Byte>, begin: nat, end: nat, size: nat, k: nat)
    requires end <= |code|
    ensures var cb := CompileBlock(fold, cfg, code, begin, end);
      k < |cb.ops| && size + cb.min >= 0 && size + cb.max <= STACK_LIMIT ==> Inside(cb.ops[k], size)
  {
    var ls, nregs, ops := BlockFetch(fold, cfg, code, begin, end);
    if k < |ops + Stores(ls, ls.Size())| && size + ls.min >= 0 && size + ls.max <= STACK_LIMIT {
      InsideAt(ls, nregs, ops, size, k);
    }
  }

  lemma OnceAt(ls: Locals, nregs: nat, ops: seq<Op>, i: nat, j: nat)
    requires Wf(ls, nregs) && FetchOk(ls, ops) && i < j < |ops + Stores(ls, ls.Size())|
    ensures var all := ops + Stores(ls, ls.Size());
      all[i].Fetch? && all[j].Fetch? ==> all[i].slot != all[j].slot
  {
    if j >= |ops| {
      StoresInside(ls, nregs, ls.Size(), j - |ops|);
    }
  }

  /** No item of the entry stack is fetched twice in a block. */
  lemma FetchedOnce(fold: Folder, cfg: Config, code: seq<Byte>, begin: nat, end: nat, i: nat, j: nat)
    requires end <= |code|
    ensures var ops := CompileBlock(fold, cfg, code, begin, end).ops;
      i < j < |ops| && ops[i].Fetch? && ops[j].Fetch? ==> ops[i].slot != ops[j].slot
  {
    var ls, nregs, ops := BlockFetch(fold, cfg, code, begin, end);
    if i < j < |ops + Stores(ls, ls.Size())| {
      OnceAt(ls, nregs, ops, i, j);
    }
  }
}
