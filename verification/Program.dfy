/** The whole compiled program: its blocks, its resolved jumps, and its runs. */
module Program {
  import opened Words
  import opened Instructions
  import opened Machine
  import opened Ir
  import opened BlockCompiler
  import opened BlockCutter

  // ---------------------------------------------------------------- building

  /** The code blocks in order, the cases of the jump-table switch, and the jump table's
      phi: the destination operand of each block that still branches to the table. */
  datatype Prog = Prog(blocks: seq<CBlock>, table: map<nat, nat>, phi: map<nat, Val>)

  function NextSucc(i: nat, n: nat): Succ {
    if i + 1 < n then CodeBlock(i + 1) else StopBlock
  }

  /** The switch successor for a destination; the default is Abort. */
  function FindCase(table: map<nat, nat>, w: Word): Succ {
    if w in table then CodeBlock(table[w]) else AbortBlock
  }

  /** A destination that is a constant becomes a direct edge. */
  function DirectSucc(table: map<nat, nat>, dest: Val): Succ {
    if dest.Const? then FindCase(table, dest.w) else JumpTable
  }

  function ResolveTerm(term: Option<Term>, next: Succ, table: map<nat, nat>): Term {
    match term
    case None => Br(next, None)
    case Some(Br(JumpTable, Some(dest))) => Br(DirectSucc(table, dest), Some(dest))
    case Some(CondBr(cond, JumpTable, _, Some(dest))) =>
      CondBr(cond, DirectSucc(table, dest), next, Some(dest))
    case Some(t) => t
  }

  /** The operand that the phi gets from a block. */
  function PhiOperand(term: Option<Term>): Option<Val> {
    match term
    case Some(Br(JumpTable, Some(dest))) => if dest.Const? then None else Some(dest)
    case Some(CondBr(_, JumpTable, _, Some(dest))) => if dest.Const? then None else Some(dest)
    case _ => None
  }

  /** The cases added while compiling the first n blocks: one for each block that begins
      with a JUMPDEST. */
  function TableOf(code: seq<Byte>, cuts: seq<Block>, n: nat): map<nat, nat>
    requires n <= |cuts|
  {
    if n == 0 then map[]
    else
      var b := cuts[n - 1].begin;
      var t := TableOf(code, cuts, n - 1);
      if b < |code| && code[b] == JUMPDEST then t[b := n - 1] else t
  }

  function CompileAll(fold: Folder, cfg: Config, code: seq<Byte>, cuts: seq<Block>): (cbs: seq<CBlock>)
    requires forall k :: 0 <= k < |cuts| ==> cuts[k].end <= |code|
    ensures |cbs| == |cuts|
  {
    seq(|cuts|, (k: nat) requires k < |cuts| => CompileBlock(fold, cfg, code, cuts[k].begin, cuts[k].end))
  }

  function Resolve(cbs: seq<CBlock>, table: map<nat, nat>): (p: Prog)
    ensures |p.blocks| == |cbs|
  {
    Prog(seq(|cbs|, (k: nat) requires k < |cbs| =>
           cbs[k].(term := Some(ResolveTerm(cbs[k].term, NextSucc(k, |cbs|), table)))),
         table,
         map k: nat | k < |cbs| && PhiOperand(cbs[k].term).Some? :: PhiOperand(cbs[k].term).value)
  }

  function ProgramOf(fold: Folder, cfg: Config, code: seq<Byte>, cuts: seq<Block>): (p: Prog)
    requires forall k :: 0 <= k < |cuts| ==> cuts[k].end <= |code|
    ensures |p.blocks| == |cuts|
  {
    Resolve(CompileAll(fold, cfg, code, cuts), TableOf(code, cuts, |cuts|))
  }

  // ---------------------------------------------------------------- running

  /** Between blocks: the machine, the stack memory and the number of items in it. */
  datatype BState = BState(m: Mach, slots: seq<Word>, size: nat)

  datatype Ran = Ran(b: BState, regs: seq<Word>)

  /** stack.prepare, then the operations of the block. */
  function RunBlock(sem: Sem, cb: CBlock, b: BState): Option<Ran> {
    if b.size + cb.min < 0 || b.size + cb.max > STACK_LIMIT || b.size + cb.diff < 0 then None
    else
      var x :- Exec(sem, cb.ops, XState(b.m, [], b.slots, b.size));
      Some(Ran(BState(x.m, x.slots, b.size + cb.diff), x.regs))
  }

  /** The static gas that the checks of a block charge. */
  function StaticGas(ops: seq<Op>): nat {
    if ops == [] then 0
    else
      var last := ops[|ops| - 1];
      StaticGas(ops[..|ops| - 1]) + (if last.Check? then last.cost else 0)
  }

  lemma {:induction false} ExecSpends(sem: Sem, ops: seq<Op>, x: XState)
    requires GasOk(sem)
    ensures Exec(sem, ops, x).Some? ==> Exec(sem, ops, x).value.m.gas + StaticGas(ops) <= x.m.gas
  {
    if ops != [] {
      ExecSpends(sem, ops[..|ops| - 1], x);
    }
  }

  /** The successor that control takes at the end of a block. */
  function Taken(t: Term, regs: seq<Word>): Succ {
    match t
    case Ret(_) => Unset
    case Br(succ, _) => succ
    case CondBr(cond, succ, other, _) => if Value(cond, regs) != 0 then succ else other
  }

  /** Where a branch of block i arrives; the jump table switches on its phi. */
  function Arrive(p: Prog, i: nat, succ: Succ, regs: seq<Word>): Succ {
    if succ != JumpTable then succ
    else if i in p.phi then FindCase(p.table, Value(p.phi[i], regs))
    else AbortBlock
  }

  predicate Onward(succ: Succ, i: nat) {
    match succ
    case JumpTable => false
    case CodeBlock(j) => i < j
    case _ => true
  }

  /** A block that can lead backwards charges some gas. */
  predicate BlockEnds(cb: CBlock, i: nat) {
    && cb.term.Some?
    && (StaticGas(cb.ops) > 0 ||
        match cb.term.value
        case Ret(_) => true
        case Br(succ, _) => Onward(succ, i)
        case CondBr(_, succ, other, _) => Onward(succ, i) && Onward(other, i))
  }

  predicate AllEnd(p: Prog) {
    forall i :: 0 <= i < |p.blocks| ==> BlockEnds(p.blocks[i], i)
  }

  /** The stack, top first. */
  function StackOf(b: BState): seq<Word> {
    seq(b.size, (k: nat) requires k < b.size => SlotAt(b.slots, b.size - 1 - k))
  }

  /** The compiled program from block i on. It always ends: going backwards costs gas. */
  function RunProgram(sem: Sem, p: Prog, i: nat, b: BState): Outcome
    requires GasOk(sem) && AllEnd(p)
    decreases b.m.gas, |p.blocks| - i
  {
    if i >= |p.blocks| then Done(Stop, b.m, StackOf(b))
    else
      var cb := p.blocks[i];
      ExecSpends(sem, cb.ops, XState(b.m, [], b.slots, b.size));
      match RunBlock(sem, cb, b)
      case None => Failed
      case Some(ran) =>
        if cb.term.value.Ret? then Finish(cb.term.value.rc, ran.b.m, StackOf(ran.b))
        else
          match Arrive(p, i, Taken(cb.term.value, ran.regs), ran.regs)
          case CodeBlock(j) => RunProgram(sem, p, j, ran.b)
          case StopBlock => Done(Stop, ran.b.m, StackOf(ran.b))
          case _ => Failed
  }
}
