/** The code emitted for one basic block, and what running it does. */
module Ir {
  import opened Words
  import opened Instructions
  import opened Machine

  /** An operand: a constant known to the compiler, or the i-th value computed by the block. */
  datatype Val = Const(w: Word) | Reg(i: nat)

  /** Emitted operations. Slots count from the stack pointer of the block, which is just
      above the stack as the block finds it: Fetch(0) reads the entry top. */
  datatype Op =
    | Check(cost: nat)
    | Fetch(slot: nat)
    | Eval(p: PureOp, args: seq<Val>)
    | Do(d: DynOp, args: seq<Val>)
    | Store(to: int, v: Val)

  /** The output of the IR builder: operations so far, and how many values they compute. */
  datatype Emitted = Emitted(ops: seq<Op>, nregs: nat)

  /** A running block: the machine, the values computed so far, the stack memory, and the
      number of items in it at block entry. */
  datatype XState = XState(m: Mach, regs: seq<Word>, slots: seq<Word>, sp: nat)

  function Value(v: Val, regs: seq<Word>): Word {
    match v
    case Const(w) => w
    case Reg(i) => if i < |regs| then regs[i] else 0
  }

  function Values(vs: seq<Val>, regs: seq<Word>): (ws: seq<Word>)
    ensures |ws| == |vs|
  {
    seq(|vs|, (k: nat) requires k < |vs| => Value(vs[k], regs))
  }

  function SlotAt(slots: seq<Word>, p: int): Word {
    if 0 <= p < |slots| then slots[p] else 0
  }

  function ExecOp(sem: Sem, op: Op, x: XState): Option<XState> {
    match op
    case Check(cost) =>
      if x.m.gas >= cost then Some(x.(m := x.m.(gas := x.m.gas - cost))) else None
    case Fetch(slot) => Some(x.(regs := x.regs + [SlotAt(x.slots, x.sp - 1 - slot)]))
    case Eval(p, args) => Some(x.(regs := x.regs + [sem.pure(p, Values(args, x.regs))]))
    case Do(d, args) =>
      var e :- sem.act(d, Values(args, x.regs), x.m);
      Some(x.(m := e.m, regs := x.regs + e.results))
    case Store(to, v) =>
      if 0 <= x.sp + to < |x.slots|
      then Some(x.(slots := x.slots[x.sp + to := Value(v, x.regs)])) else Some(x)
  }

  function Exec(sem: Sem, ops: seq<Op>, x: XState): Option<XState> {
    if ops == [] then Some(x)
    else
      var y :- Exec(sem, ops[..|ops| - 1], x);
      ExecOp(sem, ops[|ops| - 1], y)
  }

  function AndThen(sem: Sem, x: Option<XState>, ops: seq<Op>): Option<XState> {
    if x.None? then None else Exec(sem, ops, x.value)
  }

  lemma {:induction false} ExecAppend(sem: Sem, a: seq<Op>, b: seq<Op>, x: XState)
    ensures Exec(sem, a + b, x) == AndThen(sem, Exec(sem, a, x), b)
  {
    if b == [] {
      assert a + b == a;
    } else {
      var n := |b| - 1;
      ExecAppend(sem, a, b[..n], x);
      assert (a + b)[..|a + b| - 1] == a + b[..n];
    }
  }

  lemma ExecSingle(sem: Sem, op: Op, x: XState)
    ensures Exec(sem, [op], x) == ExecOp(sem, op, x)
  {
    assert [op][..0] == [];
  }

  /** A check of cost zero can be erased. */
  lemma ExecErase(sem: Sem, ops: seq<Op>, k: nat, x: XState)
    requires k < |ops| && ops[k] == Check(0)
    ensures Exec(sem, ops[..k] + ops[k + 1..], x) == Exec(sem, ops, x)
  {
    assert ops == ops[..k] + ([Check(0)] + ops[k + 1..]);
    ExecAppend(sem, ops[..k], [Check(0)] + ops[k + 1..], x);
    ExecAppend(sem, ops[..k], ops[k + 1..], x);
    var y := Exec(sem, ops[..k], x);
    if y.Some? {
      ExecAppend(sem, [Check(0)], ops[k + 1..], y.value);
      ExecSingle(sem, Check(0), y.value);
    }
  }
}
