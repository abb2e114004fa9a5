/** The run-time machine and the reference interpreter: one instruction at a time, each
    with its own stack check and its own gas check. What the instructions compute is a
    parameter, so that the block compiler can be proved correct for any meaning of the
    instructions whose gas behaviour is sane. */
module Machine {
  import opened Words
  import opened Instructions

  const STACK_LIMIT: nat := 1024

  // The host's state, known to the program only through the host's functions: a number names it.
  type World = nat

  /** Everything a program can change besides its stack: gas left, memory, the buffer with
      the data of the last call, the host's state, and the data it returns. */
  datatype Mach = Mach(gas: Gas, mem: seq<Byte>, ret: Bytes, world: World, out: seq<Byte>)

  datatype Effect = Effect(m: Mach, results: seq<Word>)

  /** The meaning of the instructions that compute something. None is failure. */
  datatype Sem = Sem(
    pure: (PureOp, seq<Word>) -> Word,
    act: (DynOp, seq<Word>, Mach) -> Option<Effect>)

  /** No instruction returns more gas than it was given, and each has the announced
      number of results. */
  ghost predicate GasOk(sem: Sem) {
    forall d, args, m :: sem.act(d, args, m).Some? ==>
      && sem.act(d, args, m).value.m.gas <= m.gas
      && |sem.act(d, args, m).value.results| == DynPushes(d)
  }

  /** e with k gas less, if it has k gas. */
  function Less(e: Option<Effect>, k: nat): Option<Effect> {
    if e.Some? && e.value.m.gas >= k
    then Some(e.value.(m := e.value.m.(gas := e.value.m.gas - k))) else None
  }

  /** Only the committing instructions look at the gas counter: taking k gas away before any
      other instruction is the same as taking it away afterwards. */
  ghost predicate ShiftOk(sem: Sem) {
    forall d, args, m: Mach, k: nat {:trigger Less(sem.act(d, args, m), k)} ::
      !Commits(d) && k <= m.gas ==>
      sem.act(d, args, m.(gas := m.gas - k)) == Less(sem.act(d, args, m), k)
  }

  // ---------------------------------------------------------------- one step

  /** Stack item 0 is the top. */
  datatype IState = IState(m: Mach, stack: seq<Word>)

  datatype Control = Fall | Goto(dest: Word) | Exit(rc: ReturnCode)

  datatype Stepped = Stepped(s: IState, ctl: Control)

  predicate StackOk(i: Ins, height: nat) {
    Needs(i) <= height && height - Pops(i) + Pushes(i) <= STACK_LIMIT
  }

  function Step(sem: Sem, i: Instr, s: IState): (r: Option<Stepped>)
    ensures r.Some? && GasOk(sem) ==> r.value.s.m.gas <= s.m.gas - i.cost
    ensures r.Some? && r.value.ctl.Goto? ==> i.ins.Jump? || i.ins.JumpI?
    ensures r.Some? && GasOk(sem) && GoodIns(i.ins) ==>
      |r.value.s.stack| == |s.stack| - Pops(i.ins) + Pushes(i.ins)
  {
    if !StackOk(i.ins, |s.stack|) then None
    else if s.m.gas < i.cost then None
    else Perform(sem, i.ins, IState(s.m.(gas := s.m.gas - i.cost), s.stack))
  }

  /** The effect of an instruction once its checks have passed. */
  function Perform(sem: Sem, i: Ins, s: IState): (r: Option<Stepped>)
    requires StackOk(i, |s.stack|)
  {
    var rest := s.stack[Pops(i)..];
    match i
    case Push(w) => Some(Stepped(s.(stack := [w] + s.stack), Fall))
    case Dup(n) => Some(Stepped(s.(stack := [s.stack[n]] + s.stack), Fall))
    case Swap(n) => Some(Stepped(s.(stack := s.stack[0 := s.stack[n]][n := s.stack[0]]), Fall))
    case Pop => Some(Stepped(s.(stack := rest), Fall))
    case JumpDest => Some(Stepped(s, Fall))
    case Pure(p) => Some(Stepped(s.(stack := [sem.pure(p, s.stack[..Arity(p)])] + rest), Fall))
    case Dyn(d) =>
      var e :- sem.act(d, s.stack[..DynPops(d)], s.m);
      Some(Stepped(IState(e.m, e.results + rest), Fall))
    case Jump => Some(Stepped(s.(stack := rest), Goto(s.stack[0])))
    case JumpI =>
      Some(Stepped(s.(stack := rest), if s.stack[1] != 0 then Goto(s.stack[0]) else Fall))
    case Halt(None, rc) => Some(Stepped(s, Exit(rc)))
    case Halt(Some(d), rc) =>
      var e :- sem.act(d, s.stack[..DynPops(d)], s.m);
      Some(Stepped(IState(e.m, e.results + rest), Exit(rc)))
    case Invalid => None
  }

  // ---------------------------------------------------------------- whole runs

  /** What the caller sees. A failed run reports neither gas nor state. */
  datatype Outcome = Failed | Done(rc: ReturnCode, m: Mach, stack: seq<Word>)

  function Finish(rc: ReturnCode, m: Mach, stack: seq<Word>): Outcome {
    if rc == OutOfGas then Failed else Done(rc, m, stack)
  }

  /** The interpreter from position pc. It always ends: a jump costs gas and
      everything else moves forward in the code. */
  function Run(sem: Sem, cfg: Config, code: seq<Byte>, pc: nat, s: IState): Outcome
    requires GasOk(sem)
    decreases s.m.gas, |code| - pc
  {
    if pc >= |code| then Done(Stop, s.m, s.stack)
    else
      var i := Decode(cfg, code, pc);
      match Step(sem, i, s)
      case None => Failed
      case Some(Stepped(t, Exit(rc))) => Finish(rc, t.m, t.stack)
      case Some(Stepped(t, Fall)) => Run(sem, cfg, code, Next(code, pc), t)
      case Some(Stepped(t, Goto(w))) =>
        if ValidDest(code, w) then Run(sem, cfg, code, w, t) else Failed
  }
}
