/** The interpreter with the Yellow Paper's meaning of the instructions runs every code as the
    opcodes themselves are defined: the compiler's switch gives each its instruction. */
module OpcodeRefinement {
  import opened Words
  import opened Instructions
  import opened Machine
  import opened Hosts
  import opened Opcodes
  import opened OpcodeMachine
  import YP = YellowPaper

  // ---------------------------------------------------------------- what has to be shown

  /** A step of the interpreter is what is said of its opcode. */
  predicate Same(code: seq<Byte>, pc: nat, r: Option<Stepped>, d: Option<Did>)
    requires pc < |code|
  {
    match d
    case None => r.None?
    case Some(Did(m, stack, way)) =>
      r.Some? && r.value.s == IState(m, stack) &&
      match way
      case On(next) => r.value.ctl == Fall && (next == Next(code, pc) || next >= |code| == Next(code, pc))
      case To(w) => r.value.ctl == Goto(w)
      case Over(rc) => r.value.ctl == Exit(rc) && rc != OutOfGas
  }

  lemma SignedIsSigned(w: Word)
    ensures Signed(w) == ToSigned(w)
  {
  }

  predicate Usable(cfg: Config, op: Byte) {
    Defined(cfg.rev, op) && !(cfg.staticCall && Changes(op))
  }

  /** The instruction i of the interpreter does d. */
  ghost predicate Agrees(sem: Sem, code: seq<Byte>, pc: nat, s: IState, i: Ins, d: Option<Did>)
    requires pc < |code|
  {
    StackOk(i, |s.stack|) ==> Same(code, pc, Perform(sem, i, s), d)
  }

  // The kinds of instructions, group by group.

  predicate IsArithmetic(op: Byte, p: PureOp) {
    match op
    case 0x01 => p == Add
    case 0x02 => p == Mul
    case 0x03 => p == Sub
    case 0x04 => p == Div
    case 0x05 => p == SDiv
    case 0x06 => p == Mod
    case 0x07 => p == SMod
    case 0x08 => p == AddMod
    case 0x09 => p == MulMod
    case 0x0b => p == SignExtend
    case _ => false
  }

  predicate IsLogic(op: Byte, p: PureOp) {
    match op
    case 0x10 => p == Lt
    case 0x11 => p == Gt
    case 0x12 => p == Slt
    case 0x13 => p == Sgt
    case 0x14 => p == Eq
    case 0x15 => p == IsZero
    case 0x16 => p == And
    case 0x17 => p == Or
    case 0x18 => p == Xor
    case 0x19 => p == Not
    case 0x1a => p == ByteAt
    case _ => false
  }

  predicate IsItem(op: Byte, item: EnvItem) {
    match op
    case 0x30 => item == Address
    case 0x32 => item == Origin
    case 0x33 => item == Caller
    case 0x34 => item == CallValue
    case 0x36 => item == CallDataSize
    case 0x3a => item == GasPrice
    case 0x41 => item == Coinbase
    case 0x42 => item == Timestamp
    case 0x43 => item == Number
    case 0x44 => item == Difficulty
    case 0x45 => item == GasLimit
    case _ => false
  }

  predicate IsRead(op: Byte, d: DynOp) {
    match op
    case 0x31 => d == Balance
    case 0x35 => d == CallDataLoad
    case 0x3b => d == ExtCodeSize
    case 0x3d => d == ReturnDataSize
    case 0x40 => d == BlockHash
    case 0x54 => d == SLoad
    case 0x59 => d == MSize
    case 0x5a => d == GasLeft
    case _ => false
  }

  predicate IsCopy(op: Byte, d: DynOp) {
    match op
    case 0x37 => d == CallDataCopy
    case 0x39 => d == CodeCopy
    case 0x3c => d == ExtCodeCopy
    case 0x3e => d == ReturnDataCopy
    case _ => false
  }

  predicate IsAccess(op: Byte, d: DynOp) {
    match op
    case 0x20 => d == Sha3
    case 0x51 => d == MLoad
    case 0x52 => d == MStore
    case 0x53 => d == MStore8
    case _ => 0xa0 <= op <= 0xa4 && d == Log(op - 0xa0)
  }

  predicate IsCall(op: Byte, d: DynOp) {
    match op
    case 0xf0 => d == Create
    case 0xf1 => d == CallOp(PlainCall)
    case 0xf2 => d == CallOp(CallCode)
    case 0xf4 => d == CallOp(DelegateCall)
    case 0xfa => d == CallOp(StaticCall)
    case _ => false
  }

  predicate IsPaid(op: Byte, d: DynOp) {
    (op == 0x0a && d == Exp) || (op == 0x55 && d == SStore)
  }

  predicate IsEnd(op: Byte, e: DynOp, rc: ReturnCode) {
    match op
    case 0xf3 => e == ReturnData && rc == Return
    case 0xfd => e == ReturnData && rc == Revert
    case 0xff => e == SelfDestruct && rc == Stop
    case _ => false
  }

  /** The instruction of an opcode. */
  predicate IsKind(code: seq<Byte>, pc: nat, i: Ins)
    requires pc < |code|
  {
    var op := code[pc];
    match i
    case Pure(p) => IsArithmetic(op, p) || IsLogic(op, p)
    case Dyn(d) =>
      || (d.Env? && IsItem(op, d.item)) || IsRead(op, d) || IsCopy(op, d) || IsAccess(op, d) || IsCall(op, d)
      || IsPaid(op, d)
    case Halt(None, rc) => op == 0x00 && rc == Stop
    case Halt(Some(e), rc) => IsEnd(op, e, rc)
    case Push(w) =>
      || (op == 0x38 && w == |code| % TWO256) || (op == 0x58 && w == pc % TWO256)
      || (0x60 <= op <= 0x7f && w == FromBytes(Slice(code, pc + 1, op - 0x5f)) % TWO256)
    case Dup(n) => 0x80 <= op <= 0x8f && n == op - 0x80
    case Swap(n) => 0x90 <= op <= 0x9f && n == op - 0x8f
    case Pop => op == 0x50
    case Jump => op == 0x56
    case JumpI => op == 0x57
    case JumpDest => op == 0x5b
    case Invalid => false
  }

  lemma KindLow(cfg: Config, code: seq<Byte>, pc: nat)
    requires pc < |code| && code[pc] < 0x30 && Usable(cfg, code[pc])
    ensures IsKind(code, pc, Classify(cfg, code, pc))
  {
  }

  lemma KindEnvironment(cfg: Config, code: seq<Byte>, pc: nat)
    requires pc < |code| && 0x30 <= code[pc] < 0x50 && Usable(cfg, code[pc])
    ensures IsKind(code, pc, Classify(cfg, code, pc))
  {
  }

  lemma KindHigh(cfg: Config, code: seq<Byte>, pc: nat)
    requires pc < |code| && 0x50 <= code[pc] && Usable(cfg, code[pc])
    ensures IsKind(code, pc, Classify(cfg, code, pc))
  {
  }

  /** The compiler's switch gives every usable opcode its instruction. */
  lemma SwitchIsRight(cfg: Config, code: seq<Byte>, pc: nat)
    requires pc < |code| && Usable(cfg, code[pc])
    ensures IsKind(code, pc, Decode(cfg, code, pc).ins)
  {
    if code[pc] < 0x30 { KindLow(cfg, code, pc); }
    else if code[pc] < 0x50 { KindEnvironment(cfg, code, pc); }
    else { KindHigh(cfg, code, pc); }
  }

  /** The compiler commits the cost block before GAS, CREATE and calls, and nowhere else. */
  lemma CommitsAre(cfg: Config, code: seq<Byte>, pc: nat, d: DynOp)
    requires pc < |code| && Usable(cfg, code[pc]) && Decode(cfg, code, pc).ins == Dyn(d)
    ensures Commits(d) <==> code[pc] == 0x5a || code[pc] == 0xf0 || 0xf1 <= code[pc] <= 0xfa
  {
    SwitchIsRight(cfg, code, pc);
  }

  // What instructions without effect compute.

  /** One value in place of n items. */
  function Places(s: IState, n: nat, w: Word, pc: nat): Option<Did>
    requires n <= |s.stack|
  {
    Some(Did(s.m, [w] + s.stack[n..], On(pc + 1)))
  }

  lemma ArithmeticIs(op: Byte, p: PureOp, a: seq<Word>)
    requires IsArithmetic(op, p) && |a| == Arity(p)
    ensures Removed(op) == Arity(p) && 0x01 <= op <= 0x0b && op != 0x0a && YP.Pure(p, a) == Arithmetic(op, a)
  {
    SignedIsSigned(a[0]);
    SignedIsSigned(a[1]);
  }

  lemma LogicIs(op: Byte, p: PureOp, a: seq<Word>)
    requires IsLogic(op, p) && |a| == Arity(p)
    ensures Removed(op) == Arity(p) && 0x10 <= op <= 0x1a && YP.Pure(p, a) == Logic(op, a)
  {
    SignedIsSigned(a[0]);
    if |a| > 1 { SignedIsSigned(a[1]); }
  }

  lemma PureSame(sem: Sem, code: seq<Byte>, pc: nat, s: IState, p: PureOp, w: Word)
    requires pc < |code| && !IsPush(code[pc]) && |s.stack| >= Arity(p) && w == sem.pure(p, s.stack[..Arity(p)])
    ensures Agrees(sem, code, pc, s, Pure(p), Places(s, Arity(p), w, pc))
  {
  }

  lemma ArithmeticActed(h: Host, cfg: Config, code: seq<Byte>, pc: nat, s: IState)
    requires pc < |code| && Usable(cfg, code[pc]) && |s.stack| >= Removed(code[pc])
    requires 0x01 <= code[pc] <= 0x0b && code[pc] != 0x0a
    ensures var n := Removed(code[pc]);
      ActedOn(h, cfg, code, pc, s) == Places(s, n, Arithmetic(code[pc], s.stack[..n]), pc)
  {
  }

  lemma LogicActed(h: Host, cfg: Config, code: seq<Byte>, pc: nat, s: IState)
    requires pc < |code| && Usable(cfg, code[pc]) && |s.stack| >= Removed(code[pc]) && 0x10 <= code[pc] <= 0x1a
    ensures var n := Removed(code[pc]);
      ActedOn(h, cfg, code, pc, s) == Places(s, n, Logic(code[pc], s.stack[..n]), pc)
  {
  }

  lemma ArithmeticAgrees(h: Host, cfg: Config, code: seq<Byte>, pc: nat, s: IState, p: PureOp)
    returns (d: Option<Did>)
    requires pc < |code| && Usable(cfg, code[pc]) && |s.stack| >= Removed(code[pc]) && IsArithmetic(code[pc], p)
    ensures d == ActedOn(h, cfg, code, pc, s)
    ensures Agrees(YP.PaperSem(h, cfg), code, pc, s, Pure(p), d)
  {
    var a := s.stack[..Arity(p)];
    ArithmeticIs(code[pc], p, a);
    ArithmeticActed(h, cfg, code, pc, s);
    PureSame(YP.PaperSem(h, cfg), code, pc, s, p, YP.Pure(p, a));
    d := Places(s, Arity(p), YP.Pure(p, a), pc);
  }

  lemma LogicAgrees(h: Host, cfg: Config, code: seq<Byte>, pc: nat, s: IState, p: PureOp)
    returns (d: Option<Did>)
    requires pc < |code| && Usable(cfg, code[pc]) && |s.stack| >= Removed(code[pc]) && IsLogic(code[pc], p)
    ensures d == ActedOn(h, cfg, code, pc, s)
    ensures Agrees(YP.PaperSem(h, cfg), code, pc, s, Pure(p), d)
  {
    var a := s.stack[..Arity(p)];
    LogicIs(code[pc], p, a);
    LogicActed(h, cfg, code, pc, s);
    PureSame(YP.PaperSem(h, cfg), code, pc, s, p, YP.Pure(p, a));
    d := Places(s, Arity(p), YP.Pure(p, a), pc);
  }

  // What the others do.

  lemma ItemIs(h: Host, cfg: Config, code: seq<Byte>, pc: nat, item: EnvItem, m: Mach)
    requires pc < |code| && IsItem(code[pc], item)
    ensures Reads(code[pc]) && Removed(code[pc]) == 0
    ensures YP.Act(h, cfg, Env(item), [], m) == Some(Effect(m, [Read(h, code, pc, [], m)]))
  {
    ItemRead(h, code, pc, item, m);
  }

  lemma ItemRead(h: Host, code: seq<Byte>, pc: nat, item: EnvItem, m: Mach)
    requires pc < |code| && IsItem(code[pc], item)
    ensures Reads(code[pc]) && Removed(code[pc]) == 0
    ensures Read(h, code, pc, [], m) == if item == CallDataSize then |h.callData| else h.env(item)
  {
  }

  lemma ReadIs(h: Host, cfg: Config, code: seq<Byte>, pc: nat, d: DynOp, a: seq<Word>, m: Mach)
    requires pc < |code| && IsRead(code[pc], d) && |a| == DynPops(d)
    ensures Reads(code[pc]) && Removed(code[pc]) == DynPops(d)
    ensures YP.Act(h, cfg, d, a, m) == Some(Effect(m, [Read(h, code, pc, a, m)]))
  {
  }

  lemma CopyIs(h: Host, cfg: Config, op: Byte, d: DynOp, a: seq<Word>, m: Mach)
    requires IsCopy(op, d) && |a| == DynPops(d)
    ensures Affects(op) && Removed(op) == DynPops(d) && YP.Act(h, cfg, d, a, m) == Affect(h, cfg, op, a, m)
  {
  }

  lemma AccessIs(h: Host, cfg: Config, op: Byte, d: DynOp, a: seq<Word>, m: Mach)
    requires IsAccess(op, d) && |a| == DynPops(d)
    ensures Affects(op) && Removed(op) == DynPops(d) && YP.Act(h, cfg, d, a, m) == Affect(h, cfg, op, a, m)
  {
  }

  lemma CallIs(h: Host, cfg: Config, op: Byte, d: DynOp, a: seq<Word>, m: Mach)
    requires IsCall(op, d) && |a| == DynPops(d)
    ensures Affects(op) && Removed(op) == DynPops(d) && YP.Act(h, cfg, d, a, m) == Affect(h, cfg, op, a, m)
  {
  }

  lemma PaidIs(h: Host, cfg: Config, op: Byte, d: DynOp, a: seq<Word>, m: Mach)
    requires IsPaid(op, d) && |a| == DynPops(d)
    ensures Affects(op) && Removed(op) == DynPops(d) && YP.Act(h, cfg, d, a, m) == Affect(h, cfg, op, a, m)
  {
  }

  lemma EndIs(h: Host, cfg: Config, op: Byte, e: DynOp, rc: ReturnCode, a: seq<Word>, m: Mach)
    requires IsEnd(op, e, rc) && |a| == DynPops(e)
    ensures Halts(op) && op != 0x00 && Removed(op) == DynPops(e)
    ensures YP.Act(h, cfg, e, a, m) == YP.NoResult(Ending(h, cfg, op, a, m))
  {
  }

  lemma DynSame(sem: Sem, code: seq<Byte>, pc: nat, s: IState, d: DynOp, e: Option<Effect>)
    requires pc < |code| && !IsPush(code[pc]) && |s.stack| >= DynPops(d)
    requires e == sem.act(d, s.stack[..DynPops(d)], s.m)
    ensures Agrees(sem, code, pc, s, Dyn(d), Left(e, s.stack[DynPops(d)..], pc))
  {
  }

  lemma ReadsActed(h: Host, cfg: Config, code: seq<Byte>, pc: nat, s: IState)
    requires pc < |code| && Usable(cfg, code[pc]) && |s.stack| >= Removed(code[pc]) && Reads(code[pc])
    ensures var n := Removed(code[pc]);
      ActedOn(h, cfg, code, pc, s) == Places(s, n, Read(h, code, pc, s.stack[..n], s.m), pc)
  {
  }

  lemma ReadsAgree(h: Host, cfg: Config, code: seq<Byte>, pc: nat, s: IState, o: DynOp)
    returns (d: Option<Did>)
    requires pc < |code| && Usable(cfg, code[pc]) && |s.stack| >= Removed(code[pc])
    requires (o.Env? && IsItem(code[pc], o.item)) || IsRead(code[pc], o)
    ensures d == ActedOn(h, cfg, code, pc, s)
    ensures Agrees(YP.PaperSem(h, cfg), code, pc, s, Dyn(o), d)
  {
    var n, a := DynPops(o), s.stack[..DynPops(o)];
    if o.Env? {
      ItemIs(h, cfg, code, pc, o.item, s.m);
      assert a == [];
    } else {
      ReadIs(h, cfg, code, pc, o, a, s.m);
    }
    var w := Read(h, code, pc, a, s.m);
    DynSame(YP.PaperSem(h, cfg), code, pc, s, o, Some(Effect(s.m, [w])));
    ReadsActed(h, cfg, code, pc, s);
    d := Left(Some(Effect(s.m, [w])), s.stack[n..], pc);
  }

  /** What an effect leaves. */
  function Left(e: Option<Effect>, rest: seq<Word>, pc: nat): Option<Did> {
    if e.None? then None else Some(Did(e.value.m, e.value.results + rest, On(pc + 1)))
  }

  lemma AffectsActed(h: Host, cfg: Config, code: seq<Byte>, pc: nat, s: IState)
    requires pc < |code| && Usable(cfg, code[pc]) && |s.stack| >= Removed(code[pc]) && Affects(code[pc])
    ensures var n := Removed(code[pc]);
      ActedOn(h, cfg, code, pc, s) == Left(Affect(h, cfg, code[pc], s.stack[..n], s.m), s.stack[n..], pc)
  {
  }

  lemma AffectIs(h: Host, cfg: Config, op: Byte, d: DynOp, a: seq<Word>, m: Mach)
    requires (IsCopy(op, d) || IsAccess(op, d) || IsCall(op, d) || IsPaid(op, d)) && |a| == DynPops(d)
    ensures Affects(op) && Removed(op) == DynPops(d) && YP.Act(h, cfg, d, a, m) == Affect(h, cfg, op, a, m)
  {
    if IsCopy(op, d) { CopyIs(h, cfg, op, d, a, m); }
    else if IsAccess(op, d) { AccessIs(h, cfg, op, d, a, m); }
    else if IsCall(op, d) { CallIs(h, cfg, op, d, a, m); }
    else { PaidIs(h, cfg, op, d, a, m); }
  }

  lemma AffectsAgree(h: Host, cfg: Config, code: seq<Byte>, pc: nat, s: IState, o: DynOp, e: Option<Effect>)
    returns (d: Option<Did>)
    requires pc < |code| && Usable(cfg, code[pc]) && |s.stack| >= DynPops(o)
    requires Affects(code[pc]) && Removed(code[pc]) == DynPops(o)
    requires var a := s.stack[..DynPops(o)];
      YP.PaperSem(h, cfg).act(o, a, s.m) == e == Affect(h, cfg, code[pc], a, s.m)
    ensures d == ActedOn(h, cfg, code, pc, s)
    ensures Agrees(YP.PaperSem(h, cfg), code, pc, s, Dyn(o), d)
  {
    AffectsActed(h, cfg, code, pc, s);
    DynSame(YP.PaperSem(h, cfg), code, pc, s, o, e);
    d := Left(e, s.stack[DynPops(o)..], pc);
  }

  lemma EndSame(sem: Sem, code: seq<Byte>, pc: nat, s: IState, d: DynOp, rc: ReturnCode, n: Option<Mach>)
    requires pc < |code| && |s.stack| >= DynPops(d) && rc != OutOfGas
    requires YP.NoResult(n) == sem.act(d, s.stack[..DynPops(d)], s.m)
    ensures Agrees(sem, code, pc, s, Halt(Some(d), rc),
      if n.None? then None else Some(Did(n.value, s.stack[DynPops(d)..], Over(rc))))
  {
    var e: seq<Word> := [];
    assert e + s.stack[DynPops(d)..] == s.stack[DynPops(d)..];
  }

  lemma EndsAgree(h: Host, cfg: Config, code: seq<Byte>, pc: nat, s: IState, o: DynOp, rc: ReturnCode)
    returns (d: Option<Did>)
    requires pc < |code| && Usable(cfg, code[pc]) && |s.stack| >= Removed(code[pc]) && IsEnd(code[pc], o, rc)
    ensures d == ActedOn(h, cfg, code, pc, s)
    ensures Agrees(YP.PaperSem(h, cfg), code, pc, s, Halt(Some(o), rc), d)
  {
    var op, a := code[pc], s.stack[..DynPops(o)];
    EndIs(h, cfg, op, o, rc, a, s.m);
    var n := Ending(h, cfg, op, a, s.m);
    EndSame(YP.PaperSem(h, cfg), code, pc, s, o, rc, n);
    d := if n.None? then None else Some(Did(n.value, s.stack[DynPops(o)..], Over(rc)));
  }

  lemma Swapped(stack: seq<Word>, n: nat)
    requires 2 <= n <= |stack|
    ensures stack[0 := stack[n - 1]][n - 1 := stack[0]]
      == var a := stack[..n]; [a[n - 1]] + a[1..n - 1] + [a[0]] + stack[n..]
  {
  }

  lemma PushAgrees(h: Host, cfg: Config, code: seq<Byte>, pc: nat, s: IState, w: Word)
    returns (d: Option<Did>)
    requires pc < |code| && Usable(cfg, code[pc]) && IsKind(code, pc, Push(w)) && Removed(code[pc]) == 0
    ensures d == ActedOn(h, cfg, code, pc, s)
    ensures Agrees(YP.PaperSem(h, cfg), code, pc, s, Push(w), d)
  {
    d := ActedOn(h, cfg, code, pc, s);
    assert s.stack[0..] == s.stack;
  }

  lemma DupAgrees(h: Host, cfg: Config, code: seq<Byte>, pc: nat, s: IState, k: nat)
    returns (d: Option<Did>)
    requires pc < |code| && 0x80 <= code[pc] <= 0x8f && k == code[pc] - 0x80 < |s.stack|
    ensures d == ActedOn(h, cfg, code, pc, s)
    ensures Agrees(YP.PaperSem(h, cfg), code, pc, s, Dup(k), d)
  {
    d := Some(Did(s.m, [s.stack[k]] + s.stack, On(pc + 1)));
    assert [s.stack[k]] + s.stack == [s.stack[k]] + s.stack[..k + 1] + s.stack[k + 1..];
  }

  lemma SwapAgrees(h: Host, cfg: Config, code: seq<Byte>, pc: nat, s: IState, k: nat)
    returns (d: Option<Did>)
    requires pc < |code| && 0x90 <= code[pc] <= 0x9f && k == code[pc] - 0x8f < |s.stack|
    ensures d == ActedOn(h, cfg, code, pc, s)
    ensures Agrees(YP.PaperSem(h, cfg), code, pc, s, Swap(k), d)
  {
    d := Some(Did(s.m, s.stack[0 := s.stack[k]][k := s.stack[0]], On(pc + 1)));
    Swapped(s.stack, k + 1);
  }

  lemma ControlAgrees(h: Host, cfg: Config, code: seq<Byte>, pc: nat, s: IState, i: Ins)
    returns (d: Option<Did>)
    requires pc < |code| && Usable(cfg, code[pc]) && |s.stack| >= Removed(code[pc]) && IsKind(code, pc, i)
    requires i.Pop? || i.Jump? || i.JumpI? || i.JumpDest? || (i.Halt? && i.effect.None?)
    ensures d == ActedOn(h, cfg, code, pc, s)
    ensures Agrees(YP.PaperSem(h, cfg), code, pc, s, i, d)
  {
    assert s.stack[0..] == s.stack;
    d := ActedOn(h, cfg, code, pc, s);
  }

  lemma EveryAgrees(h: Host, cfg: Config, code: seq<Byte>, pc: nat, s: IState, i: Ins)
    returns (d: Option<Did>)
    requires pc < |code| && Usable(cfg, code[pc]) && |s.stack| >= Removed(code[pc]) && IsKind(code, pc, i)
    ensures d == ActedOn(h, cfg, code, pc, s)
    ensures Agrees(YP.PaperSem(h, cfg), code, pc, s, i, d)
  {
    match i
    case Pure(p) =>
      if IsArithmetic(code[pc], p) {
        d := ArithmeticAgrees(h, cfg, code, pc, s, p);
      } else {
        d := LogicAgrees(h, cfg, code, pc, s, p);
      }
    case Dyn(o) =>
      if (o.Env? && IsItem(code[pc], o.item)) || IsRead(code[pc], o) {
        d := ReadsAgree(h, cfg, code, pc, s, o);
      } else {
        var a := s.stack[..DynPops(o)];
        AffectIs(h, cfg, code[pc], o, a, s.m);
        d := AffectsAgree(h, cfg, code, pc, s, o, YP.Act(h, cfg, o, a, s.m));
      }
    case Halt(Some(o), rc) => d := EndsAgree(h, cfg, code, pc, s, o, rc);
    case Push(w) => d := PushAgrees(h, cfg, code, pc, s, w);
    case Dup(k) => d := DupAgrees(h, cfg, code, pc, s, k);
    case Swap(k) => d := SwapAgrees(h, cfg, code, pc, s, k);
    case _ => d := ControlAgrees(h, cfg, code, pc, s, i);
  }

  lemma ChargedIsCost(rev: nat, op: Byte)
    requires Opcodes.Defined(rev, op)
    ensures Charged(rev, op) == StepCost(rev, op)
  {
  }

  /** The checks of a step are those of section 9.4.2. */
  ghost predicate SameChecks(cfg: Config, op: Byte, i: Instr) {
    && (i.ins.Invalid? <==> !Usable(cfg, op))
    && (Usable(cfg, op) ==>
          && i.cost == Charged(cfg.rev, op)
          && forall n: nat :: StackOk(i.ins, n) <==> Removed(op) <= n && n - Removed(op) + Added(op) <= 1024)
  }

  lemma ChecksAgree(cfg: Config, code: seq<Byte>, pc: nat)
    requires pc < |code|
    ensures SameChecks(cfg, code[pc], Decode(cfg, code, pc))
  {
    var op, i := code[pc], Decode(cfg, code, pc);
    SwitchIsComplete(cfg, code, pc);
    if Usable(cfg, op) {
      StackEffects(cfg, code, pc);
      ChargedIsCost(cfg.rev, op);
      assert i.cost == StepCost(cfg.rev, op);
    }
  }

  predicate Passes(cfg: Config, op: Byte, s: IState) {
    && Usable(cfg, op) && Removed(op) <= |s.stack| && |s.stack| - Removed(op) + Added(op) <= 1024
    && s.m.gas >= Charged(cfg.rev, op)
  }

  function Paid(cfg: Config, op: Byte, s: IState): IState
    requires s.m.gas >= Charged(cfg.rev, op)
  {
    s.(m := s.m.(gas := s.m.gas - Charged(cfg.rev, op)))
  }

  lemma ExecuteChecked(h: Host, cfg: Config, code: seq<Byte>, pc: nat, s: IState)
    requires pc < |code|
    ensures Execute(h, cfg, code, pc, s)
      == if Passes(cfg, code[pc], s) then ActedOn(h, cfg, code, pc, Paid(cfg, code[pc], s)) else None
  {
  }

  lemma StepChecked(sem: Sem, cfg: Config, code: seq<Byte>, pc: nat, s: IState, i: Instr, d: Option<Did>)
    requires pc < |code| && SameChecks(cfg, code[pc], i)
    requires if Passes(cfg, code[pc], s) then Agrees(sem, code, pc, Paid(cfg, code[pc], s), i.ins, d) else d.None?
    ensures Same(code, pc, Step(sem, i, s), d)
  {
  }

  /** For every code, position and state: a step of the interpreter with the Yellow Paper's
      meaning does what is said of the opcode there, and fails exactly where that fails. */
  lemma SameStep(h: Host, cfg: Config, code: seq<Byte>, pc: nat, s: IState)
    requires pc < |code|
    ensures Same(code, pc, Step(YP.PaperSem(h, cfg), Decode(cfg, code, pc), s), Execute(h, cfg, code, pc, s))
  {
    var i := Decode(cfg, code, pc);
    var d: Option<Did> := None;
    ChecksAgree(cfg, code, pc);
    ExecuteChecked(h, cfg, code, pc, s);
    if Passes(cfg, code[pc], s) {
      SwitchIsRight(cfg, code, pc);
      d := EveryAgrees(h, cfg, code, pc, Paid(cfg, code[pc], s), i.ins);
    }
    StepChecked(YP.PaperSem(h, cfg), cfg, code, pc, s, i, d);
  }

  /** And so is every run. */
  lemma {:induction false} SameRun(h: Host, cfg: Config, code: seq<Byte>, pc: nat, s: IState)
    requires GasOk(YP.PaperSem(h, cfg))
    ensures Run(YP.PaperSem(h, cfg), cfg, code, pc, s) == RunFrom(h, cfg, code, pc, s)
    decreases s.m.gas, |code| - pc
  {
    if pc < |code| {
      SameStep(h, cfg, code, pc, s);
      match Execute(h, cfg, code, pc, s)
      case None =>
      case Some(Did(m, stack, On(next))) =>
        SameRun(h, cfg, code, Next(code, pc), IState(m, stack));
      case Some(Did(m, stack, To(w))) =>
        if ValidDest(code, w) { SameRun(h, cfg, code, w, IState(m, stack)); }
      case Some(Did(m, stack, Over(rc))) =>
    }
  }
}
