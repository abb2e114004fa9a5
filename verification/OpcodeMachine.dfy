/** The Yellow Paper's machine once more, opcode by opcode: for every byte, what appendix H.2
    says about stack, machine and control. Neither the compiler's switch nor its kinds of
    instructions take part in it, so that they can be held against it. */
module OpcodeMachine {
  import opened Words
  import opened Instructions
  import opened Machine
  import opened Hosts
  import opened Opcodes
  import Arith
  import YP = YellowPaper

  // ---------------------------------------------------------------- values

  /** Two's complement. */
  function Signed(w: Word): int {
    (w + TWO255) % TWO256 - TWO255
  }

  function Quotient(a: Word, b: Word): Word {
    if b == 0 then 0 else a / b
  }

  function Remainder(a: nat, b: Word): Word {
    if b == 0 then 0 else a % b
  }

  function SignedQuotient(a: Word, b: Word): Word {
    if b == 0 then 0 else YP.TruncDiv(Signed(a), Signed(b)) % TWO256
  }

  function SignedRemainder(a: Word, b: Word): Word {
    if b == 0 then 0 else YP.TruncMod(Signed(a), Signed(b)) % TWO256
  }

  /** Arithmetic on the operands a, the first of them from the top. */
  function Arithmetic(op: Byte, a: seq<Word>): Word
    requires 0x01 <= op <= 0x0b && op != 0x0a && |a| == Removed(op)
  {
    match op
    case 0x01 => (a[0] as int + a[1]) % TWO256
    case 0x02 => (a[0] as int * a[1]) % TWO256
    case 0x03 => (a[0] as int - a[1]) % TWO256
    case 0x04 => Quotient(a[0], a[1])
    case 0x05 => SignedQuotient(a[0], a[1])
    case 0x06 => Remainder(a[0], a[1])
    case 0x07 => SignedRemainder(a[0], a[1])
    case 0x08 => Remainder(a[0] as int + a[1], a[2])
    case 0x09 => Remainder(a[0] as int * a[1], a[2])
    case _ => YP.SignExtendAt(a[0], a[1])
  }

  /** Comparisons and bitwise operations. */
  function Logic(op: Byte, a: seq<Word>): Word
    requires 0x10 <= op <= 0x1a && |a| == Removed(op)
  {
    match op
    case 0x10 => if a[0] < a[1] then 1 else 0
    case 0x11 => if a[0] > a[1] then 1 else 0
    case 0x12 => if Signed(a[0]) < Signed(a[1]) then 1 else 0
    case 0x13 => if Signed(a[0]) > Signed(a[1]) then 1 else 0
    case 0x14 => if a[0] == a[1] then 1 else 0
    case 0x15 => if a[0] == 0 then 1 else 0
    case 0x16 => Arith.BitAnd(a[0], a[1]) % TWO256
    case 0x17 => Arith.BitOr(a[0], a[1]) % TWO256
    case 0x18 => Arith.BitXor(a[0], a[1]) % TWO256
    case 0x19 => TWO256 - 1 - a[0]
    case _ => YP.ByteOf(a[0], a[1])
  }

  predicate Reads(op: Byte) {
    match op
    case 0x30 | 0x31 | 0x32 | 0x33 | 0x34 | 0x35 | 0x36 | 0x38 | 0x3a | 0x3b | 0x3d => true
    case 0x40 | 0x41 | 0x42 | 0x43 | 0x44 | 0x45 | 0x54 | 0x58 | 0x59 | 0x5a => true
    case _ => false
  }

  /** Values read from the host, the code or the machine. */
  function Read(h: Host, code: seq<Byte>, pc: nat, a: seq<Word>, m: Mach): Word
    requires pc < |code| && Reads(code[pc]) && |a| == Removed(code[pc])
  {
    match code[pc]
    case 0x30 => h.env(Address)
    case 0x31 => h.balance(m.world, a[0] % TWO160)
    case 0x32 => h.env(Origin)
    case 0x33 => h.env(Caller)
    case 0x34 => h.env(CallValue)
    case 0x35 => YP.WordAt(h.callData, a[0])
    case 0x36 => |h.callData|
    case 0x38 => |code| % TWO256
    case 0x3a => h.env(GasPrice)
    case 0x3b => h.codeSize(m.world, a[0] % TWO160)
    case 0x3d => |m.ret|
    case 0x40 => if a[0] < TWO63 then h.blockHash(m.world, a[0]) else 0
    case 0x41 => h.env(Coinbase)
    case 0x42 => h.env(Timestamp)
    case 0x43 => h.env(Number)
    case 0x44 => h.env(Difficulty)
    case 0x45 => h.env(GasLimit)
    case 0x54 => h.storage(m.world, a[0])
    case 0x58 => pc % TWO256
    case 0x59 => |m.mem| % TWO256
    case _ => m.gas
  }

  // ---------------------------------------------------------------- effects

  predicate Affects(op: Byte) {
    match op
    case 0x0a | 0x20 | 0x37 | 0x39 | 0x3c | 0x3e | 0x51 | 0x52 | 0x53 | 0x55 => true
    case 0xf0 | 0xf1 | 0xf2 | 0xf4 | 0xfa => true
    case _ => 0xa0 <= op <= 0xa4
  }

  /** Instructions that pay for more than their step, or change memory or the host. */
  function Affect(h: Host, cfg: Config, op: Byte, a: seq<Word>, m: Mach): (r: Option<Effect>)
    requires Affects(op) && |a| == Removed(op)
    ensures r.Some? ==> r.value.m.gas <= m.gas
  {
    match op
    case 0x0a =>
      var n :- YP.Pay(m, YP.ByteLen(a[1]) * (if cfg.rev >= SPURIOUS_DRAGON then 50 else 10));
      Some(Effect(n, [Pow(a[0], a[1]) % TWO256]))
    case 0x20 => YP.HashOf(h, m, a[0], a[1])
    case 0x37 => YP.NoResult(YP.CopyIn(m, h.callData, a[0], a[1], a[2]))
    case 0x39 => YP.NoResult(YP.CopyIn(m, h.code, a[0], a[1], a[2]))
    case 0x3c => YP.NoResult(YP.CopyIn(m, h.codeOf(m.world, a[0] % TWO160), a[1], a[2], a[3]))
    case 0x3e => YP.NoResult(YP.CopyReturned(m, a[0], a[1], a[2]))
    case 0x51 => YP.Load(m, a[0])
    case 0x52 => YP.NoResult(YP.Store(m, a[0], ToBytes(a[1], 32)))
    case 0x53 => YP.NoResult(YP.Store(m, a[0], [a[1] % 256]))
    case 0x55 =>
      var n :- YP.Pay(m, if h.storage(m.world, a[0]) == 0 && a[1] != 0 then 20000 else 5000);
      Some(Effect(n.(world := h.setStorage(m.world, a[0], a[1])), []))
    case 0xf0 => YP.CreateContract(h, cfg, m, a[0], a[1], a[2])
    case 0xf1 => YP.CallContract(h, cfg, PlainCall, m, a[0], a[1], a[2], a[3], a[4], a[5], a[6])
    case 0xf2 => YP.CallContract(h, cfg, CallCode, m, a[0], a[1], a[2], a[3], a[4], a[5], a[6])
    case 0xf4 => YP.CallContract(h, cfg, DelegateCall, m, a[0], a[1], 0, a[2], a[3], a[4], a[5])
    case 0xfa => YP.CallContract(h, cfg, StaticCall, m, a[0], a[1], 0, a[2], a[3], a[4], a[5])
    case _ => YP.NoResult(YP.LogData(h, m, a[0], a[1], a[2..]))
  }

  // ---------------------------------------------------------------- one step

  /** Where control goes: on in the code, to a destination, or out of it. */
  datatype Way = On(pc: nat) | To(w: Word) | Over(rc: ReturnCode)

  datatype Did = Did(m: Mach, stack: seq<Word>, way: Way)

  predicate Halts(op: Byte) {
    op == 0x00 || op == 0xf3 || op == 0xfd || op == 0xff
  }

  /** The end of a run with what it returns. */
  function Ending(h: Host, cfg: Config, op: Byte, a: seq<Word>, m: Mach): (r: Option<Mach>)
    requires Halts(op) && |a| == Removed(op)
    ensures r.Some? ==> r.value.gas <= m.gas
  {
    match op
    case 0x00 => Some(m)
    case 0xff => YP.SelfDestructAt(h, cfg, m, a[0])
    case _ => YP.Output(m, a[0], a[1])
  }

  predicate Moves(op: Byte) {
    0x60 <= op <= 0x9f || op == 0x50 || op == 0x56 || op == 0x57 || op == 0x5b
  }

  /** Stack and control instructions. */
  function Moved(code: seq<Byte>, pc: nat, a: seq<Word>, rest: seq<Word>, m: Mach): Did
    requires pc < |code| && |a| == Removed(code[pc])
    requires Moves(code[pc])
  {
    var op, n := code[pc], |a|;
    if op == 0x50 then Did(m, rest, On(pc + 1))
    else if op == 0x56 then Did(m, rest, To(a[0]))
    else if op == 0x57 then Did(m, rest, if a[1] == 0 then On(pc + 1) else To(a[0]))
    else if op == 0x5b then Did(m, rest, On(pc + 1))
    else if op <= 0x7f then
      Did(m, [FromBytes(Slice(code, pc + 1, op - 0x5f)) % TWO256] + rest, On(pc + 1 + (op - 0x5f)))
    else if op <= 0x8f then Did(m, [a[n - 1]] + a + rest, On(pc + 1))
    else Did(m, [a[n - 1]] + a[1..n - 1] + [a[0]] + rest, On(pc + 1))
  }

  /** What the instruction at pc does with its operands a and the rest of the stack. */
  function Acted(h: Host, cfg: Config, code: seq<Byte>, pc: nat, a: seq<Word>, rest: seq<Word>,
                 m: Mach): (r: Option<Did>)
    requires pc < |code| && |a| == Removed(code[pc]) && Defined(cfg.rev, code[pc])
    ensures r.Some? ==> r.value.m.gas <= m.gas && (r.value.way.On? ==> r.value.way.pc > pc)
    ensures r.Some? && r.value.way.To? ==> code[pc] == 0x56 || code[pc] == 0x57
  {
    var op := code[pc];
    if Affects(op) then
      var e :- Affect(h, cfg, op, a, m);
      Some(Did(e.m, e.results + rest, On(pc + 1)))
    else if Halts(op) then
      var n :- Ending(h, cfg, op, a, m);
      Some(Did(n, rest, Over(if op == 0xf3 then Return else if op == 0xfd then Revert else Stop)))
    else if op <= 0x0b then Some(Did(m, [Arithmetic(op, a)] + rest, On(pc + 1)))
    else if op <= 0x1a then Some(Did(m, [Logic(op, a)] + rest, On(pc + 1)))
    else if Reads(op) then Some(Did(m, [Read(h, code, pc, a, m)] + rest, On(pc + 1)))
    else Some(Moved(code, pc, a, rest, m))
  }

  function ActedOn(h: Host, cfg: Config, code: seq<Byte>, pc: nat, s: IState): (r: Option<Did>)
    requires pc < |code| && Defined(cfg.rev, code[pc]) && |s.stack| >= Removed(code[pc])
    ensures r.Some? ==> r.value.m.gas <= s.m.gas && (r.value.way.On? ==> r.value.way.pc > pc)
    ensures r.Some? && r.value.way.To? ==> code[pc] == 0x56 || code[pc] == 0x57
  {
    Acted(h, cfg, code, pc, s.stack[..Removed(code[pc])], s.stack[Removed(code[pc])..], s.m)
  }

  /** The static price that is charged; BLOCKHASH has another one from Constantinople on. */
  function Charged(rev: nat, op: Byte): nat {
    if op == 0x40 && rev >= CONSTANTINOPLE then 800 else Price(rev, op)
  }

  /** Exceptional halting of section 9.4.2, or what the instruction does. */
  function Execute(h: Host, cfg: Config, code: seq<Byte>, pc: nat, s: IState): (r: Option<Did>)
    requires pc < |code|
    ensures r.Some? ==> r.value.m.gas <= s.m.gas && (r.value.way.On? ==> r.value.way.pc > pc)
    ensures r.Some? && r.value.way.To? ==> r.value.m.gas < s.m.gas
  {
    var op, n := code[pc], |s.stack|;
    if !Defined(cfg.rev, op) || (cfg.staticCall && Changes(op)) then None
    else if n < Removed(op) || n - Removed(op) + Added(op) > 1024 then None
    else if s.m.gas < Charged(cfg.rev, op) then None
    else ActedOn(h, cfg, code, pc, s.(m := s.m.(gas := s.m.gas - Charged(cfg.rev, op))))
  }

  /** The run from pc on. */
  function RunFrom(h: Host, cfg: Config, code: seq<Byte>, pc: nat, s: IState): Outcome
    decreases s.m.gas, |code| - pc
  {
    if pc >= |code| then Done(Stop, s.m, s.stack)
    else
      match Execute(h, cfg, code, pc, s)
      case None => Failed
      case Some(Did(m, stack, On(next))) => RunFrom(h, cfg, code, next, IState(m, stack))
      case Some(Did(m, stack, To(w))) =>
        if ValidDest(code, w) then RunFrom(h, cfg, code, w, IState(m, stack)) else Failed
      case Some(Did(m, stack, Over(rc))) => Done(rc, m, stack)
  }

  /** The run of a message call: empty memory, return buffer, output and stack. */
  function RunOf(h: Host, cfg: Config, code: seq<Byte>, gas: Gas, world: World): Outcome {
    RunFrom(h, cfg, code, 0, IState(Mach(gas, [], [], world, []), []))
  }
}
