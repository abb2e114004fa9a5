/** Bytecode: the instruction set, its static costs, and how instructions are laid out. */
module Instructions {
  import opened Words

  // Protocol revisions, oldest first; only their order matters. The first, Frontier, is 0.
  const HOMESTEAD: nat := 1
  const TANGERINE_WHISTLE: nat := 2
  const SPURIOUS_DRAGON: nat := 3
  const BYZANTIUM: nat := 4
  const CONSTANTINOPLE: nat := 5

  /** What the compiler is told about the execution: revision and static-call mode. */
  datatype Config = Config(rev: nat, staticCall: bool)

  const JUMP: Byte := 0x56
  const JUMPI: Byte := 0x57
  const JUMPDEST: Byte := 0x5b
  const PUSH1: Byte := 0x60
  const PUSH32: Byte := 0x7f
  const RETURN: Byte := 0xf3
  const REVERT: Byte := 0xfd
  const STOP: Byte := 0x00
  const SUICIDE: Byte := 0xff

  datatype ReturnCode = Stop | Return | Revert | OutOfGas

  /** Instructions whose result depends on their operands alone. */
  datatype PureOp =
    | Add | Mul | Sub | Div | SDiv | Mod | SMod | AddMod | MulMod | SignExtend
    | Lt | Gt | Slt | Sgt | Eq | IsZero | And | Or | Xor | Not | ByteAt

  /** Items of the message and of the transaction that stay fixed during a run. */
  datatype EnvItem =
    | Address | Origin | Caller | CallValue | CallDataSize | GasPrice
    | Coinbase | Timestamp | Number | Difficulty | GasLimit

  datatype CallKind = PlainCall | CallCode | DelegateCall | StaticCall | CreateKind

  /** Instructions that read or change gas, memory or the host's state. */
  datatype DynOp =
    | Exp | Sha3 | Env(item: EnvItem) | Balance | ExtCodeSize | BlockHash | SLoad
    | CallDataLoad | CallDataCopy | CodeCopy | ExtCodeCopy | ReturnDataSize | ReturnDataCopy
    | MLoad | MStore | MStore8 | MSize | SStore | GasLeft | Log(topics: nat)
    | Create | CallOp(kind: CallKind) | ReturnData | SelfDestruct

  /** An instruction as the compiler's switch classifies it. A push carries its constant
      (also the PC and CODESIZE instructions push constants); Dup and Swap carry the
      depth of the item they address. */
  datatype Ins =
    | Push(w: Word)
    | Dup(n: nat)
    | Swap(n: nat)
    | Pop
    | JumpDest
    | Pure(p: PureOp)
    | Dyn(d: DynOp)
    | Jump
    | JumpI
    | Halt(effect: Option<DynOp>, rc: ReturnCode)
    | Invalid

  /** An instruction with its static cost. */
  datatype Instr = Instr(ins: Ins, cost: nat)

  function Arity(p: PureOp): (n: nat)
    ensures 1 <= n <= 3
  {
    match p
    case AddMod | MulMod => 3
    case IsZero | Not => 1
    case _ => 2
  }

  function DynPops(d: DynOp): nat {
    match d
    case Env(_) | ReturnDataSize | MSize | GasLeft => 0
    case Balance | ExtCodeSize | BlockHash | SLoad | CallDataLoad | MLoad | SelfDestruct => 1
    case Exp | Sha3 | MStore | MStore8 | SStore | ReturnData => 2
    case CallDataCopy | CodeCopy | ReturnDataCopy | Create => 3
    case ExtCodeCopy => 4
    case Log(n) => n + 2
    case CallOp(kind) => if kind == PlainCall || kind == CallCode then 7 else 6
  }

  function DynPushes(d: DynOp): (n: nat)
    ensures n <= 1
  {
    match d
    case CallDataCopy | CodeCopy | ExtCodeCopy | ReturnDataCopy | MStore | MStore8
    | SStore | Log(_) | ReturnData | SelfDestruct => 0
    case _ => 1
  }

  /** The instructions before which the compiler commits the current cost block. */
  predicate Commits(d: DynOp) {
    d.GasLeft? || d.Create? || d.CallOp?
  }

  /** Copies into memory; other accesses to memory; message calls. */
  predicate Copies(d: DynOp) {
    d.CallDataCopy? || d.CodeCopy? || d.ExtCodeCopy? || d.ReturnDataCopy?
  }

  predicate Accesses(d: DynOp) {
    d.MLoad? || d.MStore? || d.MStore8? || d.Sha3? || d.Log? || d.ReturnData?
  }

  predicate Calls(d: DynOp) {
    d.Create? || d.CallOp?
  }

  function HaltPops(effect: Option<DynOp>): nat {
    match effect
    case None => 0
    case Some(d) => DynPops(d)
  }

  /** How many items the instruction removes from the stack. */
  function Pops(i: Ins): nat {
    match i
    case Push(_) | JumpDest | Invalid | Dup(_) | Swap(_) => 0
    case Pop | Jump => 1
    case JumpI => 2
    case Pure(p) => Arity(p)
    case Dyn(d) => DynPops(d)
    case Halt(e, _) => HaltPops(e)
  }

  /** How many items the instruction needs on the stack. */
  function Needs(i: Ins): nat {
    match i
    case Dup(n) => n + 1
    case Swap(n) => n + 1
    case _ => Pops(i)
  }

  function Pushes(i: Ins): (n: nat)
    ensures n <= 1
  {
    match i
    case Push(_) | Dup(_) | Pure(_) => 1
    case Dyn(d) => DynPushes(d)
    case _ => 0
  }

  /** Control leaves the block after these. */
  predicate IsControl(i: Ins) {
    i.Jump? || i.JumpI? || i.Halt?
  }

  /** Well-formed instructions: a swap addresses an item below the top, a halting
      instruction has no result and does not fail. */
  predicate GoodIns(i: Ins) {
    && (i.Swap? ==> i.n > 0)
    && (i.Halt? ==> i.rc != OutOfGas)
    && (i.Halt? && i.effect.Some? ==> DynPushes(i.effect.value) == 0 && !Commits(i.effect.value))
  }

  // ---------------------------------------------------------------- layout

  predicate IsPush(op: Byte) {
    PUSH1 <= op <= PUSH32
  }

  /** The position after the instruction at pos; push data is cut off at the code's end. */
  function Next(code: seq<Byte>, pos: nat): (next: nat)
    requires pos < |code|
    ensures pos < next <= |code|
  {
    pos + 1 + (if IsPush(code[pos]) then Min(code[pos] - PUSH1 + 1, |code| - pos - 1) else 0)
  }

  /** Whether stepping from instruction to instruction leads from one position to another. */
  predicate Reaches(code: seq<Byte>, from: nat, to: nat)
    decreases |code| - from
  {
    from == to || (from < |code| && Reaches(code, Next(code, from), to))
  }

  predicate IsStart(code: seq<Byte>, pos: nat) {
    Reaches(code, 0, pos)
  }

  /** The valid jump destinations, section 9.4.3 of the Ethereum Yellow Paper: scanning
      from position i, each JUMPDEST byte that is not push data. A push may announce
      more data than the code has left. */
  function ValidJumps(code: seq<Byte>, i: nat): set<nat>
    decreases |code| - i
  {
    if i >= |code| then {}
    else
      var next := if IsPush(code[i]) then i + code[i] - PUSH1 + 2 else i + 1;
      (if code[i] == JUMPDEST then {i} else {}) + ValidJumps(code, next)
  }

  predicate ValidDest(code: seq<Byte>, w: Word) {
    w in ValidJumps(code, 0)
  }

  /** The constant of the push at pos; bytes missing at the code's end count as zero. */
  function PushConstant(code: seq<Byte>, pos: nat): (w: Word)
    requires pos < |code| && IsPush(code[pos])
  {
    Wrap(FromBytes(Slice(code, pos + 1, code[pos] - PUSH1 + 1)))
  }

  // ---------------------------------------------------------------- decoding

  function Decode(cfg: Config, code: seq<Byte>, pos: nat): (i: Instr)
    requires pos < |code|
    ensures GoodIns(i.ins)
    ensures i.ins.Jump? || i.ins.JumpI? || i.ins.JumpDest? ==> i.cost > 0
    ensures i.ins.JumpDest? <==> code[pos] == JUMPDEST
    ensures i.ins.Jump? <==> code[pos] == JUMP
    ensures i.ins.JumpI? <==> code[pos] == JUMPI
    ensures i.ins.Halt? ==> code[pos] in {STOP, RETURN, REVERT, SUICIDE}
    ensures code[pos] in {STOP, RETURN, REVERT, SUICIDE} ==> i.ins.Halt? || i.ins.Invalid?
  {
    Instr(Classify(cfg, code, pos), StepCost(cfg.rev, code[pos]))
  }

  /** The switch of the block compiler. */
  function Classify(cfg: Config, code: seq<Byte>, pos: nat): (i: Ins)
    requires pos < |code|
  {
    var op := code[pos];
    if IsPush(op) then Push(PushConstant(code, pos))
    else if 0x80 <= op <= 0x8f then Dup(op - 0x80)
    else if 0x90 <= op <= 0x9f then Swap(op - 0x90 + 1)
    else if 0xa0 <= op <= 0xa4 then (if cfg.staticCall then Invalid else Dyn(Log(op - 0xa0)))
    else
      match op
      case 0x00 => Halt(None, Stop)
      case 0x01 => Pure(Add)
      case 0x02 => Pure(Mul)
      case 0x03 => Pure(Sub)
      case 0x04 => Pure(Div)
      case 0x05 => Pure(SDiv)
      case 0x06 => Pure(Mod)
      case 0x07 => Pure(SMod)
      case 0x08 => Pure(AddMod)
      case 0x09 => Pure(MulMod)
      case 0x0a => Dyn(Exp)
      case 0x0b => Pure(SignExtend)
      case 0x10 => Pure(Lt)
      case 0x11 => Pure(Gt)
      case 0x12 => Pure(Slt)
      case 0x13 => Pure(Sgt)
      case 0x14 => Pure(Eq)
      case 0x15 => Pure(IsZero)
      case 0x16 => Pure(And)
      case 0x17 => Pure(Or)
      case 0x18 => Pure(Xor)
      case 0x19 => Pure(Not)
      case 0x1a => Pure(ByteAt)
      case 0x20 => Dyn(Sha3)
      case 0x30 => Dyn(Env(Address))
      case 0x31 => Dyn(Balance)
      case 0x32 => Dyn(Env(Origin))
      case 0x33 => Dyn(Env(Caller))
      case 0x34 => Dyn(Env(CallValue))
      case 0x35 => Dyn(CallDataLoad)
      case 0x36 => Dyn(Env(CallDataSize))
      case 0x37 => Dyn(CallDataCopy)
      case 0x38 => Push(Wrap(|code|))
      case 0x39 => Dyn(CodeCopy)
      case 0x3a => Dyn(Env(GasPrice))
      case 0x3b => Dyn(ExtCodeSize)
      case 0x3c => Dyn(ExtCodeCopy)
      case 0x3d => (if cfg.rev < BYZANTIUM then Invalid else Dyn(ReturnDataSize))
      case 0x3e => (if cfg.rev < BYZANTIUM then Invalid else Dyn(ReturnDataCopy))
      case 0x40 => Dyn(BlockHash)
      case 0x41 => Dyn(Env(Coinbase))
      case 0x42 => Dyn(Env(Timestamp))
      case 0x43 => Dyn(Env(Number))
      case 0x44 => Dyn(Env(Difficulty))
      case 0x45 => Dyn(Env(GasLimit))
      case 0x50 => Pop
      case 0x51 => Dyn(MLoad)
      case 0x52 => Dyn(MStore)
      case 0x53 => Dyn(MStore8)
      case 0x54 => Dyn(SLoad)
      case 0x55 => (if cfg.staticCall then Invalid else Dyn(SStore))
      case 0x56 => Jump
      case 0x57 => JumpI
      case 0x58 => Push(Wrap(pos))
      case 0x59 => Dyn(MSize)
      case 0x5a => Dyn(GasLeft)
      case 0x5b => JumpDest
      case 0xf0 => (if cfg.staticCall then Invalid else Dyn(Create))
      case 0xf1 => Dyn(CallOp(PlainCall))
      case 0xf2 => Dyn(CallOp(CallCode))
      case 0xf3 => Halt(Some(ReturnData), Return)
      case 0xf4 => (if cfg.rev < HOMESTEAD then Invalid else Dyn(CallOp(DelegateCall)))
      case 0xfa => (if cfg.rev < BYZANTIUM then Invalid else Dyn(CallOp(StaticCall)))
      case 0xfd => (if cfg.rev < BYZANTIUM then Invalid else Halt(Some(ReturnData), Revert))
      case 0xff => (if cfg.staticCall then Invalid else Halt(Some(SelfDestruct), Stop))
      case _ => Invalid
  }

  /** The static cost of an opcode; invalid opcodes cost nothing. */
  function StepCost(rev: nat, op: Byte): (cost: nat)
    ensures cost <= 32000
  {
    if 0x60 <= op <= 0x9f then 3
    else if 0xa0 <= op <= 0xa4 then 375 + (op - 0xa0) * 375
    else
      match op
      case 0x00 | 0xf3 | 0xfd | 0x55 => 0
      case 0x30 | 0x32 | 0x33 | 0x34 | 0x36 | 0x3d | 0x38 | 0x3a | 0x41 | 0x42 | 0x43
      | 0x44 | 0x45 | 0x50 | 0x58 | 0x59 | 0x5a => 2
      case 0x01 | 0x03 | 0x10 | 0x11 | 0x12 | 0x13 | 0x14 | 0x15 | 0x16 | 0x17 | 0x18
      | 0x19 | 0x1a | 0x35 | 0x37 | 0x3e | 0x39 | 0x51 | 0x52 | 0x53 => 3
      case 0x02 | 0x04 | 0x05 | 0x06 | 0x07 | 0x0b => 5
      case 0x08 | 0x09 | 0x56 => 8
      case 0x0a | 0x57 => 10
      case 0x31 => (if rev >= TANGERINE_WHISTLE then 400 else 20)
      case 0x3b | 0x3c => (if rev >= TANGERINE_WHISTLE then 700 else 20)
      case 0x40 => (if rev >= CONSTANTINOPLE then 800 else 20)
      case 0x20 => 30
      case 0x54 => (if rev >= TANGERINE_WHISTLE then 200 else 50)
      case 0x5b => 1
      case 0xf1 | 0xf2 | 0xf4 | 0xfa => (if rev >= TANGERINE_WHISTLE then 700 else 40)
      case 0xf0 => 32000
      case 0xff => (if rev >= TANGERINE_WHISTLE then 5000 else 0)
      case _ => 0
  }
}
