/** The instructions as the Ethereum Yellow Paper defines them (section 9 and appendices G
    and H), with the prices of EIP-150, EIP-160 and EIP-161 from the revisions that have
    them: unbounded integers, no clamps, no truncations, and failure as failure. */
module YellowPaper {
  import opened Words
  import opened Instructions
  import opened Machine
  import opened Hosts
  import opened Arith
  import opened MemoryPrice

  function Pay(m: Mach, cost: nat): (r: Option<Mach>)
    ensures r.Some? ==> r.value.gas == m.gas - cost
  {
    if cost <= m.gas then Some(m.(gas := m.gas - cost)) else None
  }

  // ---------------------------------------------------------------- memory

  /** The number of active words once [offset, offset + size) is in use. */
  function ActiveWords(w: nat, offset: nat, size: nat): (n: nat)
    ensures n >= w
  {
    if size == 0 then w else Max(w, CeilWords(offset + size))
  }

  /** Memory grown to w words. */
  function GrowTo(mem: seq<Byte>, w: nat): seq<Byte> {
    if |mem| < 32 * w then mem + Zeroes(32 * w - |mem|) else mem
  }

  function Expand(m: Mach, w: nat): (r: Option<Mach>)
    requires w >= |m.mem| / 32
    ensures r.Some? ==> r.value.gas <= m.gas
  {
    CMemMonotone(|m.mem| / 32, w);
    var n :- Pay(m, CMem(w) - CMem(|m.mem| / 32));
    Some(n.(mem := GrowTo(m.mem, w)))
  }

  function Use(m: Mach, offset: nat, size: nat): (r: Option<Mach>)
    ensures r.Some? ==> r.value.gas <= m.gas
  {
    Expand(m, ActiveWords(|m.mem| / 32, offset, size))
  }

  function WordAt(mem: seq<Byte>, offset: nat): Word {
    Wrap(FromBytes(Slice(mem, offset, 32)))
  }

  // ---------------------------------------------------------------- arithmetic

  /** Division rounding toward zero. */
  function TruncDiv(a: int, b: int): int
    requires b != 0
  {
    if a >= 0 then a / b else -((-a) / b)
  }

  function TruncMod(a: int, b: int): int
    requires b != 0
  {
    a - b * TruncDiv(a, b)
  }

  function SignExtendAt(k: Word, x: Word): Word {
    if k > 30 then x
    else
      var n: nat := 8 * (k + 1);
      var low: nat := x % Pow2(n);
      Wrap(if low < Pow2(n - 1) then low else low + TWO256 - Pow2(n))
  }

  function ByteOf(i: Word, x: Word): Word {
    if i < 32 then (x / Pow2(8 * (31 - i))) % 256 else 0
  }

  function Pure(p: PureOp, a: seq<Word>): Word {
    if |a| != Arity(p) then 0
    else
      match p
      case Add => Wrap(a[0] as int + a[1])
      case Mul => Wrap(a[0] as int * a[1])
      case Sub => Wrap(a[0] as int - a[1])
      case Div => if a[1] == 0 then 0 else Wrap(a[0] / a[1])
      case SDiv => if a[1] == 0 then 0 else Wrap(TruncDiv(ToSigned(a[0]), ToSigned(a[1])))
      case Mod => if a[1] == 0 then 0 else a[0] % a[1]
      case SMod => if a[1] == 0 then 0 else Wrap(TruncMod(ToSigned(a[0]), ToSigned(a[1])))
      case AddMod => if a[2] == 0 then 0 else (a[0] as int + a[1]) % a[2]
      case MulMod => if a[2] == 0 then 0 else (a[0] as int * a[1]) % a[2]
      case SignExtend => SignExtendAt(a[0], a[1])
      case Lt => BoolWord(a[0] < a[1])
      case Gt => BoolWord(a[0] > a[1])
      case Slt => BoolWord(ToSigned(a[0]) < ToSigned(a[1]))
      case Sgt => BoolWord(ToSigned(a[0]) > ToSigned(a[1]))
      case Eq => BoolWord(a[0] == a[1])
      case IsZero => BoolWord(a[0] == 0)
      case And => Wrap(BitAnd(a[0], a[1]))
      case Or => Wrap(BitOr(a[0], a[1]))
      case Xor => Wrap(BitXor(a[0], a[1]))
      case Not => TWO256 - 1 - a[0]
      case ByteAt => ByteOf(a[0], a[1])
  }

  // ---------------------------------------------------------------- instructions

  function ByteLen(x: nat): nat {
    if x == 0 then 0 else 1 + ByteLen(x / 256)
  }

  /** Copy [from, from + size) of a source, zero-extended, to memory. */
  function CopyIn(m: Mach, src: Bytes, dest: Word, from: Word, size: Word): (r: Option<Mach>)
    ensures r.Some? ==> r.value.gas <= m.gas
  {
    var n :- Use(m, dest, size);
    var k :- Pay(n, 3 * CeilWords(size));
    Some(k.(mem := Splice(k.mem, dest, Slice(src, from, size))))
  }

  function CopyReturned(m: Mach, dest: Word, from: Word, size: Word): (r: Option<Mach>)
    ensures r.Some? ==> r.value.gas <= m.gas
  {
    if from as int + size > |m.ret| then None
    else CopyIn(m, m.ret, dest, from, size)
  }

  function HashOf(h: Host, m: Mach, offset: Word, size: Word): (r: Option<Effect>)
    ensures r.Some? ==> r.value.m.gas <= m.gas && |r.value.results| == 1
  {
    var n :- Use(m, offset, size);
    var k :- Pay(n, 6 * CeilWords(size));
    Some(Effect(k, [h.hash(Slice(k.mem, offset, size))]))
  }

  function Load(m: Mach, addr: Word): (r: Option<Effect>)
    ensures r.Some? ==> r.value.m.gas <= m.gas && |r.value.results| == 1
  {
    var n :- Use(m, addr, 32);
    Some(Effect(n, [WordAt(n.mem, addr)]))
  }

  function Store(m: Mach, addr: Word, bytes: seq<Byte>): (r: Option<Mach>)
    ensures r.Some? ==> r.value.gas <= m.gas
  {
    var n :- Use(m, addr, |bytes|);
    Some(n.(mem := Splice(n.mem, addr, bytes)))
  }

  function LogData(h: Host, m: Mach, offset: Word, size: Word, topics: seq<Word>): (r: Option<Mach>)
    ensures r.Some? ==> r.value.gas <= m.gas
  {
    var n :- Use(m, offset, size);
    var k :- Pay(n, 8 * size);
    Some(k.(world := h.emitLog(k.world, Clip(k.mem, offset, size), topics)))
  }

  function Output(m: Mach, offset: Word, size: Word): (r: Option<Mach>)
    ensures r.Some? ==> r.value.gas <= m.gas
  {
    var n :- Use(m, offset, size);
    Some(n.(out := Slice(n.mem, offset, size)))
  }

  // ---------------------------------------------------------------- calls

  /** Depth and balance allow the message to be executed. */
  predicate Callable(h: Host, world: World, msg: Msg) {
    && h.depth < 1024
    && (msg.kind != DelegateCall && msg.value != 0 ==>
          msg.value <= h.balance(world, AddressOf(h.env(Address))))
  }

  /** The end of a message, executed or not: an unexecuted one keeps its gas and fails. */
  datatype Ended = Ended(success: bool, left: nat, output: Bytes, created: Word, world: World)

  function Execute(h: Host, world: World, msg: Msg): (e: Ended)
    ensures e.left <= msg.gas
  {
    if Callable(h, world, msg)
    then
      var c := h.call(world, msg);
      Ended(c.success, GasReturned(msg, c), c.output, c.created, c.world)
    else Ended(false, msg.gas, [], 0, world)
  }

  /** All but one 64th. */
  function AllBut64th(gas: nat): (g: nat)
    ensures g <= gas
  {
    gas - gas / 64
  }

  function Deploy(h: Host, cfg: Config, m: Mach, value: Word, offset: Word, size: Word): (e: Effect)
    ensures e.m.gas <= m.gas && |e.results| == 1
  {
    var given := if cfg.rev >= TANGERINE_WHISTLE then AllBut64th(m.gas) else m.gas;
    var e := Execute(h, m.world, Msg(CreateKind, given, 0, value, Clip(m.mem, offset, size)));
    Effect(m.(gas := m.gas - given + e.left, ret := e.output, world := e.world),
           [if e.success then AddressOf(e.created) else 0])
  }

  function CreateContract(h: Host, cfg: Config, m: Mach, value: Word, offset: Word, size: Word): (r: Option<Effect>)
    ensures r.Some? ==> r.value.m.gas <= m.gas && |r.value.results| == 1
  {
    var n :- Use(m, offset, size);
    Some(Deploy(h, cfg, n, value, offset, size))
  }

  /** The extra price of a call: value transfer and account creation. */
  function ExtraGas(h: Host, cfg: Config, kind: CallKind, world: World, address: Word, value: Word): nat {
    (if value != 0 then 9000 else 0) +
    (if kind == PlainCall && !h.accountExists(world, AddressOf(address)) &&
        (cfg.rev < SPURIOUS_DRAGON || value != 0) then 25000 else 0)
  }

  function Stipend(value: Word): nat {
    if value == 0 then 0 else 2300
  }

  function Receive(m: Mach, e: Ended, outOff: Word, outSize: Word): Effect
    requires m.gas + e.left <= GAS_MAX
  {
    var copied := Min(outSize, |e.output|);
    Effect(m.(gas := m.gas + e.left, mem := Splice(m.mem, outOff, e.output[..copied]),
              ret := e.output, world := e.world),
           [BoolWord(e.success)])
  }

  function Transmit(h: Host, m: Mach, msg: Msg, outOff: Word, outSize: Word): (e: Effect)
    requires m.gas + msg.gas <= GAS_MAX
    ensures e.m.gas <= m.gas + msg.gas && |e.results| == 1
  {
    Receive(m, Execute(h, m.world, msg), outOff, outSize)
  }

  /** The message call proper, with all but a 64th of the gas at most. */
  function Send(h: Host, cfg: Config, kind: CallKind, m: Mach, wanted: Word, to: Word, value: Word,
                inOff: Word, inSize: Word, outOff: Word, outSize: Word): (r: Option<Effect>)
    requires m.gas + Stipend(value) <= GAS_MAX
    ensures r.Some? ==> r.value.m.gas <= m.gas + Stipend(value) && |r.value.results| == 1
  {
    var callGas := if cfg.rev >= TANGERINE_WHISTLE then Min(wanted, AllBut64th(m.gas)) else wanted;
    var n :- Pay(m, callGas);
    Some(Transmit(h, n, Msg(kind, callGas + Stipend(value), AddressOf(to), value,
                            Clip(n.mem, inOff, inSize)), outOff, outSize))
  }

  /** One-shot: memory for input and output at once, and one extra price. */
  function CallContract(h: Host, cfg: Config, kind: CallKind, m: Mach, wanted: Word, to: Word, value: Word,
                        inOff: Word, inSize: Word, outOff: Word, outSize: Word): (r: Option<Effect>)
    ensures r.Some? ==> r.value.m.gas <= m.gas && |r.value.results| == 1
  {
    var w := |m.mem| / 32;
    var words := ActiveWords(ActiveWords(w, inOff, inSize), outOff, outSize);
    var n :- Expand(m, words);
    if kind == PlainCall && cfg.staticCall && value != 0 then None
    else
      var k :- Pay(n, ExtraGas(h, cfg, kind, n.world, to, value));
      Send(h, cfg, kind, k, wanted, to, value, inOff, inSize, outOff, outSize)
  }

  function SelfDestructAt(h: Host, cfg: Config, m: Mach, dest: Word): (r: Option<Mach>)
    ensures r.Some? ==> r.value.gas <= m.gas
  {
    var alive := h.accountExists(m.world, AddressOf(dest));
    var funds := h.balance(m.world, AddressOf(h.env(Address)));
    var newAccount := !alive && (cfg.rev < SPURIOUS_DRAGON || funds != 0);
    var n :- Pay(m, if cfg.rev >= TANGERINE_WHISTLE && newAccount then 25000 else 0);
    Some(n.(world := h.destruct(n.world, AddressOf(dest))))
  }

  function NoResult(m: Option<Mach>): Option<Effect> {
    var n :- m;
    Some(Effect(n, []))
  }

  function ActCopy(h: Host, d: DynOp, a: seq<Word>, m: Mach): (r: Option<Mach>)
    requires Copies(d) && |a| == DynPops(d)
    ensures r.Some? ==> r.value.gas <= m.gas
  {
    match d
    case CallDataCopy => CopyIn(m, h.callData, a[0], a[1], a[2])
    case CodeCopy => CopyIn(m, h.code, a[0], a[1], a[2])
    case ExtCodeCopy => CopyIn(m, h.codeOf(m.world, AddressOf(a[0])), a[1], a[2], a[3])
    case ReturnDataCopy => CopyReturned(m, a[0], a[1], a[2])
  }

  function ActAccess(h: Host, d: DynOp, a: seq<Word>, m: Mach): (r: Option<Effect>)
    requires Accesses(d) && |a| == DynPops(d)
    ensures r.Some? ==> r.value.m.gas <= m.gas && |r.value.results| == DynPushes(d)
  {
    match d
    case MLoad => Load(m, a[0])
    case MStore => NoResult(Store(m, a[0], ToBytes(a[1], 32)))
    case MStore8 => NoResult(Store(m, a[0], [a[1] % 256]))
    case Sha3 => HashOf(h, m, a[0], a[1])
    case Log(_) => NoResult(LogData(h, m, a[0], a[1], a[2..]))
    case ReturnData => NoResult(Output(m, a[0], a[1]))
  }

  function ActCall(h: Host, cfg: Config, d: DynOp, a: seq<Word>, m: Mach): (r: Option<Effect>)
    requires Calls(d) && |a| == DynPops(d)
    ensures r.Some? ==> r.value.m.gas <= m.gas && |r.value.results| == 1
  {
    match d
    case Create => CreateContract(h, cfg, m, a[0], a[1], a[2])
    case CallOp(kind) =>
      if kind == PlainCall || kind == CallCode
      then CallContract(h, cfg, kind, m, a[0], a[1], a[2], a[3], a[4], a[5], a[6])
      else CallContract(h, cfg, kind, m, a[0], a[1], 0, a[2], a[3], a[4], a[5])
  }

  function ActPlain(h: Host, cfg: Config, d: DynOp, a: seq<Word>, m: Mach): (r: Option<Effect>)
    requires !Copies(d) && !Accesses(d) && !Calls(d) && |a| == DynPops(d)
    ensures r.Some? ==> r.value.m.gas <= m.gas && |r.value.results| == DynPushes(d)
  {
    match d
    case Exp =>
      var n :- Pay(m, ByteLen(a[1]) * (if cfg.rev >= SPURIOUS_DRAGON then 50 else 10));
      Some(Effect(n, [Wrap(Pow(a[0], a[1]))]))
    case Env(item) => Some(Effect(m, [if item == CallDataSize then |h.callData| else h.env(item)]))
    case Balance => Some(Effect(m, [h.balance(m.world, AddressOf(a[0]))]))
    case ExtCodeSize => Some(Effect(m, [h.codeSize(m.world, AddressOf(a[0]))]))
    case BlockHash => Some(Effect(m, [if a[0] > GAS_MAX then 0 else h.blockHash(m.world, a[0])]))
    case SLoad => Some(Effect(m, [h.storage(m.world, a[0])]))
    case CallDataLoad => Some(Effect(m, [WordAt(h.callData, a[0])]))
    case ReturnDataSize => Some(Effect(m, [|m.ret|]))
    case MSize => Some(Effect(m, [Wrap(|m.mem|)]))
    case SStore =>
      var n :- Pay(m, if h.storage(m.world, a[0]) == 0 && a[1] != 0 then 20000 else 5000);
      Some(Effect(n.(world := h.setStorage(n.world, a[0], a[1])), []))
    case GasLeft => Some(Effect(m, [m.gas]))
    case SelfDestruct => NoResult(SelfDestructAt(h, cfg, m, a[0]))
  }

  function Act(h: Host, cfg: Config, d: DynOp, a: seq<Word>, m: Mach): (r: Option<Effect>)
    ensures r.Some? ==> r.value.m.gas <= m.gas && |r.value.results| == DynPushes(d)
  {
    if |a| != DynPops(d) then None
    else if Copies(d) then NoResult(ActCopy(h, d, a, m))
    else if Accesses(d) then ActAccess(h, d, a, m)
    else if Calls(d) then ActCall(h, cfg, d, a, m)
    else ActPlain(h, cfg, d, a, m)
  }

  function PaperSem(h: Host, cfg: Config): Sem {
    Sem((p, a) => Pure(p, a), (d, a, m) => Act(h, cfg, d, a, m))
  }

  lemma PaperIsSane(h: Host, cfg: Config)
    ensures GasOk(PaperSem(h, cfg))
  {
  }
}
