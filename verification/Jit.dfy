/** What the emitted code computes for each instruction: 64-bit sizes, truncations, clamped
    memory requests, and penalties of INT64_MAX in place of failure. */
module Jit {
  import opened Words
  import opened Instructions
  import opened Machine
  import opened Hosts
  import opened Arith
  import opened MemoryPrice

  // ---------------------------------------------------------------- gas

  /** The emitted gas.check, for a cost given as a 64-bit quantity. */
  function Charge(m: Mach, cost: nat): (r: Option<Mach>)
    ensures r.Some? ==> r.value.gas <= m.gas
  {
    if m.gas - cost >= 0 then Some(m.(gas := m.gas - cost)) else None
  }

  /** The charge of a 256-bit cost: costs above INT64_MAX count as INT64_MAX. */
  function ChargeWord(m: Mach, cost: Word): (r: Option<Mach>)
    ensures r.Some? ==> r.value.gas <= m.gas
  {
    Charge(m, if cost > GAS_MAX then GAS_MAX else Trunc64(cost))
  }

  // ---------------------------------------------------------------- memory

  const INPUT_MAX: nat := 0x2_0000_0000   // 2^33

  function Clamp(x: Word): nat {
    if x <= INPUT_MAX then Trunc64(x) else INPUT_MAX
  }

  /** The size in bytes that a request asks for, clamped and rounded up to words. */
  function ClampedSize(offset: Word, size: Word): nat {
    CeilWords(Clamp(offset) + Clamp(size)) * 32
  }

  /** mem.require: make memory cover [offset, offset + size), for a price. */
  function Require(m: Mach, offset: Word, size: Word): (r: Option<Mach>)
    ensures r.Some? ==> r.value.gas <= m.gas
  {
    if size == 0 then Some(m)
    else
      var req := ClampedSize(offset, size);
      if req <= |m.mem| then Some(m)
      else
        var inRange := offset <= INPUT_MAX && size <= INPUT_MAX;
        CMemMonotone(|m.mem| / 32, req / 32);
        var cost := if inRange then CMem(req / 32) - CMem(|m.mem| / 32) else GAS_MAX;
        var n :- Charge(m, cost);
        Some(n.(mem := m.mem + Zeroes(req - |m.mem|)))
  }

  function WordOf(bs: seq<Byte>): Word {
    Wrap(FromBytes(bs))
  }

  /** The gas for copying, per word, after the request was met. */
  function CopyWords(bytes: U64): nat {
    Trunc64(bytes + 31) / 32
  }

  /** Copy from a buffer into memory, zero bytes standing for what the buffer lacks. */
  function CopyBytes(m: Mach, src: Bytes, dest: Word, srcIdx: Word, req: Word): (r: Option<Mach>)
    ensures r.Some? ==> r.value.gas <= m.gas
  {
    var m1 :- Require(m, dest, req);
    var req64 := Trunc64(req);
    var m2 :- Charge(m1, CopyWords(req64) * 3);
    Some(m2.(mem := Padded(m2.mem, src, Trunc64(dest), srcIdx, req64)))
  }

  /** How many of the requested bytes the buffer has. */
  function BytesToCopy(size: U64, srcIdx: Word, req: U64): U64 {
    var left := Trunc64(size - Trunc64(srcIdx));        // wraps only if not selected
    var inner := if req > left then left else req;
    if srcIdx >= size then 0 else inner
  }

  /** memcpy of what the buffer has, then memset of the rest. */
  function Padded(mem: seq<Byte>, src: Bytes, dest: U64, srcIdx: Word, req: U64): seq<Byte> {
    var n := BytesToCopy(|src|, srcIdx, req);
    var zeroes := Trunc64(req - n);
    var copied := Splice(mem, dest, Slice(src, Trunc64(srcIdx), n));
    Splice(copied, Trunc64(dest + n), Zeroes(zeroes))
  }

  /** Copy from the return buffer; reading beyond it costs the penalty, which the copy price
      triples modulo 2^64. */
  function CopyNoPadding(m: Mach, dest: Word, srcIdx: Word, req: Word): (r: Option<Mach>)
    ensures r.Some? ==> r.value.gas <= m.gas
  {
    var m1 :- Require(m, dest, req);
    var req64 := Trunc64(req);
    var reqSize := Wrap(srcIdx + req);
    var overrun := reqSize < req || reqSize > |m.ret|;
    var m2 :- Charge(m1, Trunc64((if overrun then GAS_MAX else CopyWords(req64)) * 3));
    Some(m2.(mem := Splice(m2.mem, Trunc64(dest), Slice(m.ret, Trunc64(srcIdx), req64))))
  }

  /** CALLDATALOAD: 32 bytes of call data, zero-padded. */
  function LoadCallData(data: Bytes, index: Word): Word {
    var size: U64 := |data|;
    var idx := Trunc64(if index < size then index else size);
    var end0 := Trunc64(idx + 32);
    var end := if end0 <= size then end0 else size;
    var copySize := Trunc64(end - idx);
    var padSize := Trunc64(32 - copySize);
    WordOf(Slice(data, idx, copySize) + Zeroes(padSize))
  }

  // ---------------------------------------------------------------- arithmetic

  /** A 512-bit remainder; the emitted loop leaves the remainder by zero undefined. */
  function URem(x: nat, y: nat, undef: Word): nat {
    if y == 0 then undef else x % y
  }

  function SDivOp(d: Word, n: Word): Word {
    var n1 := if n == 0 then 1 else n;
    var r := SDivRem(d, n1).0;
    if n == TWO256 - 1 then Neg(d) else if n == 0 then 0 else r
  }

  function SModOp(d: Word, n: Word): Word {
    var n1 := if n == 0 then 1 else n;
    var r := SDivRem(d, n1).1;
    if n == TWO256 - 1 then 0 else if n == 0 then 0 else r
  }

  function AddModOp(a: Word, b: Word, n: Word, undef: Word): Word {
    var s := Wrap(URem(a + b, n, undef));
    if n == 0 then 0 else s
  }

  function MulModOp(a: Word, b: Word, n: Word, undef: Word): Word {
    var p := Wrap(URem(a * b, n, undef));
    if n == 0 then 0 else p
  }

  /** The word with the bits above bitpos made equal to the bit at bitpos, by masks. */
  function SignMasked(word: Word, bitpos: nat): Word {
    var bittest := (word / Pow2(bitpos)) % 2 == 1;
    var mask := Wrap(Wrap(Pow2(bitpos)) - 1);
    var negmask := Wrap(BitXor(mask, TWO256 - 1));
    var val1 := Wrap(BitOr(word, negmask));
    var val0 := Wrap(BitAnd(word, mask));
    if bittest then val1 else val0
  }

  function SignExtendOp(idx: Word, word: Word): Word {
    var bitpos := (idx % 32) * 8 + 7;
    var extended := SignMasked(word, bitpos);
    if idx <= 30 then extended else word
  }

  /** BYTE: the byte-swapped word as a vector of bytes. */
  function ByteOp(idx: Word, value: Word): Word {
    var byte := ToBytes(value, 32)[idx % 32];
    if idx < 32 then byte else 0
  }

  function Pure(undef: Word, p: PureOp, a: seq<Word>): Word {
    if |a| != Arity(p) then 0
    else
      match p
      case Add => Wrap(a[0] as int + a[1])
      case Mul => Wrap(a[0] as int * a[1])
      case Sub => Wrap(a[0] as int - a[1])
      case Div =>
        var n := if a[1] == 0 then 1 else a[1];
        if a[1] == 0 then 0 else Wrap(a[0] / n)
      case SDiv => SDivOp(a[0], a[1])
      case Mod =>
        var n := if a[1] == 0 then 1 else a[1];
        if a[1] == 0 then 0 else Wrap(a[0] % n)
      case SMod => SModOp(a[0], a[1])
      case AddMod => AddModOp(a[0], a[1], a[2], undef)
      case MulMod => MulModOp(a[0], a[1], a[2], undef)
      case SignExtend => SignExtendOp(a[0], a[1])
      case Lt => BoolWord(a[0] < a[1])
      case Gt => BoolWord(a[0] > a[1])
      case Slt => BoolWord(ToSigned(a[0]) < ToSigned(a[1]))
      case Sgt => BoolWord(ToSigned(a[0]) > ToSigned(a[1]))
      case Eq => BoolWord(a[0] == a[1])
      case IsZero => BoolWord(a[0] == 0)
      case And => Wrap(BitAnd(a[0], a[1]))
      case Or => Wrap(BitOr(a[0], a[1]))
      case Xor => Wrap(BitXor(a[0], a[1]))
      case Not => Wrap(BitXor(a[0], TWO256 - 1))
      case ByteAt => ByteOp(a[0], a[1])
  }

  // ---------------------------------------------------------------- calls

  /** A callee's gas as a signed 64-bit result: failure sets the top bit. */
  function EncodeGas(success: bool, gas: nat): int {
    if success then gas else gas - TWO63
  }

  /** Clearing the top bit again. */
  function DecodeGas(r: int): int {
    r - (if r >= 0 then 0 else -TWO63)
  }

  /** What the call wrapper gives back: the encoded gas, and what the callee did, if it ran. */
  datatype Wrapped = Wrapped(r: int, callee: Option<CallResult>)

  /** The checks before a call: depth and, if value is to be transferred, balance. */
  function CallWrapper(h: Host, world: World, msg: Msg): Wrapped {
    var fail := Wrapped(EncodeGas(false, msg.gas), None);
    if h.depth >= 1024 then fail
    else if msg.kind != DelegateCall && msg.value != 0 &&
            h.balance(world, AddressOf(h.env(Address))) < msg.value then fail
    else
      var c := h.call(world, msg);
      Wrapped(EncodeGas(c.success, GasReturned(msg, c)), Some(c))
  }

  /** The machine after a call; the return buffer was emptied before it. */
  function AfterCall(m: Mach, w: Wrapped): Mach {
    match w.callee
    case None => m.(ret := [])
    case Some(c) => m.(ret := c.output, world := c.world)
  }

  /** CREATE once memory is there: withhold a 64th, call, give back what is left. */
  function Deploy(h: Host, cfg: Config, m: Mach, value: Word, offset: Word, size: Word): (e: Effect)
    ensures e.m.gas <= m.gas && |e.results| == 1
  {
    var kept := if cfg.rev >= TANGERINE_WHISTLE then m.gas / 64 else 0;
    var given := m.gas - kept;
    var msg := Msg(CreateKind, given, 0, value, InputOf(m, offset, size));
    var w := CallWrapper(h, m.world, msg);
    var addr := if w.r >= 0 && w.callee.Some? then AddressOf(w.callee.value.created) else 0;
    Effect(AfterCall(m, w).(gas := DecodeGas(w.r) + kept), [addr])
  }

  function CreateOp(h: Host, cfg: Config, m: Mach, value: Word, offset: Word, size: Word): (r: Option<Effect>)
    ensures r.Some? ==> r.value.m.gas <= m.gas && |r.value.results| == 1
  {
    var n :- Require(m, offset, size);
    Some(Deploy(h, cfg, n, value, offset, size))
  }

  /** Memory as the input of a call or log; sizes beyond any object are not met in practice. */
  function InputOf(m: Mach, offset: Word, size: Word): Bytes {
    Clip(m.mem, Trunc64(offset), Trunc64(size))
  }

  /** The gas a call may take along: all but a 64th of what is left, since EIP-150. */
  function CapCallGas(cfg: Config, gas: Gas, callGas: Word): Word {
    if cfg.rev >= TANGERINE_WHISTLE
    then
      var allowed := gas - gas / 64;
      if callGas > allowed then allowed else callGas
    else callGas
  }

  function CallPrice(h: Host, cfg: Config, kind: CallKind, m: Mach, address: Word, value: Word): (r: Option<Mach>)
    ensures r.Some? ==> r.value.gas + (if value == 0 then 0 else 9000) <= m.gas
  {
    var noTransfer := value == 0;
    var transferGas := if kind == PlainCall && cfg.staticCall then GAS_MAX else 9000;
    var m1 :- Charge(m, if noTransfer then 0 else transferGas);
    if kind != PlainCall then Some(m1)
    else
      var alive := h.accountExists(m1.world, AddressOf(address));
      var noPenalty := alive || (cfg.rev >= SPURIOUS_DRAGON && noTransfer);
      Charge(m1, if noPenalty then 0 else 25000)
  }

  function Stipend(value: Word): nat {
    if value == 0 then 0 else 2300
  }

  /** After a call: give back what is left, copy the output. */
  function Receive(m: Mach, w: Wrapped, outOff: Word, outSize: Word): (e: Effect)
    requires 0 <= m.gas + DecodeGas(w.r) <= GAS_MAX
    ensures e.m.gas == m.gas + DecodeGas(w.r) && |e.results| == 1 && |e.m.mem| == |m.mem|
  {
    var out := if w.callee.Some? then w.callee.value.output else [];
    var copied := Min(Trunc64(outSize), |out|);
    Effect(AfterCall(m, w).(gas := m.gas + DecodeGas(w.r),
                            mem := Splice(m.mem, Trunc64(outOff), out[..copied])),
           [BoolWord(w.r >= 0)])
  }

  function Transmit(h: Host, m: Mach, msg: Msg, outOff: Word, outSize: Word): (e: Effect)
    requires m.gas + msg.gas <= GAS_MAX
    ensures e.m.gas <= m.gas + msg.gas && |e.results| == 1 && |e.m.mem| == |m.mem|
  {
    Receive(m, CallWrapper(h, m.world, msg), outOff, outSize)
  }

  /** A call once memory and price are settled: charge the gas to pass on, and call. */
  function Send(h: Host, cfg: Config, kind: CallKind, m: Mach, wanted: Word, to: Word, value: Word,
                inOff: Word, inSize: Word, outOff: Word, outSize: Word): (r: Option<Effect>)
    requires m.gas + Stipend(value) <= GAS_MAX
    ensures r.Some? ==> r.value.m.gas <= m.gas + Stipend(value) && |r.value.results| == 1
    ensures r.Some? ==> |r.value.m.mem| == |m.mem|
  {
    var callGas := CapCallGas(cfg, m.gas, wanted);
    var n :- ChargeWord(m, callGas);
    // The second case takes a counter of INT64_MAX, which the static cost of a call rules out.
    var declared := if callGas <= GAS_MAX then Trunc64(callGas) else GAS_MAX;
    Some(Transmit(h, n, Msg(kind, declared + Stipend(value), AddressOf(to), value,
                            InputOf(n, inOff, inSize)), outOff, outSize))
  }

  function CallInstr(h: Host, cfg: Config, kind: CallKind, m: Mach, wanted: Word, to: Word, value: Word,
                     inOff: Word, inSize: Word, outOff: Word, outSize: Word): (r: Option<Effect>)
    ensures r.Some? ==> r.value.m.gas <= m.gas && |r.value.results| == 1
  {
    var m1 :- Require(m, outOff, outSize);
    var m2 :- Require(m1, inOff, inSize);
    var m3 :- CallPrice(h, cfg, kind, m2, to, value);
    Send(h, cfg, kind, m3, wanted, to, value, inOff, inSize, outOff, outSize)
  }

  // ---------------------------------------------------------------- the instructions

  function ExpGas(cfg: Config, exponent: Word): nat {
    var sigBytes := (BitLen(exponent) + 7) / 8;
    sigBytes * (if cfg.rev >= SPURIOUS_DRAGON then 50 else 10)
  }

  function SelfDestructOp(h: Host, cfg: Config, m: Mach, dest: Word): (r: Option<Mach>)
    ensures r.Some? ==> r.value.gas <= m.gas
  {
    var alive := h.accountExists(m.world, AddressOf(dest));
    var noTransfer := h.balance(m.world, AddressOf(h.env(Address))) == 0;
    var noPenalty := alive || (cfg.rev >= SPURIOUS_DRAGON && noTransfer);
    var penalty := if cfg.rev < TANGERINE_WHISTLE || noPenalty then 0 else 25000;
    var n :- Charge(m, penalty);
    Some(n.(world := h.destruct(n.world, AddressOf(dest))))
  }

  function Done1(m: Option<Mach>): Option<Effect> {
    var n :- m;
    Some(Effect(n, []))
  }

  function HashOp(h: Host, m: Mach, offset: Word, size: Word): (r: Option<Effect>)
    ensures r.Some? ==> r.value.m.gas <= m.gas && |r.value.results| == 1
  {
    var n :- Require(m, offset, size);
    var k :- Charge(n, CopyWords(Trunc64(size)) * 6);
    Some(Effect(k, [h.hash(Slice(k.mem, Trunc64(offset), Trunc64(size)))]))
  }

  function LoadOp(m: Mach, addr: Word): (r: Option<Effect>)
    ensures r.Some? ==> r.value.m.gas <= m.gas && |r.value.results| == 1
  {
    var n :- Require(m, addr, 32);
    Some(Effect(n, [WordOf(Slice(n.mem, Trunc64(addr), 32))]))
  }

  /** MSTORE and MSTORE8. */
  function StoreOp(m: Mach, addr: Word, bytes: seq<Byte>): (r: Option<Mach>)
    requires |bytes| <= 32
    ensures r.Some? ==> r.value.gas <= m.gas
  {
    var n :- Require(m, addr, |bytes|);
    Some(n.(mem := Splice(n.mem, Trunc64(addr), bytes)))
  }

  function LogOp(h: Host, m: Mach, offset: Word, size: Word, topics: seq<Word>): (r: Option<Mach>)
    ensures r.Some? ==> r.value.gas <= m.gas
  {
    var n :- Require(m, offset, size);
    var k :- ChargeWord(n, Wrap(size as int * 8));
    Some(k.(world := h.emitLog(k.world, InputOf(k, offset, size), topics)))
  }

  function ReturnOp(m: Mach, offset: Word, size: Word): (r: Option<Mach>)
    ensures r.Some? ==> r.value.gas <= m.gas
  {
    var n :- Require(m, offset, size);
    Some(n.(out := Slice(n.mem, Trunc64(offset), Trunc64(size))))
  }

  function ActCopy(h: Host, d: DynOp, a: seq<Word>, m: Mach): (r: Option<Mach>)
    requires Copies(d) && |a| == DynPops(d)
    ensures r.Some? ==> r.value.gas <= m.gas
  {
    match d
    case CallDataCopy => CopyBytes(m, h.callData, a[0], a[1], a[2])
    case CodeCopy => CopyBytes(m, h.code, a[0], a[1], a[2])
    case ExtCodeCopy => CopyBytes(m, h.codeOf(m.world, AddressOf(a[0])), a[1], a[2], a[3])
    case ReturnDataCopy => CopyNoPadding(m, a[0], a[1], a[2])
  }

  function ActAccess(h: Host, d: DynOp, a: seq<Word>, m: Mach): (r: Option<Effect>)
    requires Accesses(d) && |a| == DynPops(d)
    ensures r.Some? ==> r.value.m.gas <= m.gas && |r.value.results| == DynPushes(d)
  {
    match d
    case MLoad => LoadOp(m, a[0])
    case MStore => Done1(StoreOp(m, a[0], ToBytes(a[1], 32)))
    case MStore8 => Done1(StoreOp(m, a[0], [a[1] % 256]))
    case Sha3 => HashOp(h, m, a[0], a[1])
    case Log(_) => Done1(LogOp(h, m, a[0], a[1], a[2..]))
    case ReturnData => Done1(ReturnOp(m, a[0], a[1]))
  }

  function ActCall(h: Host, cfg: Config, d: DynOp, a: seq<Word>, m: Mach): (r: Option<Effect>)
    requires Calls(d) && |a| == DynPops(d)
    ensures r.Some? ==> r.value.m.gas <= m.gas && |r.value.results| == 1
  {
    match d
    case Create => CreateOp(h, cfg, m, a[0], a[1], a[2])
    case CallOp(kind) =>
      if kind == PlainCall || kind == CallCode
      then CallInstr(h, cfg, kind, m, a[0], a[1], a[2], a[3], a[4], a[5], a[6])
      else CallInstr(h, cfg, kind, m, a[0], a[1], 0, a[2], a[3], a[4], a[5])
  }

  /** The instructions that leave memory alone. */
  function ActPlain(h: Host, cfg: Config, d: DynOp, a: seq<Word>, m: Mach): (r: Option<Effect>)
    requires !Copies(d) && !Accesses(d) && !Calls(d) && |a| == DynPops(d)
    ensures r.Some? ==> r.value.m.gas <= m.gas && |r.value.results| == DynPushes(d)
  {
    match d
    case Exp =>
      var n :- Charge(m, ExpGas(cfg, a[1]));
      Some(Effect(n, [Wrap(Pow(a[0], a[1]))]))
    case Env(item) => Some(Effect(m, [if item == CallDataSize then |h.callData| else h.env(item)]))
    case Balance => Some(Effect(m, [h.balance(m.world, AddressOf(a[0]))]))
    case ExtCodeSize => Some(Effect(m, [h.codeSize(m.world, AddressOf(a[0]))]))
    case BlockHash =>
      var hash := h.blockHash(m.world, Trunc64(a[0]));
      Some(Effect(m, [if a[0] > GAS_MAX then 0 else hash]))
    case SLoad => Some(Effect(m, [h.storage(m.world, a[0])]))
    case CallDataLoad => Some(Effect(m, [LoadCallData(h.callData, a[0])]))
    case ReturnDataSize => Some(Effect(m, [|m.ret|]))
    case MSize => Some(Effect(m, [Wrap(|m.mem|)]))
    case SStore =>
      var isInsert := h.storage(m.world, a[0]) == 0 && a[1] != 0;
      var n :- Charge(m, if isInsert then 20000 else 5000);
      Some(Effect(n.(world := h.setStorage(n.world, a[0], a[1])), []))
    case GasLeft => Some(Effect(m, [m.gas]))
    case SelfDestruct => Done1(SelfDestructOp(h, cfg, m, a[0]))
  }

  function Act(h: Host, cfg: Config, d: DynOp, a: seq<Word>, m: Mach): (r: Option<Effect>)
    ensures r.Some? ==> r.value.m.gas <= m.gas && |r.value.results| == DynPushes(d)
  {
    if |a| != DynPops(d) then None
    else if Copies(d) then Done1(ActCopy(h, d, a, m))
    else if Accesses(d) then ActAccess(h, d, a, m)
    else if Calls(d) then ActCall(h, cfg, d, a, m)
    else ActPlain(h, cfg, d, a, m)
  }

  /** The meaning of the emitted code, for any value of the undefined remainder. */
  function JitSem(h: Host, cfg: Config, undef: Word): Sem {
    Sem((p, a) => Pure(undef, p, a), (d, a, m) => Act(h, cfg, d, a, m))
  }

  // ---------------------------------------------------------------- gas behaviour

  /** m with k gas less. */
  function LessGas(m: Mach, k: nat): Mach
    requires k <= m.gas
  {
    m.(gas := m.gas - k)
  }

  function LessMach(m: Option<Mach>, k: nat): Option<Mach> {
    if m.Some? && m.value.gas >= k then Some(LessGas(m.value, k)) else None
  }

  lemma ChargeShift(m: Mach, cost: nat, k: nat)
    requires k <= m.gas
    ensures Charge(LessGas(m, k), cost) == LessMach(Charge(m, cost), k)
  {
  }

  lemma RequireShift(m: Mach, offset: Word, size: Word, k: nat)
    requires k <= m.gas
    ensures Require(LessGas(m, k), offset, size) == LessMach(Require(m, offset, size), k)
  {
  }

  lemma ChargeWordShift(m: Mach, cost: Word, k: nat)
    requires k <= m.gas
    ensures ChargeWord(LessGas(m, k), cost) == LessMach(ChargeWord(m, cost), k)
  {
  }

  lemma CopyShift(m: Mach, src: Bytes, dest: Word, srcIdx: Word, req: Word, k: nat)
    requires k <= m.gas
    ensures CopyBytes(LessGas(m, k), src, dest, srcIdx, req) == LessMach(CopyBytes(m, src, dest, srcIdx, req), k)
  {
    RequireShift(m, dest, req, k);
    var n := Require(m, dest, req);
    if n.Some? && n.value.gas >= k {
      ChargeShift(n.value, CopyWords(Trunc64(req)) * 3, k);
    }
  }

  lemma CopyNoPaddingShift(m: Mach, dest: Word, srcIdx: Word, req: Word, k: nat)
    requires k <= m.gas
    ensures CopyNoPadding(LessGas(m, k), dest, srcIdx, req) == LessMach(CopyNoPadding(m, dest, srcIdx, req), k)
  {
    RequireShift(m, dest, req, k);
  }

  lemma SelfDestructShift(h: Host, cfg: Config, m: Mach, dest: Word, k: nat)
    requires k <= m.gas
    ensures SelfDestructOp(h, cfg, LessGas(m, k), dest) == LessMach(SelfDestructOp(h, cfg, m, dest), k)
  {
  }

  lemma HashShift(h: Host, m: Mach, offset: Word, size: Word, k: nat)
    requires k <= m.gas
    ensures HashOp(h, LessGas(m, k), offset, size) == Less(HashOp(h, m, offset, size), k)
  {
    RequireShift(m, offset, size, k);
    var n := Require(m, offset, size);
    if n.Some? && n.value.gas >= k {
      ChargeShift(n.value, CopyWords(Trunc64(size)) * 6, k);
    }
  }

  lemma LogShift(h: Host, m: Mach, offset: Word, size: Word, topics: seq<Word>, k: nat)
    requires k <= m.gas
    ensures LogOp(h, LessGas(m, k), offset, size, topics) == LessMach(LogOp(h, m, offset, size, topics), k)
  {
    RequireShift(m, offset, size, k);
    var n := Require(m, offset, size);
    if n.Some? && n.value.gas >= k {
      ChargeWordShift(n.value, Wrap(size as int * 8), k);
    }
  }

  lemma LoadShift(m: Mach, addr: Word, k: nat)
    requires k <= m.gas
    ensures LoadOp(LessGas(m, k), addr) == Less(LoadOp(m, addr), k)
  {
    RequireShift(m, addr, 32, k);
  }

  lemma StoreShift(m: Mach, addr: Word, bytes: seq<Byte>, k: nat)
    requires k <= m.gas && |bytes| <= 32
    ensures StoreOp(LessGas(m, k), addr, bytes) == LessMach(StoreOp(m, addr, bytes), k)
  {
    RequireShift(m, addr, |bytes|, k);
  }

  lemma ReturnShift(m: Mach, offset: Word, size: Word, k: nat)
    requires k <= m.gas
    ensures ReturnOp(LessGas(m, k), offset, size) == LessMach(ReturnOp(m, offset, size), k)
  {
    RequireShift(m, offset, size, k);
  }

  lemma CopiesShift(h: Host, d: DynOp, a: seq<Word>, m: Mach, k: nat)
    requires Copies(d) && |a| == DynPops(d) && k <= m.gas
    ensures ActCopy(h, d, a, LessGas(m, k)) == LessMach(ActCopy(h, d, a, m), k)
  {
    match d
    case CallDataCopy => CopyShift(m, h.callData, a[0], a[1], a[2], k);
    case CodeCopy => CopyShift(m, h.code, a[0], a[1], a[2], k);
    case ExtCodeCopy => CopyShift(m, h.codeOf(m.world, AddressOf(a[0])), a[1], a[2], a[3], k);
    case ReturnDataCopy => CopyNoPaddingShift(m, a[0], a[1], a[2], k);
  }

  lemma WordsShift(h: Host, d: DynOp, a: seq<Word>, m: Mach, k: nat)
    requires (d.MLoad? || d.MStore? || d.MStore8?) && |a| == DynPops(d) && k <= m.gas
    ensures ActAccess(h, d, a, LessGas(m, k)) == Less(ActAccess(h, d, a, m), k)
  {
    match d
    case MLoad => LoadShift(m, a[0], k);
    case MStore => StoreShift(m, a[0], ToBytes(a[1], 32), k);
    case MStore8 => StoreShift(m, a[0], [a[1] % 256], k);
  }

  lemma RangesShift(h: Host, d: DynOp, a: seq<Word>, m: Mach, k: nat)
    requires (d.Sha3? || d.Log? || d.ReturnData?) && |a| == DynPops(d) && k <= m.gas
    ensures ActAccess(h, d, a, LessGas(m, k)) == Less(ActAccess(h, d, a, m), k)
  {
    match d
    case Sha3 => HashShift(h, m, a[0], a[1], k);
    case Log(_) => LogShift(h, m, a[0], a[1], a[2..], k);
    case ReturnData => ReturnShift(m, a[0], a[1], k);
  }

  lemma PlainShift(h: Host, cfg: Config, d: DynOp, a: seq<Word>, m: Mach, k: nat)
    requires !Copies(d) && !Accesses(d) && !Calls(d) && !d.GasLeft? && |a| == DynPops(d) && k <= m.gas
    ensures ActPlain(h, cfg, d, a, LessGas(m, k)) == Less(ActPlain(h, cfg, d, a, m), k)
  {
    if d.SelfDestruct? {
      SelfDestructShift(h, cfg, m, a[0], k);
    }
  }

  lemma DoneShift(x: Option<Mach>, k: nat)
    ensures Done1(LessMach(x, k)) == Less(Done1(x), k)
  {
  }

  lemma AccessesShift(h: Host, d: DynOp, a: seq<Word>, m: Mach, k: nat)
    requires Accesses(d) && |a| == DynPops(d) && k <= m.gas
    ensures ActAccess(h, d, a, LessGas(m, k)) == Less(ActAccess(h, d, a, m), k)
  {
    if d.MLoad? || d.MStore? || d.MStore8? {
      WordsShift(h, d, a, m, k);
    } else {
      RangesShift(h, d, a, m, k);
    }
  }

  /** Instructions that do not commit do not look at the gas counter: with k gas less they do
      the same, or fail. */
  lemma ActShift(h: Host, cfg: Config, d: DynOp, a: seq<Word>, m: Mach, k: nat)
    requires !Commits(d) && k <= m.gas
    ensures Act(h, cfg, d, a, LessGas(m, k)) == Less(Act(h, cfg, d, a, m), k)
  {
    if |a| == DynPops(d) {
      if Copies(d) {
        CopiesShift(h, d, a, m, k);
        DoneShift(ActCopy(h, d, a, m), k);
      } else if Accesses(d) {
        AccessesShift(h, d, a, m, k);
      } else {
        PlainShift(h, cfg, d, a, m, k);
      }
    }
  }

  lemma JitIsSane(h: Host, cfg: Config, undef: Word)
    ensures GasOk(JitSem(h, cfg, undef)) && ShiftOk(JitSem(h, cfg, undef))
  {
    var sem := JitSem(h, cfg, undef);
    forall d, a, m: Mach, k: nat | !Commits(d) && k <= m.gas
      ensures sem.act(d, a, m.(gas := m.gas - k)) == Less(sem.act(d, a, m), k) {
      ActShift(h, cfg, d, a, m, k);
    }
  }
}
