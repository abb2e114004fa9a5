/** From which gas on a run can go wrong: below LIMIT none does, and with LIMIT or more there is
    a code, and a host, for which compiled program and definition have different outcomes. */
module Threshold {
  import opened Words
  import opened Instructions
  import opened Machine
  import opened Hosts
  import opened BlockCutter
  import opened Program
  import opened MemoryPrice
  import opened MemoryLaws
  import opened Refinement
  import opened CallRefinement
  import opened Correctness
  import Jit
  import OpcodeRefinement
  import YP = YellowPaper

  const MAX_WORDS: nat := 0x1000_0000        // 2^28 words are 2^33 bytes

  // A request goes wrong only with 2^33 bytes of memory and offset 0. The cheapest way there:
  // two operands at 2 gas each, MLOAD at 3, whose result is the offset 0, and 2^28 words.
  const LIMIT: nat := CMem(MAX_WORDS) + 7

  lemma LimitValue()
    ensures LIMIT == 140738293661703 < CMem(MAX_WORDS + 1) < TWO63 - 3
  {
  }

  // ---------------------------------------------------------------- too poor to go wrong

  lemma FewWords(m: Mach, words: nat)
    requires Sized(m) && m.gas + Paid(m) < CMem(words)
    ensures |m.mem| < 32 * words
  {
    if |m.mem| / 32 >= words {
      CMemMonotone(words, |m.mem| / 32);
    }
  }

  lemma ClampedLarge(offset: Word, size: Word)
    requires !InRange(offset, size)
    ensures Jit.ClampedSize(offset, size) >= 32 * MAX_WORDS
    ensures size <= 32 ==> Jit.ClampedSize(offset, size) >= 32 * (MAX_WORDS + 1)
    ensures CeilWords(offset as int + size) >= MAX_WORDS + 1
  {
    ClampFacts(offset);
    ClampFacts(size);
    CeilFacts(Jit.Clamp(offset) + Jit.Clamp(size));
    CeilFacts(offset as int + size);
  }

  /** A request is right if memory is below 2^33 bytes, or if it is for at most a word. */
  lemma SmallIsRight(m: Mach, offset: Word, size: Word)
    requires Sized(m) && m.gas + Paid(m) < CMem(MAX_WORDS + 1)
    requires m.gas + Paid(m) < CMem(MAX_WORDS) || |m.mem| == 0 || size <= 32
    ensures ClampIsRight(m, offset, size)
  {
    LimitValue();
    if !InRange(offset, size) {
      ClampedLarge(offset, size);
      CMemMonotone(MAX_WORDS + 1, CeilWords(offset as int + size));
      FewWords(m, MAX_WORDS + 1);
      if m.gas + Paid(m) < CMem(MAX_WORDS) {
        FewWords(m, MAX_WORDS);
      }
    }
  }

  lemma BothAreRight(m: Mach, inOff: Word, inSize: Word, outOff: Word, outSize: Word)
    requires Sized(m) && m.gas + Paid(m) < CMem(MAX_WORDS)
    ensures BothRight(m, inOff, inSize, outOff, outSize)
  {
    LimitValue();
    SmallIsRight(m, outOff, outSize);
    RequireAgrees(m, outOff, outSize);
    var n := Jit.Require(m, outOff, outSize);
    if n.Some? {
      SmallIsRight(n.value, inOff, inSize);
    }
  }

  /** What a run has spent on its stack and memory, and can still spend. */
  function Potential(s: IState): nat {
    s.m.gas + Paid(s.m) + 2 * |s.stack| + (if |s.m.mem| == 0 then 0 else 3)
  }

  ghost predicate Poor(s: IState) {
    Sized(s.m) && Potential(s) < LIMIT
  }

  predicate Touches(d: DynOp) {
    Copies(d) || Accesses(d) || Calls(d)
  }

  /** Operations on any range of memory have two operands at least. */
  lemma OperandsOfRange(d: DynOp)
    requires Touches(d) && !d.MLoad?
    ensures DynPops(d) >= 2 && (d.CallOp? ==> DynPops(d) >= 6) && DynPops(d) >= 1 + DynPushes(d)
  {
  }

  lemma PoorActIsRight(d: DynOp, a: seq<Word>, m: Mach)
    requires Sized(m) && |a| == DynPops(d)
    requires m.gas + Paid(m) + 2 * |a| + (if |m.mem| == 0 then 0 else 3) < LIMIT
    ensures Right(d, a, m)
  {
    LimitValue();
    if Touches(d) && !d.MLoad? {
      OperandsOfRange(d);
      match d
      case MStore => SmallIsRight(m, a[0], 32);
      case MStore8 => SmallIsRight(m, a[0], 1);
      case Sha3 => SmallIsRight(m, a[0], a[1]);
      case ReturnData => SmallIsRight(m, a[0], a[1]);
      case Log(_) => SmallIsRight(m, a[0], a[1]);
      case CallDataCopy => SmallIsRight(m, a[0], a[2]);
      case CodeCopy => SmallIsRight(m, a[0], a[2]);
      case ExtCodeCopy => SmallIsRight(m, a[1], a[3]);
      case ReturnDataCopy => SmallIsRight(m, a[0], a[2]);
      case Create => SmallIsRight(m, a[1], a[2]);
      case CallOp(kind) =>
        if kind == PlainCall || kind == CallCode {
          BothAreRight(m, a[3], a[4], a[5], a[6]);
        } else {
          BothAreRight(m, a[2], a[3], a[4], a[5]);
        }
    } else if d.MLoad? {
      SmallIsRight(m, a[0], 32);
    }
  }

  lemma PoorStepIsRight(i: Instr, s: IState)
    requires Poor(s)
    ensures StepIsRight(i, s)
  {
    if StackOk(i.ins, |s.stack|) && s.m.gas >= i.cost && EffectOf(i.ins).Some? {
      var d := EffectOf(i.ins).value;
      PoorActIsRight(d, s.stack[..DynPops(d)], s.m.(gas := s.m.gas - i.cost));
    }
  }

  // ---------------------------------------------------------------- and it stays so

  /** Every item put on the stack costs 2 gas at least, and every use of memory 3, unless it
      ends the run. */
  predicate Weighted(i: Instr) {
    && i.cost + 2 * Pops(i.ins) >= 2 * Pushes(i.ins)
    && (i.ins.Dyn? && Touches(i.ins.d) ==> i.cost >= 3)
  }

  lemma DecodedIsWeighted(cfg: Config, code: seq<Byte>, pos: nat)
    requires pos < |code|
    ensures Weighted(Decode(cfg, code, pos))
  {
  }

  /** A meaning of the instructions under which what was right is kept, and only operations
      on memory change it. */
  ghost predicate Tame(y: Sem) {
    && GasOk(y) && SemsAgree(y, y)
    && forall d, a, m :: !Touches(d) && y.act(d, a, m).Some? ==> y.act(d, a, m).value.m.mem == m.mem
  }

  lemma PaperIsTame(h: Host, cfg: Config)
    ensures Tame(YP.PaperSem(h, cfg))
  {
    YP.PaperIsSane(h, cfg);
    SemanticsAgree(h, cfg, 0);
    forall d, a, m | !Touches(d) && YP.Act(h, cfg, d, a, m).Some?
      ensures YP.Act(h, cfg, d, a, m).value.m.mem == m.mem {
      PlainKeepsMemory(h, cfg, d, a, m);
    }
  }

  lemma PlainKeepsMemory(h: Host, cfg: Config, d: DynOp, a: seq<Word>, m: Mach)
    requires !Touches(d)
    ensures var r := YP.Act(h, cfg, d, a, m); r.Some? ==> r.value.m.mem == m.mem
  {
  }

  lemma PerformKeepsPoor(y: Sem, i: Instr, s: IState, m: Mach, r: Stepped)
    requires Tame(y) && Poor(s) && Weighted(i) && !r.ctl.Exit? && StackOk(i.ins, |s.stack|)
    requires s.m.gas >= i.cost && m == s.m.(gas := s.m.gas - i.cost)
    requires Some(r) == Perform(y, i.ins, IState(m, s.stack)) && Kept(m, r.s.m)
    requires |r.s.stack| == |s.stack| - Pops(i.ins) + Pushes(i.ins)
    ensures Poor(r.s)
  {
    if i.ins.Dyn? && Touches(i.ins.d) && !i.ins.d.MLoad? {
      OperandsOfRange(i.ins.d);
    }
  }

  lemma PoorStepStaysPoor(y: Sem, i: Instr, s: IState)
    requires Tame(y) && Poor(s) && Weighted(i) && GoodIns(i.ins)
    ensures var r := Step(y, i, s); r.Some? && !r.value.ctl.Exit? ==> Poor(r.value.s)
  {
    var r := Step(y, i, s);
    if r.Some? && !r.value.ctl.Exit? {
      PoorStepIsRight(i, s);
      var m := s.m.(gas := s.m.gas - i.cost);
      PerformAgrees(y, y, i.ins, IState(m, s.stack));
      PerformKeepsPoor(y, i, s, m, r.value);
    }
  }

  lemma {:induction false} PoorRunIsRight(y: Sem, cfg: Config, code: seq<Byte>, pc: nat, s: IState)
    requires Tame(y) && Poor(s)
    ensures RunIsRight(y, cfg, code, pc, s)
    decreases s.m.gas, |code| - pc
  {
    if pc < |code| {
      var i := Decode(cfg, code, pc);
      PoorStepIsRight(i, s);
      DecodedIsWeighted(cfg, code, pc);
      PoorStepStaysPoor(y, i, s);
      var r := Step(y, i, s);
      if r.Some? && r.value.ctl.Fall? {
        PoorRunIsRight(y, cfg, code, Next(code, pc), r.value.s);
      } else if r.Some? && r.value.ctl.Goto? && ValidDest(code, r.value.ctl.dest) {
        PoorRunIsRight(y, cfg, code, r.value.ctl.dest, r.value.s);
      }
    }
  }

  /** Below the limit every run is right from the start. */
  lemma BelowLimit(h: Host, cfg: Config, code: seq<Byte>, gas: Gas, world: World)
    requires gas < LIMIT
    ensures StartsRight(h, cfg, code, gas, world)
  {
    PaperIsTame(h, cfg);
    assert CMem(0) == 0;
    PoorRunIsRight(YP.PaperSem(h, cfg), cfg, code, 0, IState(Fresh(gas, world), []));
  }

  // ---------------------------------------------------------------- rich enough to go wrong

  /** CALLVALUE GASLIMIT MLOAD RETURN. */
  const CODE: seq<Byte> := [0x34, 0x45, 0x51, 0xf3]

  const TOP: Word := Jit.INPUT_MAX - 32      // the last word of 2^33 bytes
  const HUGE: Word := Jit.INPUT_MAX + 1

  /** A host in which the two operands of the code are those. */
  predicate IsRich(h: Host) {
    h.env(CallValue) == HUGE && h.env(GasLimit) == TOP
  }

  function RichHost(): (h: Host)
    ensures IsRich(h)
  {
    Host((e: EnvItem) => if e == CallValue then HUGE else if e == GasLimit then TOP else 0, [], [], 0,
         (w: World, a: Word) => 0, (w: World, a: Word) => false, (w: World, a: Word) => 0,
         (w: World, a: Word) => [], (w: World, n: U64) => 0, (w: World, k: Word) => 0,
         (w: World, k: Word, v: Word) => w, (w: World, b: Bytes, t: seq<Word>) => w, (w: World, a: Word) => w,
         (b: seq<Byte>) => 0, (w: World, m: Msg) => CallResult(false, 0, [], 0, w))
  }

  lemma Decoded(cfg: Config)
    ensures Decode(cfg, CODE, 0) == Instr(Dyn(Env(CallValue)), 2) && Next(CODE, 0) == 1
    ensures Decode(cfg, CODE, 1) == Instr(Dyn(Env(GasLimit)), 2) && Next(CODE, 1) == 2
    ensures Decode(cfg, CODE, 2) == Instr(Dyn(MLoad), 3) && Next(CODE, 2) == 3
    ensures Decode(cfg, CODE, 3) == Instr(Halt(Some(ReturnData), Return), 0) && Next(CODE, 3) == 4
  {
  }

  /** The stack and machine after an operation. */
  function After(d: DynOp, s: IState, e: Effect): IState
    requires DynPops(d) <= |s.stack|
  {
    IState(e.m, e.results + s.stack[DynPops(d)..])
  }

  lemma DynStep(sem: Sem, d: DynOp, cost: nat, s: IState, e: Effect)
    requires DynPops(d) <= |s.stack| <= 2 && s.m.gas >= cost
    requires sem.act(d, s.stack[..DynPops(d)], s.m.(gas := s.m.gas - cost)) == Some(e)
    ensures Step(sem, Instr(Dyn(d), cost), s) == Some(Stepped(After(d, s, e), Fall))
  {
  }

  lemma {:induction false} ZeroBytes(n: nat)
    ensures FromBytes(Zeroes(n)) == 0
  {
    if n > 0 {
      assert Zeroes(n)[..n - 1] == Zeroes(n - 1);
      ZeroBytes(n - 1);
    }
  }

  /** MLOAD of the last word below 2^33 bytes. */
  lemma LoadTop(m: Mach)
    requires |m.mem| == 0 && m.gas >= CMem(MAX_WORDS)
    ensures var n := m.(gas := m.gas - CMem(MAX_WORDS), mem := Zeroes(Jit.INPUT_MAX));
      YP.Load(m, TOP) == Some(Effect(n, [0])) && ClampIsRight(m, TOP, 32)
  {
    var n := YP.Use(m, TOP, 32);
    assert YP.ActiveWords(0, TOP, 32) == MAX_WORDS && CMem(0) == 0;
    assert n.value.mem == Zeroes(Jit.INPUT_MAX);
    assert Slice(n.value.mem, TOP, 32) == Zeroes(32);
    ZeroBytes(32);
  }

  function Spend(m: Mach, k: nat): Mach
    requires k <= m.gas
  {
    m.(gas := m.gas - k)
  }

  /** What the first three instructions of the code do, started with m: n is left. */
  ghost predicate Loads(sem: Sem, m: Mach, n: Mach) {
    && m.gas >= 7
    && sem.act(Env(CallValue), [], Spend(m, 2)) == Some(Effect(Spend(m, 2), [HUGE]))
    && sem.act(Env(GasLimit), [], Spend(m, 4)) == Some(Effect(Spend(m, 4), [TOP]))
    && sem.act(MLoad, [TOP], Spend(m, 7)) == Some(Effect(n, [0]))
  }

  lemma Stacks()
    ensures var none: seq<Word> := []; none[..0] == [] && [HUGE] + none[0..] == [HUGE]
    ensures [HUGE][..0] == [] && [TOP] + [HUGE][0..] == [TOP, HUGE]
    ensures [TOP, HUGE][..1] == [TOP] && [0] + [TOP, HUGE][1..] == [0, HUGE]
  {
  }

  lemma DynRun(sem: Sem, cfg: Config, code: seq<Byte>, pc: nat, d: DynOp, cost: nat, s: IState, t: IState)
    requires GasOk(sem) && pc < |code| && Decode(cfg, code, pc) == Instr(Dyn(d), cost) && Next(code, pc) == pc + 1
    requires Step(sem, Instr(Dyn(d), cost), s) == Some(Stepped(t, Fall))
    ensures Run(sem, cfg, code, pc, s) == Run(sem, cfg, code, pc + 1, t)
  {
  }

  /** The first three steps, as the interpreter takes them. */
  lemma LoadSteps(sem: Sem, m: Mach, n: Mach)
    requires Loads(sem, m, n)
    ensures Step(sem, Instr(Dyn(Env(CallValue)), 2), IState(m, []))
      == Some(Stepped(IState(Spend(m, 2), [HUGE]), Fall))
    ensures Step(sem, Instr(Dyn(Env(GasLimit)), 2), IState(Spend(m, 2), [HUGE]))
      == Some(Stepped(IState(Spend(m, 4), [TOP, HUGE]), Fall))
    ensures Step(sem, Instr(Dyn(MLoad), 3), IState(Spend(m, 4), [TOP, HUGE]))
      == Some(Stepped(IState(n, [0, HUGE]), Fall))
  {
    Stacks();
    DynStep(sem, Env(CallValue), 2, IState(m, []), Effect(Spend(m, 2), [HUGE]));
    DynStep(sem, Env(GasLimit), 2, IState(Spend(m, 2), [HUGE]), Effect(Spend(m, 4), [TOP]));
    DynStep(sem, MLoad, 3, IState(Spend(m, 4), [TOP, HUGE]), Effect(n, [0]));
  }

  /** The code is laid out as these instructions. */
  predicate LaidOut(cfg: Config, code: seq<Byte>) {
    && |code| == 4
    && Decode(cfg, code, 0) == Instr(Dyn(Env(CallValue)), 2) && Next(code, 0) == 1
    && Decode(cfg, code, 1) == Instr(Dyn(Env(GasLimit)), 2) && Next(code, 1) == 2
    && Decode(cfg, code, 2) == Instr(Dyn(MLoad), 3) && Next(code, 2) == 3
  }

  lemma UpToReturn(sem: Sem, cfg: Config, code: seq<Byte>, m: Mach, n: Mach)
    requires GasOk(sem) && Loads(sem, m, n) && LaidOut(cfg, code)
    ensures Run(sem, cfg, code, 0, IState(m, [])) == Run(sem, cfg, code, 3, IState(n, [0, HUGE]))
  {
    LoadSteps(sem, m, n);
    var s1, s2 := IState(Spend(m, 2), [HUGE]), IState(Spend(m, 4), [TOP, HUGE]);
    calc {
      Run(sem, cfg, code, 0, IState(m, []));
      { DynRun(sem, cfg, code, 0, Env(CallValue), 2, IState(m, []), s1); }
      Run(sem, cfg, code, 1, s1);
      { DynRun(sem, cfg, code, 1, Env(GasLimit), 2, s1, s2); }
      Run(sem, cfg, code, 2, s2);
      { DynRun(sem, cfg, code, 2, MLoad, 3, s2, IState(n, [0, HUGE])); }
      Run(sem, cfg, code, 3, IState(n, [0, HUGE]));
    }
  }

  lemma AtReturn(sem: Sem, cfg: Config, s: IState)
    requires GasOk(sem) && |s.stack| == 2
    ensures Run(sem, cfg, CODE, 3, s) == match sem.act(ReturnData, s.stack, s.m)
      case None => Failed
      case Some(e) => Done(Return, e.m, [])
  {
    Decoded(cfg);
    assert s.stack[..2] == s.stack && s.stack[2..] == [];
    var e := sem.act(ReturnData, s.stack, s.m);
    if e.Some? {
      assert |e.value.results| == 0;
      assert e.value.results + [] == [];
    }
  }

  /** The emitted RETURN succeeds with the memory it finds; the defined one needs more, and fails
      or grows it. */
  lemma ReturnDiffers(h: Host, cfg: Config, undef: Word, s: IState)
    requires GasOk(Jit.JitSem(h, cfg, undef)) && GasOk(YP.PaperSem(h, cfg))
    requires |s.m.mem| == Jit.INPUT_MAX && s.stack == [0, HUGE]
    ensures Run(Jit.JitSem(h, cfg, undef), cfg, CODE, 3, s) != Run(YP.PaperSem(h, cfg), cfg, CODE, 3, s)
  {
    AtReturn(Jit.JitSem(h, cfg, undef), cfg, s);
    AtReturn(YP.PaperSem(h, cfg), cfg, s);
    ClampGrantsTooMuch(s.m, HUGE);
    CeilFacts(HUGE);
    UseGrows(s.m, 0, HUGE);
  }

  lemma EnvActs(h: Host, cfg: Config, item: EnvItem, m: Mach)
    requires item != CallDataSize
    ensures Jit.Act(h, cfg, Env(item), [], m) == Some(Effect(m, [h.env(item)]))
    ensures YP.Act(h, cfg, Env(item), [], m) == Some(Effect(m, [h.env(item)]))
  {
  }

  /** Memory of 2^33 bytes, paid for. */
  function Filled(m: Mach): Mach
    requires m.gas >= CMem(MAX_WORDS)
  {
    m.(gas := m.gas - CMem(MAX_WORDS), mem := Zeroes(Jit.INPUT_MAX))
  }

  lemma LoadActs(h: Host, cfg: Config, m: Mach)
    requires |m.mem| == 0 && m.gas >= CMem(MAX_WORDS)
    ensures Jit.Act(h, cfg, MLoad, [TOP], m) == Some(Effect(Filled(m), [0])) == YP.Act(h, cfg, MLoad, [TOP], m)
  {
    LoadTop(m);
    LoadAgrees(m, TOP);
  }

  lemma BothLoad(h: Host, cfg: Config, undef: Word, m: Mach)
    requires IsRich(h) && m.gas >= LIMIT && |m.mem| == 0
    ensures Loads(Jit.JitSem(h, cfg, undef), m, Filled(Spend(m, 7)))
    ensures Loads(YP.PaperSem(h, cfg), m, Filled(Spend(m, 7)))
  {
    EnvActs(h, cfg, CallValue, Spend(m, 2));
    EnvActs(h, cfg, GasLimit, Spend(m, 4));
    LoadActs(h, cfg, Spend(m, 7));
  }

  /** With gas from the limit on, in a rich host, the emitted instructions do not run as defined. */
  lemma InterpretedDiffers(h: Host, cfg: Config, undef: Word, code: seq<Byte>, m: Mach)
    requires IsRich(h) && m.gas >= LIMIT && |m.mem| == 0 && code == CODE
    requires GasOk(Jit.JitSem(h, cfg, undef)) && GasOk(YP.PaperSem(h, cfg))
    ensures Run(Jit.JitSem(h, cfg, undef), cfg, code, 0, IState(m, []))
      != Run(YP.PaperSem(h, cfg), cfg, code, 0, IState(m, []))
  {
    var n := Filled(Spend(m, 7));
    Decoded(cfg);
    BothLoad(h, cfg, undef, m);
    UpToReturn(Jit.JitSem(h, cfg, undef), cfg, code, m, n);
    UpToReturn(YP.PaperSem(h, cfg), cfg, code, m, n);
    ReturnDiffers(h, cfg, undef, IState(n, [0, HUGE]));
  }

  lemma CodeStarts()
    ensures IsStart(CODE, 0) && IsStart(CODE, 4)
  {
    Decoded(Config(0, false));
    ReachesNext(CODE, 0, 0);
    ReachesNext(CODE, 0, 1);
    ReachesNext(CODE, 0, 2);
    ReachesNext(CODE, 0, 3);
  }

  lemma CodeEnds()
    ensures LastBefore(CODE, 3, 4) && Killed(CODE, 4)
  {
    Decoded(Config(0, false));
    ReachesNext(CODE, 0, 0);
    ReachesNext(CODE, 0, 1);
    ReachesNext(CODE, 0, 2);
    assert LastBefore(CODE, 3, 4) && Kills(CODE[3]);
  }

  lemma CodeIsChain()
    ensures Chain(CODE, 0, 4)
  {
    CodeStarts();
    Decoded(Config(0, false));
    forall p: nat | 0 <= p < 4 && IsStart(CODE, p)
      ensures (Ends(CODE[p]) ==> Next(CODE, p) == 4) && CODE[p] != JUMPDEST {
      if p < 3 { assert !Ends(CODE[p]); }
    }
  }

  lemma CodeIsOneBlock()
    ensures WellCut(CODE, [Block(0, 4)])
  {
    CodeIsChain();
    CodeEnds();
    assert Gap(CODE, 4, NextBegin(CODE, [Block(0, 4)], 0));
  }

  // ---------------------------------------------------------------- the exact limit

  /** A compiled code runs as defined. */
  ghost predicate AsDefined(h: Host, cfg: Config, undef: Word, code: seq<Byte>, cuts: seq<Block>,
                            gas: Gas, world: World, slots: seq<Word>)
  {
    && (forall k :: 0 <= k < |cuts| ==> cuts[k].end <= |code|)
    && RunsAsDefined(h, cfg, undef, code, ProgramOf(Jit.JitSem(h, cfg, undef).pure, cfg, code, cuts),
                     gas, world, slots)
  }

  /** Whatever is compiled, and wherever it runs, the outcome is the one defined. */
  ghost predicate AlwaysAsDefined(cfg: Config, gas: Gas, world: World) {
    forall h, undef, code, cuts, slots :: WellCut(code, cuts) && |slots| == STACK_LIMIT ==>
      AsDefined(h, cfg, undef, code, cuts, gas, world, slots)
  }

  /** Below the limit every compiled run is as defined. */
  lemma PoorRunsAsDefined(h: Host, cfg: Config, undef: Word, code: seq<Byte>, cuts: seq<Block>,
                          gas: Gas, world: World, slots: seq<Word>)
    requires WellCut(code, cuts) && |slots| == STACK_LIMIT && gas < LIMIT
    ensures AsDefined(h, cfg, undef, code, cuts, gas, world, slots)
  {
    BelowLimit(h, cfg, code, gas, world);
    CompiledRunsAsDefined(h, cfg, undef, code, cuts, gas, world, slots);
  }

  /** A compiled run that is not as defined: the code above, in any rich host. */
  lemma CompiledRunDiffers(h: Host, cfg: Config, undef: Word, gas: Gas, world: World, slots: seq<Word>)
    requires IsRich(h) && gas >= LIMIT && |slots| == STACK_LIMIT
    ensures WellCut(CODE, [Block(0, 4)])
    ensures !AsDefined(h, cfg, undef, CODE, [Block(0, 4)], gas, world, slots)
  {
    CodeIsOneBlock();
    CompiledRunsAsInterpreted(h, cfg, undef, CODE, [Block(0, 4)], gas, world, slots);
    YP.PaperIsSane(h, cfg);
    InterpretedDiffers(h, cfg, undef, CODE, Fresh(gas, world));
    OpcodeRefinement.SameRun(h, cfg, CODE, 0, IState(Fresh(gas, world), []));
  }

  /** The exact limit, for every configuration and starting gas. */
  lemma LimitIsExact(cfg: Config, gas: Gas, world: World)
    ensures AlwaysAsDefined(cfg, gas, world) <==> gas < LIMIT
  {
    if gas < LIMIT {
      forall h, undef, code, cuts, slots | WellCut(code, cuts) && |slots| == STACK_LIMIT
        ensures AsDefined(h, cfg, undef, code, cuts, gas, world, slots) {
        PoorRunsAsDefined(h, cfg, undef, code, cuts, gas, world, slots);
      }
    } else {
      CompiledRunDiffers(RichHost(), cfg, 0, gas, world, seq(STACK_LIMIT, _ => 0));
    }
  }
}
