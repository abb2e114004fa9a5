/** The instruction set of appendix H.2 of the Ethereum Yellow Paper with the fee schedule of
    appendix G, opcode by opcode, and what the compiler's switch and its step costs have to do
    with it. */
module Opcodes {
  import opened Words
  import opened Instructions

  lemma RevisionsInOrder()
    ensures 0 < HOMESTEAD < TANGERINE_WHISTLE < SPURIOUS_DRAGON < BYZANTIUM < CONSTANTINOPLE
  {
  }

  /** The opcodes in use up to Byzantium. */
  predicate Defined(rev: nat, op: Byte) {
    match op
    case 0xf4 => rev >= HOMESTEAD
    case 0x3d | 0x3e | 0xfa | 0xfd => rev >= BYZANTIUM
    case 0x20 | 0xff => true
    case _ =>
      || op <= 0x0b || 0x10 <= op <= 0x1a || 0x30 <= op <= 0x3c || 0x40 <= op <= 0x45
      || 0x50 <= op <= 0x5b || 0x60 <= op <= 0xa4 || 0xf0 <= op <= 0xf3
  }

  /** The opcodes that change the host's state, whatever their operands. */
  predicate Changes(op: Byte) {
    op == 0x55 || 0xa0 <= op <= 0xa4 || op == 0xf0 || op == 0xff
  }

  /** Items removed from the stack. */
  function Removed(op: Byte): nat {
    if 0x80 <= op <= 0x8f then op - 0x7f
    else if 0x90 <= op <= 0x9f then op - 0x8e
    else if 0xa0 <= op <= 0xa4 then op - 0x9e
    else
      match op
      case 0x15 | 0x19 | 0x31 | 0x35 | 0x3b | 0x40 | 0x50 | 0x51 | 0x54 | 0x56 | 0xff => 1
      case 0x08 | 0x09 | 0x37 | 0x39 | 0x3e | 0xf0 => 3
      case 0x3c => 4
      case 0xf4 | 0xfa => 6
      case 0xf1 | 0xf2 => 7
      case 0x20 | 0x52 | 0x53 | 0x55 | 0x57 | 0xf3 | 0xfd => 2
      case _ => if 0x01 <= op <= 0x0b || 0x10 <= op <= 0x1a then 2 else 0
  }

  /** Items placed on the stack. */
  function Added(op: Byte): nat {
    if 0x80 <= op <= 0x8f then op - 0x7e
    else if 0x90 <= op <= 0x9f then op - 0x8e
    else if 0xa0 <= op <= 0xa4 then 0
    else
      match op
      case 0x00 | 0x37 | 0x39 | 0x3c | 0x3e | 0x50 | 0x52 | 0x53 | 0x55 | 0x56 | 0x57 | 0x5b => 0
      case 0xf3 | 0xfd | 0xff => 0
      case _ => 1
  }

  /** The fee schedule, with EIP-150: the price of an instruction apart from memory, data,
      transfers, and what it takes along. */
  function Price(rev: nat, op: Byte): nat {
    var eip150 := rev >= TANGERINE_WHISTLE;
    match op
    case 0x00 | 0xf3 | 0xfd | 0x55 => 0                             // zero
    case 0x5b => 1                                                  // jumpdest
    case 0x02 | 0x04 | 0x05 | 0x06 | 0x07 | 0x0b => 5               // low
    case 0x08 | 0x09 | 0x56 => 8                                    // mid
    case 0x57 | 0x0a => 10                                          // high, exp
    case 0x40 => 20                                                 // blockhash
    case 0x20 => 30                                                 // sha3
    case 0x31 => (if eip150 then 400 else 20)                       // balance
    case 0x3b | 0x3c => (if eip150 then 700 else 20)                // extcode
    case 0x54 => (if eip150 then 200 else 50)                       // sload
    case 0xf1 | 0xf2 | 0xf4 | 0xfa => (if eip150 then 700 else 40)  // call
    case 0xff => (if eip150 then 5000 else 0)                       // selfdestruct
    case 0xf0 => 32000                                              // create
    case 0x01 | 0x03 | 0x35 | 0x37 | 0x39 | 0x3e | 0x51 | 0x52 | 0x53 => 3   // very low
    case _ =>
      if 0x10 <= op <= 0x1a || 0x60 <= op <= 0x9f then 3            // very low
      else if 0xa0 <= op <= 0xa4 then 375 + 375 * (op - 0xa0)       // log
      else 2                                                        // base
  }

  /** The switch knows exactly the opcodes in use, less those a static call forbids. */
  lemma SwitchIsComplete(cfg: Config, code: seq<Byte>, pos: nat)
    requires pos < |code|
    ensures Decode(cfg, code, pos).ins.Invalid?
      <==> !Defined(cfg.rev, code[pos]) || (cfg.staticCall && Changes(code[pos]))
  {
  }

  /** An instruction needs the items that the appendix removes, and changes the height by the
      difference. */
  predicate Agrees(i: Ins, op: Byte) {
    Needs(i) == Removed(op) && Pushes(i) - Pops(i) == Added(op) - Removed(op)
  }

  lemma ArithmeticEffects(cfg: Config, code: seq<Byte>, pos: nat)
    requires pos < |code| && code[pos] < 0x20 && !Decode(cfg, code, pos).ins.Invalid?
    ensures Agrees(Decode(cfg, code, pos).ins, code[pos])
  {
  }

  lemma EnvironmentEffects(cfg: Config, code: seq<Byte>, pos: nat)
    requires pos < |code| && 0x20 <= code[pos] < 0x40 && !Decode(cfg, code, pos).ins.Invalid?
    ensures Agrees(Decode(cfg, code, pos).ins, code[pos])
  {
  }

  lemma BlocksEffects(cfg: Config, code: seq<Byte>, pos: nat)
    requires pos < |code| && 0x40 <= code[pos] < 0x50 && !Decode(cfg, code, pos).ins.Invalid?
    ensures Agrees(Decode(cfg, code, pos).ins, code[pos])
  {
  }

  lemma FlowEffects(cfg: Config, code: seq<Byte>, pos: nat)
    requires pos < |code| && 0x50 <= code[pos] < 0x60 && !Decode(cfg, code, pos).ins.Invalid?
    ensures Agrees(Decode(cfg, code, pos).ins, code[pos])
  {
  }

  lemma StacksEffects(cfg: Config, code: seq<Byte>, pos: nat)
    requires pos < |code| && 0x60 <= code[pos] < 0xa0 && !Decode(cfg, code, pos).ins.Invalid?
    ensures Agrees(Decode(cfg, code, pos).ins, code[pos])
  {
  }

  lemma SystemEffects(cfg: Config, code: seq<Byte>, pos: nat)
    requires pos < |code| && 0xa0 <= code[pos] && !Decode(cfg, code, pos).ins.Invalid?
    ensures Agrees(Decode(cfg, code, pos).ins, code[pos])
  {
  }

  /** The operands and results are those of the appendix. */
  lemma StackEffects(cfg: Config, code: seq<Byte>, pos: nat)
    requires pos < |code| && !Decode(cfg, code, pos).ins.Invalid?
    ensures Agrees(Decode(cfg, code, pos).ins, code[pos])
  {
    if code[pos] < 0x20 { ArithmeticEffects(cfg, code, pos); }
    else if code[pos] < 0x40 { EnvironmentEffects(cfg, code, pos); }
    else if code[pos] < 0x50 { BlocksEffects(cfg, code, pos); }
    else if code[pos] < 0x60 { FlowEffects(cfg, code, pos); }
    else if code[pos] < 0xa0 { StacksEffects(cfg, code, pos); }
    else { SystemEffects(cfg, code, pos); }
  }

  /** The static costs are those of the schedule, except for BLOCKHASH from Constantinople on. */
  lemma CostsAreSchedule(rev: nat, op: Byte)
    requires Defined(rev, op)
    ensures StepCost(rev, op) == Price(rev, op) <==> !(op == 0x40 && rev >= CONSTANTINOPLE)
  {
  }
}
