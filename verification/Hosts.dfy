/** The host that a program runs in, seen through the functions it offers. */
module Hosts {
  import opened Words
  import opened Instructions
  import opened Machine

  /** A message to another contract, or the creation of one. */
  datatype Msg = Msg(kind: CallKind, gas: nat, address: Word, value: Word, input: Bytes)

  /** How a message ended. A callee can use up any part of the gas it was given. */
  datatype CallResult = CallResult(
    success: bool, gasUsed: nat, output: Bytes, created: Word, world: World)

  function GasReturned(msg: Msg, r: CallResult): (left: nat)
    ensures left <= msg.gas
  {
    if r.gasUsed <= msg.gas then msg.gas - r.gasUsed else 0
  }

  datatype Host = Host(
    env: EnvItem -> Word,
    callData: Bytes,
    code: Bytes,
    depth: int,
    balance: (World, Word) -> Word,
    accountExists: (World, Word) -> bool,
    codeSize: (World, Word) -> U64,
    codeOf: (World, Word) -> Bytes,
    blockHash: (World, U64) -> Word,
    storage: (World, Word) -> Word,
    setStorage: (World, Word, Word) -> World,
    emitLog: (World, Bytes, seq<Word>) -> World,
    destruct: (World, Word) -> World,
    hash: seq<Byte> -> Word,
    call: (World, Msg) -> CallResult)

  /** An address is the low 160 bits of a word. */
  function AddressOf(w: Word): Word {
    w % TWO160
  }

  /** A range of memory as a buffer; no program pays for a range beyond the largest object. */
  function Clip(mem: seq<Byte>, offset: nat, size: nat): Bytes {
    if size < TWO63 then Slice(mem, offset, size) else []
  }
}
