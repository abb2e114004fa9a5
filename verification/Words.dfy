/** The integer types of the compiled program: bytes, 64-bit sizes and 256-bit
    machine words, all represented by the unsigned value they hold. */
module Words {
  const TWO63: int := 0x8000_0000_0000_0000
  const TWO64: int := 0x1_0000_0000_0000_0000
  const TWO160: int := 0x1_0000000000_0000000000_0000000000_0000000000
  const TWO255: int := 0x8000000000000000_0000000000000000_0000000000000000_0000000000000000
  const TWO256: int := 0x1_0000000000000000_0000000000000000_0000000000000000_0000000000000000

  type Byte = x: int | 0 <= x < 256
  type U64 = x: int | 0 <= x < TWO64
  type Word = x: int | 0 <= x < TWO256

  // A byte buffer: no object is larger than half the address space.
  type Bytes = s: seq<Byte> | |s| < TWO63

  // The gas counter, a non-negative int64_t. A charge of its greatest value stands for an
  // infinite penalty.
  const GAS_MAX: int := TWO63 - 1
  type Gas = g: int | 0 <= g <= GAS_MAX

  datatype Option<+T> = None | Some(value: T) {
    predicate IsFailure() {
      None?
    }

    function PropagateFailure<U>(): Option<U>
      requires None?
    {
      None
    }

    function Extract(): T
      requires Some?
    {
      value
    }
  }

  function Min(a: int, b: int): int {
    if a <= b then a else b
  }

  function Max(a: int, b: int): int {
    if a >= b then a else b
  }

  /** Arithmetic modulo 2^256. */
  function Wrap(x: int): Word {
    x % TWO256
  }

  /** Truncation to 64 bits. */
  function Trunc64(x: int): U64 {
    x % TWO64
  }

  lemma WrapSmall(x: Word)
    ensures Wrap(x) == x
  {
  }

  lemma TruncSmall(x: U64)
    ensures Trunc64(x) == x
  {
  }

  /** The two's complement reading of a word. */
  function ToSigned(w: Word): int {
    if w < TWO255 then w else w - TWO256
  }

  function BoolWord(b: bool): Word {
    if b then 1 else 0
  }

  /** Round up to whole 32-byte words. */
  function CeilWords(bytes: nat): nat {
    (bytes + 31) / 32
  }

  /** The value of a big-endian byte string. */
  function FromBytes(bs: seq<Byte>): nat {
    if bs == [] then 0 else FromBytes(bs[..|bs| - 1]) * 256 + bs[|bs| - 1]
  }

  /** The n low bytes of x, most significant first. */
  function ToBytes(x: nat, n: nat): (bs: seq<Byte>)
    ensures |bs| == n
  {
    if n == 0 then [] else ToBytes(x / 256, n - 1) + [x % 256]
  }

  /** The bytes [from, from + len) of s, with zeroes where s has no byte. */
  function Slice(s: seq<Byte>, from: nat, len: nat): (bs: seq<Byte>)
    ensures |bs| == len
  {
    seq(len, (k: nat) => if from + k < |s| then s[from + k] else 0)
  }

  /** s with the bytes bs written at position at; writes beyond the end of s are dropped. */
  function Splice(s: seq<Byte>, at: nat, bs: seq<Byte>): (t: seq<Byte>)
    ensures |t| == |s|
  {
    seq(|s|, (k: nat) requires k < |s| => if at <= k < at + |bs| then bs[k - at] else s[k])
  }

  function Zeroes(n: nat): (bs: seq<Byte>)
    ensures |bs| == n
  {
    seq(n, (_: nat) => 0)
  }

  function Pow(b: int, e: nat): int {
    if e == 0 then 1 else b * Pow(b, e - 1)
  }

  function Pow2(n: nat): (p: nat)
    ensures p >= 1
  {
    if n == 0 then 1 else 2 * Pow2(n - 1)
  }
}
