/** The two passes over the generated code: wide divisions become calls, and aborts in the
    main function become edges to its exit. Both rewrite in place and preserve meaning. */
module Passes {
  import opened Words
  import opened Arith
  import opened ArithRefinement
  import YP = YellowPaper

  // ---------------------------------------------------------------- wide divisions

  datatype Opcode = UDiv | URem | SDiv | SRem | Other(id: nat)

  datatype Callee = UDiv256 | URem256 | SDiv256 | SRem256 | URem512

  /** Operands are positions of values computed earlier. */
  datatype Inst = Binary(op: Opcode, width: nat, x: nat, y: nat) | Call(f: Callee, x: nat, y: nat)

  /** Any other instruction: its result is some function of its operands. */
  type OtherOps = (nat, nat, nat, nat) -> nat

  /** What a 512-bit remainder by zero gives: any value, which ADDMOD and MULMOD never select. */
  type Undef = nat -> nat

  /** What a division is defined to give; None where it is undefined: for divisor 0, except of
      the 512-bit remainder, and for the signed quotient that does not fit. */
  function BinaryValue(other: OtherOps, undef: Undef, op: Opcode, width: nat, x: nat, y: nat): Option<nat> {
    match op
    case UDiv => if y == 0 then None else Some(x / y)
    case URem =>
      if y != 0 then Some(x % y) else if width == 512 then Some(undef(x)) else None
    case SDiv =>
      if width != 256 then Some(other(0, width, x, y))
      else if Wrap(y) == 0 || (Wrap(x) == TWO255 && Wrap(y) == TWO256 - 1) then None
      else Some(Wrap(YP.TruncDiv(ToSigned(Wrap(x)), ToSigned(Wrap(y)))))
    case SRem =>
      if width != 256 then Some(other(1, width, x, y))
      else if Wrap(y) == 0 || (Wrap(x) == TWO255 && Wrap(y) == TWO256 - 1) then None
      else Some(Wrap(YP.TruncMod(ToSigned(Wrap(x)), ToSigned(Wrap(y)))))
    case Other(id) => Some(other(id + 2, width, x, y))
  }

  /** What the called functions compute; their division core is undefined for divisor 0. */
  function CallValue(undef: Undef, f: Callee, x: nat, y: nat): Option<nat> {
    match f
    case UDiv256 => if y == 0 then None else Some(x / y)
    case URem256 => if y == 0 then None else Some(x % y)
    case URem512 => if y == 0 then Some(undef(x)) else Some(x % y)
    case SDiv256 => if Wrap(y) == 0 then None else Some(SDivRem(Wrap(x), Wrap(y)).0)
    case SRem256 => if Wrap(y) == 0 then None else Some(SDivRem(Wrap(x), Wrap(y)).1)
  }

  /** How an operand is found among the values computed so far. */
  type Lookup = (seq<nat>, nat) -> nat

  function InstValue(other: OtherOps, undef: Undef, at: Lookup, i: Inst, vals: seq<nat>): Option<nat> {
    match i
    case Binary(op, width, x, y) => BinaryValue(other, undef, op, width, at(vals, x), at(vals, y))
    case Call(f, x, y) => CallValue(undef, f, at(vals, x), at(vals, y))
  }

  /** The values after a block; None if the block does something undefined. */
  function Exec(other: OtherOps, undef: Undef, at: Lookup, block: seq<Inst>, vals: seq<nat>): Option<seq<nat>>
    decreases |block|
  {
    if block == [] then Some(vals)
    else
      var v :- InstValue(other, undef, at, block[0], vals);
      Exec(other, undef, at, block[1..], vals + [v])
  }

  function CalleeFor(i: Inst): Option<Callee> {
    if i.Call? then None
    else if i.width == 256 then
      match i.op
      case UDiv => Some(UDiv256)
      case URem => Some(URem256)
      case SDiv => Some(SDiv256)
      case SRem => Some(SRem256)
      case Other(_) => None
    else if i.width == 512 && i.op == URem then Some(URem512)
    else None
  }

  function Lowered(i: Inst): Inst {
    var f := CalleeFor(i);
    if f.Some? then Call(f.value, i.x, i.y) else i
  }

  function AllLowered(block: seq<Inst>): (r: seq<Inst>)
    ensures |r| == |block|
  {
    seq(|block|, (k: nat) requires k < |block| => Lowered(block[k]))
  }

  /** The divisions that the code generator cannot expand. */
  predicate Wide(i: Inst) {
    && i.Binary?
    && ((i.width == 256 && (i.op == UDiv || i.op == URem || i.op == SDiv || i.op == SRem))
        || (i.width == 512 && i.op == URem))
  }

  /** A call of the function named after the division it replaces. */
  predicate Replaces(c: Inst, i: Inst) {
    && Wide(i) && c.Call? && c.x == i.x && c.y == i.y
    && match c.f
       case UDiv256 => i.op == UDiv && i.width == 256
       case URem256 => i.op == URem && i.width == 256
       case SDiv256 => i.op == SDiv && i.width == 256
       case SRem256 => i.op == SRem && i.width == 256
       case URem512 => i.op == URem && i.width == 512
  }

  lemma LoweredReplaces(i: Inst)
    ensures if Wide(i) then Replaces(Lowered(i), i) else Lowered(i) == i
  {
  }

  /** The pass over one block: every wide division becomes a call of its function on the same
      operands, all else stays, and the result says whether there was one. */
  method LowerBlock(block: array<Inst>) returns (modified: bool)
    modifies block
    ensures block[..] == AllLowered(old(block[..]))
    ensures forall k :: 0 <= k < block.Length ==>
      if Wide(old(block[k])) then Replaces(block[k], old(block[k])) else block[k] == old(block[k])
    ensures modified <==> exists k :: 0 <= k < block.Length && Wide(old(block[k]))
  {
    modified := false;
    ghost var was := block[..];
    for it := 0 to block.Length
      invariant forall k :: 0 <= k < block.Length ==> block[k] == if k < it then Lowered(was[k]) else was[k]
      invariant forall k :: 0 <= k < it ==>
        if Wide(was[k]) then Replaces(block[k], was[k]) else block[k] == was[k]
      invariant modified <==> exists k :: 0 <= k < it && Wide(was[k])
    {
      LoweredReplaces(block[it]);
      var func := CalleeFor(block[it]);
      if func.Some? {
        block[it] := Call(func.value, block[it].x, block[it].y);
        modified := true;
      }
    }
  }

  lemma LoweredValue(other: OtherOps, undef: Undef, at: Lookup, i: Inst, vals: seq<nat>)
    requires InstValue(other, undef, at, i, vals).Some?
    ensures InstValue(other, undef, at, Lowered(i), vals) == InstValue(other, undef, at, i, vals)
  {
    if i.Binary? && i.width == 256 && (i.op == SDiv || i.op == SRem) {
      SDivRemAgrees(Wrap(at(vals, i.x)), Wrap(at(vals, i.y)));
    }
  }

  /** Wherever a block is defined, the lowered block computes the same values, for any value of
      the 512-bit remainder by zero. */
  lemma {:induction false} LoweringPreserves(other: OtherOps, undef: Undef, at: Lookup, block: seq<Inst>,
                                             vals: seq<nat>)
    requires Exec(other, undef, at, block, vals).Some?
    ensures Exec(other, undef, at, AllLowered(block), vals) == Exec(other, undef, at, block, vals)
    decreases |block|
  {
    if block != [] {
      LoweredValue(other, undef, at, block[0], vals);
      LoweringPreserves(other, undef, at, block[1..], vals + [InstValue(other, undef, at, block[0], vals).value]);
      assert AllLowered(block)[1..] == AllLowered(block[1..]);
    }
  }

  /** Afterwards no wide division is left, every one has become the call of its function, and
      nothing else has changed. */
  lemma LoweringIsComplete(block: seq<Inst>, k: nat)
    requires k < |block|
    ensures !Wide(AllLowered(block)[k])
    ensures if Wide(block[k]) then Replaces(AllLowered(block)[k], block[k]) else AllLowered(block)[k] == block[k]
    ensures AllLowered(AllLowered(block)) == AllLowered(block)
  {
    LoweredReplaces(block[k]);
  }

  // ---------------------------------------------------------------- aborts

  const ABORT_CODE: int := -1

  datatype Action = Act(id: nat) | LongJmp

  /** Branches and switches lead to some block, whichever they choose. */
  datatype Terminator = Leads(id: nat) | ToExit | Unreachable

  datatype CodeBlock = CodeBlock(actions: seq<Action>, term: Terminator)

  /** The main function: its blocks before the exit block, and the inputs of the exit's phi. */
  datatype Fun = Fun(blocks: seq<CodeBlock>, phi: map<nat, int>)

  datatype Sem<!S> = Sem(act: (nat, S) -> S, next: (nat, S) -> nat)

  /** Where control is after a block. A long jump arrives at the entry's setjmp, from there at
      the Abort block, and returns the abort code. */
  datatype Next<S> = InBlock(k: nat, s: S) | Returned(code: int, s: S) | Undefined

  datatype Ran<S> = Falls(s: S) | Jumps(s: S)

  function RunActions<S>(sem: Sem<S>, actions: seq<Action>, s: S): Ran<S>
    decreases |actions|
  {
    if actions == [] then Falls(s)
    else
      match actions[0]
      case LongJmp => Jumps(s)
      case Act(id) => RunActions(sem, actions[1..], sem.act(id, s))
  }

  function RunBlock<S>(sem: Sem<S>, f: Fun, k: nat, s: S): Next<S>
    requires k < |f.blocks|
  {
    match RunActions(sem, f.blocks[k].actions, s)
    case Jumps(t) => Returned(ABORT_CODE, t)
    case Falls(t) =>
      match f.blocks[k].term
      case Leads(id) => InBlock(sem.next(id, t), t)
      case ToExit => if k in f.phi then Returned(f.phi[k], t) else Undefined
      case Unreachable => Undefined
  }

  /** At most n blocks. */
  function Run<S>(sem: Sem<S>, f: Fun, k: nat, s: S, n: nat): Next<S>
    decreases n
  {
    if n == 0 || k >= |f.blocks| then InBlock(k, s)
    else
      match RunBlock(sem, f, k, s)
      case InBlock(j, t) => Run(sem, f, j, t, n - 1)
      case end => end
  }

  /** What code generation guarantees: a block without way out ends in a long jump, there are
      no others, and the phi has inputs only for blocks that lead to the exit. */
  ghost predicate WellFormed(f: Fun) {
    && (forall k :: 0 <= k < |f.blocks| && f.blocks[k].term == Unreachable ==>
          |f.blocks[k].actions| > 0 && f.blocks[k].actions[|f.blocks[k].actions| - 1] == LongJmp)
    && (forall k :: k in f.phi ==> k < |f.blocks| && f.blocks[k].term == ToExit)
  }

  function WithoutJump(b: CodeBlock): CodeBlock {
    if b.term == Unreachable && |b.actions| > 0
    then CodeBlock(b.actions[..|b.actions| - 1], ToExit) else b
  }

  /** The new inputs of the phi, for the first n blocks. */
  function AbortCodes(blocks: seq<CodeBlock>, n: nat): map<nat, int>
    requires n <= |blocks|
  {
    map k: nat | k < n && blocks[k].term == Unreachable :: ABORT_CODE
  }

  lemma AbortCodesStep(phi: map<nat, int>, blocks: seq<CodeBlock>, n: nat)
    requires n < |blocks|
    ensures phi + AbortCodes(blocks, n + 1)
      == var m := phi + AbortCodes(blocks, n); if blocks[n].term == Unreachable then m[n := ABORT_CODE] else m
  {
  }

  predicate AnyAbort(blocks: seq<CodeBlock>, n: nat)
    requires n <= |blocks|
    decreases n
  {
    n > 0 && (blocks[n - 1].term == Unreachable || AnyAbort(blocks, n - 1))
  }

  lemma {:induction false} SomeAbort(blocks: seq<CodeBlock>, n: nat)
    requires n <= |blocks|
    ensures AnyAbort(blocks, n) <==> exists k :: 0 <= k < n && blocks[k].term == Unreachable
    decreases n
  {
    if n > 0 { SomeAbort(blocks, n - 1); }
  }

  function Eliminated(f: Fun): (g: Fun)
    ensures |g.blocks| == |f.blocks|
  {
    Fun(seq(|f.blocks|, (k: nat) requires k < |f.blocks| => WithoutJump(f.blocks[k])),
        f.phi + AbortCodes(f.blocks, |f.blocks|))
  }

  /** The pass: every abort becomes an edge to the exit with the abort code. */
  method EliminateLongJmps(blocks: array<CodeBlock>, phi: map<nat, int>) returns (newPhi: map<nat, int>, modified: bool)
    requires WellFormed(Fun(blocks[..], phi))
    modifies blocks
    ensures Fun(blocks[..], newPhi) == Eliminated(old(Fun(blocks[..], phi)))
    ensures modified <==> exists k :: 0 <= k < blocks.Length && old(blocks[k].term) == Unreachable
    ensures forall k :: 0 <= k < blocks.Length && old(blocks[k].term) == Unreachable ==>
      blocks[k].term == ToExit && k in newPhi && newPhi[k] == -1
  {
    ghost var was := blocks[..];
    newPhi, modified := phi, false;
    for k := 0 to blocks.Length
      invariant forall j :: 0 <= j < blocks.Length ==> blocks[j] == if j < k then WithoutJump(was[j]) else was[j]
      invariant newPhi == phi + AbortCodes(was, k) && modified == AnyAbort(was, k)
    {
      AbortCodesStep(phi, was, k);
      if blocks[k].term == Unreachable {
        assert was[k] == Fun(was, phi).blocks[k];
        newPhi := newPhi[k := ABORT_CODE];
        var actions := blocks[k].actions;
        blocks[k] := CodeBlock(actions[..|actions| - 1], ToExit);
        modified := true;
      }
    }
    SomeAbort(was, |was|);
  }

  /** Up to a final long jump, the actions do the same with and without it; with it control
      never falls out of the block. */
  lemma {:induction false} DropLongJmp<S>(sem: Sem<S>, actions: seq<Action>, s: S)
    requires |actions| > 0 && actions[|actions| - 1] == LongJmp
    ensures RunActions(sem, actions, s) == Jumps(RunActions(sem, actions[..|actions| - 1], s).s)
    decreases |actions|
  {
    if |actions| > 1 {
      match actions[0]
      case LongJmp =>
      case Act(id) =>
        DropLongJmp(sem, actions[1..], sem.act(id, s));
        assert actions[1..][..|actions| - 2] == actions[..|actions| - 1][1..];
    }
  }

  lemma BlockPreserved<S>(sem: Sem<S>, f: Fun, k: nat, s: S)
    requires WellFormed(f) && k < |f.blocks|
    ensures RunBlock(sem, Eliminated(f), k, s) == RunBlock(sem, f, k, s)
  {
    if f.blocks[k].term == Unreachable {
      DropLongJmp(sem, f.blocks[k].actions, s);
    }
  }

  /** Running a block is doing its first action and then running the rest of it. */
  lemma ActionFirst<S>(sem: Sem<S>, f: Fun, k: nat, id: nat, rest: seq<Action>, s: S)
    requires k < |f.blocks| && f.blocks[k].actions == [Act(id)] + rest
    ensures RunBlock(sem, f, k, s)
      == RunBlock(sem, f.(blocks := f.blocks[k := CodeBlock(rest, f.blocks[k].term)]), k, sem.act(id, s))
  {
    assert ([Act(id)] + rest)[1..] == rest;
  }

  /** Every run of the main function, of any length and from any block, is the same. */
  lemma {:induction false} EliminationPreserves<S>(sem: Sem<S>, f: Fun, k: nat, s: S, n: nat)
    requires WellFormed(f)
    ensures Run(sem, Eliminated(f), k, s, n) == Run(sem, f, k, s, n)
    decreases n
  {
    if n > 0 && k < |f.blocks| {
      BlockPreserved(sem, f, k, s);
      var next := RunBlock(sem, f, k, s);
      if next.InBlock? {
        EliminationPreserves(sem, f, next.k, next.s, n - 1);
      }
    }
  }

  /** A block that aborts returns -1, before the pass and after it. */
  lemma AbortReturns<S>(sem: Sem<S>, f: Fun, k: nat, s: S)
    requires WellFormed(f) && k < |f.blocks| && f.blocks[k].term == Unreachable
    ensures RunBlock(sem, f, k, s).Returned? && RunBlock(sem, f, k, s).code == -1
    ensures RunBlock(sem, Eliminated(f), k, s) == RunBlock(sem, f, k, s)
  {
    DropLongJmp(sem, f.blocks[k].actions, s);
  }
}
