/** Cutting the bytecode into basic blocks. */
module BlockCutter {
  import opened Words
  import opened Instructions

  datatype Block = Block(begin: nat, end: nat)

  /** Instructions after which the code is dead up to the next JUMPDEST. */
  predicate Kills(op: Byte) {
    op == JUMP || op == RETURN || op == REVERT || op == STOP || op == SUICIDE
  }

  predicate Ends(op: Byte) {
    Kills(op) || op == JUMPI
  }

  predicate JumpDestAt(code: seq<Byte>, p: nat) {
    p < |code| && code[p] == JUMPDEST && IsStart(code, p)
  }

  // ---------------------------------------------------------------- what a good cut is

  /** From begin to end runs a chain of instructions in which only the last may end a
      block and only the first may be a JUMPDEST. */
  ghost predicate Chain(code: seq<Byte>, begin: nat, end: nat) {
    && IsStart(code, begin) && IsStart(code, end) && begin <= end <= |code|
    && forall p :: begin <= p < end && IsStart(code, p) ==>
        && (Ends(code[p]) ==> Next(code, p) == end)
        && (code[p] == JUMPDEST ==> p == begin)
  }

  ghost predicate NoJumpDest(code: seq<Byte>, from: nat, to: nat) {
    forall p :: from <= p < to ==> !JumpDestAt(code, p)
  }

  /** The position of the last instruction before end. */
  ghost predicate LastBefore(code: seq<Byte>, p: nat, end: nat) {
    p < |code| && IsStart(code, p) && Next(code, p) == end
  }

  /** A block is a non-empty chain that cannot be made longer: it stops at an instruction
      that ends blocks, before a JUMPDEST, or at the end of the code. */
  ghost predicate Maximal(code: seq<Byte>, b: Block) {
    && Chain(code, b.begin, b.end) && b.begin < b.end
    && (b.end == |code| || code[b.end] == JUMPDEST ||
        exists p: nat :: LastBefore(code, p, b.end) && Ends(code[p]))
  }

  ghost predicate Killed(code: seq<Byte>, end: nat) {
    exists p: nat :: LastBefore(code, p, end) && Kills(code[p])
  }

  /** What may lie between the end of a block and the beginning of the next: nothing, or
      after a killing instruction code without JUMPDEST, up to a JUMPDEST or the code's end. */
  ghost predicate Gap(code: seq<Byte>, end: nat, begin: nat) {
    if Killed(code, end)
    then end <= begin && NoJumpDest(code, end, begin) && (begin < |code| ==> code[begin] == JUMPDEST)
    else begin == end
  }

  /** The blocks are maximal, in order, and leave out exactly the dead code. */
  ghost predicate WellCut(code: seq<Byte>, blocks: seq<Block>) {
    && (forall k :: 0 <= k < |blocks| ==> Maximal(code, blocks[k]))
    && (|blocks| == 0 ==> |code| == 0)
    && (|blocks| > 0 ==> blocks[0].begin == 0)
    && (forall k {:trigger NextBegin(code, blocks, k)} ::
          0 <= k < |blocks| ==> Gap(code, blocks[k].end, NextBegin(code, blocks, k)))
  }

  ghost function NextBegin(code: seq<Byte>, blocks: seq<Block>, k: nat): nat
    requires k < |blocks|
  {
    if k + 1 < |blocks| then blocks[k + 1].begin else |code|
  }

  // ---------------------------------------------------------------- positions

  lemma {:induction false} ReachesNext(code: seq<Byte>, from: nat, p: nat)
    requires Reaches(code, from, p) && p < |code|
    ensures Reaches(code, from, Next(code, p))
    decreases |code| - from
  {
    if from != p { ReachesNext(code, Next(code, from), p); }
  }

  /** Two positions reached from the same one are reached one from the other. */
  lemma {:induction false} ReachesLinear(code: seq<Byte>, from: nat, p: nat, q: nat)
    requires Reaches(code, from, p) && Reaches(code, from, q) && p <= q
    ensures Reaches(code, p, q)
    decreases |code| - from
  {
    if from != p {
      ReachesForward(code, Next(code, from), p);
      ReachesLinear(code, Next(code, from), p, q);
    }
  }

  lemma {:induction false} ReachesForward(code: seq<Byte>, from: nat, p: nat)
    requires Reaches(code, from, p)
    ensures from <= p
    decreases |code| - from
  {
    if from != p { ReachesForward(code, Next(code, from), p); }
  }

  /** There is no instruction start inside an instruction. */
  lemma NoStartInside(code: seq<Byte>, p: nat, q: nat)
    requires IsStart(code, p) && IsStart(code, q) && p < |code| && p < q
    ensures Next(code, p) <= q
  {
    ReachesLinear(code, 0, p, q);
    ReachesForward(code, Next(code, p), q);
  }

  /** Distinct instructions have distinct ends. */
  lemma LastIsUnique(code: seq<Byte>, p: nat, q: nat, end: nat)
    requires LastBefore(code, p, end) && LastBefore(code, q, end)
    ensures p == q
  {
    if p < q { NoStartInside(code, p, q); }
    if q < p { NoStartInside(code, q, p); }
  }

  /** The Yellow Paper's valid destinations are the JUMPDEST bytes at instruction starts. */
  lemma ValidJumpsAreStarts(code: seq<Byte>, w: nat)
    ensures w in ValidJumps(code, 0) <==> JumpDestAt(code, w)
  {
    ValidJumpsFrom(code, 0, w);
  }

  lemma {:induction false} ValidJumpsFrom(code: seq<Byte>, i: nat, w: nat)
    ensures w in ValidJumps(code, i) <==> w < |code| && code[w] == JUMPDEST && Reaches(code, i, w)
    decreases |code| - i
  {
    if i < |code| {
      var next := if IsPush(code[i]) then i + code[i] - PUSH1 + 2 else i + 1;
      if next <= |code| {
        assert next == Next(code, i);
      }
      ValidJumpsFrom(code, next, w);
      if Reaches(code, Next(code, i), w) { ReachesForward(code, Next(code, i), w); }
    }
  }

  // ---------------------------------------------------------------- cutting

  /** The start of the next instruction, which can be the end of the code. */
  method SkipPushDataAndGetNext(code: seq<Byte>, curr: nat) returns (next: nat)
    requires curr < |code|
    ensures next == Next(code, curr)
  {
    var offset := 1;
    if PUSH1 <= code[curr] <= PUSH32 {
      offset := offset + Min(code[curr] - PUSH1 + 1, |code| - curr - 1);
    }
    next := curr + offset;
  }

  /** What the cutting loop keeps, at position curr: blocks cut so far; and either dead
      code since the last block, or a chain from begin to here still to be ended. */
  ghost predicate Cutting(code: seq<Byte>, blocks: seq<Block>, begin: nat, curr: nat, isDead: bool) {
    && IsStart(code, curr) && curr <= |code|
    && (forall k :: 0 <= k < |blocks| ==> Maximal(code, blocks[k]))
    && (|blocks| > 0 ==> blocks[0].begin == 0 && blocks[|blocks| - 1].end <= curr)
    && (forall k :: 0 <= k < |blocks| - 1 ==> Gap(code, blocks[k].end, blocks[k + 1].begin))
    && (if isDead
        then |blocks| > 0 && Killed(code, blocks[|blocks| - 1].end)
             && NoJumpDest(code, blocks[|blocks| - 1].end, curr)
        else
          && Open(code, begin, curr)
          && (if |blocks| == 0 then begin == 0 else Gap(code, blocks[|blocks| - 1].end, begin)))
  }

  /** An unfinished chain: nothing in it ends a block, and no JUMPDEST comes next. */
  ghost predicate Open(code: seq<Byte>, begin: nat, curr: nat) {
    && IsStart(code, begin) && begin <= curr
    && (forall p :: begin <= p < curr && IsStart(code, p) ==>
          p < |code| && !Ends(code[p]) && (code[p] == JUMPDEST ==> p == begin))
    && (begin < curr ==> curr < |code| && code[curr] != JUMPDEST)
  }

  method CreateBasicBlocks(code: seq<Byte>) returns (blocks: seq<Block>)
    ensures WellCut(code, blocks)
  {
    blocks := [];
    var isDead := false;
    var begin: nat := 0;
    var curr := 0;
    while curr != |code|
      invariant Cutting(code, blocks, begin, curr, isDead)
      decreases |code| - curr
    {
      var next := SkipPushDataAndGetNext(code, curr);
      ReachesNext(code, 0, curr);
      if isDead && code[curr] != JUMPDEST {
        StillDead(code, blocks[|blocks| - 1].end, curr);
        assert Cutting(code, blocks, begin, next, true);
        curr := next;
        continue;
      }
      if isDead {
        isDead := false;
        begin := curr;
      }
      assert Cutting(code, blocks, begin, curr, false);
      var isEnd := false;
      if Kills(code[curr]) {
        isDead := true;
        isEnd := true;
      } else if code[curr] == JUMPI {
        isEnd := true;
      }
      if next == |code| || code[next] == JUMPDEST {
        isEnd := true;
      }
      Grows(code, begin, curr);
      if isEnd {
        Append(code, blocks, begin, curr);
        blocks := blocks + [Block(begin, next)];
        begin := next;
      }
      curr := next;
    }
  }

  lemma StillDead(code: seq<Byte>, end: nat, curr: nat)
    requires IsStart(code, curr) && curr < |code| && code[curr] != JUMPDEST
    requires NoJumpDest(code, end, curr)
    ensures NoJumpDest(code, end, Next(code, curr))
  {
    forall p | end <= p < Next(code, curr) ensures !JumpDestAt(code, p) {
      if curr < p && IsStart(code, p) { NoStartInside(code, curr, p); }
    }
  }

  lemma Grows(code: seq<Byte>, begin: nat, curr: nat)
    requires Open(code, begin, curr) && IsStart(code, curr) && curr < |code|
    ensures Chain(code, begin, Next(code, curr))
    ensures !Ends(code[curr]) && Next(code, curr) < |code| && code[Next(code, curr)] != JUMPDEST ==>
      Open(code, begin, Next(code, curr))
  {
    ReachesNext(code, 0, curr);
    forall p | begin <= p < Next(code, curr) && IsStart(code, p)
      ensures p < |code| && p <= curr {
      if curr < p { NoStartInside(code, curr, p); }
    }
  }

  lemma Append(code: seq<Byte>, blocks: seq<Block>, begin: nat, curr: nat)
    requires Cutting(code, blocks, begin, curr, false) && curr < |code|
    requires var next := Next(code, curr);
      Ends(code[curr]) || next == |code| || code[next] == JUMPDEST
    ensures var next := Next(code, curr);
      Cutting(code, blocks + [Block(begin, next)], next, next, Kills(code[curr]))
  {
    var next := Next(code, curr);
    ReachesNext(code, 0, curr);
    Grows(code, begin, curr);
    assert LastBefore(code, curr, next);
    EndIsKilled(code, curr);
    var b := Block(begin, next);
    assert Maximal(code, b);
    var more := blocks + [b];
    forall k | 0 <= k < |more| - 1 ensures Gap(code, more[k].end, more[k + 1].begin) {
      if k < |blocks| - 1 { assert Gap(code, blocks[k].end, blocks[k + 1].begin); }
    }
  }

  lemma EndIsKilled(code: seq<Byte>, p: nat)
    requires p < |code| && IsStart(code, p)
    ensures Killed(code, Next(code, p)) <==> Kills(code[p])
  {
    var end := Next(code, p);
    assert LastBefore(code, p, end);
    if q: nat :| LastBefore(code, q, end) && Kills(code[q]) {
      LastIsUnique(code, p, q, end);
    }
  }

  // ---------------------------------------------------------------- properties of a good cut

  lemma EndsAgree(code: seq<Byte>, a: Block, b: Block)
    requires Maximal(code, a) && Maximal(code, b) && a.begin == b.begin
    ensures a.end <= b.end
  {
    if b.end < a.end {
      if code[b.end] != JUMPDEST {
        var p: nat :| LastBefore(code, p, b.end) && Ends(code[p]);
        if p < a.begin { NoStartInside(code, p, a.begin); }
      }
      assert false;
    }
  }

  lemma GapsAgree(code: seq<Byte>, end: nat, x: nat, y: nat)
    requires Gap(code, end, x) && Gap(code, end, y) && y <= |code|
    requires x < |code| ==> IsStart(code, x)
    ensures y <= x
  {
    var _ := JumpDestAt(code, x);
  }

  /** After the same block, both cuts go on with the same block. */
  lemma SameNext(code: seq<Byte>, a: seq<Block>, b: seq<Block>, k: nat)
    requires WellCut(code, a) && WellCut(code, b)
    requires k < |a| && (k > 0 ==> k - 1 < |b| && a[k - 1] == b[k - 1])
    ensures k < |b| && a[k] == b[k]
  {
    assert Maximal(code, a[k]);
    if k > 0 {
      var end := a[k - 1].end;
      assert Gap(code, end, NextBegin(code, a, k - 1));
      assert Gap(code, b[k - 1].end, NextBegin(code, b, k - 1));
      var y := NextBegin(code, b, k - 1);
      assert k < |b| ==> Maximal(code, b[k]);
      GapsAgree(code, end, a[k].begin, y);
      GapsAgree(code, end, y, a[k].begin);
    }
    assert Maximal(code, b[k]);
    EndsAgree(code, a[k], b[k]);
    EndsAgree(code, b[k], a[k]);
  }

  ghost predicate AgreeBefore(a: seq<Block>, b: seq<Block>, k: nat) {
    k > 0 ==> k - 1 < |a| && k - 1 < |b| && a[k - 1] == b[k - 1]
  }

  /** A block determines the next one. */
  ghost predicate Determined(a: seq<Block>, b: seq<Block>) {
    forall k: nat :: AgreeBefore(a, b, k) && k < |a| ==> k < |b| && a[k] == b[k]
  }

  lemma {:induction false} SamePrefix(a: seq<Block>, b: seq<Block>, n: nat)
    requires Determined(a, b) && n <= |a|
    ensures n <= |b| && forall i :: 0 <= i < n ==> a[i] == b[i]
  {
    if n > 0 {
      SamePrefix(a, b, n - 1);
      assert AgreeBefore(a, b, n - 1);
    }
  }

  lemma CutDetermines(code: seq<Byte>, a: seq<Block>, b: seq<Block>)
    requires WellCut(code, a) && WellCut(code, b)
    ensures Determined(a, b)
  {
    forall k: nat | AgreeBefore(a, b, k) && k < |a| ensures k < |b| && a[k] == b[k] {
      SameNext(code, a, b, k);
    }
  }

  /** There is only one good cut: the conditions leave the cutter no choice. */
  lemma CutIsUnique(code: seq<Byte>, a: seq<Block>, b: seq<Block>)
    requires WellCut(code, a) && WellCut(code, b)
    ensures a == b
  {
    CutDetermines(code, a, b);
    CutDetermines(code, b, a);
    SamePrefix(a, b, |a|);
    SamePrefix(b, a, |b|);
  }

  /** Every valid jump destination begins a block. */
  lemma {:induction false} DestBeginsBlock(code: seq<Byte>, blocks: seq<Block>, w: nat, k: nat) returns (j: nat)
    requires WellCut(code, blocks) && JumpDestAt(code, w)
    requires k < |blocks| && blocks[k].begin <= w
    ensures j < |blocks| && blocks[j].begin == w
    decreases |blocks| - k
  {
    if blocks[k].begin == w {
      j := k;
    } else {
      assert Maximal(code, blocks[k]);
      assert blocks[k].end <= w;
      assert Gap(code, blocks[k].end, NextBegin(code, blocks, k));
      assert NextBegin(code, blocks, k) <= w;
      j := DestBeginsBlock(code, blocks, w, k + 1);
    }
  }

  /** Blocks are disjoint and in order. */
  lemma {:induction false} BlocksInOrder(code: seq<Byte>, blocks: seq<Block>, i: nat, k: nat)
    requires WellCut(code, blocks) && i < k < |blocks|
    ensures blocks[i].end <= blocks[k].begin
    decreases k - i
  {
    assert Gap(code, blocks[i].end, NextBegin(code, blocks, i));
    if i + 1 < k {
      BlocksInOrder(code, blocks, i + 1, k);
      assert Maximal(code, blocks[i + 1]);
    }
  }

  /** Only code that no jump can reach is left out: a left-out instruction lies after a STOP,
      JUMP, RETURN, REVERT or SELFDESTRUCT, and every valid destination is kept. */
  lemma {:induction false} LeftOutIsDead(code: seq<Byte>, blocks: seq<Block>, p: nat, k: nat)
    requires WellCut(code, blocks) && IsStart(code, p) && p < |code|
    requires forall i :: 0 <= i < |blocks| ==> !(blocks[i].begin <= p < blocks[i].end)
    requires k < |blocks| && blocks[k].begin <= p
    ensures code[p] != JUMPDEST
    ensures exists i, q: nat ::
      && 0 <= i < |blocks| && LastBefore(code, q, blocks[i].end) && blocks[i].end <= p
      && (code[q] == 0x00 || code[q] == 0x56 || code[q] == 0xf3 || code[q] == 0xfd || code[q] == 0xff)
    decreases |blocks| - k
  {
    assert Gap(code, blocks[k].end, NextBegin(code, blocks, k));
    if p >= NextBegin(code, blocks, k) {
      LeftOutIsDead(code, blocks, p, k + 1);
    } else {
      var q: nat :| LastBefore(code, q, blocks[k].end) && Kills(code[q]);
      assert !JumpDestAt(code, p);
    }
  }
}
