/** The compile-time stack: items of the run-time stack are fetched only when an
    instruction needs them, and written back only when the block ends. */
module LocalStacks {
  import opened Words
  import opened Machine
  import opened Ir

  /** input[k] stands for the item k below the entry top: None if never looked at.
      local holds the items above what is left of the entry stack; pops is how many entry
      items are gone; min and max are the extreme sizes relative to the entry size. */
  datatype Locals = Locals(input: seq<Option<Val>>, local: seq<Val>, pops: nat, min: int, max: int) {
    function Size(): int {
      |local| - pops
    }
  }

  const EMPTY: Locals := Locals([], [], 0, 0, 0)

  predicate Defined(v: Val, nregs: nat) {
    v.Reg? ==> v.i < nregs
  }

  /** What every operation keeps: popped items were fetched, and whatever was fetched is
      accounted for in the minimum. */
  ghost predicate Wf(ls: Locals, nregs: nat) {
    && ls.pops <= |ls.input|
    && (forall k :: 0 <= k < |ls.input| && ls.input[k].Some? ==>
          Defined(ls.input[k].value, nregs) && ls.min <= -k - 1)
    && (forall k :: 0 <= k < ls.pops ==> ls.input[k].Some?)
    && (forall k :: 0 <= k < |ls.local| ==> Defined(ls.local[k], nregs))
    && ls.min + ls.pops <= 0
    && Max(ls.Size(), 0) <= ls.max
  }

  datatype Got = Got(ls: Locals, e: Emitted, v: Val)
  datatype GotN = GotN(ls: Locals, e: Emitted, vs: seq<Val>)

  // ---------------------------------------------------------------- operations

  function Grow(input: seq<Option<Val>>, n: nat): (r: seq<Option<Val>>)
    ensures |r| == Max(|input|, n) && input <= r
    ensures forall k :: |input| <= k < |r| ==> r[k] == None
  {
    if |input| >= n then input else input + seq(n - |input|, _ => None)
  }

  /** The index-th item from the top, fetched from the run-time stack at first use. */
  function Get(ls: Locals, e: Emitted, index: nat): Got {
    if index < |ls.local| then Got(ls, e, ls.local[|ls.local| - 1 - index])
    else
      var idx := index - |ls.local| + ls.pops;
      var input := Grow(ls.input, idx + 1);
      if input[idx].Some? then Got(ls.(input := input), e, input[idx].value)
      else
        var v := Reg(e.nregs);
        Got(ls.(input := input[idx := Some(v)], min := Min(ls.min, -idx - 1)),
            Emitted(e.ops + [Fetch(idx)], e.nregs + 1), v)
  }

  function Set(ls: Locals, index: nat, v: Val): Locals
    requires index < |ls.local| || index - |ls.local| + ls.pops < |ls.input|
  {
    if index < |ls.local| then ls.(local := ls.local[|ls.local| - 1 - index := v])
    else ls.(input := ls.input[index - |ls.local| + ls.pops := Some(v)])
  }

  function PushVal(ls: Locals, v: Val): Locals {
    ls.(local := ls.local + [v], max := Max(ls.max, ls.Size() + 1))
  }

  function PopVal(ls: Locals, e: Emitted): Got {
    var g := Get(ls, e, 0);
    var l := if |g.ls.local| > 0 then g.ls.(local := g.ls.local[..|g.ls.local| - 1])
             else g.ls.(pops := g.ls.pops + 1);
    Got(l.(min := Min(l.min, l.Size())), g.e, g.v)
  }

  /** n pops in a row; the former top comes first. */
  function PopVals(ls: Locals, e: Emitted, n: nat): (g: GotN)
    ensures |g.vs| == n
    decreases n
  {
    if n == 0 then GotN(ls, e, [])
    else
      var g := PopVal(ls, e);
      var h := PopVals(g.ls, g.e, n - 1);
      GotN(h.ls, h.e, [g.v] + h.vs)
  }

  function DupVal(ls: Locals, e: Emitted, index: nat): Got {
    var g := Get(ls, e, index);
    Got(PushVal(g.ls, g.v), g.e, g.v)
  }

  function SwapVal(ls: Locals, e: Emitted, index: nat): Got {
    var g := Get(ls, e, index);
    var h := Get(g.ls, g.e, 0);
    Got(Set(Set(h.ls, index, h.v), 0, g.v), h.e, h.v)
  }

  /** The write-back of one slot, if there is something to write. */
  function StoreOf(ls: Locals, slot: int): seq<Op>
    requires ls.pops <= |ls.input| && -|ls.input| <= slot < ls.Size()
  {
    if slot + ls.pops < 0
    then (if ls.input[-slot - 1].None? then [] else [Store(slot, ls.input[-slot - 1].value)])
    else [Store(slot, ls.local[slot + ls.pops])]
  }

  /** The write-back, for the slots below the bound: fetched items that are still on the
      stack, then the local items. */
  function Stores(ls: Locals, bound: int): seq<Op>
    requires ls.pops <= |ls.input|
    requires -|ls.input| <= bound <= ls.Size()
    decreases bound + |ls.input|
  {
    if bound == -|ls.input| then [] else Stores(ls, bound - 1) + StoreOf(ls, bound - 1)
  }

  // ---------------------------------------------------------------- meaning

  /** The item at a depth of the stack that the compile-time stack stands for. */
  function At(ls: Locals, x: XState, depth: nat): Word {
    if depth < |ls.local| then Value(ls.local[|ls.local| - 1 - depth], x.regs)
    else
      var idx := depth - |ls.local| + ls.pops;
      if idx < |ls.input| && ls.input[idx].Some? then Value(ls.input[idx].value, x.regs)
      else SlotAt(x.slots, x.sp - 1 - idx)
  }

  /** In state x the compile-time stack stands for the given stack, top first. */
  ghost predicate StandsFor(ls: Locals, nregs: nat, x: XState, stack: seq<Word>) {
    && Wf(ls, nregs)
    && |x.regs| == nregs
    && |stack| == x.sp + ls.Size()
    && forall k :: 0 <= k < |stack| ==> stack[k] == At(ls, x, k)
  }

  /** y is x after operations that only computed values. */
  ghost predicate SameBut(x: XState, y: XState) {
    x.m == y.m && x.slots == y.slots && x.sp == y.sp
  }

  /** e extends d. */
  predicate Extends(d: Emitted, e: Emitted) {
    d.ops <= e.ops && d.nregs <= e.nregs
  }

  function Tail(d: Emitted, e: Emitted): seq<Op>
    requires Extends(d, e)
  {
    e.ops[|d.ops|..]
  }

  lemma TailThen(sem: Sem, a: Emitted, b: Emitted, c: Emitted, x: XState, y: XState)
    requires Extends(a, b) && Extends(b, c)
    requires Exec(sem, Tail(a, b), x) == Some(y)
    ensures Extends(a, c) && Exec(sem, Tail(a, c), x) == Exec(sem, Tail(b, c), y)
  {
    assert Tail(a, c) == Tail(a, b) + Tail(b, c);
    ExecAppend(sem, Tail(a, b), Tail(b, c), x);
  }

  lemma ValuesCons(v: Val, vs: seq<Val>, regs: seq<Word>, stack: seq<Word>)
    requires |vs| < |stack| && Value(v, regs) == stack[0] && Values(vs, regs) == stack[1..][..|vs|]
    ensures Values([v] + vs, regs) == stack[..|vs| + 1]
  {
    forall k | 0 <= k <= |vs| ensures Values([v] + vs, regs)[k] == stack[k] {
      if k > 0 { assert Values(vs, regs)[k - 1] == stack[1..][k - 1]; }
    }
  }

  // ---------------------------------------------------------------- bounds

  /** Fetching the item at a depth requires exactly that depth, fetched before or not. */
  lemma GetBounds(ls: Locals, e: Emitted, index: nat)
    requires Wf(ls, e.nregs)
    ensures var g := Get(ls, e, index);
      && Extends(e, g.e) && Wf(g.ls, g.e.nregs) && Defined(g.v, g.e.nregs)
      && g.ls.local == ls.local && g.ls.pops == ls.pops && g.ls.max == ls.max
      && g.ls.min == Min(ls.min, ls.Size() - index - 1)
      && (index >= |ls.local| ==> index - |ls.local| + ls.pops < |g.ls.input|)
      && |ls.input| <= |g.ls.input|
  {
  }

  lemma PopBounds(ls: Locals, e: Emitted)
    requires Wf(ls, e.nregs)
    ensures var g := PopVal(ls, e);
      && Extends(e, g.e) && Wf(g.ls, g.e.nregs) && Defined(g.v, g.e.nregs)
      && g.ls.Size() == ls.Size() - 1 && g.ls.max == ls.max
      && g.ls.min == Min(ls.min, ls.Size() - 1)
  {
    GetBounds(ls, e, 0);
  }

  lemma {:induction false} PopsBounds(ls: Locals, e: Emitted, n: nat)
    requires Wf(ls, e.nregs)
    ensures var g := PopVals(ls, e, n);
      && Extends(e, g.e) && Wf(g.ls, g.e.nregs)
      && (forall k :: 0 <= k < n ==> Defined(g.vs[k], g.e.nregs))
      && g.ls.Size() == ls.Size() - n && g.ls.max == ls.max
      && g.ls.min == Min(ls.min, ls.Size() - n)
    decreases n
  {
    if n > 0 {
      var g := PopVal(ls, e);
      PopBounds(ls, e);
      PopsBounds(g.ls, g.e, n - 1);
    }
  }

  lemma PushBounds(ls: Locals, v: Val, nregs: nat)
    requires Wf(ls, nregs) && Defined(v, nregs)
    ensures var l := PushVal(ls, v);
      && Wf(l, nregs) && l.Size() == ls.Size() + 1
      && l.min == ls.min && l.max == Max(ls.max, ls.Size() + 1)
  {
  }

  lemma DupBounds(ls: Locals, e: Emitted, index: nat)
    requires Wf(ls, e.nregs)
    ensures var g := DupVal(ls, e, index);
      && Extends(e, g.e) && Wf(g.ls, g.e.nregs)
      && g.ls.Size() == ls.Size() + 1 && g.ls.max == Max(ls.max, ls.Size() + 1)
      && g.ls.min == Min(ls.min, ls.Size() - index - 1)
  {
    var g := Get(ls, e, index);
    GetBounds(ls, e, index);
    PushBounds(g.ls, g.v, g.e.nregs);
  }

  lemma WfMore(ls: Locals, nregs: nat, more: nat)
    requires Wf(ls, nregs) && nregs <= more
    ensures Wf(ls, more)
  {
  }

  lemma SwapBounds(ls: Locals, e: Emitted, index: nat)
    requires Wf(ls, e.nregs) && index > 0
    ensures var g := SwapVal(ls, e, index);
      && Extends(e, g.e) && Wf(g.ls, g.e.nregs)
      && g.ls.Size() == ls.Size() && g.ls.max == ls.max
      && g.ls.min == Min(ls.min, ls.Size() - index - 1)
  {
    var g := Get(ls, e, index);
    GetBounds(ls, e, index);
    GetBounds(g.ls, g.e, 0);
  }

  // ---------------------------------------------------------------- refinement

  lemma GetStands(sem: Sem, ls: Locals, e: Emitted, index: nat, x: XState, stack: seq<Word>)
    returns (y: XState)
    requires StandsFor(ls, e.nregs, x, stack) && index < |stack|
    ensures var g := Get(ls, e, index);
      && Extends(e, g.e) && Exec(sem, Tail(e, g.e), x) == Some(y) && SameBut(x, y)
      && StandsFor(g.ls, g.e.nregs, y, stack) && x.regs <= y.regs
      && Value(g.v, y.regs) == stack[index] && Defined(g.v, g.e.nregs)
  {
    GetBounds(ls, e, index);
    var g := Get(ls, e, index);
    if g.e == e {
      assert Tail(e, g.e) == [];
      y := x;
    } else {
      var idx := index - |ls.local| + ls.pops;
      assert Tail(e, g.e) == [Fetch(idx)];
      ExecSingle(sem, Fetch(idx), x);
      y := x.(regs := x.regs + [SlotAt(x.slots, x.sp - 1 - idx)]);
    }
    forall k | 0 <= k < |stack| ensures stack[k] == At(g.ls, y, k) {
      assert stack[k] == At(ls, x, k);
    }
    assert stack[index] == At(ls, x, index);
  }

  lemma PopStands(sem: Sem, ls: Locals, e: Emitted, x: XState, stack: seq<Word>)
    returns (y: XState)
    requires StandsFor(ls, e.nregs, x, stack) && |stack| > 0
    ensures var g := PopVal(ls, e);
      && Extends(e, g.e) && Exec(sem, Tail(e, g.e), x) == Some(y) && SameBut(x, y)
      && StandsFor(g.ls, g.e.nregs, y, stack[1..]) && x.regs <= y.regs
      && Value(g.v, y.regs) == stack[0] && Defined(g.v, g.e.nregs)
  {
    y := GetStands(sem, ls, e, 0, x, stack);
    PopBounds(ls, e);
    var g := Get(ls, e, 0);
    var h := PopVal(ls, e);
    forall k | 0 <= k < |stack[1..]| ensures stack[1..][k] == At(h.ls, y, k) {
      assert stack[k + 1] == At(g.ls, y, k + 1);
    }
  }

  /** What n pops give: g stands for the rest of the stack, its values are the popped items. */
  ghost predicate Popped(sem: Sem, e: Emitted, g: GotN, n: nat, x: XState, y: XState, stack: seq<Word>)
    requires n <= |stack|
  {
    && Extends(e, g.e) && Exec(sem, Tail(e, g.e), x) == Some(y) && SameBut(x, y)
    && StandsFor(g.ls, g.e.nregs, y, stack[n..]) && x.regs <= y.regs
    && Values(g.vs, y.regs) == stack[..n]
  }

  lemma PoppedOneMore(sem: Sem, e: Emitted, g: Got, h: GotN, n: nat,
                      x: XState, z: XState, y: XState, stack: seq<Word>)
    requires n < |stack| && |h.vs| == n
    requires Extends(e, g.e) && Exec(sem, Tail(e, g.e), x) == Some(z) && SameBut(x, z) && x.regs <= z.regs
    requires Value(g.v, z.regs) == stack[0] && Defined(g.v, |z.regs|)
    requires Popped(sem, g.e, h, n, z, y, stack[1..])
    ensures Popped(sem, e, GotN(h.ls, h.e, [g.v] + h.vs), n + 1, x, y, stack)
  {
    TailThen(sem, e, g.e, h.e, x, z);
    ValuesCons(g.v, h.vs, y.regs, stack);
    assert stack[1..][n..] == stack[n + 1..];
  }

  lemma {:induction false} PopsStand(sem: Sem, ls: Locals, e: Emitted, n: nat, x: XState, stack: seq<Word>)
    returns (y: XState)
    requires StandsFor(ls, e.nregs, x, stack) && n <= |stack|
    ensures Popped(sem, e, PopVals(ls, e, n), n, x, y, stack)
    decreases n
  {
    if n == 0 {
      y := x;
      assert Tail(e, e) == [];
      assert stack[0..] == stack;
    } else {
      var g := PopVal(ls, e);
      var z := PopStands(sem, ls, e, x, stack);
      y := PopsStand(sem, g.ls, g.e, n - 1, z, stack[1..]);
      PoppedOneMore(sem, e, g, PopVals(g.ls, g.e, n - 1), n - 1, x, z, y, stack);
    }
  }

  lemma PushStands(ls: Locals, nregs: nat, v: Val, x: XState, stack: seq<Word>)
    requires StandsFor(ls, nregs, x, stack) && Defined(v, nregs)
    ensures StandsFor(PushVal(ls, v), nregs, x, [Value(v, x.regs)] + stack)
  {
    var s := [Value(v, x.regs)] + stack;
    forall k | 0 <= k < |s| ensures s[k] == At(PushVal(ls, v), x, k) {
      if k > 0 { assert stack[k - 1] == At(ls, x, k - 1); }
    }
  }

  /** New values do not disturb what the stack stands for. */
  lemma MoreRegs(ls: Locals, nregs: nat, x: XState, stack: seq<Word>, y: XState)
    requires StandsFor(ls, nregs, x, stack)
    requires x.slots == y.slots && x.sp == y.sp && x.regs <= y.regs
    ensures StandsFor(ls, |y.regs|, y, stack)
  {
    forall k | 0 <= k < |stack| ensures stack[k] == At(ls, y, k) {
      assert stack[k] == At(ls, x, k);
    }
  }

  lemma SetStands(ls: Locals, nregs: nat, index: nat, v: Val, x: XState, stack: seq<Word>)
    requires StandsFor(ls, nregs, x, stack) && Defined(v, nregs) && index < |stack|
    requires index < |ls.local| ||
      (index - |ls.local| + ls.pops < |ls.input| && ls.min <= ls.Size() - index - 1)
    ensures StandsFor(Set(ls, index, v), nregs, x, stack[index := Value(v, x.regs)])
  {
    var l, s := Set(ls, index, v), stack[index := Value(v, x.regs)];
    forall k | 0 <= k < |s| ensures s[k] == At(l, x, k) {
      assert stack[k] == At(ls, x, k);
    }
  }

  lemma SwapStands(sem: Sem, ls: Locals, e: Emitted, index: nat, x: XState, stack: seq<Word>)
    returns (y: XState)
    requires StandsFor(ls, e.nregs, x, stack) && 0 < index < |stack|
    ensures var g := SwapVal(ls, e, index);
      && Extends(e, g.e) && Exec(sem, Tail(e, g.e), x) == Some(y) && SameBut(x, y)
      && StandsFor(g.ls, g.e.nregs, y, stack[0 := stack[index]][index := stack[0]])
  {
    var g := Get(ls, e, index);
    GetBounds(ls, e, index);
    var z := GetStands(sem, ls, e, index, x, stack);
    var h := Get(g.ls, g.e, 0);
    GetBounds(g.ls, g.e, 0);
    y := GetStands(sem, g.ls, g.e, 0, z, stack);
    TailThen(sem, e, g.e, h.e, x, z);
    SetStands(h.ls, h.e.nregs, index, h.v, y, stack);
    var s := stack[index := stack[0]];
    var l := Set(h.ls, index, h.v);
    SetStands(l, h.e.nregs, 0, g.v, y, s);
    assert s[0 := stack[index]] == stack[0 := stack[index]][index := stack[0]];
  }

  // ---------------------------------------------------------------- write-back

  /** The stack memory as the write-back leaves it below a bound. */
  ghost predicate Written(ls: Locals, x: XState, y: XState, bound: int) {
    && bound <= ls.Size()
    && y.m == x.m && y.regs == x.regs && y.sp == x.sp && |y.slots| == |x.slots|
    && (forall p :: 0 <= p < |x.slots| && !(-|ls.input| <= p - x.sp < bound) ==> y.slots[p] == x.slots[p])
    && (forall p :: 0 <= p < |x.slots| && -|ls.input| <= p - x.sp < bound ==>
          y.slots[p] == At(ls, x, ls.Size() - 1 - (p - x.sp)))
  }

  lemma StoreWrites(sem: Sem, ls: Locals, nregs: nat, x: XState, z: XState, slot: int) returns (y: XState)
    requires Wf(ls, nregs) && -|ls.input| <= slot < ls.Size() && Written(ls, x, z, slot)
    ensures Exec(sem, StoreOf(ls, slot), z) == Some(y) && Written(ls, x, y, slot + 1)
  {
    var ops := StoreOf(ls, slot);
    if ops == [] {
      y := z;
    } else {
      ExecSingle(sem, ops[0], z);
      y := ExecOp(sem, ops[0], z).value;
    }
  }

  lemma {:induction false} StoresWrite(sem: Sem, ls: Locals, nregs: nat, x: XState, bound: int)
    returns (y: XState)
    requires Wf(ls, nregs) && -|ls.input| <= bound <= ls.Size()
    ensures Exec(sem, Stores(ls, bound), x) == Some(y) && Written(ls, x, y, bound)
    decreases bound + |ls.input|
  {
    if bound == -|ls.input| {
      y := x;
    } else {
      var z := StoresWrite(sem, ls, nregs, x, bound - 1);
      y := StoreWrites(sem, ls, nregs, x, z, bound - 1);
      ExecAppend(sem, Stores(ls, bound - 1), StoreOf(ls, bound - 1), x);
      assert Stores(ls, bound) == Stores(ls, bound - 1) + StoreOf(ls, bound - 1);
    }
  }

  lemma WrittenItem(ls: Locals, nregs: nat, x: XState, y: XState, stack: seq<Word>, k: nat)
    requires StandsFor(ls, nregs, x, stack) && |stack| <= |x.slots| && k < |stack|
    requires Written(ls, x, y, ls.Size())
    ensures stack[k] == y.slots[|stack| - 1 - k]
  {
    var p := |stack| - 1 - k;
    assert stack[k] == At(ls, x, k);
    assert ls.Size() - 1 - (p - x.sp) == k;
    if p - x.sp < -|ls.input| {
      assert y.slots[p] == x.slots[p];
    } else {
      assert y.slots[p] == At(ls, x, k);
    }
  }

  /** After the write-back the run-time stack holds, bottom first, the stack that the
      compile-time stack stands for. */
  lemma WriteBack(sem: Sem, ls: Locals, nregs: nat, x: XState, stack: seq<Word>) returns (y: XState)
    requires StandsFor(ls, nregs, x, stack)
    requires |stack| <= |x.slots| && x.sp <= |x.slots|
    ensures Exec(sem, Stores(ls, ls.Size()), x) == Some(y)
    ensures y.m == x.m && y.regs == x.regs && |y.slots| == |x.slots|
    ensures forall k :: 0 <= k < |stack| ==> stack[k] == y.slots[|stack| - 1 - k]
  {
    y := StoresWrite(sem, ls, nregs, x, ls.Size());
    forall k: nat | k < |stack| ensures stack[k] == y.slots[|stack| - 1 - k] {
      WrittenItem(ls, nregs, x, y, stack, k);
    }
  }
}
