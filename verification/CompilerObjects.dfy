/** The objects the compiler updates while it walks through a block: the IR builder, the
    compile-time stack and the gas meter. Each method is proved to have the effect of the
    function of the same operation, whose properties are proved on values. */
module CompilerObjects {
  import opened Words
  import opened Instructions
  import opened Ir
  import opened LocalStacks
  import opened BlockCompiler

  /** The IR builder's output. */
  class Builder {
    var ops: seq<Op>
    var nregs: nat

    function Code(): Emitted
      reads this
    {
      Emitted(ops, nregs)
    }

    constructor ()
      ensures Code() == Emitted([], 0)
    {
      ops, nregs := [], 0;
    }

    /** Back to an empty block. */
    method SetInsertPoint()
      modifies this
      ensures Code() == Emitted([], 0)
    {
      ops, nregs := [], 0;
    }

    /** Appends an operation that computes the given number of values. */
    method Insert(op: Op, values: nat) returns (v: Val)
      modifies this
      ensures Code() == old(Emitted(ops + [op], nregs + values))
      ensures v == Reg(old(nregs))
    {
      v := Reg(nregs);
      ops, nregs := ops + [op], nregs + values;
    }

    method Erase(k: nat)
      requires k < |ops|
      modifies this
      ensures Code() == old(Emitted(ops[..k] + ops[k + 1..], nregs))
    {
      ops := ops[..k] + ops[k + 1..];
    }

    method SetCost(k: nat, cost: nat)
      requires k < |ops|
      modifies this
      ensures Code() == old(Emitted(ops[k := Check(cost)], nregs))
    {
      ops := ops[k := Check(cost)];
    }
  }

  /** The compile-time stack. */
  class LocalStack {
    var input: seq<Option<Val>>
    var local: seq<Val>
    var globalPops: nat
    var minSize: int
    var maxSize: int

    function Value(): Locals
      reads this
    {
      Locals(input, local, globalPops, minSize, maxSize)
    }

    function Size(): int
      reads this
    {
      |local| - globalPops
    }

    constructor ()
      ensures Value() == EMPTY
    {
      input, local, globalPops, minSize, maxSize := [], [], 0, 0, 0;
    }

    method Push(v: Val)
      modifies this
      ensures Value() == old(PushVal(Value(), v))
    {
      local := local + [v];
      maxSize := Max(maxSize, Size());
    }

    /** The index-th item from the top, fetched from the run-time stack if it never was. */
    method Get(b: Builder, index: nat) returns (item: Val)
      modifies this, b
      ensures Got(Value(), b.Code(), item) == old(LocalStacks.Get(Value(), b.Code(), index))
    {
      if index < |local| {
        return local[|local| - 1 - index];
      }
      var idx := index - |local| + globalPops;
      if idx >= |input| {
        input := Grow(input, idx + 1);
      }
      if input[idx].Some? {
        return input[idx].value;
      }
      item := b.Insert(Fetch(idx), 1);
      input := input[idx := Some(item)];
      minSize := Min(minSize, -idx - 1);
    }

    method Set(index: nat, v: Val)
      requires index < |local| || index - |local| + globalPops < |input|
      modifies this
      ensures Value() == old(LocalStacks.Set(Value(), index, v))
    {
      if index < |local| {
        local := local[|local| - 1 - index := v];
        return;
      }
      input := input[index - |local| + globalPops := Some(v)];
    }

    method Pop(b: Builder) returns (item: Val)
      modifies this, b
      ensures Got(Value(), b.Code(), item) == old(PopVal(Value(), b.Code()))
    {
      item := Get(b, 0);
      if |local| > 0 {
        local := local[..|local| - 1];
      } else {
        globalPops := globalPops + 1;
      }
      minSize := Min(minSize, Size());
    }

    /** n pops; the former top comes first. */
    method PopN(b: Builder, n: nat) returns (items: seq<Val>)
      modifies this, b
      ensures GotN(Value(), b.Code(), items) == old(PopVals(Value(), b.Code(), n))
      decreases n
    {
      if n == 0 {
        return [];
      }
      var v := Pop(b);
      var vs := PopN(b, n - 1);
      items := [v] + vs;
    }

    method Dup(b: Builder, index: nat)
      modifies this, b
      ensures var g := old(DupVal(Value(), b.Code(), index)); Value() == g.ls && b.Code() == g.e
    {
      var val := Get(b, index);
      Push(val);
    }

    method Swap(b: Builder, index: nat)
      requires index > 0 && Wf(Value(), b.nregs)
      modifies this, b
      ensures var g := old(SwapVal(Value(), b.Code(), index)); Value() == g.ls && b.Code() == g.e
    {
      GetBounds(Value(), b.Code(), index);
      var val := Get(b, index);
      GetBounds(Value(), b.Code(), 0);
      var tos := Get(b, 0);
      Set(index, tos);
      Set(0, val);
    }

    /** Emits the store of one slot, if there is something to write. */
    method StoreSlot(b: Builder, slot: int, item: Option<Val>)
      modifies b
      ensures b.Code() == old(Emitted(b.ops + (if item.Some? then [Store(slot, item.value)] else []), b.nregs))
    {
      if item.Some? {
        var _ := b.Insert(Store(slot, item.value), 0);
      }
    }

    /** The item that belongs into a slot. */
    function ItemOf(slot: int): (item: Option<Val>)
      requires globalPops <= |input| && -|input| <= slot < Size()
      reads this
      ensures StoreOf(Value(), slot) == if item.Some? then [Store(slot, item.value)] else []
    {
      if slot < 0 - globalPops then input[-slot - 1] else Some(local[slot + globalPops])
    }

    /** Emits the write-back, from the lowest slot ever fetched up to the new top. */
    method Finalize(b: Builder)
      requires Wf(Value(), b.nregs)
      modifies b
      ensures b.Code() == old(Emitted(b.ops + Stores(Value(), Size()), b.nregs))
    {
      ghost var ls, before := Value(), b.ops;
      var globalIdx: int := -|input|;
      var inputIt, localIt := |input|, 0;
      assert before + Stores(ls, globalIdx) == before;
      while globalIdx < Size()
        invariant -|input| <= globalIdx <= Size() && b.nregs == old(b.nregs)
        invariant globalIdx <= 0 - globalPops ==> inputIt == -globalIdx && localIt == 0
        invariant globalIdx >= 0 - globalPops ==> localIt == globalIdx + globalPops
        invariant b.ops == before + Stores(ls, globalIdx)
      {
        var item;
        if globalIdx < 0 - globalPops {
          inputIt := inputIt - 1;
          item := input[inputIt];
        } else {
          item := Some(local[localIt]);
          localIt := localIt + 1;
        }
        assert item == ItemOf(globalIdx);
        StoreSlot(b, globalIdx, item);
        OneMoreStore(ls, before, globalIdx);
        globalIdx := globalIdx + 1;
      }
    }
  }

  lemma OneMoreStore(ls: Locals, before: seq<Op>, slot: int)
    requires ls.pops <= |ls.input| && -|ls.input| <= slot < ls.Size()
    ensures (before + Stores(ls, slot)) + StoreOf(ls, slot) == before + Stores(ls, slot + 1)
  {
  }

  /** The gas meter: the cost of the current cost block, and the position of its check. */
  class GasMeter {
    var blockCost: nat
    var checkCall: Option<nat>

    function Value(): Meter
      reads this
    {
      Meter(blockCost, checkCall)
    }

    constructor ()
      ensures Value() == Meter(0, None)
    {
      blockCost, checkCall := 0, None;
    }

    method Count(b: Builder, cost: nat)
      modifies this, b
      ensures Metered(Value(), b.Code()) == old(BlockCompiler.Count(Value(), b.Code(), cost))
    {
      if checkCall.None? {
        checkCall := Some(|b.ops|);
        var _ := b.Insert(Check(0), 0);
      }
      blockCost := blockCost + cost;
    }

    method CommitCostBlock(b: Builder)
      requires MeterOk(Value(), b.Code())
      modifies this, b
      ensures Metered(Value(), b.Code()) == old(Commit(Value(), b.Code()))
    {
      if checkCall.Some? {
        if blockCost == 0 {
          b.Erase(checkCall.value);
          checkCall := None;
          return;
        }
        b.SetCost(checkCall.value, blockCost);
        checkCall := None;
        blockCost := 0;
      }
    }
  }
}
