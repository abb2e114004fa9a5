/** What the compiler returns runs as the Yellow Paper defines. */
module EndToEnd {
  import opened Words
  import opened Instructions
  import opened Machine
  import opened Hosts
  import opened Program
  import opened Correctness
  import opened Threshold
  import Compilers
  import Jit

  /** Compiling any code gives a program whose runs are as defined, from any state of the host
      and any content of stack memory, whenever the defined run is right; and so for all gas
      below the limit. */
  method CompileCorrectly(h: Host, cfg: Config, undef: Word, code: seq<Byte>) returns (p: Prog)
    ensures forall gas: Gas, world: World, slots: seq<Word> ::
      |slots| == STACK_LIMIT && (gas < LIMIT || StartsRight(h, cfg, code, gas, world)) ==>
        RunsAsDefined(h, cfg, undef, code, p, gas, world, slots)
  {
    var cuts;
    p, cuts := Compilers.Compile(cfg, Jit.JitSem(h, cfg, undef).pure, code);
    forall gas: Gas, world: World, slots: seq<Word>
      | |slots| == STACK_LIMIT && (gas < LIMIT || StartsRight(h, cfg, code, gas, world))
      ensures RunsAsDefined(h, cfg, undef, code, p, gas, world, slots) {
      if gas < LIMIT {
        BelowLimit(h, cfg, code, gas, world);
      }
      CompiledRunsAsDefined(h, cfg, undef, code, cuts, gas, world, slots);
    }
  }
}
