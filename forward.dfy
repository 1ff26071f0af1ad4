/**
 * The stateful side of one-step forwarding: the context object that the
 * stepping mutates, and a Sequential container that memoises its conv
 * checkpoints on first use. Each method is tied to the value-level
 * specification in module Stepping.
 */
module Forward {
  import opened Wrappers
  import opened Modules
  import opened Stepping

  /** The context handed from step to step; `opIndex` is the op index part of `next_op_index`. */
  class StepContext {
    var previousOp: seq<Tensor>
    var currentOp: seq<Tensor>
    var lastConvModule: Option<Module>
    var injectEnabled: bool
    var opIndex: int

    function State(): CtxState
      reads this
    {
      CtxState(previousOp, currentOp, lastConvModule, injectEnabled)
    }

    constructor (opIndex: int)
      ensures State() == CtxState([], [], None, true)
      ensures this.opIndex == opIndex
    {
      previousOp := [];
      currentOp := [];
      lastConvModule := None;
      injectEnabled := true;
      this.opIndex := opIndex;
    }

    /** `flag_inject(on)`. */
    method FlagInject(on: bool)
      modifies this
      ensures State() == old(State()).(injectEnabled := on)
      ensures opIndex == old(opIndex)
    {
      injectEnabled := on;
    }
  }

  /** `stub_forward_one_step(self, context, inputs)`, for a module that is not a Sequential. */
  method StubForwardOneStep(self: Module, context: StepContext, inputs: Option<Tensor>) returns (r: Result<Tensor, StepError>)
    modifies context
    ensures context.opIndex == old(context.opIndex)
    ensures match StubSpec(self, old(context.State()), inputs)
      case Ok((y, st')) => r == Ok(y) && context.State() == st'
      case Err(e) => r == Err(e) && context.State() == old(context.State())
  {
    if inputs.None? {
      return Err(MissingInputs);
    }
    var y := Apply(self, inputs.value);
    context.previousOp := context.previousOp + [y];
    if self.Conv2d? {
      context.lastConvModule := Some(self);
    }
    r := Ok(y);
  }

  /** An `nn.Sequential` whose `_conv_mod_inds` is computed on the first step and kept. */
  class SequentialStepper {
    const id: nat
    const modules: seq<Module>
    var convModInds: Option<seq<nat>>

    /** A memoised checkpoint list is the one the modules determine. */
    ghost predicate Valid()
      reads this
    {
      convModInds.Some? ==> convModInds.value == ConvCheckpoints(modules)
    }

    constructor (id: nat, modules: seq<Module>)
      ensures Valid() && convModInds.None?
      ensures this.id == id && this.modules == modules
    {
      this.id := id;
      this.modules := modules;
      convModInds := None;
    }

    function AsModule(): Module {
      Sequential(id, modules)
    }

    /** Runs `modules[lo]`, ..., `modules[hi - 1]` on `x`, one after another. */
    method RunRange(lo: nat, hi: nat, x: Tensor) returns (y: Tensor)
      requires lo <= hi <= |modules|
      ensures y == ApplyRange(modules, lo, hi, x)
    {
      y := x;
      var j := lo;
      while j < hi
        invariant lo <= j <= hi
        invariant y == ApplyRange(modules, lo, j, x)
      {
        assert modules[lo..j + 1] == modules[lo..j] + [modules[j]];
        y := Apply(modules[j], y);
        j := j + 1;
      }
    }

    /** `forward_one_step(self, context, inputs)`. */
    method ForwardOneStep(context: StepContext, inputs: Option<Tensor>) returns (r: Result<Tensor, StepError>)
      requires Valid()
      modifies this, context
      ensures Valid() && convModInds == Some(ConvCheckpoints(modules))
      ensures context.opIndex == old(context.opIndex)
      ensures match ForwardOneStepSpec(AsModule(), old(context.opIndex), old(context.State()), inputs)
        case Ok((y, st')) => r == Ok(y) && context.State() == st'
        case Err(e) => r == Err(e) && context.State() == old(context.State())
    {
      var inds: seq<nat>;
      if convModInds.None? {
        inds := ComputeConvModInds(modules);
        convModInds := Some(inds);
      } else {
        inds := convModInds.value;
      }
      var n := |inds|;
      if n == 0 {
        r := StubForwardOneStep(AsModule(), context, inputs);
        return;
      }
      r := StepWith(inds, context, inputs);
    }

    /** The stepping proper, once the container is known to hold a Conv2d. */
    method StepWith(inds: seq<nat>, context: StepContext, inputs: Option<Tensor>) returns (r: Result<Tensor, StepError>)
      requires inds == ConvCheckpoints(modules) && |inds| > 0
      modifies context
      ensures context.opIndex == old(context.opIndex)
      ensures match StepSpec(modules, old(context.opIndex), old(context.State()), inputs)
        case Ok((y, st')) => r == Ok(y) && context.State() == st'
        case Err(e) => r == Err(e) && context.State() == old(context.State())
    {
      var n := |inds|;
      var opInd := context.opIndex;
      var x: Tensor;
      if inputs.Some? {
        x := inputs.value;
      } else if context.currentOp == [] {
        return Err(EmptyCurrentOp);
      } else {
        x := context.currentOp[|context.currentOp| - 1];
      }
      if opInd < -n {
        return Err(OpIndexOutOfRange);
      }
      if opInd < n {
        x := ConvStepAt(inds, opInd, context, x);
      } else if opInd == n {
        x := TrailingStepAt(inds, context, x);
      }
      r := Ok(x);
    }

    /** Conv step `opInd`: run through checkpoint `opInd`, then record the output and the conv. */
    method ConvStepAt(inds: seq<nat>, opInd: int, context: StepContext, x: Tensor) returns (y: Tensor)
      requires inds == ConvCheckpoints(modules) && -|inds| <= opInd < |inds|
      modifies context
      ensures context.opIndex == old(context.opIndex)
      ensures y == ApplyRange(modules, StepRange(modules, opInd).0, StepRange(modules, opInd).1, x)
      ensures var st := old(context.State());
        var st' := if opInd == |inds| - 1 && inds[|inds| - 1] + 1 == |modules|
          then st.(previousOp := st.previousOp + [y], currentOp := [])
          else st.(currentOp := st.currentOp + [y]);
        context.State() == st'.(lastConv := Some(ConvOf(modules, PyAt(inds, opInd))))
    {
      CheckpointsShape(modules);
      var n := |inds|;
      var lo := if opInd > 0 then inds[opInd - 1] + 1 else 0;
      var ck := PyAt(inds, opInd);
      y := RunRange(lo, ck + 1, x);
      if opInd == n - 1 && inds[n - 1] + 1 == |modules| {
        context.previousOp := context.previousOp + [y];
        context.currentOp := [];
      } else {
        context.currentOp := context.currentOp + [y];
      }
      var lastMod := modules[ck];
      context.lastConvModule := Some(if lastMod.Conv2d? then lastMod else modules[ck - 1]);
    }

    /** Step `num_convs`: run the modules after the last checkpoint and finish the container. */
    method TrailingStepAt(inds: seq<nat>, context: StepContext, x: Tensor) returns (y: Tensor)
      requires inds == ConvCheckpoints(modules) && |inds| > 0
      modifies context
      ensures context.opIndex == old(context.opIndex)
      ensures y == ApplyRange(modules, StepRange(modules, |inds|).0, StepRange(modules, |inds|).1, x)
      ensures context.State() == old(context.State()).(previousOp := old(context.previousOp) + [y], currentOp := [], injectEnabled := false)
    {
      CheckpointsShape(modules);
      y := RunRange(inds[|inds| - 1] + 1, |modules|, x);
      context.previousOp := context.previousOp + [y];
      context.currentOp := [];
      context.FlagInject(false);
    }
  }
}
