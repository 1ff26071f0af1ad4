/**
 * `forward_one_step` (patched onto `nn.Sequential`) and
 * `stub_forward_one_step` (patched onto every other `nn.Module`): a
 * container is run one conv "checkpoint" at a time, and a context object
 * collects the finished outputs (`previous_op`), the outputs of the
 * unfinished container (`current_op`) and the conv that was last run.
 * Tensors are opaque: a tensor records where it came from and the modules
 * applied to it, in order.
 */
module Stepping {
  import opened Wrappers
  import opened Modules

  datatype Tensor = Tensor(origin: nat, applied: seq<Module>)

  /** `m(x)`. */
  function Apply(m: Module, x: Tensor): Tensor {
    Tensor(x.origin, x.applied + [m])
  }

  /** Running `mods[lo]`, ..., `mods[hi - 1]` on `x`, in order. */
  function ApplyRange(mods: seq<Module>, lo: nat, hi: nat, x: Tensor): Tensor
    requires lo <= hi <= |mods|
  {
    Tensor(x.origin, x.applied + mods[lo..hi])
  }

  lemma ApplyRangeChain(mods: seq<Module>, a: nat, b: nat, c: nat, x: Tensor)
    requires a <= b <= c <= |mods|
    ensures ApplyRange(mods, b, c, ApplyRange(mods, a, b, x)) == ApplyRange(mods, a, c, x)
  {
    assert mods[a..b] + mods[b..c] == mods[a..c];
  }

  datatype StepError =
    | MissingInputs       // the assertion of `stub_forward_one_step`: no inputs given
    | EmptyCurrentOp      // `context.current_op[-1]` on an empty list
    | OpIndexOutOfRange   // `_conv_mod_inds[op_ind]` with `op_ind < -num_convs`

  /** The parts of the context the stepping reads and writes. */
  datatype CtxState = CtxState(previousOp: seq<Tensor>, currentOp: seq<Tensor>, lastConv: Option<Module>, injectEnabled: bool)

  /** Python's `s[i]`, negative indices counting from the end. */
  function PyAt(s: seq<nat>, i: int): nat
    requires -|s| <= i < |s|
  {
    if i < 0 then s[|s| + i] else s[i]
  }

  /** The half-open range of module indices that step `opInd` runs. */
  function StepRange(mods: seq<Module>, opInd: int): (range: (nat, nat))
    requires |ConvCheckpoints(mods)| > 0
    requires -|ConvCheckpoints(mods)| <= opInd <= |ConvCheckpoints(mods)|
    ensures range.0 <= range.1 <= |mods|
  {
    CheckpointsShape(mods);
    var inds := ConvCheckpoints(mods);
    var n := |inds|;
    if opInd == n then (inds[n - 1] + 1, |mods|)
    else ((if opInd > 0 then inds[opInd - 1] + 1 else 0), PyAt(inds, opInd) + 1)
  }

  /** `last_conv_module` after a conv step: the checkpoint if it is a conv, else the module before it. */
  function ConvOf(mods: seq<Module>, ck: nat): Module
    requires ck < |mods| && (mods[ck].Conv2d? || ck > 0)
  {
    if mods[ck].Conv2d? then mods[ck] else mods[ck - 1]
  }

  /** The last conv checkpoint is the container's final module. */
  predicate EndsAtCheckpoint(mods: seq<Module>) {
    var inds := ConvCheckpoints(mods);
    |inds| > 0 && inds[|inds| - 1] + 1 == |mods|
  }

  /**
   * `forward_one_step` on a container with at least one Conv2d. It raises
   * only when there is no input to continue from or the step index is below
   * `-num_convs`; `previous_op` only ever grows, by at most one output.
   */
  function StepSpec(mods: seq<Module>, opInd: int, st: CtxState, inputs: Option<Tensor>): (r: Result<(Tensor, CtxState), StepError>)
    requires |ConvCheckpoints(mods)| > 0
    ensures r.Err? <==> (inputs.None? && st.currentOp == []) || opInd < -|ConvCheckpoints(mods)|
    ensures r.Ok? ==> var p := r.value.1.previousOp;
      st.previousOp <= p && |p| <= |st.previousOp| + 1
  {
    CheckpointsShape(mods);
    var inds := ConvCheckpoints(mods);
    var n := |inds|;
    if inputs.None? && st.currentOp == [] then Err(EmptyCurrentOp)
    else
      var x := if inputs.Some? then inputs.value else st.currentOp[|st.currentOp| - 1];
      if opInd < -n then Err(OpIndexOutOfRange)
      else if opInd < n then
        var range := StepRange(mods, opInd);
        var y := ApplyRange(mods, range.0, range.1, x);
        var st' := if opInd == n - 1 && inds[n - 1] + 1 == |mods|
          then st.(previousOp := st.previousOp + [y], currentOp := [])
          else st.(currentOp := st.currentOp + [y]);
        Ok((y, st'.(lastConv := Some(ConvOf(mods, PyAt(inds, opInd))))))
      else if opInd == n then
        var range := StepRange(mods, opInd);
        var y := ApplyRange(mods, range.0, range.1, x);
        Ok((y, st.(previousOp := st.previousOp + [y], currentOp := [], injectEnabled := false)))
      else
        Ok((x, st))
  }

  /** `stub_forward_one_step(self, context, inputs)`. */
  function StubSpec(self: Module, st: CtxState, inputs: Option<Tensor>): (r: Result<(Tensor, CtxState), StepError>)
    ensures r.Err? <==> inputs.None?
    ensures r.Ok? ==> var (y, st') := r.value;
      && y == Apply(self, inputs.value)
      && st' == st.(previousOp := st.previousOp + [y], lastConv := if self.Conv2d? then Some(self) else st.lastConv)
  {
    if inputs.None? then Err(MissingInputs)
    else
      var y := Apply(self, inputs.value);
      Ok((y, st.(previousOp := st.previousOp + [y], lastConv := if self.Conv2d? then Some(self) else st.lastConv)))
  }

  /**
   * `forward_one_step` on a Sequential: a container without Conv2d falls back
   * to the stub, which needs explicit inputs; otherwise a step raises only
   * without an input to continue from or with an index below `-num_convs`.
   */
  function ForwardOneStepSpec(self: Module, opInd: int, st: CtxState, inputs: Option<Tensor>): (r: Result<(Tensor, CtxState), StepError>)
    requires self.Sequential?
    ensures var n := |ConvCheckpoints(self.mods)|;
      r.Err? <==> if n == 0 then inputs.None? else (inputs.None? && st.currentOp == []) || opInd < -n
    ensures r.Ok? ==> st.previousOp <= r.value.1.previousOp
  {
    if |ConvCheckpoints(self.mods)| == 0 then StubSpec(self, st, inputs)
    else StepSpec(self.mods, opInd, st, inputs)
  }

  /** Steps `0 .. c - 1` in a row: step 0 is given `x`, the later ones continue from `current_op[-1]`. */
  function RunSteps(mods: seq<Module>, st: CtxState, x: Tensor, c: nat): Result<(Tensor, CtxState), StepError>
    requires |ConvCheckpoints(mods)| > 0
  {
    if c == 0 then Ok((x, st))
    else
      var prev :- RunSteps(mods, st, x, c - 1);
      StepSpec(mods, c - 1, prev.1, if c == 1 then Some(x) else None)
  }

  /**
   * The step ranges tile the container: step 0 starts at module 0, step `c`
   * ends at checkpoint `c` inclusive, each step starts where the previous one
   * ended, and step `num_convs` ends at the last module. So over steps
   * `0 .. num_convs` every module runs exactly once, in order.
   */
  lemma StepRangesPartition(mods: seq<Module>)
    requires |ConvCheckpoints(mods)| > 0
    ensures var inds, n := ConvCheckpoints(mods), |ConvCheckpoints(mods)|;
      && StepRange(mods, 0).0 == 0
      && StepRange(mods, n).1 == |mods|
      && (forall c :: 0 <= c < n ==> StepRange(mods, c).1 == inds[c] + 1)
      && (forall c :: 0 <= c < n ==> StepRange(mods, c + 1).0 == StepRange(mods, c).1)
  {
  }

  /** The range of conv step `c`: from just after checkpoint `c - 1` (or 0) through checkpoint `c`. */
  lemma StepRangeAt(mods: seq<Module>, c: nat)
    requires c < |ConvCheckpoints(mods)|
    ensures var inds := ConvCheckpoints(mods);
      StepRange(mods, c) == (if c == 0 then 0 else inds[c - 1] + 1, inds[c] + 1)
  {
  }

  /** After conv step `c` the context's last conv is the `c`-th Conv2d of the container. */
  lemma ConvOfCheckpoint(mods: seq<Module>, c: nat)
    requires c < |ConvCheckpoints(mods)|
    ensures ConvOf(mods, ConvCheckpoints(mods)[c]) == mods[ConvPositions(mods)[c]]
    ensures mods[ConvPositions(mods)[c]].Conv2d?
  {
    CheckpointsShape(mods);
  }

  /** The input a step works on: the given tensor, else the last entry of `current_op`. */
  function StepInput(st: CtxState, inputs: Option<Tensor>): Tensor
    requires inputs.Some? || st.currentOp != []
  {
    if inputs.Some? then inputs.value else st.currentOp[|st.currentOp| - 1]
  }

  /** A conv step that does not finish the container appends its output to `current_op`. */
  lemma ConvStep(mods: seq<Module>, c: nat, st: CtxState, inputs: Option<Tensor>)
    requires c < |ConvCheckpoints(mods)|
    requires c < |ConvCheckpoints(mods)| - 1 || !EndsAtCheckpoint(mods)
    requires inputs.Some? || st.currentOp != []
    ensures var y := ApplyRange(mods, StepRange(mods, c).0, StepRange(mods, c).1, StepInput(st, inputs));
      StepSpec(mods, c, st, inputs) ==
        Ok((y, st.(currentOp := st.currentOp + [y], lastConv := Some(mods[ConvPositions(mods)[c]]))))
  {
    ConvOfCheckpoint(mods, c);
  }

  /** The last conv step of a container that ends at its last checkpoint finishes it. */
  lemma FinishingConvStep(mods: seq<Module>, st: CtxState, inputs: Option<Tensor>)
    requires EndsAtCheckpoint(mods)
    requires inputs.Some? || st.currentOp != []
    ensures var c := |ConvCheckpoints(mods)| - 1;
      var y := ApplyRange(mods, StepRange(mods, c).0, StepRange(mods, c).1, StepInput(st, inputs));
      StepSpec(mods, c, st, inputs) ==
        Ok((y, st.(previousOp := st.previousOp + [y], currentOp := [], lastConv := Some(mods[ConvPositions(mods)[c]]))))
  {
    ConvOfCheckpoint(mods, |ConvCheckpoints(mods)| - 1);
  }

  /** Step `num_convs` runs the trailing modules and finishes the container. */
  lemma TrailingStep(mods: seq<Module>, st: CtxState, inputs: Option<Tensor>)
    requires |ConvCheckpoints(mods)| > 0
    requires inputs.Some? || st.currentOp != []
    ensures var n := |ConvCheckpoints(mods)|;
      var y := ApplyRange(mods, StepRange(mods, n).0, StepRange(mods, n).1, StepInput(st, inputs));
      StepSpec(mods, n, st, inputs) ==
        Ok((y, st.(previousOp := st.previousOp + [y], currentOp := [], injectEnabled := false)))
  {
  }

  /**
   * The state after steps `0 .. c - 1`: the modules up to checkpoint `c - 1`
   * applied to `x`, that output last in `current_op`, `previous_op` and the
   * injection flag untouched and the `c`-th conv recorded.
   */
  predicate AfterSteps(mods: seq<Module>, st: CtxState, x: Tensor, c: nat, r: (Tensor, CtxState))
    requires 1 <= c <= |ConvCheckpoints(mods)|
  {
    var (y, s) := r;
    && y == ApplyRange(mods, 0, ConvCheckpoints(mods)[c - 1] + 1, x)
    && s.previousOp == st.previousOp
    && s.currentOp != [] && s.currentOp[|s.currentOp| - 1] == y
    && s.injectEnabled == st.injectEnabled
    && s.lastConv == Some(mods[ConvPositions(mods)[c - 1]])
  }

  lemma FirstStep(mods: seq<Module>, st: CtxState, x: Tensor)
    requires |ConvCheckpoints(mods)| > 1 || (|ConvCheckpoints(mods)| == 1 && !EndsAtCheckpoint(mods))
    ensures RunSteps(mods, st, x, 1).Ok? && AfterSteps(mods, st, x, 1, RunSteps(mods, st, x, 1).value)
  {
    assert RunSteps(mods, st, x, 0) == Ok((x, st));
    ConvStep(mods, 0, st, Some(x));
    StepRangeAt(mods, 0);
  }

  lemma NextStep(mods: seq<Module>, st: CtxState, x: Tensor, c: nat, prev: (Tensor, CtxState))
    requires 2 <= c <= |ConvCheckpoints(mods)|
    requires c < |ConvCheckpoints(mods)| || !EndsAtCheckpoint(mods)
    requires AfterSteps(mods, st, x, c - 1, prev)
    ensures StepSpec(mods, c - 1, prev.1, None).Ok?
    ensures AfterSteps(mods, st, x, c, StepSpec(mods, c - 1, prev.1, None).value)
  {
    var inds, s := ConvCheckpoints(mods), prev.1;
    ConvStep(mods, c - 1, s, None);
    StepRangeAt(mods, c - 1);
    ApplyRangeChain(mods, 0, inds[c - 2] + 1, inds[c - 1] + 1, x);
    var y := ApplyRange(mods, 0, inds[c - 1] + 1, x);
    assert StepInput(s, None) == prev.0;
    assert StepSpec(mods, c - 1, s, None) ==
      Ok((y, s.(currentOp := s.currentOp + [y], lastConv := Some(mods[ConvPositions(mods)[c - 1]]))));
  }

  /** Running steps `0 .. c - 1`, short of a step that finishes the container, reaches `AfterSteps`. */
  lemma {:induction false} RunStepsPrefix(mods: seq<Module>, st: CtxState, x: Tensor, c: nat)
    requires 1 <= c <= |ConvCheckpoints(mods)|
    requires c < |ConvCheckpoints(mods)| || !EndsAtCheckpoint(mods)
    ensures RunSteps(mods, st, x, c).Ok? && AfterSteps(mods, st, x, c, RunSteps(mods, st, x, c).value)
  {
    if c == 1 {
      FirstStep(mods, st, x);
    } else {
      RunStepsPrefix(mods, st, x, c - 1);
      var prev := RunSteps(mods, st, x, c - 1).value;
      assert RunSteps(mods, st, x, c) == StepSpec(mods, c - 1, prev.1, None);
      NextStep(mods, st, x, c, prev);
    }
  }

  /** The trailing step after all conv steps of a container that does not end at a checkpoint. */
  lemma LastStep(mods: seq<Module>, st: CtxState, x: Tensor, prev: (Tensor, CtxState))
    requires |ConvCheckpoints(mods)| > 0 && !EndsAtCheckpoint(mods)
    requires AfterSteps(mods, st, x, |ConvCheckpoints(mods)|, prev)
    ensures var n, y := |ConvCheckpoints(mods)|, ApplyRange(mods, 0, |mods|, x);
      StepSpec(mods, n, prev.1, None) ==
        Ok((y, CtxState(st.previousOp + [y], [], Some(mods[ConvPositions(mods)[n - 1]]), false)))
  {
    var inds, n := ConvCheckpoints(mods), |ConvCheckpoints(mods)|;
    TrailingStep(mods, prev.1, None);
    assert StepRange(mods, n) == (inds[n - 1] + 1, |mods|);
    ApplyRangeChain(mods, 0, inds[n - 1] + 1, |mods|, x);
  }

  /** The finishing conv step of a container that ends at its last checkpoint, after the earlier steps. */
  lemma FinishAfterSteps(mods: seq<Module>, st: CtxState, x: Tensor, prev: (Tensor, CtxState))
    requires EndsAtCheckpoint(mods) && |ConvCheckpoints(mods)| >= 2
    requires AfterSteps(mods, st, x, |ConvCheckpoints(mods)| - 1, prev)
    ensures var n, y := |ConvCheckpoints(mods)|, ApplyRange(mods, 0, |mods|, x);
      StepSpec(mods, n - 1, prev.1, None) ==
        Ok((y, CtxState(st.previousOp + [y], [], Some(mods[ConvPositions(mods)[n - 1]]), st.injectEnabled)))
  {
    var inds, n := ConvCheckpoints(mods), |ConvCheckpoints(mods)|;
    FinishingConvStep(mods, prev.1, None);
    StepRangeAt(mods, n - 1);
    ApplyRangeChain(mods, 0, inds[n - 2] + 1, |mods|, x);
  }

  /** The single conv step of a container with one checkpoint, its last module. */
  lemma FinishFirst(mods: seq<Module>, st: CtxState, x: Tensor)
    requires EndsAtCheckpoint(mods) && |ConvCheckpoints(mods)| == 1
    ensures var y := ApplyRange(mods, 0, |mods|, x);
      StepSpec(mods, 0, st, Some(x)) ==
        Ok((y, CtxState(st.previousOp + [y], [], Some(mods[ConvPositions(mods)[0]]), st.injectEnabled)))
  {
    FinishingConvStep(mods, st, Some(x));
    StepRangeAt(mods, 0);
  }

  /**
   * A container whose last module is not a checkpoint: steps `0 .. num_convs`
   * run every module once, in order, hand the result to `previous_op`, clear
   * `current_op`, record the last conv and switch injection off.
   */
  lemma RunAllSteps(mods: seq<Module>, st: CtxState, x: Tensor)
    requires |ConvCheckpoints(mods)| > 0 && !EndsAtCheckpoint(mods)
    ensures var n, y := |ConvCheckpoints(mods)|, ApplyRange(mods, 0, |mods|, x);
      && RunSteps(mods, st, x, n + 1) ==
           Ok((y, CtxState(st.previousOp + [y], [], Some(mods[ConvPositions(mods)[n - 1]]), false)))
  {
    var n := |ConvCheckpoints(mods)|;
    RunStepsPrefix(mods, st, x, n);
    var prev := RunSteps(mods, st, x, n).value;
    assert RunSteps(mods, st, x, n + 1) == StepSpec(mods, n, prev.1, None);
    LastStep(mods, st, x, prev);
  }

  /**
   * A container that ends at its last checkpoint (Conv2d, BatchNorm2d last):
   * step `num_convs - 1` already finishes it, and a further step that
   * continues from `current_op` raises, since `current_op` is then empty.
   */
  lemma RunAllStepsEndingAtCheckpoint(mods: seq<Module>, st: CtxState, x: Tensor)
    requires EndsAtCheckpoint(mods)
    ensures var n, y := |ConvCheckpoints(mods)|, ApplyRange(mods, 0, |mods|, x);
      && RunSteps(mods, st, x, n) ==
           Ok((y, CtxState(st.previousOp + [y], [], Some(mods[ConvPositions(mods)[n - 1]]), st.injectEnabled)))
      && RunSteps(mods, st, x, n + 1) == Err(EmptyCurrentOp)
  {
    var n := |ConvCheckpoints(mods)|;
    if n == 1 {
      assert RunSteps(mods, st, x, 0) == Ok((x, st));
      assert RunSteps(mods, st, x, 1) == StepSpec(mods, 0, st, Some(x));
      FinishFirst(mods, st, x);
    } else {
      RunStepsPrefix(mods, st, x, n - 1);
      var prev := RunSteps(mods, st, x, n - 1).value;
      assert RunSteps(mods, st, x, n) == StepSpec(mods, n - 1, prev.1, None);
      FinishAfterSteps(mods, st, x, prev);
    }
    var fin := RunSteps(mods, st, x, n).value;
    assert RunSteps(mods, st, x, n + 1) == StepSpec(mods, n, fin.1, None);
  }

  /** A step index past `num_convs` runs nothing and leaves the context as it was. */
  lemma StepPastEnd(mods: seq<Module>, opInd: int, st: CtxState, x: Tensor)
    requires |ConvCheckpoints(mods)| > 0 && opInd > |ConvCheckpoints(mods)|
    ensures StepSpec(mods, opInd, st, Some(x)) == Ok((x, st))
    ensures st.currentOp != [] ==> StepSpec(mods, opInd, st, None) == Ok((st.currentOp[|st.currentOp| - 1], st))
  {
  }
}
