# aw_nas comparator and one-step operator library, in Dafny

This project models two parts of aw_nas, a neural-architecture-search toolkit.

The first part is the GCN architecture comparator (`GCNComparator`). It encodes each cell of a cell-based
architecture as a feature matrix (`get_x`) and a sparse adjacency matrix (`get_adj`). Two graph
convolutions run over each cell. Each cell is pooled over its non-input nodes, the two cell vectors are
concatenated, and a linear head produces a score. The scores of two architectures then give a ranking
(`compare`) and a margin-ranking loss (`pairwise_loss`).

The second part is the core of the operator library:
- the primitive registry (`register_primitive`, `get_op`)
- the step-by-step forwarding of an `nn.Sequential` through its convolutions (`forward_one_step`, `stub_forward_one_step`)
- the induction of a module's last convolution (`get_last_conv_module`)
- the channel, padding and shape arithmetic of `FactorizedReduce`

Modules:

| module | file | what it holds |
|---|---|---|
| `Wrappers` | wrappers.dfy | `Result` and `Option` |
| `Arith` | arith.dfy | small facts about integer division by a block size and about multiples |
| `Matrix` | matrix.dfy | count matrices, COO triples, densifying (duplicates summed), coalesced conversion and its round trip |
| `Adjacency` | adjacency.dfy | `get_adj` and the sparse-tensor conversion; the destination-node lists as written and corrected |
| `Features` | features.dfy | `get_x`: the parity split loop and the row layout |
| `Ranking` | ranking.dfy | the rule of `compare` and the hinge loss of `pairwise_loss` on scores |
| `Scoring` | scoring.dfy | `arch_scoring`, `compare` and `pairwise_loss` on architectures, over an abstract learned scorer |
| `Registry` | registry.dfy | `PRIMITVE_FACTORY` as a map and as a class updated in place |
| `Modules` | modules.dfy | the module tree as tags; the `_conv_mod_inds` loop; `get_last_conv_module` |
| `Stepping` | stepping.dfy | value-level specification of one step and of a full run of steps |
| `Forward` | forward.dfy | the mutable step context and a Sequential that memoises its checkpoints, each method tied to `Stepping` |
| `Reduce` | reduce.dfy | `FactorizedReduce`: derived fields, padding, branch output sizes, concatenation check, module tree |

The learned layers are abstract. A `Scorer` value supplies the two graph-convolution rounds, with their
parameters and dropout mask fixed, as one function. It also supplies `score_fc` as a function from the
concatenated vector to a real score. Tensors in the stepping model are symbolic traces: which module was
applied to what. A `FactorizedReduce` is modelled by its shapes only.

Where the code does something a reader might not expect, the model follows the code:
- The adjacency entries are edge counts, with duplicate edges summed. `adj.multiply(adj > 0)` keeps the
  counts rather than turning them into a 0/1 mask (`Adjacency.Mask`, `Adjacency.BuildAdjCounts`).
- The `x_hidden` projection is applied to the two input-node rows as well as to the operator rows
  (`Features.FeatureRowsLayout`).
- The destination nodes of `get_adj` start at node 0, so the length check rejects every cell of the
  search space. This is recorded under "## Findings", and `compare` and `pairwise_loss` are modelled on
  the corrected scoring.

## Model

| member | source | states |
|---|---|---|
| Matrix.ToCooRoundTrip | aw_nas/evaluator/comparator.py:19-26 | the COO triples of a count matrix lie inside it, and densifying them, with duplicate coordinates summed, gives the matrix back |
| Matrix.DensifyAt | aw_nas/evaluator/comparator.py:129 | entry (r, c) of the matrix built from triples is the sum of the values stored at (r, c) |
| Matrix.DensifyTotal | aw_nas/evaluator/comparator.py:129 | the dense matrix sums to the sum of the triples' values |
| Matrix.DensifyRowSum | aw_nas/evaluator/comparator.py:129 | each row of the dense matrix sums to the values stored in that row |
| Matrix.ToCoo | aw_nas/evaluator/comparator.py:21-24 | the conversion yields coalesced triples: strictly increasing in row-major order, no stored zero, all inside the matrix |
| Adjacency.BuildAdj | aw_nas/evaluator/comparator.py:119-133 | a tensor is built only from one in-range predecessor per destination slot: `(num_node - lo) * k` of them; it is `num_node` square |
| Adjacency.GetAdj | aw_nas/evaluator/comparator.py:119-133 | as written, a tensor is built only from `num_node * k` predecessors |
| Adjacency.GetCellAdj | aw_nas/evaluator/comparator.py:127 | with the destinations offset past the `k` input nodes, a tensor is built only from `(num_node - k) * k` predecessors |
| Adjacency.Repeat | aw_nas/evaluator/comparator.py:127 | `np.repeat(range(lo, n), k)` has `(n - lo) * k` elements, each a node index in `[lo, n)` |
| Adjacency.RepeatAt | aw_nas/evaluator/comparator.py:127 | position i of the repeated node list holds `lo + i / k` |
| Adjacency.RepeatCount | aw_nas/evaluator/comparator.py:127 | every node in `[lo, n)` occurs exactly k times in the repeated list, and no other node occurs |
| Adjacency.Mask | aw_nas/evaluator/comparator.py:130 | multiplying a count matrix by its positivity mask leaves it unchanged |
| Adjacency.BuildAdjDefinedIff | aw_nas/evaluator/comparator.py:126-129 | the sparse constructor succeeds iff there is one predecessor per destination slot and each is a node index; a wrong length is the error reported |
| Adjacency.BuildAdjCounts | aw_nas/evaluator/comparator.py:126-133 | the tensor is `num_node` square, coalesced and in bounds; entry (t, f) counts the edge slots that send f into t; no transpose is added |
| Adjacency.BuildAdjSums | aw_nas/evaluator/comparator.py:126-133 | all entries sum to the number of predecessors; every destination row sums to k; rows before the first destination are empty |
| Adjacency.GetAdjNotSymmetric | aw_nas/evaluator/comparator.py:130-132 | for the predecessor list `[1, 1]` on two nodes, the edge 1 -> 0 is stored at (0, 1) and not mirrored at (1, 0) |
| Features.FeatureRows | aw_nas/evaluator/comparator.py:97-117 | the feature matrix exists only for an even, nonempty list of known operator ids, and then has `2 + n/2` rows |
| Features.ParityAt | aw_nas/evaluator/comparator.py:100-106 | `op0_list` holds the even positions and `op1_list` the odd ones, in order, with lengths `ceil(n/2)` and `floor(n/2)` |
| Features.ParityPermutation | aw_nas/evaluator/comparator.py:100-106 | the two lists together are a permutation of the operator list |
| Features.SplitByParity | aw_nas/evaluator/comparator.py:100-106 | the appending loop yields exactly the even-position and odd-position sublists |
| Features.FeatureRowsSizeCheck | aw_nas/evaluator/comparator.py:107-113 | the size assertion fails iff the operator list has odd length; encoding succeeds iff the length is even and nonzero and every id indexes the embedding table |
| Features.FeatureRowsLayout | aw_nas/evaluator/comparator.py:108-116 | the feature matrix has `2 + n/2` rows: the two input-node embeddings, then one row per node pairing `ops[2j]` with `ops[2j+1]`; every row goes through `x_hidden` |
| Features.GetX | aw_nas/evaluator/comparator.py:97-117 | `get_x` computes the feature rows, or the error, that `FeatureRows` specifies |
| Ranking.CompareScores | aw_nas/evaluator/comparator.py:57 | the verdict is 0 or 1, and 1 exactly when the first score is strictly greater |
| Ranking.HingeLoss | aw_nas/evaluator/comparator.py:59-66 | the loss is never negative; it is zero iff the preferred score leads by at least the margin; it is never below the shortfall |
| Ranking.CompareIsStrict | aw_nas/evaluator/comparator.py:57 | compare gives 1 iff the first score is strictly greater, and 0 on ties |
| Ranking.CompareAntisymmetric | aw_nas/evaluator/comparator.py:57 | two scores never both win, and unequal scores give exactly one winner |
| Ranking.CompareTransitive | aw_nas/evaluator/comparator.py:57 | winning is transitive |
| Ranking.HingeLossLabelFlip | aw_nas/evaluator/comparator.py:62-65 | the loss with `better` true equals the loss on the swapped pair with `better` false |
| Ranking.HingeLossMonotone | aw_nas/evaluator/comparator.py:63 | raising the preferred score never raises the loss |
| Ranking.ZeroLossAgreesWithCompare | aw_nas/evaluator/comparator.py:57-66 | with a positive margin, a zero loss means compare ranks the preferred architecture first |
| Ranking.DefaultMarginZeroLoss | aw_nas/evaluator/comparator.py:59-66 | with the default margin 0.01, a zero loss means the preferred score leads by at least 0.01, so compare ranks it first |
| Scoring.ArchScoringAsWritten | aw_nas/evaluator/comparator.py:68-94 | as written, a score exists only when each cell has `(num_steps + k) * k` predecessors |
| Scoring.ArchScoring | aw_nas/evaluator/comparator.py:68-94 | with the destination offset, a score exists only when each cell has `num_steps * k` predecessors |
| Scoring.Compare | aw_nas/evaluator/comparator.py:53-57 | over the corrected scoring: fails iff either architecture cannot be scored; otherwise 0 or 1, and 1 exactly when the first architecture scores strictly higher |
| Scoring.PairwiseLoss | aw_nas/evaluator/comparator.py:59-66 | over the corrected scoring: fails iff either architecture cannot be scored; otherwise never negative, and zero exactly when the preferred architecture leads by at least the margin |
| Scoring.PoolCell | aw_nas/evaluator/comparator.py:82-89 | `torch.mean(x[2:], dim=0)`: one column mean per output feature, `gcn_out_dim` wide, over the rows after the two input nodes |
| Scoring.Embed | aw_nas/evaluator/comparator.py:79-89 | the graph convolutions and pooling of one cell succeed iff the adjacency's own size equals the number of feature rows (the `spmm` shape check) and there is a non-input row to pool; the pooled vector is `gcn_out_dim` wide. An empty pool, NaN in the source, is modelled as an error; `get_x` never produces one, since its rows number at least three |
| Scoring.PoolCellConstant | aw_nas/evaluator/comparator.py:82-83 | mean pooling over the non-input rows returns v when every non-input row is v; the two input rows are dropped |
| Scoring.CellAcceptedAsWrittenIff | aw_nas/evaluator/comparator.py:75-81 | a cell encodes and propagates under the code as written iff its operators encode and it has `(num_steps + k) * k` in-range predecessors |
| Scoring.CellAcceptedIff | aw_nas/evaluator/comparator.py:75-81 | with the destination offset, a cell is accepted iff its operators encode and it has `num_steps * k` in-range predecessors |
| Scoring.ArchScoringAsWrittenDefinedIff | aw_nas/evaluator/comparator.py:68-94 | `arch_scoring` as written yields a score iff both cells are accepted by it, and raises otherwise |
| Scoring.ArchScoringDefinedIff | aw_nas/evaluator/comparator.py:68-94 | the corrected scoring yields a score iff both cells are accepted |
| Scoring.WellFormedCellRejected | aw_nas/evaluator/comparator.py:76-78 | with `k > 0`, an architecture with a search-space cell of `num_steps * k` predecessors always raises under the code as written |
| Scoring.WellFormedArchScored | aw_nas/evaluator/comparator.py:68-94 | with the offset, every architecture of two-input cells with in-range predecessors and operators is scored |
| Scoring.ExampleArchitecture | aw_nas/evaluator/comparator.py:76 | a concrete two-step architecture is scored by the corrected version and rejected with a length error as written |
| Scoring.ConcatNormalFirst | aw_nas/evaluator/comparator.py:72-94 | a successful score is `score_fc` of the pooled normal-cell vector followed by the pooled reduce-cell vector, each `gcn_out_dim` wide and computed with the same parameters |
| Scoring.SharedParameters | aw_nas/evaluator/comparator.py:79-93 | as with `training=False`: both cells go through the same parameters: an architecture whose two cells are equal hands `score_fc` one vector twice |
| Scoring.CompareArchAntisymmetric | aw_nas/evaluator/comparator.py:53-57 | as with `training=False`, over the corrected scoring: compare on architectures fails symmetrically, never lets both win, and has exactly one winner when the scores differ |
| Scoring.PairwiseLossLabelFlip | aw_nas/evaluator/comparator.py:59-66 | `pairwise_loss(a, b, True) == pairwise_loss(b, a, False)`, and it is never negative |
| Registry.Register | aw_nas/ops/ops.py:95-100 | registration fails iff the name is taken and `override` is false; otherwise the name maps to `func` and every other entry is unchanged |
| Registry.Lookup | aw_nas/ops/ops.py:102-105 | lookup succeeds iff the name is registered, and returns its factory |
| Registry.LookupAfterRegister | aw_nas/ops/ops.py:95-105 | after a successful registration the name gives the new factory and every other name gives what it gave before |
| Registry.RegisterKeepsNames | aw_nas/ops/ops.py:95-100 | registration never removes a name |
| Registry.PrimitiveRegistry.constructor | aw_nas/ops/ops.py:30-93 | the table holds exactly the 31 builtin primitive names |
| Registry.PrimitiveRegistry.RegisterPrimitive | aw_nas/ops/ops.py:95-100 | the table is updated in place as `Register` specifies, and left unchanged on refusal |
| Registry.PrimitiveRegistry.GetOp | aw_nas/ops/ops.py:102-105 | returns what `Lookup` specifies |
| Registry.RegisterBuiltinWithoutOverride | aw_nas/ops/ops.py:30-100 | a builtin name cannot be registered again without `override` |
| Modules.GetLastConvModule | aw_nas/ops/ops.py:296-314 | a Conv2d, BatchNorm2d or Sequential never raises; only a module without the attribute and with children can raise; without explicit attributes, whatever is induced is a Conv2d |
| Modules.ConvPositionsUpTo | aw_nas/ops/ops.py:246-247 | the Conv2d positions before i, strictly increasing, each a Conv2d |
| Modules.ConvPositionsComplete | aw_nas/ops/ops.py:246-247 | no Conv2d before i is left out of the positions |
| Modules.CheckpointsUpTo | aw_nas/ops/ops.py:246-251 | one checkpoint per Conv2d, the BatchNorm2d right after it when there is one |
| Modules.CheckpointsShape | aw_nas/ops/ops.py:242-252 | the checkpoints are strictly increasing and inside the container; each is a Conv2d or the BatchNorm2d just after one |
| Modules.ComputeConvModInds | aw_nas/ops/ops.py:242-252 | the memoising loop computes exactly `ConvCheckpoints` |
| Modules.LastConvBefore | aw_nas/ops/ops.py:304-307 | the reversed scan finds no index iff no Conv2d precedes i; otherwise the index of a Conv2d with no Conv2d after it |
| Modules.LastConvIn | aw_nas/ops/ops.py:303-307 | the reversed scan returns None iff there is no Conv2d child, else the last Conv2d child |
| Modules.InducedLastConvIsOwnConv | aw_nas/ops/ops.py:296-314 | without explicit attributes, an induced last conv is a Conv2d inside the module's own tree |
| Stepping.StepSpec | aw_nas/ops/ops.py:256-283 | on a container with a Conv2d, a step raises iff there is no input to continue from or the index is below `-num_convs`; `previous_op` only grows, by at most one output |
| Stepping.ForwardOneStepSpec | aw_nas/ops/ops.py:238-291 | a container without Conv2d takes the stub, which raises iff no inputs are given; otherwise as `StepSpec`; `previous_op` only grows |
| Stepping.StubSpec | aw_nas/ops/ops.py:285-291 | the stub fails iff no inputs are given; otherwise it applies the module, appends to `previous_op`, and records the module as last conv iff it is a Conv2d |
| Stepping.StepRangesPartition | aw_nas/ops/ops.py:261-277 | the step ranges tile the container: each step starts where the last ended, from module 0 to the last module |
| Stepping.StepRangeAt | aw_nas/ops/ops.py:262-263 | conv step c runs from just after checkpoint c - 1 (or 0) through checkpoint c |
| Stepping.ConvOfCheckpoint | aw_nas/ops/ops.py:272-274 | after conv step c the recorded last conv is the c-th Conv2d of the container |
| Stepping.ConvStep | aw_nas/ops/ops.py:261-274 | a conv step that does not finish the container appends its output to `current_op` and records its conv |
| Stepping.FinishingConvStep | aw_nas/ops/ops.py:266-269 | the last conv step of a container ending at a checkpoint moves its output to `previous_op` and clears `current_op` |
| Stepping.TrailingStep | aw_nas/ops/ops.py:275-280 | step `num_convs` runs the trailing modules, moves the output to `previous_op`, clears `current_op`, and turns injection off |
| Stepping.RunStepsPrefix | aw_nas/ops/ops.py:257-274 | the steps before the finishing one chain: the output is the container prefix through checkpoint c - 1, applied to the input |
| Stepping.RunAllSteps | aw_nas/ops/ops.py:238-283 | for a container whose last module is not its last checkpoint (otherwise see `RunAllStepsEndingAtCheckpoint`): steps 0 to `num_convs` run every module exactly once, in order; the output goes to `previous_op`, `current_op` is cleared, the last conv is recorded, and injection is off |
| Stepping.RunAllStepsEndingAtCheckpoint | aw_nas/ops/ops.py:266-283 | when the container ends at its last checkpoint, step `num_convs - 1` already finishes it, and a further step raises on the empty `current_op` |
| Stepping.StepPastEnd | aw_nas/ops/ops.py:281-283 | a step index past `num_convs` runs nothing and leaves the context unchanged |
| Forward.StepContext.constructor | aw_nas/ops/ops.py:257-259 | a fresh context: empty op lists, no last conv, injection on |
| Forward.StepContext.FlagInject | aw_nas/ops/ops.py:280 | sets only the injection flag |
| Forward.StubForwardOneStep | aw_nas/ops/ops.py:285-291 | the context and result change as `StubSpec` specifies, and the context is unchanged on error |
| Forward.SequentialStepper.constructor | aw_nas/ops/ops.py:242 | a new container has no memoised checkpoints |
| Forward.SequentialStepper.RunRange | aw_nas/ops/ops.py:262-265 | the loop applies modules lo to hi - 1 in order |
| Forward.SequentialStepper.ForwardOneStep | aw_nas/ops/ops.py:238-283 | memoises the checkpoints the modules determine; result and new context are as `ForwardOneStepSpec` specifies; the context is unchanged on error; a container without Conv2d falls back to the stub |
| Forward.SequentialStepper.StepWith | aw_nas/ops/ops.py:256-283 | once the container has a Conv2d, the step is as `StepSpec` specifies |
| Forward.SequentialStepper.ConvStepAt | aw_nas/ops/ops.py:261-274 | runs the step's range; the new context is `current_op` extended, or `previous_op` extended and `current_op` cleared when the step finishes the container; the checkpoint's conv is recorded |
| Forward.SequentialStepper.TrailingStepAt | aw_nas/ops/ops.py:275-280 | runs the modules after the last checkpoint, moves the output to `previous_op`, clears `current_op`, and turns injection off |
| Reduce.TruncHalf | aw_nas/ops/ops.py:122 | `int(v / 2)` halves v, truncating toward zero on both signs |
| Reduce.ConvPadding | aw_nas/ops/ops.py:122 | the padding is `(k - 1) / 2` for an odd kernel, one short of half for an even kernel, and 0 for a zero kernel |
| Reduce.NewFactorizedReduce | aw_nas/ops/ops.py:117-126 | construction fails iff the stride is 0; otherwise `group_dim = C_out // stride`, the padding is derived, and the arguments are kept |
| Reduce.OutChannels | aw_nas/ops/ops.py:120-129 | the branches give `stride * group_dim` channels: at most `C_out`, less than one stride short of it, and equal to it iff the stride divides `C_out` |
| Reduce.PadAmount | aw_nas/ops/ops.py:138-141 | the pad is less than the stride, makes the height a multiple of the stride, and is 0 iff the height already is one |
| Reduce.PadAmountLeast | aw_nas/ops/ops.py:138-141 | no smaller pad would make the height a multiple of the stride |
| Reduce.ConvOutSize | aw_nas/ops/ops.py:123-124 | PyTorch's `Conv2d` output-size formula for the branch convs built here: an output exists iff the kernel is positive and fits in the padded input |
| Reduce.ConvOutSizeWindows | aw_nas/ops/ops.py:123-124 | the output size counts kernel windows: the last fits in the padded input, one more stride would not |
| Reduce.BranchSizes | aw_nas/ops/ops.py:142 | one output size per branch, branch i reading the input shifted by i |
| Reduce.Forward | aw_nas/ops/ops.py:136-144 | a successful forward has `C_out` channels, a stride that divides `C_out`, and a positive `group_dim` (no branch conv without output channels) |
| Reduce.BranchSizeIs | aw_nas/ops/ops.py:142 | branch i outputs q + 1 when its windows span q strides of the shifted, padded input |
| Reduce.BranchesAgree | aw_nas/ops/ops.py:138-142 | with an odd kernel, every branch maps a positive multiple of the stride to `padded / stride` |
| Reduce.PaddedDivIsCeil | aw_nas/ops/ops.py:138-141 | padding up to a multiple and dividing is the ceiling of the division |
| Reduce.ForwardSquare | aw_nas/ops/ops.py:136-144 | with a square input of `C_in` channels and an odd kernel, forward succeeds iff the stride divides `C_out` and `C_out` is positive, and gives `C_out x ceil(H/s) x ceil(H/s)` |
| Reduce.ForwardConcatFails | aw_nas/ops/ops.py:142 | with `C_in` channels and a positive `group_dim`, branches that all fit but disagree in size fail at the concatenation |
| Reduce.NonSquareInputMismatch | aw_nas/ops/ops.py:138-142 | with `C_in` channels, an odd kernel, a stride of at least 2 and at most `C_out`, and a height that is a multiple of the stride and at least twice it: the pad is computed from the height alone, so an input one column narrower than it is high fails at the concatenation |
| Reduce.EvenKernelMismatch | aw_nas/ops/ops.py:122-142 | for a square input with `C_in` channels, a stride of at least 2 and at most `C_out`, and a height that is a multiple of the stride and at least twice it: with a positive even kernel the truncated padding makes the first and last branches disagree, and the concatenation fails |
| Reduce.ReduceTree | aw_nas/ops/ops.py:116-134 | the module tree has three children, `convs` being a list of `stride` Conv2d, and the explicit `last_conv_module` attribute is the last of them |
| Reduce.ReduceLastConv | aw_nas/ops/ops.py:134 | the explicit attribute makes `get_last_conv_module` the last branch conv, a module of its own tree; without it induction raises, since the module has three children |

## Findings

| source | as written | input that shows it | evidently intended | confidence | as-written member | corrected member |
|---|---|---|---|---|---|---|
| aw_nas/evaluator/comparator.py:76-78,127 | `get_adj` is called with `num_node = num_steps + num_node_inputs`, and its destinations are `np.repeat(range(num_node), k)`. It therefore expects `(num_steps + k) * k` predecessors and routes slot i into node `i / k`, which is an input node. | `num_steps = 2`, `num_node_inputs = 2`, five primitives, normal cell `([0, 1, 0, 1], [2, 3, 0, 4])`, reduce cell `([1, 0, 1, 0], [1, 1, 2, 2])`: four predecessors where eight are expected, so `coo_matrix` raises | destinations `np.repeat(range(k, num_node), k)`: slot i goes into computed node `k + i / k`, and a cell of `num_steps * k` predecessors is accepted | not executed | Scoring.WellFormedCellRejected, Scoring.ExampleArchitecture (over Adjacency.GetAdj) | Scoring.WellFormedArchScored, Scoring.ArchScoringDefinedIff (over Adjacency.GetCellAdj) |

## Left out

- Floating-point arithmetic is not modelled. The graph convolutions (`GraphConvolution`), the embedding tables, `x_hidden`, `score_fc` and dropout make up the abstract `Scorer`. Scores are mathematical reals; NaN and rounding are not captured.
- Dropout randomness and the `training` flag are folded into the `Scorer` function, which fixes one mask for both cells and every call. Scoring.SharedParameters and Scoring.CompareArchAntisymmetric therefore hold as with `training=False` (or `dropout=0`). In the default training mode, comparator.py:80 and :86 draw a fresh mask per cell and per call, so two equal cells can reach `score_fc` as different vectors, and `compare(a, b)` and `compare(b, a)` can both return 1.
- `update` is not modelled: the backward pass and the optimizer step are autograd and I/O.
- The `print(arch)` in `get_adj` is output only and is left out.
- `get_variable` and device placement are left out: every list reaches the embeddings unchanged. An empty list becoming a float tensor is modelled as the `NonIntegerIndex` error.
- Adjacency entries are natural-number counts rather than float32 values.
- The sparse tensor's `int64` indices are not modelled.
- The `assert callable(func)` of `register_primitive` is left out. Factories are values of a type parameter, so every one is callable.
- What the factories of `PRIMITVE_FACTORY` build (ConvBNReLU, SepConv, DilConv, ResFactorizedReduceBlock and the rest) is not modelled. These are only names bound to abstract factories. Outside `FactorizedReduce`, such modules are `Other` nodes of the module tree.
- The monkey-patching that installs `forward_one_step` on `nn.Sequential` and the stub on `nn.Module` is not modelled. It becomes two separate entry points, `Forward.SequentialStepper.ForwardOneStep` and `Forward.StubForwardOneStep`.
- The `assert not context is None` checks are left out: a context is always supplied.
- The step context keeps only the fields `forward_one_step` reads and writes. The rest of its class, and the cell index half of `next_op_index`, are not modelled.
- Forward.SequentialStepper.ForwardOneStep: the memoised checkpoint list is never stale, because the module list is a constant. The model does not capture a container whose modules change after the first step.
- Forward.SequentialStepper.ForwardOneStep: modules are looked up by position. `_modules[str(i)]` is assumed to hold the i-th module, as it does for an `nn.Sequential` built from a list.
- Stepping.StepPastEnd: a step index past `num_convs` hits `assert "ERROR ..."`. That asserts a non-empty string, never fires, and returns the inputs unchanged, which is what the model does.
- Reduce.Forward: only shapes are modelled. The convolution, ReLU, zero padding and batch-norm values are not, nor is the batch dimension.
- Reduce.Forward: a `C_out` not divisible by the stride is reported as a batch-norm size mismatch.
- Reduce.Forward: branch convs with `group_dim = C_out // stride == 0` output channels are reported as `NoOutputChannels` when the branches run, right after the input-channel check. Depending on the PyTorch version, such a conv may already be refused when it is built; the model does not distinguish the two.
- Reduce.NewFactorizedReduce: channel counts, strides and kernel sizes are naturals. A negative stride, which in the source empties `range(stride)` and raises `IndexError` at `self.convs[-1]`, cannot be expressed.
- `aw_nas/hardware/compiler/dpu.py` is not part of this model. It is the hardware compiler for a DPU target and uses none of the operations above.
