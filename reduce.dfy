/**
 * `FactorizedReduce`: `stride` parallel convolutions, branch `i` reading the
 * input shifted by `i` pixels down and right, concatenated along the channel
 * dimension and batch-normalised. Only shapes are modelled: the channel
 * counts, the padding and the spatial sizes (the batch dimension is left
 * out, since nothing here touches it).
 */
module Reduce {
  import opened Wrappers
  import opened Modules
  import opened Arith

  datatype Shape = Shape(channels: nat, height: nat, width: nat)

  datatype ReduceError =
    | ZeroStride          // `C_out // stride` with a zero stride
    | ChannelMismatch     // a branch conv given other than `C_in` channels
    | NoOutputChannels    // branch convs built with `group_dim == 0` output channels
    | KernelDoesNotFit    // a branch conv whose padded input is smaller than its kernel
    | ConcatMismatch      // `torch.cat` of branch outputs of different spatial sizes
    | BatchNormMismatch   // `bn`, built for `C_out` channels, given `stride * group_dim`

  datatype FactorizedReduce = FactorizedReduce(cIn: nat, cOut: nat, stride: nat, kernelSize: nat, groupDim: nat, padding: nat)

  /** Python's `int(v / 2)`: halving, truncated toward zero. */
  function TruncHalf(v: int): (h: int)
    ensures v >= 0 ==> 0 <= h && 2 * h <= v < 2 * h + 2
    ensures v < 0 ==> h <= 0 && 2 * h - 2 < v <= 2 * h
  {
    if v >= 0 then v / 2 else -((-v) / 2)
  }

  /** The branch convs' padding `int((kernel_size - 1) / 2)`: the "same" padding of an odd kernel. */
  function ConvPadding(kernelSize: nat): (p: nat)
    ensures kernelSize % 2 == 1 ==> 2 * p + 1 == kernelSize
    ensures kernelSize % 2 == 0 && kernelSize > 0 ==> 2 * p + 2 == kernelSize
    ensures kernelSize == 0 ==> p == 0
  {
    TruncHalf(kernelSize - 1)
  }

  /** The fields the constructor derives: `group_dim = C_out // stride` and the conv padding. */
  predicate Valid(fr: FactorizedReduce) {
    fr.stride > 0 && fr.groupDim == fr.cOut / fr.stride && fr.padding == ConvPadding(fr.kernelSize)
  }

  /** `FactorizedReduce(C_in, C_out, stride, kernel_size=kernelSize)`. */
  function NewFactorizedReduce(cIn: nat, cOut: nat, stride: nat, kernelSize: nat): (r: Result<FactorizedReduce, ReduceError>)
    ensures r.Err? <==> stride == 0
    ensures r.Ok? ==> Valid(r.value) && r.value.cIn == cIn && r.value.cOut == cOut &&
                      r.value.stride == stride && r.value.kernelSize == kernelSize
  {
    if stride == 0 then Err(ZeroStride)
    else Ok(FactorizedReduce(cIn, cOut, stride, kernelSize, cOut / stride, ConvPadding(kernelSize)))
  }

  /**
   * The branches together produce `stride * group_dim` channels: never more
   * than `C_out`, fewer than `stride` short, and exactly `C_out` iff the
   * stride divides `C_out`.
   */
  lemma OutChannels(fr: FactorizedReduce)
    requires Valid(fr)
    ensures fr.stride * fr.groupDim <= fr.cOut < fr.stride * fr.groupDim + fr.stride
    ensures fr.stride * fr.groupDim == fr.cOut <==> fr.cOut % fr.stride == 0
  {
    assert fr.cOut == fr.stride * fr.groupDim + fr.cOut % fr.stride;
  }

  /** `v` is a multiple of `stride`. */
  predicate IsMultiple(v: nat, stride: nat)
    requires stride > 0
  {
    v % stride == 0
  }

  /** The padding `forward` adds on the top and the left: the amount that makes `size` a multiple of `stride`. */
  function PadAmount(size: nat, stride: nat): (pad: nat)
    requires stride > 0
    ensures pad < stride
    ensures IsMultiple(size + pad, stride)
    ensures pad == 0 <==> IsMultiple(size, stride)
  {
    var m := size % stride;
    if m != 0 then
      var n := size / stride;
      assert size == n * stride + m;
      ModInBlock(size + (stride - m), n + 1, stride);
      stride - m
    else 0
  }

  /** No smaller padding would do: the padded size is the least multiple of `stride` not below `size`. */
  lemma PadAmountLeast(size: nat, stride: nat)
    requires stride > 0
    ensures forall v :: size <= v < size + PadAmount(size, stride) ==> !IsMultiple(v, stride)
  {
    var n := size / stride;
    assert size == n * stride + size % stride;
    forall v | size <= v < size + PadAmount(size, stride) ensures !IsMultiple(v, stride) {
      ModInBlock(v, n, stride);
    }
  }

  /**
   * The spatial size of a `Conv2d` output, PyTorch's `(size + 2 * padding -
   * kernel) // stride + 1`; None when the kernel does not fit.
   */
  function ConvOutSize(size: nat, kernelSize: nat, padding: nat, stride: nat): (r: Option<nat>)
    requires stride > 0
    ensures r.Some? <==> 0 < kernelSize <= size + 2 * padding
  {
    if kernelSize == 0 || size + 2 * padding < kernelSize then None
    else Some((size + 2 * padding - kernelSize) / stride + 1)
  }

  /** The output size counts the kernel windows: the last one fits in the padded input, one more stride would not. */
  lemma ConvOutSizeWindows(size: nat, kernelSize: nat, padding: nat, stride: nat)
    requires stride > 0 && ConvOutSize(size, kernelSize, padding, stride).Some?
    ensures var n := ConvOutSize(size, kernelSize, padding, stride).value;
      n >= 1 && (n - 1) * stride + kernelSize <= size + 2 * padding < n * stride + kernelSize
  {
    var span := size + 2 * padding - kernelSize;
    assert span == (span / stride) * stride + span % stride;
  }

  /** `x[:, :, i:, i:]` in one dimension: the first `i` rows (columns) dropped. */
  function Sliced(size: nat, i: nat): nat {
    if i <= size then size - i else 0
  }

  /** The output size of branch `i` in one dimension of the padded input. */
  function BranchSize(fr: FactorizedReduce, padded: nat, i: nat): Option<nat>
    requires fr.stride > 0
  {
    ConvOutSize(Sliced(padded, i), fr.kernelSize, fr.padding, fr.stride)
  }

  /** The output sizes of all `stride` branches in one dimension. */
  function BranchSizes(fr: FactorizedReduce, padded: nat): (s: seq<Option<nat>>)
    requires fr.stride > 0
    ensures |s| == fr.stride
    ensures forall i :: 0 <= i < |s| ==> s[i] == BranchSize(fr, padded, i)
  {
    seq(fr.stride, i requires 0 <= i => BranchSize(fr, padded, i))
  }

  predicate AllFit(s: seq<Option<nat>>) {
    forall i :: 0 <= i < |s| ==> s[i].Some?
  }

  predicate AllAgree(s: seq<Option<nat>>) {
    forall i :: 0 <= i < |s| ==> s[i] == s[0]
  }

  /**
   * `forward`: relu, pad height and width by the amount computed from the
   * height, run branch `i` on the input shifted by `i`, concatenate, batch-norm.
   * Branch convs with no output channels (`C_out < stride`) are refused when
   * they run.
   */
  function Forward(fr: FactorizedReduce, x: Shape): (r: Result<Shape, ReduceError>)
    requires Valid(fr)
    ensures r.Ok? ==> r.value.channels == fr.cOut && fr.cOut % fr.stride == 0
    ensures r.Ok? ==> fr.groupDim > 0 && fr.cOut >= fr.stride
  {
    OutChannels(fr);
    var pad := PadAmount(x.height, fr.stride);
    var hs := BranchSizes(fr, x.height + pad);
    var ws := BranchSizes(fr, x.width + pad);
    if x.channels != fr.cIn then Err(ChannelMismatch)
    else if fr.groupDim == 0 then Err(NoOutputChannels)
    else if !(AllFit(hs) && AllFit(ws)) then Err(KernelDoesNotFit)
    else if !(AllAgree(hs) && AllAgree(ws)) then Err(ConcatMismatch)
    else if fr.stride * fr.groupDim != fr.cOut then Err(BatchNormMismatch)
    else Ok(Shape(fr.cOut, hs[0].value, ws[0].value))
  }

  /** Branch `i` outputs `q + 1` when its kernel windows span `q` strides of the padded, shifted input. */
  lemma BranchSizeIs(fr: FactorizedReduce, n: nat, i: nat, q: nat)
    requires Valid(fr) && i <= n && 0 < fr.kernelSize <= n - i + 2 * fr.padding
    requires q * fr.stride <= n - i + 2 * fr.padding - fr.kernelSize < q * fr.stride + fr.stride
    ensures BranchSize(fr, n, i) == Some(q + 1)
  {
    var span := n - i + 2 * fr.padding - fr.kernelSize;
    DivInBlock(span, q, fr.stride);
  }

  /** With an odd kernel, every branch maps a positive multiple of the stride to the same size, `padded / stride`. */
  lemma BranchesAgree(fr: FactorizedReduce, padded: nat, i: nat)
    requires Valid(fr) && fr.kernelSize % 2 == 1
    requires padded > 0 && padded % fr.stride == 0 && i < fr.stride
    ensures BranchSize(fr, padded, i) == Some(padded / fr.stride)
  {
    var s, m := fr.stride, padded / fr.stride;
    assert padded == m * s;
    assert m >= 1;
    assert 2 * fr.padding + 1 == fr.kernelSize;
    var span := padded - i - 1;
    assert (m - 1) * s <= span < (m - 1) * s + s;
    DivInBlock(span, m - 1, s);
  }

  /** Padding up to a multiple of the stride and dividing is rounding the division up. */
  lemma PaddedDivIsCeil(size: nat, stride: nat)
    requires stride > 0
    ensures (size + PadAmount(size, stride)) / stride == (size + stride - 1) / stride
  {
    var p := size + PadAmount(size, stride);
    var m := p / stride;
    assert p == m * stride;
    DivInBlock(size + stride - 1, m, stride);
  }

  /**
   * A square input with `C_in` channels and an odd kernel goes through iff
   * the stride divides `C_out` and `C_out` is positive, and comes out `C_out x ceil(H / stride) x
   * ceil(H / stride)`.
   */
  lemma ForwardSquare(fr: FactorizedReduce, x: Shape)
    requires Valid(fr) && fr.kernelSize % 2 == 1
    requires x.channels == fr.cIn && x.height == x.width > 0
    ensures Forward(fr, x).Ok? <==> fr.cOut % fr.stride == 0 && fr.cOut > 0
    ensures Forward(fr, x).Ok? ==>
      var side := (x.height + fr.stride - 1) / fr.stride;
      Forward(fr, x).value == Shape(fr.cOut, side, side)
  {
    OutChannels(fr);
    var pad := PadAmount(x.height, fr.stride);
    var p := x.height + pad;
    var hs := BranchSizes(fr, p);
    forall i | 0 <= i < fr.stride ensures hs[i] == Some(p / fr.stride) {
      BranchesAgree(fr, p, i);
    }
    PaddedDivIsCeil(x.height, fr.stride);
  }

  /** Branches that all fit but disagree in size make `forward` fail at the concatenation. */
  lemma ForwardConcatFails(fr: FactorizedReduce, x: Shape, pad: nat, hs: seq<Option<nat>>, ws: seq<Option<nat>>)
    requires Valid(fr)
    requires x.channels == fr.cIn && fr.groupDim > 0
    requires pad == PadAmount(x.height, fr.stride)
    requires hs == BranchSizes(fr, x.height + pad)
    requires ws == BranchSizes(fr, x.width + pad)
    requires AllFit(hs) && AllFit(ws)
    requires !(AllAgree(hs) && AllAgree(ws))
    ensures Forward(fr, x) == Err(ConcatMismatch)
  {
  }

  /** The padding is computed from the height alone: an input one column narrower than it is high makes the branches disagree. */
  lemma NonSquareInputMismatch(fr: FactorizedReduce, x: Shape)
    requires Valid(fr) && fr.kernelSize % 2 == 1 && fr.stride >= 2
    requires x.channels == fr.cIn && x.height % fr.stride == 0 && x.height >= 2 * fr.stride
    requires fr.cOut >= fr.stride
    requires x.width + 1 == x.height
    ensures Forward(fr, x) == Err(ConcatMismatch)
  {
    var s := fr.stride;
    var m := Quotient(x.height, s, 2);
    MulSucc(m - 1, s);
    MulSucc(m - 2, s);
    assert 2 * fr.padding + 1 == fr.kernelSize;
    assert PadAmount(x.height, s) == 0;
    var hs, ws := BranchSizes(fr, x.height), BranchSizes(fr, x.width);
    forall i | 0 <= i < s ensures hs[i].Some? && ws[i].Some? {
    }
    BranchSizeIs(fr, x.width, 0, m - 1);
    BranchSizeIs(fr, x.width, s - 1, m - 2);
    assert ws[0] != ws[s - 1];
    ForwardConcatFails(fr, x, 0, hs, ws);
  }

  /** With an even kernel the truncated padding is one short, and the first and last branches disagree. */
  lemma EvenKernelMismatch(fr: FactorizedReduce, x: Shape)
    requires Valid(fr) && fr.kernelSize % 2 == 0 && fr.kernelSize > 0 && fr.stride >= 2
    requires x.channels == fr.cIn && x.height % fr.stride == 0 && x.height >= 2 * fr.stride
    requires fr.cOut >= fr.stride
    requires x.width == x.height
    ensures Forward(fr, x) == Err(ConcatMismatch)
  {
    var s := fr.stride;
    var m := Quotient(x.height, s, 2);
    MulSucc(m - 1, s);
    MulSucc(m - 2, s);
    assert 2 * fr.padding + 2 == fr.kernelSize;
    assert PadAmount(x.height, s) == 0;
    var hs := BranchSizes(fr, x.height);
    forall i | 0 <= i < s ensures hs[i].Some? {
    }
    BranchSizeIs(fr, x.height, 0, m - 1);
    BranchSizeIs(fr, x.height, s - 1, m - 2);
    assert hs[0] != hs[s - 1];
    ForwardConcatFails(fr, x, 0, hs, hs);
  }

  /**
   * The module tree of a FactorizedReduce numbered from `base`: `convs`, a
   * ModuleList of `stride` Conv2d, then `relu` and `bn`, with the explicit
   * `last_conv_module` attribute set to the last branch conv.
   */
  function ReduceTree(fr: FactorizedReduce, base: nat): (t: Module)
    requires fr.stride > 0
    ensures t.Other? && |t.mods| == 3 && t.mods[0].Other? && |t.mods[0].mods| == fr.stride
    ensures forall i :: 0 <= i < fr.stride ==> t.mods[0].mods[i].Conv2d?
    ensures t.lastConvAttr == Some(t.mods[0].mods[fr.stride - 1])
  {
    var convs := seq(fr.stride, i requires 0 <= i => Conv2d(base + 2 + i));
    Other(base, [Other(base + 1, convs, None), Other(base + 2 + fr.stride, [], None), BatchNorm2d(base + 3 + fr.stride)],
          Some(convs[fr.stride - 1]))
  }

  /**
   * `get_last_conv_module` of a FactorizedReduce is its last branch conv, a
   * module of its own tree; without the attribute it could not be induced,
   * since the module has three children.
   */
  lemma ReduceLastConv(fr: FactorizedReduce, base: nat)
    requires fr.stride > 0
    ensures var t, c := ReduceTree(fr, base), Conv2d(base + 1 + fr.stride);
      && GetLastConvModule(t) == Ok(Some(c))
      && Contains(t, c)
      && GetLastConvModule(t.(lastConvAttr := None)) == Err(CannotInduce)
  {
    var t := ReduceTree(fr, base);
    var list := t.mods[0];
    assert Contains(list.mods[fr.stride - 1], Conv2d(base + 1 + fr.stride));
    assert Contains(list, Conv2d(base + 1 + fr.stride));
  }
}
