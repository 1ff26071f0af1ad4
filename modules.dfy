/**
 * The module tree of the operator library, as tags: what `forward_one_step`
 * and `get_last_conv_module` look at. Every `nn.Module` subclass other than
 * `Conv2d`, `BatchNorm2d` and `Sequential` (ReLU, pooling, Identity,
 * FactorizedReduce, SepConv, ...) is an `Other` node with its sub-modules
 * and, when it sets one, its explicit `last_conv_module` attribute.
 */
module Modules {
  import opened Wrappers

  datatype Module =
    | Conv2d(id: nat)
    | BatchNorm2d(id: nat)
    | Sequential(id: nat, mods: seq<Module>)
    | Other(id: nat, mods: seq<Module>, lastConvAttr: Option<Module>)

  /** The positions of `Conv2d` modules among `mods[..i]`, in increasing order. */
  function ConvPositionsUpTo(mods: seq<Module>, i: nat): (ps: seq<nat>)
    requires i <= |mods|
    ensures forall a, b :: 0 <= a < b < |ps| ==> ps[a] < ps[b]
    ensures forall a :: 0 <= a < |ps| ==> ps[a] < i && mods[ps[a]].Conv2d?
  {
    if i == 0 then []
    else ConvPositionsUpTo(mods, i - 1) + (if mods[i - 1].Conv2d? then [i - 1] else [])
  }

  /** No Conv2d is left out: every Conv2d position before `i` is listed. */
  lemma {:induction false} ConvPositionsComplete(mods: seq<Module>, i: nat, p: nat)
    requires i <= |mods| && p < i && mods[p].Conv2d?
    ensures p in ConvPositionsUpTo(mods, i)
  {
    if p < i - 1 {
      ConvPositionsComplete(mods, i - 1, p);
    }
  }

  function ConvPositions(mods: seq<Module>): seq<nat> {
    ConvPositionsUpTo(mods, |mods|)
  }

  /** The checkpoint of the conv at `p`: the BatchNorm2d right after it, if there is one, else the conv. */
  function CheckpointAt(mods: seq<Module>, p: nat): nat
    requires p < |mods|
  {
    if p < |mods| - 1 && mods[p + 1].BatchNorm2d? then p + 1 else p
  }

  /** `_conv_mod_inds` as the loop over `mods[..i]` has built it. */
  function CheckpointsUpTo(mods: seq<Module>, i: nat): (inds: seq<nat>)
    requires i <= |mods|
    ensures |inds| == |ConvPositionsUpTo(mods, i)|
    ensures forall c :: 0 <= c < |inds| ==> inds[c] == CheckpointAt(mods, ConvPositionsUpTo(mods, i)[c])
    ensures forall c :: 0 <= c < |inds| ==> inds[c] < |mods| && (mods[inds[c]].Conv2d? || inds[c] > 0)
  {
    if i == 0 then []
    else CheckpointsUpTo(mods, i - 1) + (if mods[i - 1].Conv2d? then [CheckpointAt(mods, i - 1)] else [])
  }

  function ConvCheckpoints(mods: seq<Module>): seq<nat> {
    CheckpointsUpTo(mods, |mods|)
  }

  /**
   * One checkpoint per Conv2d, strictly increasing, each inside the
   * container; each is the conv itself or the BatchNorm2d right after it.
   */
  lemma CheckpointsShape(mods: seq<Module>)
    ensures var inds, ps := ConvCheckpoints(mods), ConvPositions(mods);
      && |inds| == |ps|
      && (forall a, b :: 0 <= a < b < |inds| ==> inds[a] < inds[b])
      && (forall c :: 0 <= c < |inds| ==> ps[c] <= inds[c] < |mods|)
      && (forall c :: 0 <= c < |inds| ==>
            (inds[c] == ps[c] && mods[inds[c]].Conv2d?) ||
            (inds[c] == ps[c] + 1 && mods[inds[c]].BatchNorm2d?))
  {
    var inds, ps := ConvCheckpoints(mods), ConvPositions(mods);
    forall a, b | 0 <= a < b < |inds| ensures inds[a] < inds[b] {
      assert ps[a] < ps[b];
      if inds[a] == ps[a] + 1 {
        assert mods[ps[a] + 1].BatchNorm2d?;
        assert ps[b] != ps[a] + 1;
      }
    }
  }

  /** The memoising loop of `forward_one_step` that builds `_conv_mod_inds`. */
  method ComputeConvModInds(mods: seq<Module>) returns (inds: seq<nat>)
    ensures inds == ConvCheckpoints(mods)
  {
    inds := [];
    var modNum := |mods|;
    for i := 0 to modNum
      invariant inds == CheckpointsUpTo(mods, i)
    {
      if mods[i].Conv2d? {
        if i < modNum - 1 && mods[i + 1].BatchNorm2d? {
          inds := inds + [i + 1];
        } else {
          inds := inds + [i];
        }
      }
    }
  }

  /** The reversed scan over `mods[..i]`: the index of the last `Conv2d` before `i`, if any. */
  function LastConvBefore(mods: seq<Module>, i: nat): (r: Option<nat>)
    requires i <= |mods|
    ensures r.None? <==> forall j :: 0 <= j < i ==> !mods[j].Conv2d?
    ensures r.Some? ==> r.value < i && mods[r.value].Conv2d? && forall j :: r.value < j < i ==> !mods[j].Conv2d?
  {
    if i == 0 then None
    else if mods[i - 1].Conv2d? then Some(i - 1)
    else LastConvBefore(mods, i - 1)
  }

  /** The last `Conv2d` of a module list (the reversed loop of the Sequential case), if any. */
  function LastConvIn(mods: seq<Module>): (r: Option<Module>)
    ensures r.None? <==> forall j :: 0 <= j < |mods| ==> !mods[j].Conv2d?
    ensures r.Some? ==> exists j :: 0 <= j < |mods| && mods[j] == r.value && r.value.Conv2d? &&
                                    (forall j' :: j < j' < |mods| ==> !mods[j'].Conv2d?)
  {
    match LastConvBefore(mods, |mods|)
    case None => None
    case Some(j) => Some(mods[j])
  }

  datatype LastConvError = CannotInduce   // "Cannot auto induce the last conv module"

  /**
   * `get_last_conv_module`: an explicit attribute wins; a Conv2d is its own
   * last conv; a Sequential gives its last direct Conv2d child or None; a
   * module without children gives None; a module with one child recurses
   * into it; anything else raises.
   */
  function GetLastConvModule(m: Module): (r: Result<Option<Module>, LastConvError>)
    ensures m.Conv2d? || m.BatchNorm2d? || m.Sequential? ==> r.Ok?
    ensures r.Err? ==> m.Other? && m.lastConvAttr.None? && |m.mods| > 0
    ensures NoExplicitAttr(m) && r.Ok? && r.value.Some? ==> r.value.value.Conv2d?
    decreases m
  {
    match m
    case Other(_, mods, Some(c)) => Ok(Some(c))
    case Conv2d(_) => Ok(Some(m))
    case Sequential(_, mods) => Ok(LastConvIn(mods))
    case BatchNorm2d(_) => Ok(None)
    case Other(_, mods, None) =>
      if |mods| == 0 then Ok(None)
      else if |mods| == 1 then GetLastConvModule(mods[0])
      else Err(CannotInduce)
  }

  /** `c` is `m` or one of its (transitive) sub-modules. */
  predicate Contains(m: Module, c: Module)
    decreases m
  {
    c == m ||
    match m
    case Sequential(_, mods) => exists j :: 0 <= j < |mods| && Contains(mods[j], c)
    case Other(_, mods, _) => exists j :: 0 <= j < |mods| && Contains(mods[j], c)
    case _ => false
  }

  /** No module of the tree sets `last_conv_module` explicitly. */
  predicate NoExplicitAttr(m: Module)
    decreases m
  {
    match m
    case Sequential(_, mods) => forall j :: 0 <= j < |mods| ==> NoExplicitAttr(mods[j])
    case Other(_, mods, attr) => attr.None? && forall j :: 0 <= j < |mods| ==> NoExplicitAttr(mods[j])
    case _ => true
  }

  /**
   * Without explicit attributes, whatever `get_last_conv_module` induces is a
   * Conv2d of the module's own tree.
   */
  lemma {:induction false} InducedLastConvIsOwnConv(m: Module, c: Module)
    requires NoExplicitAttr(m) && GetLastConvModule(m) == Ok(Some(c))
    ensures c.Conv2d? && Contains(m, c)
    decreases m
  {
    match m
    case Conv2d(_) =>
    case Sequential(_, mods) =>
      var j :| 0 <= j < |mods| && mods[j] == c && c.Conv2d?;
      assert Contains(mods[j], c);
    case Other(_, mods, _) =>
      InducedLastConvIsOwnConv(mods[0], c);
      assert Contains(mods[0], c);
  }
}
