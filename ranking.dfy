/**
 * The ranking rule of `GCNComparator.compare` and the margin-ranking (hinge)
 * loss of `GCNComparator.pairwise_loss`, on the two scores.
 */
module Ranking {

  /** The default `margin` of `pairwise_loss`. */
  const DefaultMargin: real := 0.01

  /** `1 if s_1 > s_2 else 0`: a 0/1 verdict that is 1 exactly on a strict win. */
  function CompareScores(s1: real, s2: real): (r: nat)
    ensures r <= 1
    ensures r == 1 <==> s1 > s2
  {
    if s1 > s2 then 1 else 0
  }

  /**
   * `torch.max(0, margin - (s_pref - s_other))`, the preferred side chosen by
   * `better`: never negative, zero exactly when the preferred score leads by
   * at least `margin`, and never below the shortfall `margin - lead`.
   */
  function HingeLoss(s1: real, s2: real, better: bool, margin: real): (loss: real)
    ensures loss >= 0.0
    ensures var lead := if better then s1 - s2 else s2 - s1;
      && (loss == 0.0 <==> lead >= margin)
      && loss >= margin - lead
  {
    var lead := if better then s1 - s2 else s2 - s1;
    if margin - lead > 0.0 then margin - lead else 0.0
  }

  /** The first architecture wins exactly when its score is strictly greater; ties go to 0. */
  lemma CompareIsStrict(s1: real, s2: real)
    ensures CompareScores(s1, s2) == 1 <==> s1 > s2
    ensures CompareScores(s1, s2) == 0 <==> s1 <= s2
    ensures s1 == s2 ==> CompareScores(s1, s2) == 0 && CompareScores(s2, s1) == 0
  {
  }

  /** At most one direction wins, and exactly one does when the scores differ. */
  lemma CompareAntisymmetric(s1: real, s2: real)
    ensures CompareScores(s1, s2) == 1 ==> CompareScores(s2, s1) == 0
    ensures CompareScores(s1, s2) + CompareScores(s2, s1) == if s1 != s2 then 1 else 0
  {
  }

  /** The preference is a strict order: transitive. */
  lemma CompareTransitive(s1: real, s2: real, s3: real)
    requires CompareScores(s1, s2) == 1 && CompareScores(s2, s3) == 1
    ensures CompareScores(s1, s3) == 1
  {
  }

  /** Flipping the label and swapping the pair gives the same loss. */
  lemma HingeLossLabelFlip(s1: real, s2: real, margin: real)
    ensures HingeLoss(s1, s2, true, margin) == HingeLoss(s2, s1, false, margin)
  {
  }

  /** A larger lead of the preferred score never increases the loss. */
  lemma HingeLossMonotone(s1: real, s2: real, t1: real, margin: real)
    requires t1 >= s1
    ensures HingeLoss(t1, s2, true, margin) <= HingeLoss(s1, s2, true, margin)
  {
  }

  /** With a positive margin, a zero loss means `compare` already ranks the preferred side first. */
  lemma ZeroLossAgreesWithCompare(s1: real, s2: real, better: bool, margin: real)
    requires margin > 0.0 && HingeLoss(s1, s2, better, margin) == 0.0
    ensures (if better then CompareScores(s1, s2) else CompareScores(s2, s1)) == 1
  {
  }

  /** With the default margin, a zero loss means the preferred side leads by at least 0.01 and wins `compare`. */
  lemma DefaultMarginZeroLoss(s1: real, s2: real, better: bool)
    requires HingeLoss(s1, s2, better, DefaultMargin) == 0.0
    ensures (if better then s1 - s2 else s2 - s1) >= 0.01
    ensures (if better then CompareScores(s1, s2) else CompareScores(s2, s1)) == 1
  {
    ZeroLossAgreesWithCompare(s1, s2, better, DefaultMargin);
  }
}
