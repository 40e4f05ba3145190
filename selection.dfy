/**
 * The best-candidate fold shared by both providers: the loop keeps `best` and
 * `best_score` (starting from -1.0) and replaces them only when a candidate
 * passes the filters and scores strictly higher.
 */
module Selection {
  import opened Wrappers

  /** A candidate after scoring: whether it passed every filter, and its effective score. */
  datatype Scored = Scored(eligible: bool, score: real)

  /** The initial `best_score`. */
  const InitialBest: real := -1.0

  /** The score the loop holds after keeping candidate `k` (or nothing). */
  function BestScore(ss: seq<Scored>, k: Option<nat>): real
    requires k.Some? ==> k.value < |ss|
  {
    if k.Some? then ss[k.value].score else InitialBest
  }

  /** The index the selection loop ends with after scanning `ss` in provider
      order: the loop keeps candidate `i` when it is eligible and beats the
      score kept so far. */
  function FirstBest(ss: seq<Scored>): (k: Option<nat>)
    ensures k.Some? ==> k.value < |ss| && ss[k.value].eligible && ss[k.value].score > InitialBest
  {
    if ss == [] then None
    else
      var init := ss[..|ss| - 1];
      var k := FirstBest(init);
      var last := ss[|ss| - 1];
      if last.eligible && last.score > BestScore(init, k) then Some(|ss| - 1) else k
  }

  /** What the loop ends with: an eligible candidate with the highest score, the
      earliest one on ties, or nothing when no eligible candidate beats the
      initial score. */
  lemma {:induction false} FirstBestSpec(ss: seq<Scored>)
    ensures var k := FirstBest(ss);
      && (k.Some? ==> forall j :: 0 <= j < |ss| && ss[j].eligible ==> ss[j].score <= ss[k.value].score)
      && (k.Some? ==> forall j :: 0 <= j < k.value && ss[j].eligible ==> ss[j].score < ss[k.value].score)
      && (k.None? ==> forall j :: 0 <= j < |ss| && ss[j].eligible ==> ss[j].score <= InitialBest)
  {
    if ss != [] {
      var init := ss[..|ss| - 1];
      FirstBestSpec(init);
      assert forall j :: 0 <= j < |init| ==> init[j] == ss[j];
    }
  }

  /** The three properties of FirstBest's result determine it: any eligible
      candidate with the highest score and no earlier candidate as high is the one
      the loop keeps. */
  lemma FirstBestUnique(ss: seq<Scored>, k: nat)
    requires k < |ss| && ss[k].eligible && ss[k].score > InitialBest
    requires forall j :: 0 <= j < |ss| && ss[j].eligible ==> ss[j].score <= ss[k].score
    requires forall j :: 0 <= j < k && ss[j].eligible ==> ss[j].score < ss[k].score
    ensures FirstBest(ss) == Some(k)
  {
    FirstBestSpec(ss);
  }

  /** With non-negative scores the loop keeps nothing exactly when no candidate
      is eligible. */
  lemma FirstBestNone(ss: seq<Scored>)
    requires forall j :: 0 <= j < |ss| ==> ss[j].score >= 0.0
    ensures FirstBest(ss).None? <==> forall j :: 0 <= j < |ss| ==> !ss[j].eligible
  {
    FirstBestSpec(ss);
  }
}
