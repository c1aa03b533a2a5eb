/**
 * The record-holder scans of the exporters: walk a list once and take a new holder only
 * when a value is strictly better than the current holder's, so the earliest of equal
 * values wins.
 */
module Extremes {
  import opened Wrappers

  /**
   * The position a left-to-right scan keeps when it takes a new holder only for a strictly
   * smaller value.
   */
  function FirstMin(xs: seq<int>): (r: Option<nat>)
    ensures r.Some? <==> |xs| > 0
    ensures r.Some? ==> r.value < |xs|
  {
    if |xs| == 0 then None
    else
      var p := FirstMin(xs[..|xs| - 1]);
      if p.None? || xs[|xs| - 1] < xs[p.value] then Some(|xs| - 1) else p
  }

  /** The same scan keeping a strictly larger value. */
  function FirstMax(xs: seq<int>): (r: Option<nat>)
    ensures r.Some? <==> |xs| > 0
    ensures r.Some? ==> r.value < |xs|
  {
    if |xs| == 0 then None
    else
      var p := FirstMax(xs[..|xs| - 1]);
      if p.None? || xs[|xs| - 1] > xs[p.value] then Some(|xs| - 1) else p
  }

  /** The kept position holds the smallest value, and every earlier value is strictly larger. */
  lemma {:induction false} FirstMinIsEarliestMinimum(xs: seq<int>)
    requires |xs| > 0
    ensures var q := FirstMin(xs).value;
      && (forall j :: 0 <= j < |xs| ==> xs[q] <= xs[j])
      && (forall j :: 0 <= j < q ==> xs[j] > xs[q])
    decreases |xs|
  {
    var init := xs[..|xs| - 1];
    if |init| > 0 {
      FirstMinIsEarliestMinimum(init);
    }
  }

  /** The kept position holds the largest value, and every earlier value is strictly smaller. */
  lemma {:induction false} FirstMaxIsEarliestMaximum(xs: seq<int>)
    requires |xs| > 0
    ensures var q := FirstMax(xs).value;
      && (forall j :: 0 <= j < |xs| ==> xs[q] >= xs[j])
      && (forall j :: 0 <= j < q ==> xs[j] < xs[q])
    decreases |xs|
  {
    var init := xs[..|xs| - 1];
    if |init| > 0 {
      FirstMaxIsEarliestMaximum(init);
    }
  }
}
