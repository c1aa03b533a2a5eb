/**
 * The two computations of `WorkflowExportManager` that are not I/O: the analytics summary
 * over all workflows (`generateInsights`) and the check an export's data must pass
 * (`validateExportData`).
 */
module ExportManager {
  import opened Wrappers
  import opened Text
  import opened Records
  import opened Extremes
  import CsvFormatter

  /** The record holders, as positions in the workflow list (the source keeps the objects). */
  datatype Efficiency = Efficiency(quickest: Option<nat>, longest: Option<nat>, mostActions: Option<nat>)

  datatype Insights = Insights(
    averageDuration: int, averageActions: int, popularTags: map<string, nat>,
    commonPatterns: seq<string>, efficiency: Efficiency)

  /** The object `generateInsights` starts from, and returns for an empty list. */
  const DefaultInsights := Insights(0, 0, map[], [], Efficiency(None, None, None))

  /** `Math.round`: the nearest integer, a half rounded up. */
  function Round(x: real): (r: int)
    ensures x - 0.5 < r as real <= x + 0.5
  {
    (x + 0.5).Floor
  }

  function Durations(ws: seq<Workflow>): (r: seq<int>)
    ensures |r| == |ws|
  {
    seq(|ws|, i requires 0 <= i < |ws| => ws[i].duration)
  }

  function ActionCounts(ws: seq<Workflow>): (r: seq<int>)
    ensures |r| == |ws|
  {
    seq(|ws|, i requires 0 <= i < |ws| => ws[i].actionCount)
  }

  function Sum(xs: seq<int>): int {
    if |xs| == 0 then 0 else Sum(xs[..|xs| - 1]) + xs[|xs| - 1]
  }

  /** `m[tag]`, with `|| 0` for a missing key. */
  function Count(m: map<string, nat>, t: string): nat {
    if t in m then m[t] else 0
  }

  /** `tags.forEach(tag => popularTags[tag] = (popularTags[tag] || 0) + 1)`. */
  function AddTags(m: map<string, nat>, tags: seq<string>): map<string, nat> {
    if |tags| == 0 then m
    else
      var m' := AddTags(m, tags[..|tags| - 1]);
      var t := tags[|tags| - 1];
      m'[t := Count(m', t) + 1]
  }

  /** The tag counts after the scan of `ws`; a workflow without tags adds nothing. */
  function TagCounts(ws: seq<Workflow>): map<string, nat> {
    if |ws| == 0 then map[]
    else AddTags(TagCounts(ws[..|ws| - 1]), ws[|ws| - 1].tags.GetOr([]))
  }

  /** Every tag of every workflow, in order. */
  function AllTags(ws: seq<Workflow>): seq<string> {
    if |ws| == 0 then [] else AllTags(ws[..|ws| - 1]) + ws[|ws| - 1].tags.GetOr([])
  }

  /** What `generateInsights` returns for `ws`. */
  function InsightsOf(ws: seq<Workflow>): Insights {
    if |ws| == 0 then DefaultInsights
    else
      var n := |ws| as real;
      Insights(
        Round(Sum(Durations(ws)) as real / n), Round(Sum(ActionCounts(ws)) as real / n),
        TagCounts(ws), [],
        Efficiency(FirstMin(Durations(ws)), FirstMax(Durations(ws)), FirstMax(ActionCounts(ws))))
  }

  /** The inner `forEach` over one workflow's tags. */
  method CountTags(m: map<string, nat>, tags: seq<string>) returns (r: map<string, nat>)
    ensures r == AddTags(m, tags)
  {
    r := m;
    for j := 0 to |tags|
      invariant r == AddTags(m, tags[..j])
    {
      assert tags[..j + 1][..j] == tags[..j];
      r := r[tags[j] := Count(r, tags[j]) + 1];
    }
    assert tags[..|tags|] == tags;
  }

  /** How each summary value of a prefix grows by the next workflow. */
  lemma ScanStep(ws: seq<Workflow>, i: nat)
    requires i < |ws|
    ensures var ds, cs, w := Durations(ws), ActionCounts(ws), ws[i];
      Sum(ds[..i + 1]) == Sum(ds[..i]) + w.duration && Sum(cs[..i + 1]) == Sum(cs[..i]) + w.actionCount
      && TagCounts(ws[..i + 1]) == AddTags(TagCounts(ws[..i]), w.tags.GetOr([]))
      && FirstMin(ds[..i + 1]) == (var q := FirstMin(ds[..i]);
        if q.None? || w.duration < ws[q.value].duration then Some(i) else q)
      && FirstMax(ds[..i + 1]) == (var q := FirstMax(ds[..i]);
        if q.None? || w.duration > ws[q.value].duration then Some(i) else q)
      && FirstMax(cs[..i + 1]) == (var q := FirstMax(cs[..i]);
        if q.None? || w.actionCount > ws[q.value].actionCount then Some(i) else q)
  {
    var ds, cs := Durations(ws), ActionCounts(ws);
    assert ds[..i + 1][..i] == ds[..i] && cs[..i + 1][..i] == cs[..i];
    assert ws[..i + 1][..i] == ws[..i];
  }

  /** `generateInsights`: one pass that sums, counts tags and keeps the three record holders. */
  method GenerateInsights(ws: seq<Workflow>) returns (r: Insights)
    ensures r == InsightsOf(ws)
  {
    r := DefaultInsights;
    if |ws| == 0 {
      return;
    }
    var totalDuration, totalActions := 0, 0;
    var tags: map<string, nat> := map[];
    var quickest, longest, mostActions: Option<nat> := None, None, None;
    ghost var ds, cs := Durations(ws), ActionCounts(ws);
    for i := 0 to |ws|
      invariant totalDuration == Sum(ds[..i]) && totalActions == Sum(cs[..i])
      invariant tags == TagCounts(ws[..i])
      invariant quickest == FirstMin(ds[..i]) && longest == FirstMax(ds[..i])
      invariant mostActions == FirstMax(cs[..i])
    {
      var w := ws[i];
      ScanStep(ws, i);
      totalDuration := totalDuration + w.duration;
      totalActions := totalActions + w.actionCount;
      tags := CountTags(tags, w.tags.GetOr([]));
      if quickest.None? || w.duration < ws[quickest.value].duration {
        quickest := Some(i);
      }
      if longest.None? || w.duration > ws[longest.value].duration {
        longest := Some(i);
      }
      if mostActions.None? || w.actionCount > ws[mostActions.value].actionCount {
        mostActions := Some(i);
      }
    }
    assert ds[..|ws|] == ds && cs[..|ws|] == cs && ws[..|ws|] == ws;
    var n := |ws| as real;
    r := Insights(Round(totalDuration as real / n), Round(totalActions as real / n), tags, [],
      Efficiency(quickest, longest, mostActions));
  }

  // ---------------------------------------------------------------------------------------
  // Properties of the summary

  /** The record holders are all `null` exactly for an empty list, which gets the zero defaults. */
  lemma RecordsIffWorkflows(ws: seq<Workflow>)
    ensures var e := InsightsOf(ws).efficiency;
      (e.quickest.None? <==> |ws| == 0) && (e.longest.None? <==> |ws| == 0) && (e.mostActions.None? <==> |ws| == 0)
    ensures |ws| == 0 ==> InsightsOf(ws) == Insights(0, 0, map[], [], Efficiency(None, None, None))
  {
  }

  /** Adding a list of tags adds its multiplicities to the counts and its tags to the keys. */
  lemma {:induction false} AddTagsCounts(m: map<string, nat>, tags: seq<string>)
    ensures forall t :: Count(AddTags(m, tags), t) == Count(m, t) + multiset(tags)[t]
    ensures forall t :: t in AddTags(m, tags) <==> t in m || t in tags
    decreases |tags|
  {
    if |tags| > 0 {
      var init := tags[..|tags| - 1];
      AddTagsCounts(m, init);
      assert tags == init + [tags[|tags| - 1]];
    }
  }

  /**
   * `popularTags[t]` is the number of times `t` occurs among the workflows' tags, and a tag
   * is a key exactly when it occurs.
   */
  lemma {:induction false} TagCountsAreOccurrences(ws: seq<Workflow>)
    ensures forall t :: Count(TagCounts(ws), t) == multiset(AllTags(ws))[t]
    ensures forall t :: t in TagCounts(ws) <==> t in AllTags(ws)
    decreases |ws|
  {
    if |ws| > 0 {
      var init := ws[..|ws| - 1];
      TagCountsAreOccurrences(init);
      AddTagsCounts(TagCounts(init), ws[|ws| - 1].tags.GetOr([]));
    }
  }

  lemma {:induction false} SumBounds(xs: seq<int>, lo: int, hi: int)
    requires forall j :: 0 <= j < |xs| ==> lo <= xs[j] <= hi
    ensures |xs| * lo <= Sum(xs) <= |xs| * hi
    decreases |xs|
  {
    if |xs| > 0 {
      var n := |xs| - 1;
      var p := xs[..n];
      assert forall j :: 0 <= j < |p| ==> p[j] == xs[j];
      SumBounds(p, lo, hi);
      assert Sum(xs) == Sum(p) + xs[n];
      assert |xs| * lo == n * lo + lo && |xs| * hi == n * hi + hi;
    }
  }

  lemma ProductBelow(a: real, b: real, n: real)
    requires n > 0.0 && a * n <= b * n
    ensures a <= b
  {
    assert (b - a) * n >= 0.0;
  }

  /** A mean of an integer sum between `n * lo` and `n * hi` rounds to between `lo` and `hi`. */
  lemma MeanBetween(s: int, n: nat, lo: int, hi: int)
    requires n > 0 && n * lo <= s <= n * hi
    ensures lo <= Round(s as real / n as real) <= hi
  {
    var m := s as real / n as real;
    assert m * n as real == s as real;
    assert (n * lo) as real == lo as real * n as real;
    assert (n * hi) as real == hi as real * n as real;
    ProductBelow(lo as real, m, n as real);
    ProductBelow(m, hi as real, n as real);
  }

  /** The rounded mean of values between `lo` and `hi` is between them too. */
  lemma RoundedMean(xs: seq<int>, lo: int, hi: int)
    requires |xs| > 0
    requires forall j :: 0 <= j < |xs| ==> lo <= xs[j] <= hi
    ensures lo <= Round(Sum(xs) as real / |xs| as real) <= hi
  {
    SumBounds(xs, lo, hi);
    MeanBetween(Sum(xs), |xs|, lo, hi);
  }

  /** `quickest` is the first workflow of shortest duration. */
  lemma QuickestIsFirstShortest(ws: seq<Workflow>)
    requires |ws| > 0
    ensures var q := InsightsOf(ws).efficiency.quickest;
      && q.Some?
      && (forall j :: 0 <= j < |ws| ==> ws[q.value].duration <= ws[j].duration)
      && (forall j :: 0 <= j < q.value ==> ws[j].duration > ws[q.value].duration)
  {
    var ds := Durations(ws);
    FirstMinIsEarliestMinimum(ds);
    var q := FirstMin(ds).value;
    forall j | 0 <= j < |ws| ensures ws[q].duration <= ws[j].duration {
      assert ds[j] == ws[j].duration;
    }
    forall j | 0 <= j < q ensures ws[j].duration > ws[q].duration {
      assert ds[j] == ws[j].duration;
    }
  }

  /** `longest` is the first workflow of longest duration. */
  lemma LongestIsFirstLongest(ws: seq<Workflow>)
    requires |ws| > 0
    ensures var l := InsightsOf(ws).efficiency.longest;
      && l.Some?
      && (forall j :: 0 <= j < |ws| ==> ws[l.value].duration >= ws[j].duration)
      && (forall j :: 0 <= j < l.value ==> ws[j].duration < ws[l.value].duration)
  {
    var ds := Durations(ws);
    FirstMaxIsEarliestMaximum(ds);
    var l := FirstMax(ds).value;
    forall j | 0 <= j < |ws| ensures ws[l].duration >= ws[j].duration {
      assert ds[j] == ws[j].duration;
    }
    forall j | 0 <= j < l ensures ws[j].duration < ws[l].duration {
      assert ds[j] == ws[j].duration;
    }
  }

  /** `mostActions` is the first workflow with the most actions. */
  lemma MostActionsIsFirstBusiest(ws: seq<Workflow>)
    requires |ws| > 0
    ensures var m := InsightsOf(ws).efficiency.mostActions;
      && m.Some?
      && (forall j :: 0 <= j < |ws| ==> ws[m.value].actionCount >= ws[j].actionCount)
      && (forall j :: 0 <= j < m.value ==> ws[j].actionCount < ws[m.value].actionCount)
  {
    var cs := ActionCounts(ws);
    FirstMaxIsEarliestMaximum(cs);
    var m := FirstMax(cs).value;
    forall j | 0 <= j < |ws| ensures ws[m].actionCount >= ws[j].actionCount {
      assert cs[j] == ws[j].actionCount;
    }
    forall j | 0 <= j < m ensures ws[j].actionCount < ws[m].actionCount {
      assert cs[j] == ws[j].actionCount;
    }
  }

  /**
   * The average duration lies between the quickest and the longest workflow's, and the
   * average action count is at most that of `mostActions`.
   */
  lemma AveragesBetweenRecords(ws: seq<Workflow>)
    requires |ws| > 0
    ensures var i := InsightsOf(ws);
      && i.efficiency.quickest.Some? && i.efficiency.longest.Some? && i.efficiency.mostActions.Some?
      && ws[i.efficiency.quickest.value].duration <= i.averageDuration <= ws[i.efficiency.longest.value].duration
      && i.averageActions <= ws[i.efficiency.mostActions.value].actionCount
  {
    var ds, cs := Durations(ws), ActionCounts(ws);
    FirstMinIsEarliestMinimum(ds);
    FirstMaxIsEarliestMaximum(ds);
    FirstMinIsEarliestMinimum(cs);
    FirstMaxIsEarliestMaximum(cs);
    RoundedMean(ds, ds[FirstMin(ds).value], ds[FirstMax(ds).value]);
    RoundedMean(cs, cs[FirstMin(cs).value], cs[FirstMax(cs).value]);
  }

  // ---------------------------------------------------------------------------------------
  // validateExportData

  const MissingWorkflow := "Données de workflow manquantes"
  const NoActions := "Aucune action à exporter"

  /** `validateExportData`: the workflow must be present, then a non-empty action list. */
  function ValidateExportData(data: WorkflowData): (r: Outcome<string>)
    ensures r.Pass? <==> data.workflow.Some? && data.actions.Some? && |data.actions.value| > 0
    ensures r == Fail(MissingWorkflow) <==> data.workflow.None?
    ensures r == Fail(NoActions) <==> data.workflow.Some? && (data.actions.None? || |data.actions.value| == 0)
  {
    if data.workflow.None? then Fail(MissingWorkflow)
    else if data.actions.None? || |data.actions.value| == 0 then Fail(NoActions)
    else Pass
  }

  /** Data that passes the check exports as CSV with at least one row after the header. */
  lemma ValidatedCsv(data: WorkflowData, iso: int -> string)
    requires ValidateExportData(data).Pass?
    ensures CsvFormatter.Format(data, iso).Some?
    ensures var content := CsvFormatter.Format(data, iso).value.content;
      |content| > |CsvFormatter.HeaderLine()| && content[|CsvFormatter.HeaderLine()|] == '\n'
  {
    var h := CsvFormatter.HeaderLine();
    var lines := CsvFormatter.RowLines(data.actions.value, iso);
    var parts := [h] + lines;
    assert parts[1..] == lines;
    assert CsvFormatter.CsvContent(data.actions, iso) == h + "\n" + Join(lines, "\n");
  }
}
