/**
 * The structural part of the RAG exporter: every action is matched to the page state
 * nearest in time, and actions are cut into groups of at most five on one page. From the
 * groups come the retrieval chunks, and from the actions the question/answer pairs,
 * together with the complexity estimate and the relevance score. The prose the exporter
 * writes into chunk contents and answers is not part of this model.
 */
module RagFormatter {
  import opened Wrappers
  import opened Text
  import opened OrderedIndex
  import opened Extremes
  import opened Records

  // ---------------------------------------------------------------------------
  // getPageForAction
  // ---------------------------------------------------------------------------

  function Abs(x: int): (r: nat)
    ensures r == x || r == -x
  {
    if x < 0 then -x else x
  }

  /** `Math.abs(state.timestamp - actionTime)` for every state, in order. */
  function Distances(states: seq<StateRecord>, t: int): (r: seq<int>)
    ensures |r| == |states|
    ensures forall i :: 0 <= i < |states| ==> r[i] == Abs(states[i].timestamp - t)
  {
    seq(|states|, i requires 0 <= i < |states| => Abs(states[i].timestamp - t))
  }

  /** The state `getPageForAction` returns, as its position in `states`; `None` is `null`. */
  function PageOf(a: ActionRecord, states: seq<StateRecord>): (r: Option<nat>)
    ensures r.Some? ==> r.value < |states|
  {
    FirstMin(Distances(states, a.timestamp))
  }

  /**
   * The scan of `getPageForAction`: `minDiff` starts at `Infinity` (here `None`) and a
   * state replaces the current one only when it is strictly closer.
   */
  method GetPageForAction(a: ActionRecord, states: seq<StateRecord>) returns (closest: Option<nat>)
    ensures closest == PageOf(a, states)
  {
    ghost var ds := Distances(states, a.timestamp);
    closest := None;
    var minDiff: Option<nat> := None;
    for i := 0 to |states|
      invariant closest == FirstMin(ds[..i])
      invariant minDiff.None? <==> closest.None?
      invariant closest.Some? ==> closest.value < i && minDiff.value == ds[closest.value]
    {
      assert ds[..i + 1][..i] == ds[..i];
      var stateDiff := Abs(states[i].timestamp - a.timestamp);
      if minDiff.None? || stateDiff < minDiff.value {
        minDiff := Some(stateDiff);
        closest := Some(i);
      }
    }
    assert ds[..|states|] == ds;
  }

  /**
   * The page of an action is `null` exactly when there are no states; otherwise it is a
   * state nearest in time to the action, and every earlier state is strictly farther.
   */
  lemma ClosestState(a: ActionRecord, states: seq<StateRecord>)
    ensures PageOf(a, states).None? <==> |states| == 0
    ensures PageOf(a, states).Some? ==>
      var p := PageOf(a, states).value;
      && (forall j :: 0 <= j < |states| ==>
            Abs(states[p].timestamp - a.timestamp) <= Abs(states[j].timestamp - a.timestamp))
      && (forall j :: 0 <= j < p ==>
            Abs(states[j].timestamp - a.timestamp) > Abs(states[p].timestamp - a.timestamp))
  {
    var ds := Distances(states, a.timestamp);
    if |states| > 0 {
      FirstMinIsEarliestMinimum(ds);
    }
  }

  // ---------------------------------------------------------------------------
  // groupActionsByContext
  // ---------------------------------------------------------------------------

  /** A group of `groupActionsByContext` before it is finalized. */
  datatype PendingGroup = PendingGroup(actions: seq<ActionRecord>, page: Option<nat>, startIndex: nat)

  /** Every fifth action opens a new group even on the same page. */
  const MaxGroupSize: nat := 5

  /**
   * Whether an action whose page is `p` opens a new group after the groups `gs`: there is
   * no group yet, the page changed, or the current group is full.
   */
  predicate OpensGroup(gs: seq<PendingGroup>, p: Option<nat>) {
    |gs| == 0 || p != gs[|gs| - 1].page || |gs[|gs| - 1].actions| >= MaxGroupSize
  }

  /** The groups formed from `actions`, where `pages[i]` is the page of `actions[i]`. */
  function Grouping(actions: seq<ActionRecord>, pages: seq<Option<nat>>): (r: seq<PendingGroup>)
    requires |pages| == |actions|
    ensures |r| == 0 <==> |actions| == 0
    decreases |actions|
  {
    if |actions| == 0 then []
    else
      var n := |actions| - 1;
      var g := Grouping(actions[..n], pages[..n]);
      if OpensGroup(g, pages[n]) then g + [PendingGroup([actions[n]], pages[n], n)]
      else g[..|g| - 1] + [g[|g| - 1].(actions := g[|g| - 1].actions + [actions[n]])]
  }

  /** The page of every action. */
  function Pages(actions: seq<ActionRecord>, states: seq<StateRecord>): (r: seq<Option<nat>>)
    ensures |r| == |actions|
    ensures forall i :: 0 <= i < |actions| ==> r[i] == PageOf(actions[i], states)
  {
    seq(|actions|, i requires 0 <= i < |actions| => PageOf(actions[i], states))
  }

  /** A finalized group: `stateContext` is the page state itself. */
  datatype Group = Group(
    title: string, actions: seq<ActionRecord>, stateContext: Option<StateRecord>,
    actionTypes: seq<string>)

  /** `actions.map(a => a.type)`. */
  function Kinds(actions: seq<ActionRecord>): (r: seq<string>)
    ensures |r| == |actions|
    ensures forall i :: 0 <= i < |actions| ==> r[i] == actions[i].kind
  {
    seq(|actions|, i requires 0 <= i < |actions| => actions[i].kind)
  }

  /** The state at a page position. */
  function PageState(states: seq<StateRecord>, p: Option<nat>): (r: Option<StateRecord>)
    ensures r.Some? <==> p.Some? && p.value < |states|
  {
    if p.Some? && p.value < |states| then Some(states[p.value]) else None
  }

  /** `group.page?.title || group.page?.urlPattern || 'Page'`. */
  function PageName(page: Option<StateRecord>): (r: string)
    ensures r != []
    ensures page.None? ==> r == "Page"
    ensures page.Some? && page.value.title != [] ==> r == page.value.title
  {
    match page
    case None => "Page"
    case Some(s) => OrElse(OrElse(s.title, s.urlPattern), "Page")
  }

  /** `generateGroupTitle`: the most significant kind of action names the group. */
  function GroupTitle(page: Option<StateRecord>, actions: seq<ActionRecord>): string {
    var types := FirstOccurrences(Kinds(actions));
    var name := PageName(page);
    if "navigation" in types then "Navigation vers " + name
    else if "submit" in types then "Validation sur " + name
    else if "input" in types then "Saisie sur " + name
    else if "click" in types then "Interactions sur " + name
    else "Actions sur " + name
  }

  /** Whether some action of `actions` has kind `k`. */
  predicate HasKind(actions: seq<ActionRecord>, k: string) {
    exists i :: 0 <= i < |actions| && actions[i].kind == k
  }

  /**
   * The wording `generateGroupTitle` gives a group, read off the actions directly: the
   * first of navigation, submit, input and click that some action has.
   */
  function TitleWording(actions: seq<ActionRecord>): string {
    if HasKind(actions, "navigation") then "Navigation vers "
    else if HasKind(actions, "submit") then "Validation sur "
    else if HasKind(actions, "input") then "Saisie sur "
    else if HasKind(actions, "click") then "Interactions sur "
    else "Actions sur "
  }

  /**
   * Testing the distinct kinds amounts to testing the actions: the title is the wording
   * of the most significant kind present followed by the page name.
   */
  lemma GroupTitlePriority(page: Option<StateRecord>, actions: seq<ActionRecord>)
    ensures GroupTitle(page, actions) == TitleWording(actions) + PageName(page)
  {
    KindPresent(actions, "navigation");
    KindPresent(actions, "submit");
    KindPresent(actions, "input");
    KindPresent(actions, "click");
  }

  /** A kind is among the distinct kinds exactly when some action has it. */
  lemma KindPresent(actions: seq<ActionRecord>, k: string)
    ensures k in FirstOccurrences(Kinds(actions)) <==> HasKind(actions, k)
  {
    var ks := Kinds(actions);
    FirstOccurrencesFacts(ks);
    if HasKind(actions, k) {
      var i :| 0 <= i < |actions| && actions[i].kind == k;
      assert ks[i] == k;
    }
  }

  /** `finalizeGroup`, without the keywords. */
  function FinalizeGroup(g: PendingGroup, states: seq<StateRecord>): (r: Group)
    ensures r.actions == g.actions
  {
    var page := PageState(states, g.page);
    Group(GroupTitle(page, g.actions), g.actions, page, FirstOccurrences(Kinds(g.actions)))
  }

  function FinalizeAll(gs: seq<PendingGroup>, states: seq<StateRecord>): (r: seq<Group>)
    ensures |r| == |gs|
    ensures forall k :: 0 <= k < |gs| ==> r[k] == FinalizeGroup(gs[k], states)
  {
    seq(|gs|, k requires 0 <= k < |gs| => FinalizeGroup(gs[k], states))
  }

  lemma FinalizeSnoc(gs: seq<PendingGroup>, states: seq<StateRecord>)
    requires |gs| > 0
    ensures FinalizeAll(gs[..|gs| - 1], states) + [FinalizeGroup(gs[|gs| - 1], states)] == FinalizeAll(gs, states)
  {
  }

  /** The groups that `groupActionsByContext` returns. */
  function GroupsOf(actions: seq<ActionRecord>, states: seq<StateRecord>): seq<Group> {
    FinalizeAll(Grouping(actions, Pages(actions, states)), states)
  }

  /** One step of `Grouping` on a prefix. */
  lemma GroupingStep(actions: seq<ActionRecord>, pages: seq<Option<nat>>, n: nat)
    requires |pages| == |actions| && n < |actions|
    ensures var g := Grouping(actions[..n], pages[..n]);
      Grouping(actions[..n + 1], pages[..n + 1]) ==
        if OpensGroup(g, pages[n]) then g + [PendingGroup([actions[n]], pages[n], n)]
        else g[..|g| - 1] + [g[|g| - 1].(actions := g[|g| - 1].actions + [actions[n]])]
  {
    assert actions[..n + 1][..n] == actions[..n];
    assert pages[..n + 1][..n] == pages[..n];
  }

  /**
   * `groupActionsByContext`: walk the actions with a current group, finalizing it when a
   * new one opens and once more at the end.
   */
  method GroupActionsByContext(actions: seq<ActionRecord>, states: seq<StateRecord>) returns (groups: seq<Group>)
    ensures groups == GroupsOf(actions, states)
  {
    ghost var pages := Pages(actions, states);
    groups := [];
    var current: Option<PendingGroup> := None;
    var currentPage: Option<nat> := None;
    for i := 0 to |actions|
      invariant GroupLoop(actions, pages, states, i, groups, current, currentPage)
    {
      var actionPage := GetPageForAction(actions[i], states);
      assert actionPage == pages[i];
      ghost var opens := current.None? || actionPage != currentPage || |current.value.actions| >= 5;
      ghost var next := if opens then PendingGroup([actions[i]], actionPage, i)
                        else current.value.(actions := current.value.actions + [actions[i]]);
      ghost var nextGroups := if opens && current.Some? then groups + [FinalizeGroup(current.value, states)] else groups;
      ghost var nextPage := if opens then actionPage else currentPage;
      GroupLoopStep(actions, pages, states, i, groups, current, currentPage);
      if current.None? || actionPage != currentPage || |current.value.actions| >= 5 {
        if current.Some? {
          groups := groups + [FinalizeGroup(current.value, states)];
        }
        current := Some(PendingGroup([], actionPage, i));
        currentPage := actionPage;
        assert [] + [actions[i]] == [actions[i]];
      }
      current := Some(current.value.(actions := current.value.actions + [actions[i]]));
      assert current == Some(next) && groups == nextGroups && currentPage == nextPage;
    }
    ghost var spec := Grouping(actions[..|actions|], pages[..|actions|]);
    assert actions[..|actions|] == actions;
    assert pages[..|actions|] == pages;
    if current.Some? {
      FinalizeSnoc(spec, states);
      groups := groups + [FinalizeGroup(current.value, states)];
    }
  }

  /**
   * What the loop of `groupActionsByContext` keeps after `i` actions: the current group is
   * the last group of the specification, and the finalized groups are all the others.
   */
  ghost predicate GroupLoop(actions: seq<ActionRecord>, pages: seq<Option<nat>>, states: seq<StateRecord>,
                            i: nat, groups: seq<Group>, current: Option<PendingGroup>, currentPage: Option<nat>) {
    && i <= |actions| && |pages| == |actions|
    && var spec := Grouping(actions[..i], pages[..i]);
    && (current.None? <==> |spec| == 0)
    && (current.None? ==> groups == [])
    && (current.Some? ==>
          current.value == spec[|spec| - 1] && currentPage == current.value.page
          && groups == FinalizeAll(spec[..|spec| - 1], states))
  }

  /** One iteration keeps `GroupLoop`: a new group opens, finalizing the current one, or the current one grows. */
  lemma GroupLoopStep(actions: seq<ActionRecord>, pages: seq<Option<nat>>, states: seq<StateRecord>,
                      i: nat, groups: seq<Group>, current: Option<PendingGroup>, currentPage: Option<nat>)
    requires i < |actions| && GroupLoop(actions, pages, states, i, groups, current, currentPage)
    ensures var opens := current.None? || pages[i] != currentPage || |current.value.actions| >= 5;
      var next := if opens then PendingGroup([actions[i]], pages[i], i)
                  else current.value.(actions := current.value.actions + [actions[i]]);
      GroupLoop(actions, pages, states, i + 1,
                if opens && current.Some? then groups + [FinalizeGroup(current.value, states)] else groups,
                Some(next), if opens then pages[i] else currentPage)
  {
    GroupingStep(actions, pages, i);
    var spec := Grouping(actions[..i], pages[..i]);
    var opens := current.None? || pages[i] != currentPage || |current.value.actions| >= 5;
    if opens {
      if current.Some? {
        FinalizeSnoc(spec, states);
      }
      var spec' := spec + [PendingGroup([actions[i]], pages[i], i)];
      assert spec'[..|spec'| - 1] == spec;
    } else {
      var spec' := spec[..|spec| - 1] + [spec[|spec| - 1].(actions := spec[|spec| - 1].actions + [actions[i]])];
      assert spec'[..|spec'| - 1] == spec[..|spec| - 1];
    }
  }

  /** The actions of the groups, concatenated in order. */
  function Flatten(gs: seq<PendingGroup>): seq<ActionRecord>
    decreases |gs|
  {
    if |gs| == 0 then [] else Flatten(gs[..|gs| - 1]) + gs[|gs| - 1].actions
  }

  lemma FlattenSnoc(gs: seq<PendingGroup>, g: PendingGroup)
    ensures Flatten(gs + [g]) == Flatten(gs) + g.actions
  {
    assert (gs + [g])[..|gs|] == gs;
  }

  /** Concatenating the groups gives back the actions, in order: none is lost, none repeated. */
  lemma {:induction false} GroupingKeepsActions(actions: seq<ActionRecord>, pages: seq<Option<nat>>)
    requires |pages| == |actions|
    ensures Flatten(Grouping(actions, pages)) == actions
    decreases |actions|
  {
    if |actions| > 0 {
      var n := |actions| - 1;
      var g := Grouping(actions[..n], pages[..n]);
      var r := Grouping(actions, pages);
      GroupingKeepsActions(actions[..n], pages[..n]);
      assert actions == actions[..n] + [actions[n]];
      if OpensGroup(g, pages[n]) {
        assert r == g + [PendingGroup([actions[n]], pages[n], n)];
        FlattenSnoc(g, PendingGroup([actions[n]], pages[n], n));
      } else {
        var m := |g| - 1;
        var last := g[m].(actions := g[m].actions + [actions[n]]);
        assert r == g[..m] + [last];
        FlattenSnoc(g[..m], last);
        assert g == g[..m] + [g[m]];
        FlattenSnoc(g[..m], g[m]);
        ActionsAssoc(Flatten(g[..m]), g[m].actions, [actions[n]]);
      }
    }
  }

  lemma ActionsAssoc(a: seq<ActionRecord>, b: seq<ActionRecord>, c: seq<ActionRecord>)
    ensures a + (b + c) == (a + b) + c
  {
  }

  /** `g` is the run of `actions` that starts at `g.startIndex`, all of it on page `g.page`. */
  predicate GroupAt(g: PendingGroup, actions: seq<ActionRecord>, pages: seq<Option<nat>>)
    requires |pages| == |actions|
  {
    && g.startIndex + |g.actions| <= |actions|
    && g.actions == actions[g.startIndex..g.startIndex + |g.actions|]
    && forall j :: g.startIndex <= j < g.startIndex + |g.actions| ==> pages[j] == g.page
  }

  lemma GroupAtWiden(g: PendingGroup, actions: seq<ActionRecord>, pages: seq<Option<nat>>, n: nat)
    requires |pages| == |actions| && n <= |actions|
    requires GroupAt(g, actions[..n], pages[..n])
    ensures GroupAt(g, actions, pages)
  {
    assert actions[..n][g.startIndex..g.startIndex + |g.actions|] == actions[g.startIndex..g.startIndex + |g.actions|];
    forall j | g.startIndex <= j < g.startIndex + |g.actions|
      ensures pages[j] == g.page
    {
      assert pages[..n][j] == pages[j];
    }
  }

  lemma GroupAtGrow(g: PendingGroup, actions: seq<ActionRecord>, pages: seq<Option<nat>>, n: nat)
    requires |pages| == |actions| && n == |actions| - 1
    requires GroupAt(g, actions[..n], pages[..n])
    requires g.startIndex + |g.actions| == n && pages[n] == g.page
    ensures GroupAt(g.(actions := g.actions + [actions[n]]), actions, pages)
  {
    GroupAtWiden(g, actions, pages, n);
    assert actions[g.startIndex..n + 1] == actions[g.startIndex..n] + [actions[n]];
  }

  /**
   * What the grouping guarantees: groups of one to five actions, each a contiguous run of
   * the input on one page, the runs following one another from the first action to the
   * last; a group is closed before it is full only at a change of page.
   */
  predicate WellGrouped(gs: seq<PendingGroup>, actions: seq<ActionRecord>, pages: seq<Option<nat>>)
    requires |pages| == |actions|
  {
    && (forall k :: 0 <= k < |gs| ==> 1 <= |gs[k].actions| <= MaxGroupSize && GroupAt(gs[k], actions, pages))
    && (|gs| > 0 ==> gs[0].startIndex == 0 && gs[|gs| - 1].startIndex + |gs[|gs| - 1].actions| == |actions|)
    && (forall k :: 0 <= k < |gs| - 1 ==> gs[k + 1].startIndex == gs[k].startIndex + |gs[k].actions|)
    && (forall k :: 0 <= k < |gs| - 1 ==> gs[k + 1].page != gs[k].page || |gs[k].actions| == MaxGroupSize)
  }

  /** A new group opened for the next action keeps the grouping well formed. */
  lemma OpenKeepsWellGrouped(g: seq<PendingGroup>, actions: seq<ActionRecord>, pages: seq<Option<nat>>, n: nat)
    requires |pages| == |actions| && n == |actions| - 1
    requires WellGrouped(g, actions[..n], pages[..n])
    requires |g| == 0 <==> n == 0
    requires OpensGroup(g, pages[n])
    ensures WellGrouped(g + [PendingGroup([actions[n]], pages[n], n)], actions, pages)
  {
    var newGroup := PendingGroup([actions[n]], pages[n], n);
    var r := g + [newGroup];
    forall k | 0 <= k < |r|
      ensures 1 <= |r[k].actions| <= MaxGroupSize && GroupAt(r[k], actions, pages)
    {
      if k < |g| {
        assert r[k] == g[k];
        GroupAtWiden(g[k], actions, pages, n);
      } else {
        assert r[k] == newGroup;
        assert actions[n..n + 1] == [actions[n]];
      }
    }
    forall k | 0 <= k < |r| - 1
      ensures r[k + 1].startIndex == r[k].startIndex + |r[k].actions|
      ensures r[k + 1].page != r[k].page || |r[k].actions| == MaxGroupSize
    {
      if k < |g| - 1 {
        assert r[k] == g[k] && r[k + 1] == g[k + 1];
      } else {
        assert r[k] == g[|g| - 1] && r[k + 1] == newGroup;
      }
    }
  }

  /** Adding the next action to the current group keeps the grouping well formed. */
  lemma ExtendKeepsWellGrouped(g: seq<PendingGroup>, actions: seq<ActionRecord>, pages: seq<Option<nat>>, n: nat)
    requires |pages| == |actions| && n == |actions| - 1
    requires WellGrouped(g, actions[..n], pages[..n])
    requires |g| > 0
    requires !OpensGroup(g, pages[n])
    ensures WellGrouped(g[..|g| - 1] + [g[|g| - 1].(actions := g[|g| - 1].actions + [actions[n]])], actions, pages)
  {
    var m := |g| - 1;
    var last := g[m].(actions := g[m].actions + [actions[n]]);
    var r := g[..m] + [last];
    forall k | 0 <= k < |r|
      ensures 1 <= |r[k].actions| <= MaxGroupSize && GroupAt(r[k], actions, pages)
    {
      if k < m {
        assert r[k] == g[k];
        GroupAtWiden(g[k], actions, pages, n);
      } else {
        assert r[k] == last;
        GroupAtGrow(g[m], actions, pages, n);
      }
    }
    forall k | 0 <= k < |r| - 1
      ensures r[k + 1].startIndex == r[k].startIndex + |r[k].actions|
      ensures r[k + 1].page != r[k].page || |r[k].actions| == MaxGroupSize
    {
      assert r[k] == g[k];
      if k + 1 < m {
        assert r[k + 1] == g[k + 1];
      } else {
        assert r[k + 1] == last;
      }
    }
  }

  /** `Grouping` is always well formed. */
  lemma {:induction false} GroupingWellGrouped(actions: seq<ActionRecord>, pages: seq<Option<nat>>)
    requires |pages| == |actions|
    ensures WellGrouped(Grouping(actions, pages), actions, pages)
    decreases |actions|
  {
    if |actions| > 0 {
      var n := |actions| - 1;
      var g := Grouping(actions[..n], pages[..n]);
      GroupingWellGrouped(actions[..n], pages[..n]);
      if OpensGroup(g, pages[n]) {
        var r := g + [PendingGroup([actions[n]], pages[n], n)];
        assert Grouping(actions, pages) == r;
        OpenKeepsWellGrouped(g, actions, pages, n);
      } else {
        var r := g[..|g| - 1] + [g[|g| - 1].(actions := g[|g| - 1].actions + [actions[n]])];
        assert Grouping(actions, pages) == r;
        ExtendKeepsWellGrouped(g, actions, pages, n);
      }
    }
  }

  /** The actions of the groups returned, concatenated in order. */
  function GroupActions(gs: seq<Group>): seq<ActionRecord>
    decreases |gs|
  {
    if |gs| == 0 then [] else GroupActions(gs[..|gs| - 1]) + gs[|gs| - 1].actions
  }

  lemma {:induction false} FinalizeKeepsActions(gs: seq<PendingGroup>, states: seq<StateRecord>)
    ensures GroupActions(FinalizeAll(gs, states)) == Flatten(gs)
    decreases |gs|
  {
    if |gs| > 0 {
      var m := |gs| - 1;
      FinalizeKeepsActions(gs[..m], states);
      assert FinalizeAll(gs, states)[..m] == FinalizeAll(gs[..m], states);
    }
  }

  /** The groups returned hold every action once and in order. */
  lemma GroupsKeepActions(actions: seq<ActionRecord>, states: seq<StateRecord>)
    ensures GroupActions(GroupsOf(actions, states)) == actions
  {
    var pages := Pages(actions, states);
    GroupingKeepsActions(actions, pages);
    FinalizeKeepsActions(Grouping(actions, pages), states);
  }

  /** There is a group exactly when there is an action, and every group has one to five. */
  lemma GroupSizes(actions: seq<ActionRecord>, states: seq<StateRecord>)
    ensures |GroupsOf(actions, states)| == 0 <==> |actions| == 0
    ensures forall k :: 0 <= k < |GroupsOf(actions, states)| ==>
      1 <= |GroupsOf(actions, states)[k].actions| <= MaxGroupSize
  {
    var pages := Pages(actions, states);
    var gs := Grouping(actions, pages);
    GroupingWellGrouped(actions, pages);
    forall k | 0 <= k < |gs|
      ensures 1 <= |GroupsOf(actions, states)[k].actions| <= MaxGroupSize
    {
      assert GroupsOf(actions, states)[k].actions == gs[k].actions;
    }
  }

  /** Every action of a group has the group's state as its nearest state. */
  lemma GroupPage(actions: seq<ActionRecord>, states: seq<StateRecord>, k: nat, j: nat)
    requires k < |GroupsOf(actions, states)| && j < |GroupsOf(actions, states)[k].actions|
    ensures GroupsOf(actions, states)[k].stateContext ==
      PageState(states, PageOf(GroupsOf(actions, states)[k].actions[j], states))
  {
    var pages := Pages(actions, states);
    var gs := Grouping(actions, pages);
    GroupingWellGrouped(actions, pages);
    assert GroupAt(gs[k], actions, pages);
    var x := gs[k].startIndex + j;
    assert gs[k].actions[j] == actions[x];
    assert pages[x] == gs[k].page;
  }

  /**
   * Two neighbouring groups lie on different pages (positions of `states`) unless the
   * first is full.
   */
  lemma GroupsSplitAtPageChange(actions: seq<ActionRecord>, states: seq<StateRecord>, k: nat)
    requires k + 1 < |Grouping(actions, Pages(actions, states))|
    ensures var gs := Grouping(actions, Pages(actions, states));
      gs[k + 1].page != gs[k].page || |gs[k].actions| == MaxGroupSize
  {
    GroupingWellGrouped(actions, Pages(actions, states));
  }

  // ---------------------------------------------------------------------------
  // countUniquePages, getInteractionTypes, calculateComplexity
  // ---------------------------------------------------------------------------

  /** `s.urlPattern || s.url` for every state. */
  function PageKeys(states: seq<StateRecord>): (r: seq<string>)
    ensures |r| == |states|
    ensures forall i :: 0 <= i < |states| ==> r[i] == OrElse(states[i].urlPattern, states[i].url)
  {
    seq(|states|, i requires 0 <= i < |states| => OrElse(states[i].urlPattern, states[i].url))
  }

  /** `countUniquePages`: 0 when the states are missing. */
  function CountUniquePages(states: Option<seq<StateRecord>>): nat {
    match states
    case None => 0
    case Some(ss) => |FirstOccurrences(PageKeys(ss))|
  }

  /**
   * The count is the number of distinct page keys, at most the number of states, and 0
   * only when there are none.
   */
  lemma UniquePagesCount(states: seq<StateRecord>)
    ensures CountUniquePages(Some(states)) == |set k | k in PageKeys(states)|
    ensures CountUniquePages(Some(states)) <= |states|
    ensures CountUniquePages(Some(states)) == 0 <==> |states| == 0
  {
    var keys := PageKeys(states);
    DistinctCount(keys);
    FirstOccurrencesFacts(keys);
    if |states| > 0 {
      assert keys[0] in FirstOccurrences(keys);
    }
  }

  /** `getInteractionTypes`: the distinct action kinds in order of first appearance. */
  function GetInteractionTypes(actions: seq<ActionRecord>): seq<string> {
    FirstOccurrences(Kinds(actions))
  }

  /** The kinds are listed once each, and a kind is listed exactly when some action has it. */
  lemma InteractionTypesDistinct(actions: seq<ActionRecord>)
    ensures NoDuplicates(GetInteractionTypes(actions))
    ensures forall k :: k in GetInteractionTypes(actions) <==> HasKind(actions, k)
    ensures |actions| > 0 ==> GetInteractionTypes(actions)[0] == actions[0].kind
  {
    var ks := Kinds(actions);
    FirstOccurrencesFacts(ks);
    forall k | true
      ensures k in GetInteractionTypes(actions) <==> HasKind(actions, k)
    {
      if HasKind(actions, k) {
        var i :| 0 <= i < |actions| && actions[i].kind == k;
        assert ks[i] == k;
      }
    }
    if |actions| > 0 {
      FirstOccurrencePrefix(ks);
    }
  }

  lemma {:induction false} FirstOccurrencePrefix(s: seq<string>)
    requires |s| > 0
    ensures |FirstOccurrences(s)| > 0 && FirstOccurrences(s)[0] == s[0]
    decreases |s|
  {
    if |s| > 1 {
      var p := s[..|s| - 1];
      FirstOccurrencePrefix(p);
      assert p[0] == s[0];
    }
  }

  /** The three estimates of `calculateComplexity`. */
  datatype Complexity = Simple | Medium | Complex {
    function Name(): string {
      match this
      case Simple => "simple"
      case Medium => "medium"
      case Complex => "complex"
    }

    function Rank(): nat {
      match this
      case Simple => 0
      case Medium => 1
      case Complex => 2
    }
  }

  predicate IsFormAction(a: ActionRecord) {
    a.kind == "input" || a.kind == "submit" || a.kind == "change"
  }

  /** The score of `calculateComplexity`. */
  function ComplexityScore(actions: seq<ActionRecord>, states: seq<StateRecord>): nat {
    var actionCount := |actions|;
    var uniquePages := CountUniquePages(Some(states));
    var interactionTypes := |FirstOccurrences(Kinds(actions))|;
    var formInteractions := |Filter(actions, IsFormAction)|;
    (if actionCount > 20 then 2 else if actionCount > 10 then 1 else 0)
    + (if uniquePages > 3 then 2 else if uniquePages > 1 then 1 else 0)
    + interactionTypes
    + (if formInteractions > 5 then 2 else 0)
  }

  function CalculateComplexity(actions: seq<ActionRecord>, states: seq<StateRecord>): (r: Complexity)
    ensures r == Simple <==> ComplexityScore(actions, states) <= 3
    ensures r == Complex <==> ComplexityScore(actions, states) > 7
  {
    var score := ComplexityScore(actions, states);
    if score <= 3 then Simple else if score <= 7 then Medium else Complex
  }

  /** Appending a kind never shrinks the list of distinct kinds. */
  lemma DistinctKindsGrow(actions: seq<ActionRecord>, a: ActionRecord)
    ensures |FirstOccurrences(Kinds(actions + [a]))| >= |FirstOccurrences(Kinds(actions))|
  {
    var ks := Kinds(actions + [a]);
    assert ks[..|actions|] == Kinds(actions);
  }

  lemma FormActionsGrow(actions: seq<ActionRecord>, a: ActionRecord)
    ensures |Filter(actions + [a], IsFormAction)| >= |Filter(actions, IsFormAction)|
  {
    assert (actions + [a])[..|actions|] == actions;
  }

  /** Recording one more action never makes a workflow look simpler. */
  lemma ComplexityMonotone(actions: seq<ActionRecord>, a: ActionRecord, states: seq<StateRecord>)
    ensures CalculateComplexity(actions + [a], states).Rank() >= CalculateComplexity(actions, states).Rank()
  {
    DistinctKindsGrow(actions, a);
    FormActionsGrow(actions, a);
  }

  // ---------------------------------------------------------------------------
  // calculateRelevanceScore and generateChunks
  // ---------------------------------------------------------------------------

  function MinReal(a: real, b: real): (r: real)
    ensures r <= a && r <= b && (r == a || r == b)
  {
    if a <= b then a else b
  }

  /**
   * `calculateRelevanceScore`: a tenth per action up to 1, plus a fifth per kind up to
   * 0.3, capped at 1.
   */
  function CalculateRelevanceScore(g: Group): (r: real)
    ensures 0.0 <= r <= 1.0
    ensures |g.actions| >= 10 ==> r == 1.0
  {
    MinReal(MinReal(|g.actions| as real / 10.0, 1.0) + MinReal(|g.actionTypes| as real / 5.0, 0.3), 1.0)
  }

  /**
   * For a group of the grouping the score lies in [0.3, 0.8]: it has one to five actions
   * and at least one kind.
   */
  lemma GroupRelevanceRange(actions: seq<ActionRecord>, states: seq<StateRecord>, k: nat)
    requires k < |GroupsOf(actions, states)|
    ensures 0.3 <= CalculateRelevanceScore(GroupsOf(actions, states)[k]) <= 0.8
  {
    GroupSizes(actions, states);
    var g := GroupsOf(actions, states)[k];
    var ks := Kinds(g.actions);
    assert g.actionTypes == FirstOccurrences(ks);
    FirstOccurrencesFacts(ks);
    assert ks[0] in g.actionTypes;
    assert |g.actionTypes| >= 1;
  }

  /** The three kinds of chunk. */
  datatype ChunkKind = Introduction | ProcedureStep | Conclusion {
    function Name(): string {
      match this
      case Introduction => "introduction"
      case ProcedureStep => "procedure_step"
      case Conclusion => "conclusion"
    }
  }

  /**
   * A chunk without its content and keywords; `actionIds` is `actions_ids` (empty for the
   * introduction and the conclusion, which have none).
   */
  datatype Chunk = Chunk(
    chunkId: nat, kind: ChunkKind, title: string, actionIds: seq<string>,
    stateContext: Option<StateRecord>, relevance: real)

  function Ids(actions: seq<ActionRecord>): (r: seq<string>)
    ensures |r| == |actions|
    ensures forall i :: 0 <= i < |actions| ==> r[i] == actions[i].id
  {
    seq(|actions|, i requires 0 <= i < |actions| => actions[i].id)
  }

  function IntroChunk(w: Workflow): Chunk {
    Chunk(1, Introduction, "Introduction: " + w.title, [], None, 1.0)
  }

  function StepChunk(g: Group, id: nat): Chunk {
    Chunk(id, ProcedureStep, g.title, Ids(g.actions), g.stateContext, CalculateRelevanceScore(g))
  }

  function StepChunks(gs: seq<Group>): (r: seq<Chunk>)
    ensures |r| == |gs|
    ensures forall i :: 0 <= i < |gs| ==> r[i] == StepChunk(gs[i], i + 2)
  {
    seq(|gs|, i requires 0 <= i < |gs| => StepChunk(gs[i], i + 2))
  }

  function ConclusionChunk(w: Workflow, id: nat): Chunk {
    Chunk(id, Conclusion, "Validation: " + w.title, [], None, 0.9)
  }

  /**
   * The chunks of `generateChunks`; `None` when it throws, which is when the workflow is
   * missing or, through the introduction's `actions.length`, the actions are.
   */
  function ChunksOf(data: WorkflowData): (r: Option<seq<Chunk>>)
    ensures r.None? <==> data.workflow.None? || data.actions.None?
  {
    if data.workflow.None? || data.actions.None? then None
    else
      var w := data.workflow.value;
      var groups := GroupsOf(data.actions.value, data.states.GetOr([]));
      Some([IntroChunk(w)] + StepChunks(groups) + [ConclusionChunk(w, |groups| + 2)])
  }

  /** `generateChunks`: the introduction, one chunk per group, then the conclusion. */
  method GenerateChunks(data: WorkflowData) returns (r: Option<seq<Chunk>>)
    ensures r == ChunksOf(data)
  {
    if data.workflow.None? || data.actions.None? {
      return None;
    }
    var w := data.workflow.value;
    var actions := data.actions.value;
    var states := data.states.GetOr([]);
    var chunks := [IntroChunk(w)];
    var groups := GroupActionsByContext(actions, states);
    for i := 0 to |groups|
      invariant chunks == [IntroChunk(w)] + StepChunks(groups[..i])
    {
      assert StepChunks(groups[..i + 1]) == StepChunks(groups[..i]) + [StepChunk(groups[i], i + 2)];
      chunks := chunks + [StepChunk(groups[i], i + 2)];
    }
    assert groups[..|groups|] == groups;
    chunks := chunks + [ConclusionChunk(w, |chunks| + 1)];
    return Some(chunks);
  }

  /** The action ids of the chunks, concatenated in order. */
  function ChunkIds(cs: seq<Chunk>): seq<string>
    decreases |cs|
  {
    if |cs| == 0 then [] else ChunkIds(cs[..|cs| - 1]) + cs[|cs| - 1].actionIds
  }

  lemma ChunkIdsSnoc(cs: seq<Chunk>, c: Chunk)
    ensures ChunkIds(cs + [c]) == ChunkIds(cs) + c.actionIds
  {
    assert (cs + [c])[..|cs|] == cs;
  }

  lemma {:induction false} IdsConcat(a: seq<ActionRecord>, b: seq<ActionRecord>)
    ensures Ids(a + b) == Ids(a) + Ids(b)
  {
  }

  /** The introduction carries no ids; each step chunk carries its group's. */
  lemma {:induction false} StepChunkIds(w: Workflow, gs: seq<Group>)
    ensures ChunkIds([IntroChunk(w)] + StepChunks(gs)) == Ids(GroupActions(gs))
    decreases |gs|
  {
    var intro := IntroChunk(w);
    if |gs| == 0 {
      assert [intro] + StepChunks(gs) == [] + [intro];
      ChunkIdsSnoc([], intro);
    } else {
      var m := |gs| - 1;
      StepChunkIds(w, gs[..m]);
      assert StepChunks(gs) == StepChunks(gs[..m]) + [StepChunk(gs[m], m + 2)];
      assert [intro] + StepChunks(gs) == ([intro] + StepChunks(gs[..m])) + [StepChunk(gs[m], m + 2)];
      ChunkIdsSnoc([intro] + StepChunks(gs[..m]), StepChunk(gs[m], m + 2));
      IdsConcat(GroupActions(gs[..m]), gs[m].actions);
    }
  }

  /**
   * When `generateChunks` returns, there are two chunks more than groups, numbered 1, 2, …
   * in order: the introduction first with relevance 1, then the procedure steps, then
   * the conclusion with relevance 0.9.
   */
  lemma ChunkNumbering(data: WorkflowData)
    requires data.workflow.Some? && data.actions.Some?
    ensures var cs := ChunksOf(data).value;
      && |cs| == |GroupsOf(data.actions.value, data.states.GetOr([]))| + 2
      && (forall i :: 0 <= i < |cs| ==> cs[i].chunkId == i + 1)
      && cs[0].kind == Introduction && cs[0].relevance == 1.0
      && cs[0].title == "Introduction: " + data.workflow.value.title
      && cs[|cs| - 1].kind == Conclusion && cs[|cs| - 1].relevance == 0.9
      && cs[|cs| - 1].title == "Validation: " + data.workflow.value.title
      && (forall i :: 1 <= i < |cs| - 1 ==> cs[i].kind == ProcedureStep)
  {
    var w := data.workflow.value;
    var groups := GroupsOf(data.actions.value, data.states.GetOr([]));
    var steps := StepChunks(groups);
    var cs := ChunksOf(data).value;
    assert cs == ([IntroChunk(w)] + steps) + [ConclusionChunk(w, |groups| + 2)];
    forall i | 1 <= i < |cs| - 1
      ensures cs[i].chunkId == i + 1 && cs[i].kind == ProcedureStep
    {
      assert cs[i] == steps[i - 1];
    }
  }

  /** A procedure-step chunk has relevance between 0.3 and 0.8. */
  lemma ChunkRelevance(data: WorkflowData, i: nat)
    requires data.workflow.Some? && data.actions.Some?
    requires 1 <= i < |ChunksOf(data).value| - 1
    ensures 0.3 <= ChunksOf(data).value[i].relevance <= 0.8
  {
    var groups := ChunksMiddle(data, i);
    GroupRelevanceRange(data.actions.value, data.states.GetOr([]), i - 1);
  }

  /** The chunks between the introduction and the conclusion are the step chunks. */
  lemma ChunksMiddle(data: WorkflowData, i: nat) returns (groups: seq<Group>)
    requires data.workflow.Some? && data.actions.Some?
    requires 1 <= i < |ChunksOf(data).value| - 1
    ensures groups == GroupsOf(data.actions.value, data.states.GetOr([]))
    ensures i - 1 < |groups| && ChunksOf(data).value[i] == StepChunk(groups[i - 1], i + 1)
  {
    var w := data.workflow.value;
    groups := GroupsOf(data.actions.value, data.states.GetOr([]));
    var steps := StepChunks(groups);
    MiddleElement(IntroChunk(w), steps, ConclusionChunk(w, |groups| + 2), i);
  }

  lemma MiddleElement<T>(first: T, mid: seq<T>, last: T, i: nat)
    requires 1 <= i <= |mid|
    ensures ([first] + mid + [last])[i] == mid[i - 1]
  {
  }

  /** The chunks' `actions_ids`, concatenated, are the ids of all actions in order. */
  lemma ChunkActionIds(data: WorkflowData)
    requires data.workflow.Some? && data.actions.Some?
    ensures ChunkIds(ChunksOf(data).value) == Ids(data.actions.value)
  {
    var w := data.workflow.value;
    var actions := data.actions.value;
    var states := data.states.GetOr([]);
    var groups := GroupsOf(actions, states);
    var steps := StepChunks(groups);
    var last := ConclusionChunk(w, |groups| + 2);
    assert ChunksOf(data).value == ([IntroChunk(w)] + steps) + [last];
    ChunkIdsSnoc([IntroChunk(w)] + steps, last);
    StepChunkIds(w, groups);
    GroupsKeepActions(actions, states);
  }

  // ---------------------------------------------------------------------------
  // generateQAPairs
  // ---------------------------------------------------------------------------

  /** A question/answer pair without its answer; `actionType` is absent on the general one. */
  datatype QAPair = QAPair(question: string, context: string, actionType: Option<string>)

  /** `generateQuestionForAction`. */
  function QuestionForAction(a: ActionRecord, index: nat): string {
    "Étape " + NatToString(index + 1) + ": " +
      (if a.kind == "click" then "Où dois-je cliquer ?"
       else if a.kind == "input" then "Que dois-je saisir ?"
       else if a.kind == "change" then "Que dois-je sélectionner ?"
       else if a.kind == "submit" then "Comment valider ?"
       else if a.kind == "navigation" then "Vers quelle page naviguer ?"
       else "Quelle action effectuer ?")
  }

  function GeneralPair(w: Workflow): QAPair {
    QAPair("Comment " + ToLower(w.title) + " ?", "general_procedure", None)
  }

  function StepPair(a: ActionRecord, index: nat): QAPair {
    QAPair(QuestionForAction(a, index), "step_" + NatToString(index + 1), Some(a.kind))
  }

  function StepPairs(actions: seq<ActionRecord>): (r: seq<QAPair>)
    ensures |r| == |actions|
    ensures forall i :: 0 <= i < |actions| ==> r[i] == StepPair(actions[i], i)
  {
    seq(|actions|, i requires 0 <= i < |actions| => StepPair(actions[i], i))
  }

  /**
   * The pairs of `generateQAPairs`; `None` when it throws: a missing workflow, or missing
   * actions, which the general answer's introduction text reads.
   */
  function QAPairsOf(data: WorkflowData): (r: Option<seq<QAPair>>)
    ensures r.None? <==> data.workflow.None? || data.actions.None?
  {
    if data.workflow.None? || data.actions.None? then None
    else Some([GeneralPair(data.workflow.value)] + StepPairs(data.actions.value))
  }

  /** `generateQAPairs`: the general question, then one per action. */
  method GenerateQAPairs(data: WorkflowData) returns (r: Option<seq<QAPair>>)
    ensures r == QAPairsOf(data)
  {
    if data.workflow.None? || data.actions.None? {
      return None;
    }
    var actions := data.actions.value;
    var pairs := [GeneralPair(data.workflow.value)];
    for i := 0 to |actions|
      invariant pairs == [GeneralPair(data.workflow.value)] + StepPairs(actions[..i])
    {
      assert StepPairs(actions[..i + 1]) == StepPairs(actions[..i]) + [StepPair(actions[i], i)];
      pairs := pairs + [StepPair(actions[i], i)];
    }
    assert actions[..|actions|] == actions;
    return Some(pairs);
  }

  /** Step contexts of different steps differ. */
  lemma StepContextsDiffer(i: nat, j: nat)
    requires i != j
    ensures "step_" + NatToString(i + 1) != "step_" + NatToString(j + 1)
  {
    var a, b := NatToString(i + 1), NatToString(j + 1);
    if "step_" + a == "step_" + b {
      assert a == ("step_" + a)[5..];
      assert b == ("step_" + b)[5..];
      NatToStringInjective(i + 1, j + 1);
    }
  }

  /**
   * There is one pair more than there are actions; the general pair comes first; pair
   * `i` for `i >= 1` is about action `i - 1`: its question is numbered `i` and its type is
   * that action's.
   */
  lemma QAPairsStructure(data: WorkflowData)
    requires data.workflow.Some? && data.actions.Some?
    ensures var ps := QAPairsOf(data).value; var actions := data.actions.value;
      && |ps| == |actions| + 1
      && ps[0].context == "general_procedure" && ps[0].actionType.None?
      && ps[0].question == "Comment " + ToLower(data.workflow.value.title) + " ?"
      && (forall i :: 1 <= i < |ps| ==>
            StartsWith(ps[i].question, "Étape " + NatToString(i) + ": ")
            && ps[i].actionType == Some(actions[i - 1].kind))
  {
    var ps := QAPairsOf(data).value;
    var actions := data.actions.value;
    forall i | 1 <= i < |ps|
      ensures StartsWith(ps[i].question, "Étape " + NatToString(i) + ": ")
      ensures ps[i].actionType == Some(actions[i - 1].kind)
    {
      var p := "Étape " + NatToString(i) + ": ";
      assert ps[i] == StepPair(actions[i - 1], i - 1);
      assert ps[i].question[..|p|] == p;
    }
  }

  /** Two pairs never share a context. */
  lemma QAContextPair(data: WorkflowData, i: nat, j: nat)
    requires data.workflow.Some? && data.actions.Some?
    requires i < j < |QAPairsOf(data).value|
    ensures QAPairsOf(data).value[i].context != QAPairsOf(data).value[j].context
  {
    PairContext(data, i);
    PairContext(data, j);
    if i == 0 {
      assert ("step_" + NatToString(j))[0] == 's';
    } else {
      StepContextsDiffer(i - 1, j - 1);
    }
  }

  /** The context of pair `k`: the general one first, then `step_k`. */
  lemma PairContext(data: WorkflowData, k: nat)
    requires data.workflow.Some? && data.actions.Some?
    requires k < |QAPairsOf(data).value|
    ensures QAPairsOf(data).value[k].context == if k == 0 then "general_procedure" else "step_" + NatToString(k)
  {
    var steps := StepPairs(data.actions.value);
    assert QAPairsOf(data).value == [GeneralPair(data.workflow.value)] + steps;
    if k > 0 {
      assert QAPairsOf(data).value[k] == steps[k - 1];
    }
  }

  /** No two pairs share a context. */
  lemma QAContextsDistinct(data: WorkflowData)
    requires data.workflow.Some? && data.actions.Some?
    ensures var ps := QAPairsOf(data).value;
      forall i, j :: 0 <= i < j < |ps| ==> ps[i].context != ps[j].context
  {
    forall i, j | 0 <= i < j < |QAPairsOf(data).value|
      ensures QAPairsOf(data).value[i].context != QAPairsOf(data).value[j].context
    {
      QAContextPair(data, i, j);
    }
  }
}
