/**
 * The list and string logic of `RagHtmlFormatter` in `export-manager.js`: the timeline
 * that interleaves states with the actions recorded after them, the one-line description
 * of an action, and the HTML rendering of a markdown diff.
 */
module RagHtmlFormatter {
  import opened Wrappers
  import opened Text
  import opened Sorting
  import opened OrderedIndex
  import opened BlockParser
  import opened BlockDiff
  import opened Records

  // ---------------------------------------------------------------------------
  // buildChronologicalTimeline

  datatype TimelineEntry = StateEntry(state: StateRecord, isFirst: bool) | ActionEntry(action: ActionRecord)

  /** `(s.sequenceNumber || 0)`. */
  function StateSeq(s: StateRecord): int { s.sequenceNumber }

  /** `(a.sequenceNumber || 0)`. */
  function ActionSeq(a: ActionRecord): int { a.sequenceNumber }

  /** `(a.timestamp || 0)`. */
  function ActionTime(a: ActionRecord): int { a.timestamp }

  /** `!a.etatAvantId`. */
  predicate IsOrphan(a: ActionRecord) {
    a.etatAvantId.None? || a.etatAvantId.value == ""
  }

  /** `a.etatAvantId === state.id`. */
  predicate Follows(a: ActionRecord, s: StateRecord) {
    a.etatAvantId == Some(s.id)
  }

  /** The actions recorded after `s`, by sequence number. */
  function ActionsAfter(actions: seq<ActionRecord>, s: StateRecord): seq<ActionRecord> {
    SortBy(Filter(actions, a => Follows(a, s)), ActionSeq)
  }

  /** The actions with no state before them, by timestamp. */
  function Orphans(actions: seq<ActionRecord>): seq<ActionRecord> {
    SortBy(Filter(actions, IsOrphan), ActionTime)
  }

  function ActionEntries(actions: seq<ActionRecord>): (r: seq<TimelineEntry>)
    ensures |r| == |actions| && forall i :: 0 <= i < |actions| ==> r[i] == ActionEntry(actions[i])
  {
    seq(|actions|, i requires 0 <= i < |actions| => ActionEntry(actions[i]))
  }

  /** `state.isFirstOfUrl`. */
  predicate IsFirstOfUrl(s: StateRecord) {
    s.annotation.FirstOfUrl?
  }

  /** The entries pushed for one sorted state: the state, then the actions recorded after it. */
  function StatePart(s: StateRecord, index: nat, actions: seq<ActionRecord>): seq<TimelineEntry> {
    [StateEntry(s, IsFirstOfUrl(s) || index == 0)] + ActionEntries(ActionsAfter(actions, s))
  }

  /** The entries for the sorted states, in order. */
  function StateParts(sorted: seq<StateRecord>, actions: seq<ActionRecord>): seq<TimelineEntry>
    decreases |sorted|
  {
    if |sorted| == 0 then []
    else
      var i := |sorted| - 1;
      StateParts(sorted[..i], actions) + StatePart(sorted[i], i, actions)
  }

  function SortedStates(states: seq<StateRecord>): seq<StateRecord> {
    SortBy(states, StateSeq)
  }

  /** The timeline `buildChronologicalTimeline` returns. */
  function Timeline(states: seq<StateRecord>, actions: seq<ActionRecord>): seq<TimelineEntry> {
    StateParts(SortedStates(states), actions) + ActionEntries(Orphans(actions))
  }

  lemma StatePartsStep(sorted: seq<StateRecord>, i: nat, actions: seq<ActionRecord>, timeline: seq<TimelineEntry>, part: seq<TimelineEntry>)
    requires i < |sorted| && timeline == StateParts(sorted[..i], actions)
    requires part == StatePart(sorted[i], i, actions)
    ensures timeline + part == StateParts(sorted[..i + 1], actions)
  {
    assert sorted[..i + 1][..i] == sorted[..i];
  }

  lemma TimelineOfParts(states: seq<StateRecord>, sorted: seq<StateRecord>, i: nat, actions: seq<ActionRecord>, timeline: seq<TimelineEntry>)
    requires sorted == SortedStates(states) && i == |sorted| && timeline == StateParts(sorted[..i], actions)
    ensures timeline + ActionEntries(Orphans(actions)) == Timeline(states, actions)
  {
    assert sorted[..i] == sorted;
  }

  /** Pushes an action entry for each of `xs`, in order. */
  method PushActions(timeline: seq<TimelineEntry>, xs: seq<ActionRecord>) returns (r: seq<TimelineEntry>)
    ensures r == timeline + ActionEntries(xs)
  {
    r := timeline;
    var j := 0;
    while j < |xs|
      invariant 0 <= j <= |xs|
      invariant r == timeline + ActionEntries(xs[..j])
    {
      r := r + [ActionEntry(xs[j])];
      assert xs[..j + 1] == xs[..j] + [xs[j]];
      j := j + 1;
    }
    assert xs[..j] == xs;
  }

  /** `buildChronologicalTimeline`. */
  method BuildChronologicalTimeline(states: seq<StateRecord>, actions: seq<ActionRecord>) returns (timeline: seq<TimelineEntry>)
    ensures timeline == Timeline(states, actions)
  {
    var sortedStates := SortBy(states, StateSeq);
    timeline := PushStateParts(sortedStates, actions);
    assert sortedStates[..|sortedStates|] == sortedStates;
    TimelineOfParts(states, sortedStates, |sortedStates|, actions, timeline);
    var orphanActions := Orphans(actions);
    timeline := PushActions(timeline, orphanActions);
  }

  /** The loop of `buildChronologicalTimeline` over the sorted states. */
  method PushStateParts(sortedStates: seq<StateRecord>, actions: seq<ActionRecord>) returns (timeline: seq<TimelineEntry>)
    ensures timeline == StateParts(sortedStates, actions)
  {
    timeline := [];
    var i := 0;
    while i < |sortedStates|
      invariant 0 <= i <= |sortedStates|
      invariant timeline == StateParts(sortedStates[..i], actions)
    {
      var state := sortedStates[i];
      var actionsAfterState := ActionsAfter(actions, state);
      var part := PushActions([StateEntry(state, IsFirstOfUrl(state) || i == 0)], actionsAfterState);
      StatePartsStep(sortedStates, i, actions, timeline, part);
      timeline := timeline + part;
      i := i + 1;
    }
    assert sortedStates[..i] == sortedStates;
  }

  /** The states listed in a run of entries, in order. */
  function StatesIn(entries: seq<TimelineEntry>): seq<StateRecord>
    decreases |entries|
  {
    if |entries| == 0 then []
    else StatesIn(entries[..|entries| - 1]) + (if entries[|entries| - 1].StateEntry? then [entries[|entries| - 1].state] else [])
  }

  lemma {:induction false} StatesInConcat(a: seq<TimelineEntry>, b: seq<TimelineEntry>)
    ensures StatesIn(a + b) == StatesIn(a) + StatesIn(b)
    decreases |b|
  {
    if |b| == 0 {
      assert a + b == a;
    } else {
      var b' := b[..|b| - 1];
      assert (a + b)[..|a + b| - 1] == a + b';
      StatesInConcat(a, b');
    }
  }

  lemma {:induction false} StatesInActions(xs: seq<ActionRecord>)
    ensures StatesIn(ActionEntries(xs)) == []
    decreases |xs|
  {
    if |xs| > 0 {
      assert ActionEntries(xs)[..|xs| - 1] == ActionEntries(xs[..|xs| - 1]);
      StatesInActions(xs[..|xs| - 1]);
    }
  }

  lemma StatesInStatePart(s: StateRecord, index: nat, actions: seq<ActionRecord>)
    ensures StatesIn(StatePart(s, index, actions)) == [s]
  {
    var e := StateEntry(s, IsFirstOfUrl(s) || index == 0);
    StatesInConcat([e], ActionEntries(ActionsAfter(actions, s)));
    StatesInActions(ActionsAfter(actions, s));
    assert [e][..0] == [];
  }

  lemma {:induction false} StatesInStateParts(sorted: seq<StateRecord>, actions: seq<ActionRecord>)
    ensures StatesIn(StateParts(sorted, actions)) == sorted
    decreases |sorted|
  {
    if |sorted| > 0 {
      var i := |sorted| - 1;
      var front := StateParts(sorted[..i], actions);
      var part := StatePart(sorted[i], i, actions);
      assert StateParts(sorted, actions) == front + part;
      StatesInStateParts(sorted[..i], actions);
      StatesInConcat(front, part);
      StatesInStatePart(sorted[i], i, actions);
      LastSplit(sorted);
    }
  }

  /**
   * The timeline lists every state once, by ascending sequence number, equal numbers
   * in their original order.
   */
  lemma TimelineStates(states: seq<StateRecord>, actions: seq<ActionRecord>)
    ensures StatesIn(Timeline(states, actions)) == SortedStates(states)
    ensures SortedBy(StatesIn(Timeline(states, actions)), StateSeq)
    ensures multiset(StatesIn(Timeline(states, actions))) == multiset(states)
    ensures forall v :: WithKey(StatesIn(Timeline(states, actions)), StateSeq, v) == WithKey(states, StateSeq, v)
  {
    StatesInStateParts(SortedStates(states), actions);
    StatesInConcat(StateParts(SortedStates(states), actions), ActionEntries(Orphans(actions)));
    StatesInActions(Orphans(actions));
    SortByIsSorted(states, StateSeq);
    SortByIsPermutation(states, StateSeq);
    forall v ensures WithKey(SortedStates(states), StateSeq, v) == WithKey(states, StateSeq, v) {
      SortByIsStable(states, StateSeq, v);
    }
  }

  /** The actions after one state are exactly those recorded after it, by sequence number. */
  lemma ActionsAfterFacts(actions: seq<ActionRecord>, s: StateRecord)
    ensures SortedBy(ActionsAfter(actions, s), ActionSeq)
    ensures forall a :: a in ActionsAfter(actions, s) <==> a in actions && Follows(a, s)
    ensures multiset(ActionsAfter(actions, s)) == multiset(Filter(actions, a => Follows(a, s)))
  {
    SortByIsSorted(Filter(actions, a => Follows(a, s)), ActionSeq);
    SortByIsPermutation(Filter(actions, a => Follows(a, s)), ActionSeq);
    SortByMembers(Filter(actions, a => Follows(a, s)), ActionSeq);
  }

  /** The orphan actions are exactly those without a state before them, by timestamp. */
  lemma OrphansFacts(actions: seq<ActionRecord>)
    ensures SortedBy(Orphans(actions), ActionTime)
    ensures forall a :: a in Orphans(actions) <==> a in actions && IsOrphan(a)
    ensures multiset(Orphans(actions)) == multiset(Filter(actions, IsOrphan))
  {
    SortByIsSorted(Filter(actions, IsOrphan), ActionTime);
    SortByIsPermutation(Filter(actions, IsOrphan), ActionTime);
    SortByMembers(Filter(actions, IsOrphan), ActionTime);
  }

  lemma ActionEntriesHas(xs: seq<ActionRecord>, a: ActionRecord)
    ensures ActionEntry(a) in ActionEntries(xs) <==> a in xs
  {
    var es := ActionEntries(xs);
    if ActionEntry(a) in es {
      var k :| 0 <= k < |es| && es[k] == ActionEntry(a);
      assert xs[k] == a;
    }
    if a in xs {
      var k :| 0 <= k < |xs| && xs[k] == a;
      assert es[k] == ActionEntry(a);
    }
  }

  /** The part of one state shows exactly the actions recorded after it. */
  lemma StatePartHas(s: StateRecord, index: nat, actions: seq<ActionRecord>, a: ActionRecord)
    ensures ActionEntry(a) in StatePart(s, index, actions) <==> a in actions && Follows(a, s)
  {
    ActionsAfterFacts(actions, s);
    ActionEntriesHas(ActionsAfter(actions, s), a);
  }

  lemma FollowsSomeSnoc(sorted: seq<StateRecord>, a: ActionRecord)
    requires |sorted| > 0
    ensures var i := |sorted| - 1;
      (exists s :: s in sorted && Follows(a, s)) <==>
        (exists s :: s in sorted[..i] && Follows(a, s)) || Follows(a, sorted[i])
  {
    var i := |sorted| - 1;
    if exists s :: s in sorted && Follows(a, s) {
      var s :| s in sorted && Follows(a, s);
      if s != sorted[i] {
        var k :| 0 <= k < |sorted| && sorted[k] == s;
        assert sorted[..i][k] == s;
      }
    }
    if exists s :: s in sorted[..i] && Follows(a, s) {
      var s :| s in sorted[..i] && Follows(a, s);
      assert s in sorted;
    }
    assert sorted[i] in sorted;
  }

  /** The actions shown among the state parts are those recorded after one of the states. */
  lemma {:induction false} StatePartsActions(sorted: seq<StateRecord>, actions: seq<ActionRecord>, a: ActionRecord)
    ensures ActionEntry(a) in StateParts(sorted, actions) <==> a in actions && exists s :: s in sorted && Follows(a, s)
    decreases |sorted|
  {
    if |sorted| > 0 {
      var i := |sorted| - 1;
      var front := StateParts(sorted[..i], actions);
      var part := StatePart(sorted[i], i, actions);
      assert StateParts(sorted, actions) == front + part;
      StatePartsActions(sorted[..i], actions, a);
      StatePartHas(sorted[i], i, actions, a);
      FollowsSomeSnoc(sorted, a);
      assert ActionEntry(a) in front + part <==> ActionEntry(a) in front || ActionEntry(a) in part;
    }
  }

  /**
   * An action appears in the timeline exactly when it has no state before it or it
   * follows one of the states: one whose `etatAvantId` names no state never appears.
   */
  lemma TimelineActions(states: seq<StateRecord>, actions: seq<ActionRecord>, a: ActionRecord)
    ensures ActionEntry(a) in Timeline(states, actions) <==>
      a in actions && (IsOrphan(a) || exists s :: s in states && Follows(a, s))
  {
    StatePartsActions(SortedStates(states), actions, a);
    SortByMembers(states, StateSeq);
    OrphansFacts(actions);
    assert ActionEntry(a) in ActionEntries(Orphans(actions)) <==> a in Orphans(actions);
  }

  /** The last entries are the orphan actions, by timestamp. */
  lemma TimelineEndsWithOrphans(states: seq<StateRecord>, actions: seq<ActionRecord>)
    ensures var t := Timeline(states, actions);
      var n := |Orphans(actions)|;
      n <= |t| && t[|t| - n..] == ActionEntries(Orphans(actions)) && SortedBy(Orphans(actions), ActionTime)
  {
    OrphansFacts(actions);
  }

  /** A state's part starts with its entry, flagged first when it is first of its URL or first overall; the rest are actions. */
  lemma StatePartShape(s: StateRecord, index: nat, actions: seq<ActionRecord>)
    ensures var part := StatePart(s, index, actions);
      && |part| > 0 && part[0] == StateEntry(s, IsFirstOfUrl(s) || index == 0)
      && forall k :: 0 < k < |part| ==> !part[k].StateEntry?
  {
  }

  /** `isFirst` is set on the entry of the first sorted state and otherwise copies `isFirstOfUrl`. */
  lemma {:induction false} StatePartsFirst(sorted: seq<StateRecord>, actions: seq<ActionRecord>)
    ensures var t := StateParts(sorted, actions);
      && (|sorted| > 0 ==> t[0] == StateEntry(sorted[0], true))
      && forall p :: 0 < p < |t| && t[p].StateEntry? ==> t[p].isFirst == IsFirstOfUrl(t[p].state)
    decreases |sorted|
  {
    if |sorted| > 0 {
      var i := |sorted| - 1;
      var before := StateParts(sorted[..i], actions);
      var part := StatePart(sorted[i], i, actions);
      var t := StateParts(sorted, actions);
      assert t == before + part;
      StatePartsFirst(sorted[..i], actions);
      StatePartShape(sorted[i], i, actions);
      if i == 0 {
        assert before == [];
      } else {
        assert sorted[..i][0] == sorted[0];
        assert |before| > 0 by { StatesInStateParts(sorted[..i], actions); }
      }
      forall p | 0 < p < |t| && t[p].StateEntry? ensures t[p].isFirst == IsFirstOfUrl(t[p].state) {
        if p < |before| {
          assert t[p] == before[p];
        } else {
          assert t[p] == part[p - |before|];
        }
      }
    }
  }

  lemma TimelineFirst(states: seq<StateRecord>, actions: seq<ActionRecord>)
    ensures var t := Timeline(states, actions);
      && (|states| > 0 ==> t[0] == StateEntry(SortedStates(states)[0], true))
      && forall p :: 0 < p < |t| && t[p].StateEntry? ==> t[p].isFirst == IsFirstOfUrl(t[p].state)
  {
    StatePartsFirst(SortedStates(states), actions);
  }

  // ---------------------------------------------------------------------------
  // getActionDescription

  /** The text the description of a click names: the first non-blank of the element's texts. */
  function ClickText(t: Target): (r: string)
    ensures r != []
  {
    var ctx := t.textContext;
    var own := OrElse(t.textContent, t.labelText);
    var direct := if Trim(own) == [] || own == t.tagName
      then OrElse(OrElse(ctx.directAriaLabel, ctx.directTitle), ctx.directDataOriginalTitle)
      else own;
    var parent := if Trim(direct) == []
      then OrElse(OrElse(OrElse(Trim(ctx.parentText), Trim(ctx.parentDataOriginalTitle)), Trim(ctx.parentTitle)), Trim(ctx.parentAriaLabel))
      else direct;
    if Trim(parent) == [] then OrElse(t.tagName, "élément") else parent
  }

  /** `getActionDescription`; an absent `type` prints as `undefined`. */
  function ActionDescription(a: ActionRecord): string {
    var t := a.target.GetOr(EmptyTarget);
    if a.kind == "click" then "Cliquer sur \"" + ClickText(t) + "\""
    else if a.kind == "input" then "Saisir dans le champ \"" + OrElse(OrElse(OrElse(t.labelText, t.placeholder), t.name), "input") + "\""
    else if a.kind == "change" then
      if t.selectDetails.Some? then "Sélectionner \"" + OrElse(t.selectDetails.value, "option") + "\""
      else if t.checkboxDetails.Some? then (if t.checkboxDetails.value then "Cocher la case" else "Décocher la case")
      else "Modifier \"" + OrElse(t.labelText, "sélection") + "\""
    else if a.kind == "submit" then "Soumettre le formulaire"
    else if a.kind == "navigation" then "Navigation vers " + OrElse(OrElse(a.navigationPathname, a.url), "nouvelle page")
    else "Action: " + (if a.kind == "" then "undefined" else a.kind)
  }

  /**
   * The click text is the element's own text when that is not blank and differs from the
   * tag name; when every text is blank it is the tag name, or `élément` without one; and
   * it is always one of the candidate texts.
   */
  lemma ClickTextChoice(t: Target)
    ensures var own := OrElse(t.textContent, t.labelText);
      !AllWhitespace(own) && own != t.tagName ==> ClickText(t) == own
    ensures var ctx := t.textContext;
      AllWhitespace(t.textContent) && AllWhitespace(t.labelText) && t.textContext == NoTextContext ==>
        ClickText(t) == OrElse(t.tagName, "élément")
    ensures var ctx := t.textContext;
      ClickText(t) in {t.textContent, t.labelText, ctx.directAriaLabel, ctx.directTitle, ctx.directDataOriginalTitle,
        Trim(ctx.parentText), Trim(ctx.parentDataOriginalTitle), Trim(ctx.parentTitle), Trim(ctx.parentAriaLabel),
        t.tagName, "élément"}
  {
  }

  /** The kind of action a description was written for, read back from its wording. */
  function DescribedKind(d: string): string {
    if StartsWith(d, "Cliquer sur \"") then "click"
    else if StartsWith(d, "Saisir dans le champ \"") then "input"
    else if StartsWith(d, "Sélectionner \"") || d == "Cocher la case" || d == "Décocher la case" || StartsWith(d, "Modifier \"") then "change"
    else if d == "Soumettre le formulaire" then "submit"
    else if StartsWith(d, "Navigation vers ") then "navigation"
    else if StartsWith(d, "Action: ") then d[8..]
    else ""
  }

  lemma ClickWording(x: string)
    ensures DescribedKind("Cliquer sur \"" + x) == "click"
  {
    assert StartsWith("Cliquer sur \"" + x, "Cliquer sur \"");
  }

  lemma InputWording(x: string)
    ensures DescribedKind("Saisir dans le champ \"" + x) == "input"
  {
    var d := "Saisir dans le champ \"" + x;
    assert StartsWith(d, "Saisir dans le champ \"");
    StartsDiffer(d, "Saisir dans le champ \"", "Cliquer sur \"", 0);
  }

  lemma ChangeWording(d: string)
    requires StartsWith(d, "Sélectionner \"") || d == "Cocher la case" || d == "Décocher la case" || StartsWith(d, "Modifier \"")
    ensures DescribedKind(d) == "change"
  {
    if StartsWith(d, "Sélectionner \"") {
      StartsDiffer(d, "Sélectionner \"", "Cliquer sur \"", 0);
      StartsDiffer(d, "Sélectionner \"", "Saisir dans le champ \"", 1);
    } else if d == "Cocher la case" {
      StartsDiffer(d, "Cocher la case", "Cliquer sur \"", 1);
      StartsDiffer(d, "Cocher la case", "Saisir dans le champ \"", 0);
      StartsDiffer(d, "Cocher la case", "Sélectionner \"", 0);
    } else if d == "Décocher la case" {
      StartsDiffer(d, "Décocher la case", "Cliquer sur \"", 0);
      StartsDiffer(d, "Décocher la case", "Saisir dans le champ \"", 0);
      StartsDiffer(d, "Décocher la case", "Sélectionner \"", 0);
    } else {
      StartsDiffer(d, "Modifier \"", "Cliquer sur \"", 0);
      StartsDiffer(d, "Modifier \"", "Saisir dans le champ \"", 0);
      StartsDiffer(d, "Modifier \"", "Sélectionner \"", 0);
    }
  }

  lemma SubmitWording()
    ensures DescribedKind("Soumettre le formulaire") == "submit"
  {
    var d := "Soumettre le formulaire";
    StartsDiffer(d, d, "Cliquer sur \"", 0);
    StartsDiffer(d, d, "Saisir dans le champ \"", 1);
    StartsDiffer(d, d, "Sélectionner \"", 1);
    StartsDiffer(d, d, "Cocher la case", 0);
    StartsDiffer(d, d, "Décocher la case", 0);
    StartsDiffer(d, d, "Modifier \"", 0);
  }

  lemma NavigationWording(x: string)
    ensures DescribedKind("Navigation vers " + x) == "navigation"
  {
    var p := "Navigation vers ";
    var d := p + x;
    assert StartsWith(d, p);
    StartsDiffer(d, p, "Cliquer sur \"", 0);
    StartsDiffer(d, p, "Saisir dans le champ \"", 0);
    StartsDiffer(d, p, "Sélectionner \"", 0);
    StartsDiffer(d, p, "Modifier \"", 0);
    assert d[0] == 'N';
    assert d != "Cocher la case" && d != "Décocher la case" && d != "Soumettre le formulaire";
  }

  lemma OtherWording(x: string)
    ensures DescribedKind("Action: " + x) == x
  {
    var p := "Action: ";
    var d := p + x;
    assert StartsWith(d, p);
    StartsDiffer(d, p, "Cliquer sur \"", 0);
    StartsDiffer(d, p, "Saisir dans le champ \"", 0);
    StartsDiffer(d, p, "Sélectionner \"", 0);
    StartsDiffer(d, p, "Modifier \"", 0);
    StartsDiffer(d, p, "Navigation vers ", 0);
    assert d[0] == 'A';
    assert d != "Cocher la case" && d != "Décocher la case" && d != "Soumettre le formulaire";
    assert d[8..] == x;
  }

  /** Each kind of action has its own wording: the description tells which kind it describes. */
  lemma DescriptionNamesKind(a: ActionRecord)
    ensures DescribedKind(ActionDescription(a)) == if a.kind == "" then "undefined" else a.kind
  {
    var t := a.target.GetOr(EmptyTarget);
    if a.kind == "click" {
      ClickWording(ClickText(t) + "\"");
      assert ActionDescription(a) == "Cliquer sur \"" + (ClickText(t) + "\"");
    } else if a.kind == "input" {
      var x := OrElse(OrElse(OrElse(t.labelText, t.placeholder), t.name), "input") + "\"";
      InputWording(x);
      assert ActionDescription(a) == "Saisir dans le champ \"" + x;
    } else if a.kind == "change" {
      ChangeWording(ActionDescription(a));
    } else if a.kind == "submit" {
      SubmitWording();
    } else if a.kind == "navigation" {
      NavigationWording(OrElse(OrElse(a.navigationPathname, a.url), "nouvelle page"));
    } else {
      OtherWording(if a.kind == "" then "undefined" else a.kind);
    }
  }

  // ---------------------------------------------------------------------------
  // escapeHtml and convertDiffToHtml

  /** How the HTML serializer writes one character of a text node. */
  function EscapeChar(c: char): (r: string)
    ensures '<' !in r && '>' !in r
  {
    if c == '&' then "&amp;"
    else if c == '<' then "&lt;"
    else if c == '>' then "&gt;"
    else if c == '\U{00A0}' then "&nbsp;"
    else [c]
  }

  /** `escapeHtml`: the `innerHTML` of an element whose only child is the text node `s`. */
  function EscapeHtml(s: string): (r: string)
    ensures '<' !in r && '>' !in r
    decreases |s|
  {
    if s == [] then [] else EscapeChar(s[0]) + EscapeHtml(s[1..])
  }

  /** How an HTML parser reads the character references `escapeHtml` writes. */
  function UnescapeHtml(s: string): string
    decreases |s|
  {
    if s == [] then []
    else if StartsWith(s, "&amp;") then "&" + UnescapeHtml(s[5..])
    else if StartsWith(s, "&lt;") then "<" + UnescapeHtml(s[4..])
    else if StartsWith(s, "&gt;") then ">" + UnescapeHtml(s[4..])
    else if StartsWith(s, "&nbsp;") then "\U{00A0}" + UnescapeHtml(s[6..])
    else [s[0]] + UnescapeHtml(s[1..])
  }

  lemma UnescapeEntity(c: char, entity: string, rest: string)
    requires c in {'&', '<', '>', '\U{00A0}'} && entity == EscapeChar(c)
    ensures UnescapeHtml(entity + rest) == [c] + UnescapeHtml(rest)
  {
    var e := entity + rest;
    if c == '&' {
      assert StartsWith(e, "&amp;") && e[5..] == rest;
    } else if c == '<' {
      assert StartsWith(e, "&lt;") && e[4..] == rest;
      StartsDiffer(e, "&lt;", "&amp;", 1);
    } else if c == '>' {
      assert StartsWith(e, "&gt;") && e[4..] == rest;
      StartsDiffer(e, "&gt;", "&amp;", 1);
      StartsDiffer(e, "&gt;", "&lt;", 1);
    } else {
      assert StartsWith(e, "&nbsp;") && e[6..] == rest;
      StartsDiffer(e, "&nbsp;", "&amp;", 1);
      StartsDiffer(e, "&nbsp;", "&lt;", 1);
      StartsDiffer(e, "&nbsp;", "&gt;", 1);
    }
  }

  lemma UnescapePlain(c: char, rest: string)
    requires c !in {'&', '<', '>', '\U{00A0}'}
    ensures UnescapeHtml([c] + rest) == [c] + UnescapeHtml(rest)
  {
    var e := [c] + rest;
    assert e[0] == c && e[1..] == rest;
  }

  /** Escaping loses nothing: the browser reads back the text that was escaped. */
  lemma {:induction false} EscapeHtmlRoundTrip(s: string)
    ensures UnescapeHtml(EscapeHtml(s)) == s
    decreases |s|
  {
    if s != [] {
      var rest := EscapeHtml(s[1..]);
      assert EscapeHtml(s) == EscapeChar(s[0]) + rest;
      EscapeHtmlRoundTrip(s[1..]);
      if s[0] in {'&', '<', '>', '\U{00A0}'} {
        UnescapeEntity(s[0], EscapeChar(s[0]), rest);
      } else {
        UnescapePlain(s[0], rest);
      }
      assert s == [s[0]] + s[1..];
    }
  }

  const NoChangesHtml := "<p class=\"no-changes\">Aucun changement</p>"

  /** One entry of a diff in HTML: removals struck out, additions inserted, modifications marked. */
  function LineToHtml(line: string): string {
    TrimmedLineToHtml(Trim(line))
  }

  function TrimmedLineToHtml(t: string): string {
    if StartsWith(t, "- ") then "<del>" + EscapeHtml(t[2..]) + "</del>"
    else if StartsWith(t, "+ ") then "<ins>" + EscapeHtml(t[2..]) + "</ins>"
    else if StartsWith(t, "~ ") then "<mark>" + EscapeHtml(t[2..]) + "</mark>"
    else EscapeHtml(t)
  }

  function LinesToHtml(lines: seq<string>): (r: seq<string>)
    ensures |r| == |lines| && forall i :: 0 <= i < |lines| ==> r[i] == LineToHtml(lines[i])
  {
    seq(|lines|, i requires 0 <= i < |lines| => LineToHtml(lines[i]))
  }

  /** `convertDiffToHtml`. */
  function ConvertDiffToHtml(diffContent: string): string {
    if diffContent == [] then NoChangesHtml
    else Join(LinesToHtml(Split(diffContent, " | ")), "<br>")
  }

  /** `s` has the form `<tag>x</tag>`; its content is `x`. */
  predicate Tagged(s: string, tag: string) {
    var open := "<" + tag + ">";
    var close := "</" + tag + ">";
    |open| + |close| <= |s| && s[..|open|] == open && s[|s| - |close|..] == close
  }

  function TagContent(s: string, tag: string): string
    requires Tagged(s, tag)
  {
    s[|tag| + 2..|s| - |tag| - 3]
  }

  /** The diff entry a line of HTML was rendered from, as a browser would read it back. */
  function HtmlLineText(h: string): string {
    if Tagged(h, "del") then "- " + UnescapeHtml(TagContent(h, "del"))
    else if Tagged(h, "ins") then "+ " + UnescapeHtml(TagContent(h, "ins"))
    else if Tagged(h, "mark") then "~ " + UnescapeHtml(TagContent(h, "mark"))
    else UnescapeHtml(h)
  }

  lemma Wrapped(a: string, b: string, c: string)
    ensures var s := a + b + c;
      s[..|a|] == a && s[|a|..|a| + |b|] == b && s[|a| + |b|..] == c
  {
  }

  lemma TaggedText(tag: string, open: string, close: string, x: string)
    requires open == "<" + tag + ">" && close == "</" + tag + ">"
    ensures var h := open + EscapeHtml(x) + close;
      Tagged(h, tag) && TagContent(h, tag) == EscapeHtml(x)
  {
    Wrapped(open, EscapeHtml(x), close);
  }

  lemma TagMismatch(h: string, tag: string)
    requires |h| > 1 && |tag| > 0 && h[1] != tag[0]
    ensures !Tagged(h, tag)
  {
  }

  lemma OpensWithBracket(h: string, tag: string)
    ensures Tagged(h, tag) ==> |h| > 0 && h[0] == '<'
  {
    if Tagged(h, tag) {
      assert h[..|tag| + 2][0] == '<';
    }
  }

  lemma UntaggedText(x: string, tag: string)
    ensures !Tagged(EscapeHtml(x), tag)
  {
    var h := EscapeHtml(x);
    OpensWithBracket(h, tag);
    if |h| > 0 {
      assert h[0] in h;
    }
  }

  /** A rendered entry never opens with `<p`: a tag it writes is `del`, `ins` or `mark`, and escaped text has no `<`. */
  lemma LineHtmlStart(line: string)
    ensures var h := LineToHtml(line); |h| == 0 || h[0] != '<' || (|h| > 1 && h[1] != 'p')
  {
    var t := Trim(line);
    var h := LineToHtml(line);
    if !StartsWith(t, "- ") && !StartsWith(t, "+ ") && !StartsWith(t, "~ ") && |h| > 0 {
      assert h == EscapeHtml(t) && h[0] in h;
    }
  }

  /** Text that does not open with `<p` is not the no-changes paragraph. */
  lemma NotNoChanges(out: string)
    requires |out| < 2 || out[0] != '<' || out[1] != 'p'
    ensures out != NoChangesHtml
  {
  }

  /** An entry that does not open with `<p`, followed by `<br>`, does not either. */
  lemma HeadNotParagraph(h: string, tail: string)
    requires |h| == 0 || h[0] != '<' || (|h| > 1 && h[1] != 'p')
    ensures var o := h + "<br>" + tail; o[0] != '<' || o[1] != 'p'
  {
    var o := h + "<br>" + tail;
    if |h| == 0 {
      assert o[1] == 'b';
    } else {
      assert o[0] == h[0];
      if h[0] == '<' {
        assert o[1] == h[1];
      }
    }
  }

  /** `convertDiffToHtml` answers with the no-changes paragraph exactly for an empty diff. */
  lemma EmptyDiffHtml(diffContent: string)
    ensures ConvertDiffToHtml(diffContent) == NoChangesHtml <==> diffContent == []
  {
    if diffContent != [] {
      var lines := Split(diffContent, " | ");
      var hs := LinesToHtml(lines);
      var out := Join(hs, "<br>");
      assert ConvertDiffToHtml(diffContent) == out;
      LineHtmlStart(lines[0]);
      assert hs[0] == LineToHtml(lines[0]);
      if |hs| == 1 {
        assert out == hs[0];
      } else {
        assert out == hs[0] + "<br>" + Join(hs[1..], "<br>");
        HeadNotParagraph(hs[0], Join(hs[1..], "<br>"));
      }
      NotNoChanges(out);
    }
  }

  /** Escaped text wrapped in any tag reads back as that text. */
  lemma TagRoundTrip(tag: string, open: string, close: string, x: string)
    requires open == "<" + tag + ">" && close == "</" + tag + ">"
    ensures var h := open + EscapeHtml(x) + close;
      Tagged(h, tag) && UnescapeHtml(TagContent(h, tag)) == x
  {
    TaggedText(tag, open, close, x);
    EscapeHtmlRoundTrip(x);
  }

  lemma DelRoundTrip(x: string)
    ensures HtmlLineText("<del>" + EscapeHtml(x) + "</del>") == "- " + x
  {
    TagRoundTrip("del", "<del>", "</del>", x);
  }

  lemma InsRoundTrip(x: string)
    ensures HtmlLineText("<ins>" + EscapeHtml(x) + "</ins>") == "+ " + x
  {
    var h := "<ins>" + EscapeHtml(x) + "</ins>";
    TagRoundTrip("ins", "<ins>", "</ins>", x);
    assert h[1] == 'i';
    TagMismatch(h, "del");
  }

  lemma MarkRoundTrip(x: string)
    ensures HtmlLineText("<mark>" + EscapeHtml(x) + "</mark>") == "~ " + x
  {
    var h := "<mark>" + EscapeHtml(x) + "</mark>";
    TagRoundTrip("mark", "<mark>", "</mark>", x);
    assert h[1] == 'm';
    TagMismatch(h, "del");
    TagMismatch(h, "ins");
  }

  lemma PlainRoundTrip(t: string)
    requires !StartsWith(t, "- ") && !StartsWith(t, "+ ") && !StartsWith(t, "~ ")
    ensures HtmlLineText(TrimmedLineToHtml(t)) == t
  {
    EscapeHtmlRoundTrip(t);
    UntaggedText(t, "del");
    UntaggedText(t, "ins");
    UntaggedText(t, "mark");
  }

  /** Rendering a diff entry loses only the whitespace around it. */
  lemma LineToHtmlRoundTrip(line: string)
    ensures HtmlLineText(LineToHtml(line)) == Trim(line)
  {
    var t := Trim(line);
    if StartsWith(t, "- ") {
      MarkedDel(t);
      DelRoundTrip(t[2..]);
      assert t == "- " + t[2..];
    } else if StartsWith(t, "+ ") {
      MarkedIns(t);
      InsRoundTrip(t[2..]);
      assert t == "+ " + t[2..];
    } else if StartsWith(t, "~ ") {
      MarkedMark(t);
      MarkRoundTrip(t[2..]);
      assert t == "~ " + t[2..];
    } else {
      PlainRoundTrip(t);
    }
  }

  /**
   * A two-character marker, after some whitespace and before text that is not blank,
   * survives the trim that `convertDiffToHtml` applies to each entry.
   */
  lemma TrimKeepsMarker(w: string, m: string, x: string)
    requires AllWhitespace(w) && |m| == 2 && !IsWhitespace(m[0]) && !AllWhitespace(x)
    ensures StartsWith(Trim(w + m + x), m)
  {
    var s := w + m + x;
    var p :| 0 <= p < |x| && !IsWhitespace(x[p]);
    assert s[|w| + 2 + p] == x[p];
    SkipWhitespaceTo(s, 0, |w|);
    assert TrimEndIndex(s, |s|) > |w| + 2 + p;
    assert Trim(s) == s[|w|..TrimEndIndex(s, |s|)];
    assert Trim(s)[..2] == s[|w|..|w| + 2] == m;
  }

  lemma {:induction false} RemovedTokensAt(removed: seq<Block>, i: nat)
    requires i < |removed|
    ensures RemovedTokens(removed)[i] == RemovedToken(removed[i])
    decreases |removed|
  {
    if i < |removed| - 1 {
      RemovedTokensAt(removed[..|removed| - 1], i);
    }
  }

  lemma {:induction false} AddedTokensAt(added: seq<Block>, i: nat)
    requires i < |added|
    ensures AddedTokens(added)[i] == AddedToken(added[i])
    decreases |added|
  {
    if i < |added| - 1 {
      AddedTokensAt(added[..|added| - 1], i);
    }
  }

  /** The entries of `ms` under `f`, concatenated in order (`ModificationTokens` with the entry maker left open). */
  function Triples(ms: seq<Modification>, f: Modification -> seq<string>): seq<string>
    decreases |ms|
  {
    if |ms| == 0 then [] else Triples(ms[..|ms| - 1], f) + f(ms[|ms| - 1])
  }

  lemma {:induction false} TriplesOfTokens(ms: seq<Modification>)
    ensures ModificationTokens(ms) == Triples(ms, ModifiedTokens)
    decreases |ms|
  {
    if |ms| > 0 {
      TriplesOfTokens(ms[..|ms| - 1]);
    }
  }

  lemma {:induction false} TriplesAt(ms: seq<Modification>, f: Modification -> seq<string>, i: nat)
    requires forall m :: |f(m)| == 3
    requires i < |ms|
    ensures |Triples(ms, f)| == 3 * |ms|
    ensures var t := Triples(ms, f);
      t[3 * i] == f(ms[i])[0] && t[3 * i + 1] == f(ms[i])[1] && t[3 * i + 2] == f(ms[i])[2]
    decreases |ms|
  {
    var n := |ms| - 1;
    var prev := Triples(ms[..n], f);
    var last := f(ms[n]);
    var t := Triples(ms, f);
    assert t == prev + last;
    if i < n {
      TriplesAt(ms[..n], f, i);
      assert ms[..n][i] == ms[i];
      assert t[3 * i] == prev[3 * i] && t[3 * i + 1] == prev[3 * i + 1] && t[3 * i + 2] == prev[3 * i + 2];
    } else {
      if n > 0 {
        TriplesAt(ms[..n], f, n - 1);
      }
      assert |prev| == 3 * n;
      assert t[3 * i] == last[0] && t[3 * i + 1] == last[1] && t[3 * i + 2] == last[2];
    }
  }

  /** Each modification contributes its three entries at positions `3i`, `3i + 1` and `3i + 2`. */
  lemma ModificationTokensAt(modified: seq<Modification>, i: nat)
    requires i < |modified|
    ensures var t, m := ModificationTokens(modified), ModifiedTokens(modified[i]);
      t[3 * i] == m[0] && t[3 * i + 1] == m[1] && t[3 * i + 2] == m[2]
  {
    TriplesOfTokens(modified);
    TriplesAt(modified, ModifiedTokens, i);
  }

  lemma DiffTokensSplit(added: seq<Block>, removed: seq<Block>, modified: seq<Modification>)
    ensures DiffTokens(added, removed, modified) == RemovedTokens(removed) + AddedTokens(added) + ModificationTokens(modified)
  {
  }

  lemma RemovedEntry(added: seq<Block>, removed: seq<Block>, modified: seq<Modification>, i: nat)
    requires i < |removed|
    ensures DiffTokens(added, removed, modified)[i] == RemovedToken(removed[i])
  {
    DiffTokensSplit(added, removed, modified);
    RemovedTokensAt(removed, i);
  }

  lemma AddedEntry(added: seq<Block>, removed: seq<Block>, modified: seq<Modification>, i: nat)
    requires i < |added|
    ensures DiffTokens(added, removed, modified)[|removed| + i] == AddedToken(added[i])
  {
    DiffTokensSplit(added, removed, modified);
    AddedTokensAt(added, i);
  }

  lemma ModifiedEntry(added: seq<Block>, removed: seq<Block>, modified: seq<Modification>, i: nat)
    requires i < |modified|
    ensures var t, m, o := DiffTokens(added, removed, modified), ModifiedTokens(modified[i]), |removed| + |added| + 3 * i;
      t[o] == m[0] && t[o + 1] == m[1] && t[o + 2] == m[2]
  {
    var front := RemovedTokens(removed) + AddedTokens(added);
    var rest := ModificationTokens(modified);
    DiffTokensSplit(added, removed, modified);
    ModificationTokensAt(modified, i);
    var o := |front| + 3 * i;
    assert (front + rest)[o] == rest[3 * i] && (front + rest)[o + 1] == rest[3 * i + 1] && (front + rest)[o + 2] == rest[3 * i + 2];
  }

  lemma RemovedLinesHtml(added: seq<Block>, removed: seq<Block>, modified: seq<Modification>)
    ensures var h := LinesToHtml(DiffTokens(added, removed, modified));
      forall i :: 0 <= i < |removed| && !AllWhitespace(BlockPrefix(removed[i]) + removed[i].content) ==>
        Tagged(h[i], "del")
  {
    var tokens := DiffTokens(added, removed, modified);
    forall i | 0 <= i < |removed| && !AllWhitespace(BlockPrefix(removed[i]) + removed[i].content)
      ensures Tagged(LineToHtml(tokens[i]), "del")
    {
      RemovedEntry(added, removed, modified, i);
      RemovedLine(removed[i]);
    }
  }

  lemma AddedLinesHtml(added: seq<Block>, removed: seq<Block>, modified: seq<Modification>)
    ensures var h := LinesToHtml(DiffTokens(added, removed, modified));
      forall i :: 0 <= i < |added| && !AllWhitespace(BlockPrefix(added[i]) + added[i].content) ==>
        Tagged(h[|removed| + i], "ins")
  {
    var tokens := DiffTokens(added, removed, modified);
    forall i | 0 <= i < |added| && !AllWhitespace(BlockPrefix(added[i]) + added[i].content)
      ensures Tagged(LineToHtml(tokens[|removed| + i]), "ins")
    {
      AddedEntry(added, removed, modified, i);
      AddedLine(added[i]);
    }
  }

  lemma RemovedLine(b: Block)
    requires !AllWhitespace(BlockPrefix(b) + b.content)
    ensures Tagged(LineToHtml(RemovedToken(b)), "del")
  {
    TaggedEntry("- ", BlockPrefix(b) + b.content, "del");
    assert RemovedToken(b) == "- " + (BlockPrefix(b) + b.content);
  }

  lemma AddedLine(b: Block)
    requires !AllWhitespace(BlockPrefix(b) + b.content)
    ensures Tagged(LineToHtml(AddedToken(b)), "ins")
  {
    TaggedEntry("+ ", BlockPrefix(b) + b.content, "ins");
    assert AddedToken(b) == "+ " + (BlockPrefix(b) + b.content);
  }

  lemma HeaderLine(m: Modification)
    ensures Tagged(LineToHtml(ModifiedTokens(m)[0]), "mark")
  {
    var prefix := BlockPrefix(m.before);
    var percent := IntToString(RoundPercent(m.similarity));
    HeaderHtml(prefix, percent);
    assert ModifiedTokens(m)[0] == "~ " + prefix + "[" + percent + "% similar]";
  }

  lemma BeforeLine(m: Modification)
    requires !AllWhitespace(m.before.content)
    ensures Tagged(LineToHtml(ModifiedTokens(m)[1]), "del")
  {
    TaggedLine("  ", "- ", m.before.content, "del");
    Indented("  ", "- ", m.before.content, "  - ");
    assert ModifiedTokens(m)[1] == "  - " + m.before.content;
  }

  lemma AfterLine(m: Modification)
    requires !AllWhitespace(m.after.content)
    ensures Tagged(LineToHtml(ModifiedTokens(m)[2]), "ins")
  {
    TaggedLine("  ", "+ ", m.after.content, "ins");
    Indented("  ", "+ ", m.after.content, "  + ");
    assert ModifiedTokens(m)[2] == "  + " + m.after.content;
  }

  lemma HeaderAt(added: seq<Block>, removed: seq<Block>, modified: seq<Modification>, i: nat)
    requires i < |modified|
    ensures Tagged(LineToHtml(DiffTokens(added, removed, modified)[|removed| + |added| + 3 * i]), "mark")
  {
    ModifiedEntry(added, removed, modified, i);
    HeaderLine(modified[i]);
  }

  lemma BeforeAt(added: seq<Block>, removed: seq<Block>, modified: seq<Modification>, i: nat)
    requires i < |modified| && !AllWhitespace(modified[i].before.content)
    ensures Tagged(LineToHtml(DiffTokens(added, removed, modified)[|removed| + |added| + 3 * i + 1]), "del")
  {
    ModifiedEntry(added, removed, modified, i);
    BeforeLine(modified[i]);
  }

  lemma AfterAt(added: seq<Block>, removed: seq<Block>, modified: seq<Modification>, i: nat)
    requires i < |modified| && !AllWhitespace(modified[i].after.content)
    ensures Tagged(LineToHtml(DiffTokens(added, removed, modified)[|removed| + |added| + 3 * i + 2]), "ins")
  {
    ModifiedEntry(added, removed, modified, i);
    AfterLine(modified[i]);
  }

  lemma HeaderLinesHtml(added: seq<Block>, removed: seq<Block>, modified: seq<Modification>)
    ensures var h := LinesToHtml(DiffTokens(added, removed, modified));
      forall i :: 0 <= i < |modified| ==> Tagged(h[|removed| + |added| + 3 * i], "mark")
  {
    forall i | 0 <= i < |modified| {
      HeaderAt(added, removed, modified, i);
    }
  }

  lemma BeforeLinesHtml(added: seq<Block>, removed: seq<Block>, modified: seq<Modification>)
    ensures var h := LinesToHtml(DiffTokens(added, removed, modified));
      forall i :: 0 <= i < |modified| && !AllWhitespace(modified[i].before.content) ==>
        Tagged(h[|removed| + |added| + 3 * i + 1], "del")
  {
    forall i | 0 <= i < |modified| && !AllWhitespace(modified[i].before.content) {
      BeforeAt(added, removed, modified, i);
    }
  }

  lemma AfterLinesHtml(added: seq<Block>, removed: seq<Block>, modified: seq<Modification>)
    ensures var h := LinesToHtml(DiffTokens(added, removed, modified));
      forall i :: 0 <= i < |modified| && !AllWhitespace(modified[i].after.content) ==>
        Tagged(h[|removed| + |added| + 3 * i + 2], "ins")
  {
    forall i | 0 <= i < |modified| && !AllWhitespace(modified[i].after.content) {
      AfterAt(added, removed, modified, i);
    }
  }

  /**
   * The HTML of a diff `formatBlockDiff` wrote has one line per entry: a removed block
   * struck out, an added block inserted, and for a modified block a marked header, the
   * old content struck out and the new content inserted. A block whose text is blank
   * loses its marker to the trim and shows as plain text.
   */
  lemma DiffHtml(added: seq<Block>, removed: seq<Block>, modified: seq<Modification>)
    requires |removed| + |added| + |modified| > 0
    requires NoBar(added, removed, modified)
    ensures var tokens := DiffTokens(added, removed, modified);
      var h := LinesToHtml(tokens);
      var base := |removed| + |added|;
      && ConvertDiffToHtml(Join(tokens, " | ")) == Join(h, "<br>")
      && (forall i :: 0 <= i < |removed| && !AllWhitespace(BlockPrefix(removed[i]) + removed[i].content) ==>
            Tagged(h[i], "del"))
      && (forall i :: 0 <= i < |added| && !AllWhitespace(BlockPrefix(added[i]) + added[i].content) ==>
            Tagged(h[|removed| + i], "ins"))
      && (forall i :: 0 <= i < |modified| ==> Tagged(h[base + 3 * i], "mark"))
      && (forall i :: 0 <= i < |modified| && !AllWhitespace(modified[i].before.content) ==>
            Tagged(h[base + 3 * i + 1], "del"))
      && (forall i :: 0 <= i < |modified| && !AllWhitespace(modified[i].after.content) ==>
            Tagged(h[base + 3 * i + 2], "ins"))
  {
    FormatBlankIff(added, removed, modified);
    FormatSplits(added, removed, modified);
    RemovedLinesHtml(added, removed, modified);
    AddedLinesHtml(added, removed, modified);
    HeaderLinesHtml(added, removed, modified);
    BeforeLinesHtml(added, removed, modified);
    AfterLinesHtml(added, removed, modified);
  }

  lemma HeaderHtml(prefix: string, percent: string)
    ensures Tagged(LineToHtml("~ " + prefix + "[" + percent + "% similar]"), "mark")
  {
    var header := prefix + "[" + percent + "% similar]";
    assert header[|prefix|] == '[';
    TaggedEntry("~ ", header, "mark");
    Assoc5("~ ", prefix, "[", percent, "% similar]");
  }

  lemma Assoc5(a: string, b: string, c: string, d: string, e: string)
    ensures a + b + c + d + e == a + (b + c + d + e)
  {
  }

  lemma Indented(w: string, m: string, x: string, wm: string)
    requires wm == w + m
    ensures wm + x == w + m + x
  {
  }

  lemma MarkedDel(t: string)
    requires StartsWith(t, "- ")
    ensures TrimmedLineToHtml(t) == "<del>" + EscapeHtml(t[2..]) + "</del>"
    ensures Tagged(TrimmedLineToHtml(t), "del")
  {
    TaggedText("del", "<del>", "</del>", t[2..]);
  }

  lemma MarkedIns(t: string)
    requires StartsWith(t, "+ ")
    ensures TrimmedLineToHtml(t) == "<ins>" + EscapeHtml(t[2..]) + "</ins>"
    ensures Tagged(TrimmedLineToHtml(t), "ins")
  {
    TaggedText("ins", "<ins>", "</ins>", t[2..]);
    StartsDiffer(t, "+ ", "- ", 0);
  }

  lemma MarkedMark(t: string)
    requires StartsWith(t, "~ ")
    ensures TrimmedLineToHtml(t) == "<mark>" + EscapeHtml(t[2..]) + "</mark>"
    ensures Tagged(TrimmedLineToHtml(t), "mark")
  {
    TaggedText("mark", "<mark>", "</mark>", t[2..]);
    StartsDiffer(t, "~ ", "- ", 0);
    StartsDiffer(t, "~ ", "+ ", 0);
  }

  /** An entry that starts with a marker renders inside that marker's tag. */
  lemma MarkedHtml(t: string, m: string, tag: string)
    requires StartsWith(t, m)
    requires (m == "- " && tag == "del") || (m == "+ " && tag == "ins") || (m == "~ " && tag == "mark")
    ensures Tagged(TrimmedLineToHtml(t), tag)
  {
    if m == "- " {
      MarkedDel(t);
    } else if m == "+ " {
      MarkedIns(t);
    } else {
      MarkedMark(t);
    }
  }

  lemma TaggedEntry(m: string, x: string, tag: string)
    requires !AllWhitespace(x)
    requires (m == "- " && tag == "del") || (m == "+ " && tag == "ins") || (m == "~ " && tag == "mark")
    ensures Tagged(LineToHtml(m + x), tag)
  {
    TaggedLine("", m, x, tag);
    assert "" + m + x == m + x;
  }

  /** A marked entry with text after its marker renders inside that marker's tag. */
  lemma TaggedLine(w: string, m: string, x: string, tag: string)
    requires AllWhitespace(w) && !AllWhitespace(x)
    requires (m == "- " && tag == "del") || (m == "+ " && tag == "ins") || (m == "~ " && tag == "mark")
    ensures Tagged(LineToHtml(w + m + x), tag)
  {
    TrimKeepsMarker(w, m, x);
    MarkedHtml(Trim(w + m + x), m, tag);
  }
}
