/**
 * The background controller of a recording session (`WorkflowRecorder`). While a
 * recording runs it numbers the page states and user actions the content scripts
 * report, drops a state whose content hash repeats the last one, and keeps the latest
 * action pending until the next state tells it which state the action led to.
 */
module Recorder {
  import opened Wrappers
  import opened Text

  /** The fields a content script sends with `ACTION_CAPTURED`; the recorder copies them as they are. */
  datatype ActionData = ActionData(kind: string, target: string)

  /** The fields a content script sends with `STATE_CAPTURED`. */
  datatype StateData = StateData(url: string, urlPattern: string, title: string, contentHash: Option<string>, markdownContent: string)

  /**
   * An enriched action. Ids come from the recorder's counter in place of
   * `generateUUID`; `etatAvantId`/`etatApresId` are the ids of the states before and after.
   */
  datatype Action = Action(
    data: ActionData, id: nat, workflowId: Option<nat>, timestamp: int, sequenceNumber: nat,
    etatAvantId: Option<nat>, etatApresId: Option<nat>)

  /** An enriched state. */
  datatype State = State(data: StateData, id: nat, workflowId: Option<nat>, timestamp: int, sequenceNumber: nat)

  /** `metadata.tags`: an array, a comma-separated string, or absent. */
  datatype TagsField = TagList(tags: seq<string>) | TagText(text: string) | NoTags

  /** The `metadata` argument of `saveWorkflow`. */
  datatype SaveRequest = SaveRequest(title: string, description: string, tags: TagsField)

  /**
   * The workflow object `saveWorkflow` builds. `createdAt` is the start time in
   * milliseconds; its ISO text is not modelled.
   */
  datatype Workflow = Workflow(
    id: Option<nat>, title: string, description: string, tags: seq<string>,
    createdAt: int, duration: int, actionCount: nat, stateCount: nat,
    startUrl: string, endUrl: string, status: string)

  /** `.map(t => t.trim()).filter(t => t)`. */
  function TrimmedNonEmpty(parts: seq<string>): (r: seq<string>)
    ensures forall t :: t in r ==> t != [] && !IsWhitespace(t[0]) && !IsWhitespace(t[|t| - 1])
    ensures |r| <= |parts|
    decreases |parts|
  {
    if |parts| == 0 then []
    else
      var t := Trim(parts[0]);
      if t == [] then TrimmedNonEmpty(parts[1..]) else [t] + TrimmedNonEmpty(parts[1..])
  }

  lemma {:induction false} SplitOfBlank(s: string, sep: string)
    requires |sep| > 0 && AllWhitespace(s)
    ensures forall p :: p in Split(s, sep) ==> AllWhitespace(p)
    decreases |s|
  {
    match IndexOf(s, sep, 0)
    case None =>
    case Some(k) =>
      var rest := s[k + |sep|..];
      assert AllWhitespace(rest) by {
        forall i | 0 <= i < |rest| ensures IsWhitespace(rest[i]) {
          assert rest[i] == s[k + |sep| + i];
        }
      }
      SplitOfBlank(rest, sep);
      assert Split(s, sep) == [s[..k]] + Split(rest, sep);
  }

  lemma {:induction false} TrimmedOfBlank(parts: seq<string>)
    requires forall p :: p in parts ==> AllWhitespace(p)
    ensures TrimmedNonEmpty(parts) == []
    decreases |parts|
  {
    if |parts| > 0 {
      assert parts[0] in parts;
      assert forall p :: p in parts[1..] ==> p in parts;
      TrimmedOfBlank(parts[1..]);
    }
  }

  /** A tag text of whitespace only gives no tags. */
  lemma BlankTagText(text: string)
    ensures AllWhitespace(text) ==> TrimmedNonEmpty(Split(text, ",")) == []
  {
    if AllWhitespace(text) {
      SplitOfBlank(text, ",");
      TrimmedOfBlank(Split(text, ","));
    }
  }

  /** The `tags` field of the saved workflow. */
  function WorkflowTags(t: TagsField): (r: seq<string>)
    ensures t.TagList? ==> r == t.tags
    ensures !t.TagList? ==> forall s :: s in r ==> s != [] && !IsWhitespace(s[0]) && !IsWhitespace(s[|s| - 1])
    ensures t.TagText? && AllWhitespace(t.text) ==> r == []
  {
    match t
    case TagList(tags) => tags
    case TagText(text) => if text == [] then [] else (BlankTagText(text); TrimmedNonEmpty(Split(text, ",")))
    case NoTags => []
  }

  /** The id of the last state of `states`, if any. */
  function LastStateId(states: seq<State>): Option<nat> {
    if states == [] then None else Some(states[|states| - 1].id)
  }

  /**
   * A stored action is linked as `handleStateCaptured` or `stopRecording` links it: with
   * no after-state (added by `stopRecording`) its before-state, if any, is one of the
   * states; with an after-state, that is its before-state (a repeated state), the state
   * right after its before-state, or the first state when there was no before-state.
   */
  predicate Linked(states: seq<State>, a: Action) {
    match a.etatApresId
    case None =>
      a.etatAvantId.None? || exists i :: 0 <= i < |states| && states[i].id == a.etatAvantId.value
    case Some(after) =>
      match a.etatAvantId
      case None => |states| > 0 && after == states[0].id
      case Some(before) =>
        exists i :: 0 <= i < |states| && states[i].id == before
          && (after == before || (i + 1 < |states| && after == states[i + 1].id))
  }

  /** Sequence numbers strictly increase along `actions`. */
  predicate Increasing(actions: seq<Action>) {
    forall i, j :: 0 <= i < j < |actions| ==> actions[i].sequenceNumber < actions[j].sequenceNumber
  }

  /** A strictly increasing list of numbers from 1 to `n` has at most `n` entries. */
  lemma {:induction false} IncreasingBound(actions: seq<Action>, n: nat)
    requires Increasing(actions)
    requires forall a :: a in actions ==> 1 <= a.sequenceNumber <= n
    ensures |actions| <= n
    decreases |actions|
  {
    if |actions| > 0 {
      var last := actions[|actions| - 1];
      var init := actions[..|actions| - 1];
      assert last in actions;
      assert Increasing(init);
      forall a | a in init ensures 1 <= a.sequenceNumber <= last.sequenceNumber - 1 {
        var i :| 0 <= i < |init| && init[i] == a;
        assert actions[i] == a;
      }
      IncreasingBound(init, last.sequenceNumber - 1);
      assert |actions| == |init| + 1;
    }
  }

  /** The fields of a `WorkflowRecorder` (with `recordingState` flattened) as one value. */
  datatype Session = Session(
    isRecording: bool,
    workflowId: Option<nat>, startTime: Option<int>,
    actions: seq<Action>, states: seq<State>, actionCount: nat, stateCount: nat,
    lastCapturedStateId: Option<nat>, pendingAction: Option<Action>,
    nextId: nat)

  /**
   * What holds after every operation: the state counter matches the state list, states
   * are numbered 1..n, and ids, all drawn from the counter, are fresh.
   */
  ghost predicate Valid(s: Session) {
    && s.stateCount == |s.states|
    && (forall i :: 0 <= i < |s.states| ==> s.states[i].sequenceNumber == i + 1)
    && (forall i, j :: 0 <= i < j < |s.states| ==> s.states[i].id < s.states[j].id)
    && (forall i :: 0 <= i < |s.states| ==> s.states[i].id < s.nextId)
    && (forall a :: a in s.actions ==> a.id < s.nextId)
    && (s.pendingAction.Some? ==> s.pendingAction.value.id < s.nextId)
    && (s.lastCapturedStateId.Some? ==> s.lastCapturedStateId.value < s.nextId)
    && (s.workflowId.Some? ==> s.workflowId.value < s.nextId)
  }

  /** The pending action is the newest action, not yet linked, taken after the last state. */
  ghost predicate PendingFits(s: Session) {
    s.pendingAction.Some? ==>
      var p := s.pendingAction.value;
      && p.workflowId == s.workflowId
      && p.sequenceNumber == s.actionCount && p.sequenceNumber >= 1
      && p.etatAvantId == s.lastCapturedStateId
      && p.etatApresId.None?
      && forall a :: a in s.actions ==> a.sequenceNumber < p.sequenceNumber
  }

  /**
   * What holds as long as `saveWorkflow` and `discardWorkflow` are only called when no
   * recording runs: the pending action and last state follow the lists, every stored
   * action belongs to this workflow and is linked to its states, and action sequence
   * numbers increase and stay within `actionCount`.
   */
  ghost predicate Consistent(s: Session) {
    && Valid(s)
    && (!s.isRecording ==> s.pendingAction.None? && s.lastCapturedStateId.None?)
    && (s.isRecording ==> s.lastCapturedStateId == LastStateId(s.states))
    && (forall a :: a in s.actions ==> a.workflowId == s.workflowId && Linked(s.states, a))
    && (forall i :: 0 <= i < |s.states| ==> s.states[i].workflowId == s.workflowId)
    && Increasing(s.actions)
    && (forall a :: a in s.actions ==> 1 <= a.sequenceNumber <= s.actionCount)
    && PendingFits(s)
  }

  /** `resetRecordingState` leaves this. */
  predicate Cleared(s: Session) {
    s.workflowId.None? && s.startTime.None? && s.actions == [] && s.states == [] && s.actionCount == 0 && s.stateCount == 0
  }

  /** The recorder as the constructor leaves it. */
  function Initial(): Session {
    Session(false, None, None, [], [], 0, 0, None, None, 0)
  }

  /** `resetRecordingState`. */
  function Reset(s: Session): Session {
    s.(workflowId := None, startTime := None, actions := [], states := [], actionCount := 0, stateCount := 0)
  }

  const AlreadyRecording := "Un enregistrement est déjà en cours"
  const NotRecording := "Aucun enregistrement en cours"
  const NoDatabase := "Base de données non initialisée"
  const NoActions := "Aucune action enregistrée dans ce workflow"

  /** `startRecording`; `now` stands for `Date.now()`. */
  function Start(s: Session, now: int): (Session, Outcome<string>) {
    if s.isRecording then (s, Fail(AlreadyRecording))
    else
      (s.(isRecording := true, workflowId := Some(s.nextId), startTime := Some(now),
          actions := [], states := [], actionCount := 0, stateCount := 0, nextId := s.nextId + 1),
       Pass)
  }

  /** `stopRecording`: a still-pending action is stored without an after-state. */
  function Stop(s: Session): (Session, Outcome<string>) {
    if !s.isRecording then (s, Fail(NotRecording))
    else
      var actions := if s.pendingAction.Some? then s.actions + [s.pendingAction.value] else s.actions;
      (s.(isRecording := false, actions := actions, pendingAction := None, lastCapturedStateId := None), Pass)
  }

  /** `cancelRecording`. */
  function Cancel(s: Session): (Session, Outcome<string>) {
    if !s.isRecording then (s, Fail(NotRecording))
    else (Reset(s.(isRecording := false, pendingAction := None, lastCapturedStateId := None)), Pass)
  }

  /** The workflow object `saveWorkflow` builds from the session and `metadata`. */
  function WorkflowOf(s: Session, metadata: SaveRequest, now: int): Workflow {
    var start := s.startTime.GetOr(0);
    Workflow(
      s.workflowId, metadata.title, OrElse(metadata.description, ""), WorkflowTags(metadata.tags),
      start, now - start, s.actionCount, s.stateCount,
      if s.states == [] then "" else s.states[0].data.url,
      if s.states == [] then "" else s.states[|s.states| - 1].data.url,
      "completed")
  }

  /** `saveWorkflow` up to the persistence, which is taken to succeed; `dbReady` says whether the database handle exists. */
  function Save(s: Session, dbReady: bool, metadata: SaveRequest, now: int): (Session, Result<Workflow, string>) {
    if !dbReady then (s, Failure(NoDatabase))
    else if s.actions == [] then (s, Failure(NoActions))
    else (Reset(s), Success(WorkflowOf(s, metadata, now)))
  }

  /** `handleActionCaptured`: the new action replaces any pending one. */
  function ActionCaptured(s: Session, data: ActionData, now: int): Session {
    if !s.isRecording then s
    else
      var action := Action(data, s.nextId, s.workflowId, now, s.actionCount + 1, s.lastCapturedStateId, None);
      s.(pendingAction := Some(action), actionCount := s.actionCount + 1, nextId := s.nextId + 1)
  }

  /** `lastState && lastState.contentHash === stateData.contentHash` (two absent hashes are equal). */
  predicate Repeats(s: Session, data: StateData) {
    s.states != [] && s.states[|s.states| - 1].data.contentHash == data.contentHash
  }

  /** `handleStateCaptured`. */
  function StateCaptured(s: Session, data: StateData, now: int): Session {
    if !s.isRecording then s
    else if Repeats(s, data) then
      var lastState := s.states[|s.states| - 1];
      if s.pendingAction.Some?
      then s.(actions := s.actions + [s.pendingAction.value.(etatApresId := Some(lastState.id))], pendingAction := None)
      else s
    else
      var state := State(data, s.nextId, s.workflowId, now, s.stateCount + 1);
      var actions := if s.pendingAction.Some? then s.actions + [s.pendingAction.value.(etatApresId := Some(state.id))] else s.actions;
      s.(actions := actions, pendingAction := None, states := s.states + [state], stateCount := s.stateCount + 1,
         lastCapturedStateId := Some(state.id), nextId := s.nextId + 1)
  }

  // ---------------------------------------------------------------------------
  // Properties of the transitions

  lemma InitialConsistent()
    ensures Consistent(Initial()) && Cleared(Initial())
  {
  }

  /** Every transition keeps `Valid`. */
  lemma ValidPreserved(s: Session, now: int, actionData: ActionData, dbReady: bool, metadata: SaveRequest)
    requires Valid(s)
    ensures Valid(Start(s, now).0) && Valid(Stop(s).0) && Valid(Cancel(s).0) && Valid(Reset(s))
    ensures Valid(Save(s, dbReady, metadata, now).0)
    ensures Valid(ActionCaptured(s, actionData, now))
  {
    StartValid(s, now);
    StopValid(s);
    CancelValid(s);
    ResetValid(s);
    SaveValid(s, dbReady, metadata, now);
    ActionCapturedValid(s, actionData, now);
  }

  lemma CancelValid(s: Session)
    requires Valid(s)
    ensures Valid(Cancel(s).0)
  {
  }

  lemma SaveValid(s: Session, dbReady: bool, metadata: SaveRequest, now: int)
    requires Valid(s)
    ensures Valid(Save(s, dbReady, metadata, now).0)
  {
    ResetValid(s);
  }

  lemma ActionCapturedValid(s: Session, data: ActionData, now: int)
    requires Valid(s)
    ensures Valid(ActionCaptured(s, data, now))
  {
  }

  lemma StartValid(s: Session, now: int)
    requires Valid(s)
    ensures Valid(Start(s, now).0)
  {
  }

  lemma StopValid(s: Session)
    requires Valid(s)
    ensures Valid(Stop(s).0)
  {
    if s.isRecording && s.pendingAction.Some? {
      var p := s.pendingAction.value;
      assert forall a :: a in s.actions + [p] ==> a in s.actions || a == p;
    }
  }

  lemma ResetValid(s: Session)
    requires Valid(s)
    ensures Valid(Reset(s))
  {
  }

  lemma StateCapturedValid(s: Session, data: StateData, now: int)
    requires Valid(s)
    ensures Valid(StateCaptured(s, data, now))
  {
    if s.isRecording && !Repeats(s, data) {
      var t := StateCaptured(s, data, now);
      assert t.states[|s.states|].sequenceNumber == |s.states| + 1;
      assert forall i :: 0 <= i < |s.states| ==> t.states[i] == s.states[i];
    }
  }

  /** Every transition keeps `Consistent`, `saveWorkflow` and `discardWorkflow` when called while no recording runs. */
  lemma ConsistentPreserved(s: Session, now: int, actionData: ActionData, dbReady: bool, metadata: SaveRequest)
    requires Consistent(s)
    ensures Consistent(Start(s, now).0) && Consistent(Stop(s).0) && Consistent(Cancel(s).0)
    ensures Consistent(ActionCaptured(s, actionData, now))
    ensures !s.isRecording ==> Consistent(Reset(s)) && Consistent(Save(s, dbReady, metadata, now).0)
  {
    StartConsistent(s, now);
    StopConsistent(s);
    CancelConsistent(s);
    ActionCapturedConsistent(s, actionData, now);
    if !s.isRecording {
      ResetConsistent(s);
    }
  }

  lemma StartConsistent(s: Session, now: int)
    requires Consistent(s)
    ensures Consistent(Start(s, now).0)
  {
  }

  lemma StopConsistent(s: Session)
    requires Consistent(s)
    ensures Consistent(Stop(s).0)
  {
    if s.isRecording && s.pendingAction.Some? {
      var p := s.pendingAction.value;
      IncreasingSnoc(s.actions, p);
      assert forall a :: a in s.actions + [p] ==> a in s.actions || a == p;
    }
  }

  lemma CancelConsistent(s: Session)
    requires Consistent(s)
    ensures Consistent(Cancel(s).0)
  {
  }

  lemma ActionCapturedConsistent(s: Session, data: ActionData, now: int)
    requires Consistent(s)
    ensures Consistent(ActionCaptured(s, data, now))
  {
    if s.isRecording {
      ActionsWithinCount(s);
    }
  }

  /** With no recording running, `resetRecordingState` (and so a successful save) keeps `Consistent`. */
  lemma ResetConsistent(s: Session)
    requires Consistent(s) && !s.isRecording
    ensures Consistent(Reset(s))
  {
  }

  lemma StateCapturedConsistent(s: Session, data: StateData, now: int)
    requires Consistent(s)
    ensures Consistent(StateCaptured(s, data, now))
  {
    if s.isRecording {
      StateCapturedValid(s, data, now);
      if Repeats(s, data) {
        RepeatConsistent(s, data, now);
      } else {
        NewStateConsistent(s, data, now);
      }
    }
  }

  /** A repeated content hash only links the pending action to the last state. */
  lemma RepeatConsistent(s: Session, data: StateData, now: int)
    requires Consistent(s) && s.isRecording && Repeats(s, data)
    requires Valid(StateCaptured(s, data, now))
    ensures Consistent(StateCaptured(s, data, now))
  {
    if s.pendingAction.Some? {
      var linked := s.pendingAction.value.(etatApresId := Some(s.states[|s.states| - 1].id));
      var t := s.(actions := s.actions + [linked], pendingAction := None);
      assert StateCaptured(s, data, now) == t;
      LinkedToLast(s.states, linked);
      IncreasingSnoc(s.actions, linked);
      assert forall a :: a in t.actions ==> a in s.actions || a == linked;
    }
  }

  /** A new state is appended, the pending action linked to it. */
  lemma NewStateConsistent(s: Session, data: StateData, now: int)
    requires Consistent(s) && s.isRecording && !Repeats(s, data)
    requires Valid(StateCaptured(s, data, now))
    ensures Consistent(StateCaptured(s, data, now))
  {
    var state := State(data, s.nextId, s.workflowId, now, s.stateCount + 1);
    var actions := if s.pendingAction.Some? then s.actions + [s.pendingAction.value.(etatApresId := Some(state.id))] else s.actions;
    var t := s.(actions := actions, pendingAction := None, states := s.states + [state], stateCount := s.stateCount + 1,
                lastCapturedStateId := Some(state.id), nextId := s.nextId + 1);
    assert StateCaptured(s, data, now) == t;
    if s.pendingAction.Some? {
      var linked := s.pendingAction.value.(etatApresId := Some(state.id));
      IncreasingSnoc(s.actions, linked);
      assert forall a :: a in actions ==> a in s.actions || a == linked;
    }
    LinkedAfterGrowth(s.states, state, actions);
    assert t.lastCapturedStateId == LastStateId(t.states);
    assert forall i :: 0 <= i < |t.states| ==> t.states[i].workflowId == t.workflowId by {
      forall i | 0 <= i < |t.states| ensures t.states[i].workflowId == t.workflowId {
        if i < |s.states| {
          assert t.states[i] == s.states[i];
        }
      }
    }
  }

  lemma IncreasingSnoc(actions: seq<Action>, a: Action)
    requires Increasing(actions)
    requires forall b :: b in actions ==> b.sequenceNumber < a.sequenceNumber
    ensures Increasing(actions + [a])
  {
    var all := actions + [a];
    forall i, j | 0 <= i < j < |all| ensures all[i].sequenceNumber < all[j].sequenceNumber {
      if j < |actions| {
        assert all[i] == actions[i] && all[j] == actions[j];
      } else {
        assert all[i] in actions;
      }
    }
  }

  /** Under `Consistent`, the stored and pending actions never outnumber `actionCount`. */
  lemma ActionsWithinCount(s: Session)
    requires Consistent(s)
    ensures |s.actions| + (if s.pendingAction.Some? then 1 else 0) <= s.actionCount
  {
    IncreasingBound(s.actions, s.actionCount);
    if s.pendingAction.Some? {
      var p := s.pendingAction.value;
      IncreasingSnoc(s.actions, p);
      assert forall a :: a in s.actions + [p] ==> a in s.actions || a == p;
      IncreasingBound(s.actions + [p], s.actionCount);
    }
  }

  /**
   * A second action before any state replaces the pending one: the first is never
   * stored, although both were counted.
   */
  lemma SecondActionOverwrites(s: Session, a: ActionData, b: ActionData, t1: int, t2: int)
    requires s.isRecording
    ensures var t := ActionCaptured(ActionCaptured(s, a, t1), b, t2);
      && t.actions == s.actions && t.actionCount == s.actionCount + 2
      && t.pendingAction.Some? && t.pendingAction.value.data == b
      && t.pendingAction.value.sequenceNumber == s.actionCount + 2
  {
  }

  /** A state capture during a recording always leaves no action pending. */
  lemma NoPendingAfterState(s: Session, data: StateData, now: int)
    requires s.isRecording
    ensures StateCaptured(s, data, now).pendingAction.None?
  {
  }

  /**
   * The linking a state capture performs: on a repeated state the pending action's
   * after-state is its before-state; on a new state it is the new state, which follows the
   * before-state, or is state #1 when there was none.
   */
  lemma StateLinksPending(s: Session, data: StateData, now: int)
    requires Consistent(s) && s.isRecording && s.pendingAction.Some?
    ensures var t := StateCaptured(s, data, now);
      var linked := t.actions[|t.actions| - 1];
      && |t.actions| == |s.actions| + 1 && t.actions[..|s.actions|] == s.actions
      && linked.id == s.pendingAction.value.id
      && (Repeats(s, data) ==> linked.etatApresId == linked.etatAvantId && t.states == s.states)
      && (!Repeats(s, data) ==>
            && linked.etatApresId == Some(t.states[|t.states| - 1].id)
            && (linked.etatAvantId.None? ==> |t.states| == 1)
            && (linked.etatAvantId.Some? ==> linked.etatAvantId == Some(t.states[|t.states| - 2].id)))
  {
    var t := StateCaptured(s, data, now);
    assert t.actions[..|s.actions|] == s.actions;
  }

  /**
   * The linking `stopRecording` performs: the pending action is stored without an
   * after-state, and its before-state is the last state captured (none when no state was).
   */
  lemma StopStoresPending(s: Session)
    requires Consistent(s) && s.isRecording && s.pendingAction.Some?
    ensures var t := Stop(s).0;
      var stored := t.actions[|t.actions| - 1];
      && t.actions == s.actions + [s.pendingAction.value] && t.states == s.states
      && stored.etatApresId.None? && stored.etatAvantId == LastStateId(t.states)
  {
  }

  /** A repeated state is one whose hash equals the last one's, so two absent hashes repeat. */
  lemma AbsentHashesRepeat(s: Session, data: StateData, now: int)
    requires s.isRecording && s.states != [] && s.states[|s.states| - 1].data.contentHash.None? && data.contentHash.None?
    ensures StateCaptured(s, data, now).states == s.states
  {
  }

  /**
   * The saved record describes the session it came from: its counters count every
   * stored state and at least every stored action (there is at least one), and its
   * URLs are those of the first and last states captured.
   */
  lemma SavedWorkflowDescribes(s: Session, dbReady: bool, metadata: SaveRequest, now: int)
    requires Consistent(s) && Save(s, dbReady, metadata, now).1.Success?
    ensures var w := Save(s, dbReady, metadata, now).1.value;
      && w.id == s.workflowId && w.status == "completed"
      && w.stateCount == |s.states|
      && 1 <= |s.actions| <= w.actionCount
      && (s.states != [] ==> w.startUrl == s.states[0].data.url && w.endUrl == s.states[|s.states| - 1].data.url)
  {
    ActionsWithinCount(s);
  }

  class WorkflowRecorder {
    var isRecording: bool
    // recordingState
    var workflowId: Option<nat>
    var startTime: Option<int>
    var actions: seq<Action>
    var states: seq<State>
    var actionCount: nat
    var stateCount: nat
    // tracking of the action/state linkage
    var lastCapturedStateId: Option<nat>
    var pendingAction: Option<Action>
    /** The next fresh id; stands in for `generateUUID`. */
    var nextId: nat

    /** The recorder's fields as a value. */
    function Snapshot(): Session
      reads this
    {
      Session(isRecording, workflowId, startTime, actions, states, actionCount, stateCount,
        lastCapturedStateId, pendingAction, nextId)
    }

    constructor ()
      ensures Snapshot() == Initial()
    {
      isRecording := false;
      workflowId, startTime := None, None;
      actions, states := [], [];
      actionCount, stateCount := 0, 0;
      lastCapturedStateId, pendingAction := None, None;
      nextId := 0;
    }

    /** `resetRecordingState`. */
    method ResetRecordingState()
      modifies this
      ensures Snapshot() == Reset(old(Snapshot()))
    {
      workflowId, startTime := None, None;
      actions, states := [], [];
      actionCount, stateCount := 0, 0;
    }

    /** `startRecording`; the initial-state capture it triggers arrives later as `HandleStateCaptured`. */
    method StartRecording(now: int) returns (r: Outcome<string>)
      modifies this
      ensures (Snapshot(), r) == Start(old(Snapshot()), now)
    {
      if isRecording {
        return Fail(AlreadyRecording);
      }
      isRecording := true;
      workflowId := Some(nextId);
      nextId := nextId + 1;
      startTime := Some(now);
      actions, states := [], [];
      actionCount, stateCount := 0, 0;
      r := Pass;
    }

    /** `stopRecording`. */
    method StopRecording() returns (r: Outcome<string>)
      modifies this
      ensures (Snapshot(), r) == Stop(old(Snapshot()))
    {
      if !isRecording {
        return Fail(NotRecording);
      }
      isRecording := false;
      if pendingAction.Some? {
        actions := actions + [pendingAction.value];
      }
      pendingAction := None;
      lastCapturedStateId := None;
      r := Pass;
    }

    /** `cancelRecording`. */
    method CancelRecording() returns (r: Outcome<string>)
      modifies this
      ensures (Snapshot(), r) == Cancel(old(Snapshot()))
    {
      if !isRecording {
        return Fail(NotRecording);
      }
      isRecording := false;
      pendingAction := None;
      lastCapturedStateId := None;
      ResetRecordingState();
      r := Pass;
    }

    /** `discardWorkflow`: resets the recording state whether or not a recording runs. */
    method DiscardWorkflow()
      modifies this
      ensures Snapshot() == Reset(old(Snapshot()))
    {
      ResetRecordingState();
    }

    /** `saveWorkflow` without the database writes; `now` stands for `Date.now()`. */
    method SaveWorkflow(dbReady: bool, metadata: SaveRequest, now: int) returns (r: Result<Workflow, string>)
      modifies this
      ensures (Snapshot(), r) == Save(old(Snapshot()), dbReady, metadata, now)
    {
      ghost var before := Snapshot();
      if !dbReady {
        return Failure(NoDatabase);
      }
      if |actions| == 0 {
        return Failure(NoActions);
      }
      var start := startTime.GetOr(0);
      var startUrl := if |states| > 0 then states[0].data.url else "";
      var endUrl := if |states| > 0 then states[|states| - 1].data.url else "";
      var workflow := Workflow(
        workflowId, metadata.title, OrElse(metadata.description, ""), WorkflowTags(metadata.tags),
        start, now - start, actionCount, stateCount, startUrl, endUrl, "completed");
      assert workflow == WorkflowOf(before, metadata, now);
      ResetRecordingState();
      r := Success(workflow);
    }

    /** `handleActionCaptured`; `now` stands for `Date.now()`. */
    method HandleActionCaptured(actionData: ActionData, now: int)
      modifies this
      ensures Snapshot() == ActionCaptured(old(Snapshot()), actionData, now)
    {
      if !isRecording {
        return;
      }
      var enrichedAction := Action(actionData, nextId, workflowId, now, actionCount + 1, lastCapturedStateId, None);
      nextId := nextId + 1;
      pendingAction := Some(enrichedAction);
      actionCount := actionCount + 1;
    }

    /** `handleStateCaptured`; `now` stands for `Date.now()`. */
    method HandleStateCaptured(stateData: StateData, now: int)
      modifies this
      ensures Snapshot() == StateCaptured(old(Snapshot()), stateData, now)
    {
      if !isRecording {
        return;
      }
      if |states| > 0 && states[|states| - 1].data.contentHash == stateData.contentHash {
        var lastState := states[|states| - 1];
        if pendingAction.Some? {
          actions := actions + [pendingAction.value.(etatApresId := Some(lastState.id))];
          pendingAction := None;
        }
        return;
      }
      var enrichedState := State(stateData, nextId, workflowId, now, stateCount + 1);
      nextId := nextId + 1;
      if pendingAction.Some? {
        actions := actions + [pendingAction.value.(etatApresId := Some(enrichedState.id))];
        pendingAction := None;
      }
      states := states + [enrichedState];
      stateCount := stateCount + 1;
      lastCapturedStateId := Some(enrichedState.id);
    }
  }

  /** An action whose after-state is the last state, and whose before-state is that state too, is linked. */
  lemma LinkedToLast(states: seq<State>, a: Action)
    requires states != [] && a.etatAvantId == Some(states[|states| - 1].id)
    requires a.etatApresId == Some(states[|states| - 1].id)
    ensures Linked(states, a)
  {
    assert states[|states| - 1].id == a.etatAvantId.value;
  }

  /**
   * Appending a state keeps every linked action linked, and links an action whose
   * before-state was the last one (or none, for the first state) to the new state.
   */
  lemma LinkedAfterGrowth(states: seq<State>, s: State, actions: seq<Action>)
    requires forall a :: a in actions ==>
      Linked(states, a) || (a.etatAvantId == LastStateId(states) && a.etatApresId == Some(s.id))
    ensures forall a :: a in actions ==> Linked(states + [s], a)
  {
    var grown := states + [s];
    forall a | a in actions ensures Linked(grown, a) {
      if Linked(states, a) {
        match a.etatApresId
        case None =>
          if a.etatAvantId.Some? {
            var i :| 0 <= i < |states| && states[i].id == a.etatAvantId.value;
            assert grown[i] == states[i];
          }
        case Some(after) =>
          match a.etatAvantId
          case None =>
            assert grown[0] == states[0];
          case Some(before) =>
            var i :| 0 <= i < |states| && states[i].id == before
              && (after == before || (i + 1 < |states| && after == states[i + 1].id));
            assert grown[i] == states[i];
            assert i + 1 < |states| ==> grown[i + 1] == states[i + 1];
      } else {
        if states == [] {
          assert grown[0] == s;
        } else {
          var i := |states| - 1;
          assert grown[i] == states[i] && grown[i + 1] == s;
        }
      }
    }
  }
}
