/**
 * The stored records the exporters read: page states and user actions as the database
 * returns them for one workflow. An optional string field that is absent is the empty
 * string here. Nearly every use of such a field in the exporters is a truthiness test
 * or a `|| default`, for which `undefined` and `''` behave alike; the one that prints
 * the field as is, the `tagName` of a fingerprint, always finds it set.
 */
module Records {
  import opened Wrappers
  import opened BlockDiff

  /** An entry of a state's `interactiveElements`. */
  datatype Element = Element(
    id: string, name: string, tagName: string, elementType: string, role: string,
    placeholder: string, textContent: string, className: string)

  /**
   * What the markdown layout pass adds to a state: nothing; `hasCommonLayout` and
   * `isFirstOfUrl` for the first state of a URL group; or the diff against the previous
   * state of the group (`markdownDiff`, `markdownDiffContent`, `diffFromStateId`,
   * `hasContentChange`, `diffMetrics`).
   */
  datatype Annotation =
    | Unannotated
    | FirstOfUrl
    | DiffFromPrevious(markdownDiffContent: string, diffFromStateId: string, hasContentChange: bool, diffMetrics: DiffMetrics)

  /** A captured page state (`etat`); `sequenceNumber` 0 stands for an absent one. */
  datatype StateRecord = StateRecord(
    id: string, url: string, urlPattern: string, title: string, markdownContent: string,
    timestamp: int, sequenceNumber: nat, interactiveElements: Option<seq<Element>>,
    annotation: Annotation)

  /** `target.textContext`: the accessible texts found on the element and on its parent. */
  datatype TextContext = TextContext(
    directAriaLabel: string, directTitle: string, directDataOriginalTitle: string,
    parentText: string, parentDataOriginalTitle: string, parentTitle: string, parentAriaLabel: string)

  /**
   * The element an action was performed on; `labelText` is its `label`. `selectDetails` holds the selected option's
   * text when present; `checkboxDetails` holds `isChecked` when present.
   */
  datatype Target = Target(
    tagName: string, id: string, name: string, className: string, xpath: string, selector: string,
    textContent: string, labelText: string, placeholder: string, textContext: TextContext,
    selectDetails: Option<string>, checkboxDetails: Option<bool>)

  const NoTextContext := TextContext("", "", "", "", "", "", "")

  /** `action.target || {}`. */
  const EmptyTarget := Target("", "", "", "", "", "", "", "", "", NoTextContext, None, None)

  /**
   * A recorded action; `kind` is its `type`, `sequenceNumber` 0 stands for an absent one,
   * `etatAvantId` is the id of the state it followed (`null` is `None`), and
   * `navigationPathname` is `navigationDetails.to.pathname`.
   */
  datatype ActionRecord = ActionRecord(
    id: string, kind: string, target: Option<Target>, url: string, timestamp: int,
    sequenceNumber: nat, etatAvantId: Option<string>, navigationPathname: string)

  /**
   * A stored workflow: `metadata.duration` (milliseconds) and `metadata.actionCount`
   * are 0 when absent, which `|| 0` makes indistinguishable.
   */
  datatype Workflow = Workflow(
    id: string, title: string, description: string, tags: Option<seq<string>>,
    duration: int, actionCount: int)

  /** What the exporters receive: the workflow with its actions and its states (`etats`). */
  datatype WorkflowData = WorkflowData(
    workflow: Option<Workflow>, actions: Option<seq<ActionRecord>>, states: Option<seq<StateRecord>>)
}
