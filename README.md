# crawlerExtension core in Dafny

This project models the core logic of a browser extension that records a user's session in a web application. It captures an ordered list of page *states* (markdown snapshots of a page) and *actions* (clicks, inputs, changes, submits, navigations). It then compresses and exports that recording. The model covers four parts.

- **Recording controller** (`Recorder`, from `background/service-worker.js`).
  - `WorkflowRecorder` is a Dafny class with the source's fields: `isRecording`, the pending action, `lastCapturedStateId`, the action and state lists, and the two counters.
  - Each method changes those fields and states its whole new state.
  - The same transitions are also written as pure functions on a `Session` value. That is where the invariants are proved:
    - the counters match the lists;
    - states are numbered 1..n;
    - at most one action is pending;
    - every stored action is linked to the state before it and, unless `stopRecording` stored it, to the state after it.
- **Structural diff engine** (from `export/json-formatter.js`).
  - `BlockParser` segments collapsed markdown into typed blocks: code fences, headings, separators, list items, images, links, then paragraphs in the gaps. Each regex detector is a hand-written scanner.
  - `EditDistance` is the Levenshtein matrix, filled in with nested loops.
  - `BlockDiff` is `MarkdownDiffService`: hashing, the best-match search, the block comparison, the metrics and the textual diff.
  - `Layout` covers element fingerprints, the cross-state intersection of layout elements, and markdown layout extraction by URL group.
- **Export formatters** (from `export/export-manager.js`).
  - `RagHtmlFormatter` covers the chronological timeline, the action descriptions, HTML escaping and the diff-to-HTML conversion.
  - `SeleniumFormatter` covers the choice of locator and `toSnakeCase`.
  - `CsvFormatter` covers the CSV file.
  - `ExportManager` covers `generateInsights` and `validateExportData`.
- **RAG formatter** (`RagFormatter`, from `export/rag-formatter.js`).
  - It finds the nearest page of each action and groups actions by page, at most five per group.
  - It computes titles, complexity, distinct pages and kinds, and relevance scores.
  - It numbers the chunks and the question/answer pairs.

Shared modules:

- `Wrappers` holds `Option`, `Result` and `Outcome`.
- `Text` holds the JavaScript string operations used: `trim`, `split`, `join`, `||` on strings, number printing, lower-casing.
- `Sorting` is a stable sort by an integer key, standing for `Array.prototype.sort`.
- `OrderedIndex` covers insertion-ordered maps, `[...new Set(xs)]` and `filter`.
- `Extremes` holds the strict left-to-right minimum and maximum scans.
- `Records` holds the exported records.

How JavaScript behaviour is modelled:

- Loops in the source are methods with loop invariants. Each is proved equal to a specification function, and the properties are proved about that function.
- Optional strings are `""` when absent. Nearly every use of them is a truthiness test or a `|| default`, where `undefined` and `''` behave alike; the exceptions are listed under "## Left out".
- Object identity, such as the `actionPage !== currentPage` test, is modelled as identity of positions in the state list.
- A call that would throw on a missing field returns `None`.
- Scores and similarities are exact reals.
- `Math.round(x)` is `Floor(x + 0.5)`.
- Identifiers from `generateUUID` and times from `Date.now()` are a counter field and a `now` parameter.

## Model

| member | source | states |
|---|---|---|
| Recorder.TrimmedNonEmpty | background/service-worker.js:253 | `.map(t => t.trim()).filter(t => t)` keeps only non-empty trimmed tags, at most one per part |
| Recorder.WorkflowTags | background/service-worker.js:252-253 | an array of tags is kept as is; a text is split on commas into trimmed non-empty tags, none for a blank text |
| Recorder.IncreasingBound | background/service-worker.js:341-373 | strictly increasing sequence numbers from 1 to `n` number at most `n` |
| Recorder.Reset | background/service-worker.js:533-542 | the counters and lists of a finished recording are cleared; the other fields are kept (ResetValid, ResetConsistent) |
| Recorder.Start | background/service-worker.js:144-173 | fails with the "already recording" message during a recording; otherwise opens a fresh workflow with empty lists and zero counters (StartValid, StartConsistent) |
| Recorder.Stop | background/service-worker.js:175-208 | fails outside a recording; otherwise ends it, storing the pending action if there is one (StopValid, StopConsistent, StopStoresPending) |
| Recorder.Cancel | background/service-worker.js:210-233 | fails outside a recording; otherwise ends it and discards its actions and states (CancelValid, CancelConsistent) |
| Recorder.Save | background/service-worker.js:235-284 | fails without a database or with no stored action; otherwise returns the workflow built from the session and clears the session (SaveValid) |
| Recorder.ActionCaptured | background/service-worker.js:341-373 | outside a recording nothing changes; otherwise the new action, linked to the last captured state, becomes the pending one and is counted (ActionCapturedValid, SecondActionOverwrites) |
| Recorder.StateCaptured | background/service-worker.js:375-437 | outside a recording nothing changes; a repeated content hash only stores the pending action against the last state; a new state is numbered, appended and stores the pending action against itself (StateCapturedValid, StateLinksPending) |
| Recorder.InitialConsistent | background/service-worker.js:5-21 | the constructor's state is consistent and cleared |
| Recorder.ValidPreserved | background/service-worker.js:144-373 | start, stop, cancel, reset, save and action capture all keep the recorder valid |
| Recorder.StateCapturedValid | background/service-worker.js:375-437 | a state capture keeps the recorder valid |
| Recorder.StartValid | background/service-worker.js:144-173 | starting keeps the state count, the 1..n numbering and the freshness of every identifier |
| Recorder.StopValid | background/service-worker.js:175-208 | stopping keeps those invariants |
| Recorder.CancelValid | background/service-worker.js:210-233 | cancelling keeps those invariants |
| Recorder.WorkflowOf | background/service-worker.js:248-263 | the record `saveWorkflow` builds: the session's id, the title, the description or `""`, the tags as WorkflowTags reads them, the start time, the duration up to `now`, both counters, the first and last state URLs (`""` without states) and the status `completed`; SavedWorkflowDescribes states what it says about the session |
| Recorder.SavedWorkflowDescribes | background/service-worker.js:248-263 | under the session invariants, a saved record has the session's id and status `completed`, counts every stored state exactly and at least every stored action (at least one), and carries the URLs of the first and last states |
| Recorder.SaveValid | background/service-worker.js:235-284 | saving keeps those invariants |
| Recorder.ActionCapturedValid | background/service-worker.js:341-373 | capturing an action keeps those invariants |
| Recorder.ResetValid | background/service-worker.js:533-542 | resetting keeps those invariants |
| Recorder.StartConsistent | background/service-worker.js:144-173 | starting keeps every stored action linked to the states |
| Recorder.StopConsistent | background/service-worker.js:175-208 | stopping stores the pending action with a before-state that exists, so the linkage holds |
| Recorder.CancelConsistent | background/service-worker.js:210-233 | cancelling keeps the linkage |
| Recorder.ActionCapturedConsistent | background/service-worker.js:341-373 | capturing an action keeps the linkage, and the new pending action fits after the last state |
| Recorder.ResetConsistent | background/service-worker.js:533-542 | resetting a finished recording keeps the linkage |
| Recorder.RepeatConsistent | background/service-worker.js:379-391 | a repeated state links the pending action to the last existing state and keeps the linkage |
| Recorder.NewStateConsistent | background/service-worker.js:393-428 | a new state links the pending action to it and keeps the linkage of the grown state list |
| Recorder.ConsistentPreserved | background/service-worker.js:144-373 | every transition keeps the action/state linkage consistent; reset and save do so when no recording runs |
| Recorder.StateCapturedConsistent | background/service-worker.js:375-437 | a state capture keeps the linkage consistent |
| Recorder.IncreasingSnoc | background/service-worker.js:375-437 | appending an action with a larger sequence number keeps the numbers increasing |
| Recorder.ActionsWithinCount | background/service-worker.js:341-373 | stored plus pending actions never outnumber `actionCount` |
| Recorder.SecondActionOverwrites | background/service-worker.js:341-373 | a second action before any state replaces the pending one, so the first is never stored although both are counted |
| Recorder.NoPendingAfterState | background/service-worker.js:375-437 | a state capture during a recording leaves no action pending |
| Recorder.StopStoresPending | background/service-worker.js:175-191 | stopping stores the pending action without an after-state, its before-state being the last state captured (none if no state was) |
| Recorder.StateLinksPending | background/service-worker.js:375-437 | a state capture stores the pending action, linked to the repeated before-state or to the new state that follows it |
| Recorder.AbsentHashesRepeat | background/service-worker.js:375-437 | two states without a content hash count as a repetition, so the second is not stored |
| Recorder.WorkflowRecorder.constructor | background/service-worker.js:5-21 | a new recorder is in the initial state |
| Recorder.WorkflowRecorder.ResetRecordingState | background/service-worker.js:533-542 | the recorder's fields become the reset state |
| Recorder.WorkflowRecorder.StartRecording | background/service-worker.js:144-173 | fails while recording; otherwise starts a fresh recording |
| Recorder.WorkflowRecorder.StopRecording | background/service-worker.js:175-208 | fails when not recording; otherwise stores the pending action and stops |
| Recorder.WorkflowRecorder.CancelRecording | background/service-worker.js:210-233 | fails when not recording; otherwise stops and resets |
| Recorder.WorkflowRecorder.DiscardWorkflow | background/service-worker.js:286-292 | resets the recording state whether or not a recording runs |
| Recorder.WorkflowRecorder.SaveWorkflow | background/service-worker.js:235-284 | fails without a database or without actions; otherwise builds the workflow record and resets |
| Recorder.WorkflowRecorder.HandleActionCaptured | background/service-worker.js:341-373 | while recording, counts the action and makes it the pending one; ignored otherwise |
| Recorder.WorkflowRecorder.HandleStateCaptured | background/service-worker.js:375-437 | while recording, stores a new state unless it repeats the last hash, and links the pending action; ignored otherwise |
| Recorder.LinkedToLast | background/service-worker.js:385-390 | an action whose before- and after-state are the last state is linked |
| Recorder.LinkedAfterGrowth | background/service-worker.js:411-427 | appending a state keeps every linked action linked and links the action waiting on the last state |
| BlockParser.KindName | export/json-formatter.js:646-647 | the `type` stored in a block is a non-empty word of letters |
| BlockParser.HashRunEnd | export/json-formatter.js:662 | the `#{1,6}` run: every character up to the result is `#` and the next one is not |
| BlockParser.CodeBlockAt | export/json-formatter.js:573 | the `codeBlock` pattern at the search position: a fence of three backticks, a run with no backtick (possibly empty), and a fence that must start at the first backtick after the opening one; CodeBlockAtMatches states it |
| BlockParser.CodeBlockAtMatches | export/json-formatter.js:573 | a code block is found at `i` iff `FencedAt(s, i, j)` holds for some `j`: the match then ends at `j + 3`, and its content is the whole match trimmed, fences included |
| BlockParser.EmptyCodeBlock | export/json-formatter.js:573 | six backticks are one code block with those six backticks as content |
| BlockParser.BacktickInsideCode | export/json-formatter.js:573 | a single backtick between the fences ends the run of non-backticks, and the text after it does not start a fence, so three backticks, `a`, one backtick, `b` and three backticks have no code block at position 0 |
| BlockParser.SeparatorAt | export/json-formatter.js:570 | the `separator` pattern at the search position, three characters long; SeparatorAtMatches states it |
| BlockParser.SeparatorAtMatches | export/json-formatter.js:570 | a separator is found at `i` iff the next three characters are `---`, `___` or `***`; the match is those three characters, and so is its content |
| BlockParser.ImageAt | export/json-formatter.js:579 | `/!\[([^\]]*)\]\(([^)]+)\)/` at the search position: `![`, alt text up to the first `]` (possibly empty), then `(`, a non-empty URL up to the first `)`, and that `)`; ImageAtMatches states it |
| BlockParser.ImageAtMatches | export/json-formatter.js:579 | an image is found at `i` iff `ImageShape(s, i, j, k)` holds for some `]` at `j` and `)` at `k`; the match then ends after `k`, and its content is the trimmed match |
| BlockParser.EmptyAltText | export/json-formatter.js:579 | `![](u)` is an image: the alt text may be empty |
| BlockParser.LinkAt | export/json-formatter.js:576 | `/\[([^\]]+)\]\(([^)]+)\)/` at the search position: `[`, a non-empty text up to the first `]`, then `(`, a non-empty URL up to the first `)`, and that `)`; LinkAtMatches states it |
| BlockParser.LinkAtMatches | export/json-formatter.js:576 | a link is found at `i` iff `LinkShape(s, i, j, k)` holds for some `]` at `j` and `)` at `k`; the match then ends after `k`, and its content is the trimmed match |
| BlockParser.EmptyLinkText | export/json-formatter.js:576 | `[](u)` is not a link: the text may not be empty |
| BlockParser.ListItemAt | export/json-formatter.js:693-707 | the `listRegex` of `extractListItems` at the search position: a marker, one or more whitespace characters taken greedily, and a lazy body up to ItemEnd; the marker is stored and the content is the body trimmed; ListItemAtMatches states it |
| BlockParser.ListItemAtMatches | export/json-formatter.js:693-707 | a list item is found at `i` iff a list marker (`-`, `*`, `+`, or digits and `.`) there is followed by whitespace; the item is then ListItemFrom that marker: the marker as written, the body from after the whitespace to ItemEnd, and its trimmed content |
| BlockParser.EmptyItemBody | export/json-formatter.js:693-707 | `- ` is an item with marker `-` and empty content, since the lazy body may stop at the end of input |
| BlockParser.HeadingAt | export/json-formatter.js:662-683 | a heading match starts at the search position with 1 to 6 `#` followed by whitespace, and `level` is the number of `#` |
| BlockParser.MarkerEnd | export/json-formatter.js:693 | a list marker, when present, is non-empty and ends inside the text |
| BlockParser.ItemEnd | export/json-formatter.js:693 | the lazy item body stops at the first position where the next-item lookahead or the end of input holds, and not before |
| BlockParser.MatchAt | export/json-formatter.js:562-586 | a detector's match at a position has that detector's kind, starts there and is non-empty |
| BlockParser.FirstMatch | export/json-formatter.js:637 | `regex.exec` from `lastIndex`: a match found is the detector's match at its own start, at or after `lastIndex` |
| BlockParser.FirstMatchAgain | export/json-formatter.js:637 | restarting the search at any index it passed over finds the same match (or again none) |
| BlockParser.FirstMatchLeftmost | export/json-formatter.js:637 | the match found is the leftmost one: no index between `lastIndex` and it (or the end) has a match |
| BlockParser.Range | export/json-formatter.js:776-780 | the indices from `start` up to but excluding `end` |
| BlockParser.ClaimKeepsState | export/json-formatter.js:642-654 | a match that touches no processed index keeps all blocks pairwise disjoint once pushed and marked |
| BlockParser.ScanKeepsState | export/json-formatter.js:637-655 | one detector's whole scan keeps the blocks disjoint and the processed set equal to their indices |
| BlockParser.IsRangeProcessed | export/json-formatter.js:764-771 | true exactly when some index in `[start, end)` is already processed |
| BlockParser.MarkRangeProcessed | export/json-formatter.js:776-780 | the processed set gains exactly the indices `[start, end)` |
| BlockParser.ExtractBlocks | export/json-formatter.js:630-719 | the `exec` loop of one detector equals the scan specification, skipping matches over processed ranges |
| BlockParser.GapUnfold | export/json-formatter.js:728-743 | one step of the paragraph loop: the gap before a block, then the gaps after it |
| BlockParser.ExtractParagraphs | export/json-formatter.js:724-759 | appends exactly the trimmed non-empty gaps between the start-sorted blocks and after the last one |
| BlockParser.Parse | export/json-formatter.js:594-625 | the blocks of a text: none when it is blank, else the detected blocks and the gap paragraphs sorted by start; ParseMarkdownBlocks computes it and ParseProperties proves the result ordered, disjoint and well formed |
| BlockParser.ParseMarkdownBlocks | export/json-formatter.js:594-625 | empty exactly for blank input; blocks sorted by start, non-overlapping, and every non-whitespace character inside some block |
| BlockParser.DetectKeepsState | export/json-formatter.js:602-616 | the six detector passes in their order leave pairwise disjoint blocks |
| BlockParser.InsertKeepsDisjoint | export/json-formatter.js:622 | inserting a block disjoint from all others keeps the list pairwise disjoint |
| BlockParser.SortKeepsDisjoint | export/json-formatter.js:622 | sorting by start keeps the blocks pairwise disjoint |
| BlockParser.SortedDisjointOrdered | export/json-formatter.js:622 | sorted and disjoint blocks each end before the next begins |
| BlockParser.GapInputTail | export/json-formatter.js:728-743 | the paragraph loop's input stays sorted after its first block |
| BlockParser.GapWellFormed | export/json-formatter.js:729-757 | each gap paragraph is a trimmed, non-empty slice of the text at or after the cursor |
| BlockParser.GapOrdered | export/json-formatter.js:728-757 | gap paragraphs come in text order without overlap |
| BlockParser.GapDisjoint | export/json-formatter.js:728-757 | no gap paragraph overlaps a detected block |
| BlockParser.GapCoverage | export/json-formatter.js:728-757 | a non-whitespace character outside every detected block falls in a gap paragraph |
| BlockParser.SortedDetectedFacts | export/json-formatter.js:726 | the sorted copy holds the same well-formed detector blocks |
| BlockParser.GapsMissDetected | export/json-formatter.js:724-759 | gap paragraphs and detector blocks never overlap |
| BlockParser.UnsortedDisjoint | export/json-formatter.js:602-619 | all blocks before the final sort are pairwise disjoint |
| BlockParser.UnsortedWellFormed | export/json-formatter.js:602-619 | every block before the final sort is well formed |
| BlockParser.UnsortedCovers | export/json-formatter.js:602-619 | every non-whitespace character is covered before the final sort |
| BlockParser.ParseProperties | export/json-formatter.js:594-625 | the parse is empty exactly for blank input, sorted, non-overlapping, well formed and covering |
| BlockParser.ParsedHeadings | export/json-formatter.js:661-683 | every heading's level counts its own leading `#`, from 1 to 6, followed by whitespace |
| BlockParser.MapToMarkdown | export/json-formatter.js:786-800 | one rendering per block, in order |
| BlockParser.BlocksToMarkdownConcat | export/json-formatter.js:785-802 | rendering two runs of blocks is rendering each, joined by one space |
| BlockParser.LevelText | export/json-formatter.js:808 | `level \|\| ''` prints digits only |
| BlockParser.KindNameInjective | export/json-formatter.js:646-647 | different kinds store different `type` strings |
| BlockParser.GetBlockHash | export/json-formatter.js:807-809 | the diff's identity of a block, from its kind, level and first 50 content characters; BlockHashOfIff says exactly when two blocks share it |
| BlockParser.BlockHashOfIff | export/json-formatter.js:807-809 | two blocks hash alike exactly when kind, level and the first 50 content characters agree |
| EditDistance.Min3 | export/json-formatter.js:543-547 | `Math.min` of three values is one of them and below all |
| EditDistance.DistZeroIff | export/json-formatter.js:527-552 | the distance is 0 exactly between equal strings |
| EditDistance.DistBounds | export/json-formatter.js:527-552 | the distance lies between the length difference and the larger length |
| EditDistance.DistSymmetric | export/json-formatter.js:527-552 | the distance does not depend on the order of the arguments |
| EditDistance.FillRow | export/json-formatter.js:541-548 | the inner loop fills row `i` with the recurrence and changes no other row |
| EditDistance.LevenshteinDistance | export/json-formatter.js:527-552 | the matrix method returns the recursive edit distance |
| EditDistance.RatioBounds | export/json-formatter.js:521 | `distance / maxLen` lies in (0, 1] when the distance is positive |
| EditDistance.Similarity | export/json-formatter.js:511-522 | similarity lies in [0, 1] and equals 1 exactly for equal contents |
| EditDistance.SimilaritySymmetric | export/json-formatter.js:511-522 | similarity is symmetric |
| EditDistance.CalculateSimilarity | export/json-formatter.js:511-522 | the method computes the similarity with the matrix, in [0, 1], 1 exactly for equal contents |
| BlockDiff.BlockSimilarity | export/json-formatter.js:451-458 | 0 across kinds; within a kind in [0, 1] and 1 exactly for equal contents |
| BlockDiff.SimilarAfter | export/json-formatter.js:427-443 | the best match after `n` blocks, if any, is one of those `n` |
| BlockDiff.FindSimilar | export/json-formatter.js:426-446 | the chosen block is a position of the list |
| BlockDiff.SimilarAfterBest | export/json-formatter.js:430-443 | the kept block is the earliest of greatest similarity above 0.01 among same-kind, same-level blocks, and `bestSimilarity` is its similarity |
| BlockDiff.FindSimilarBlock | export/json-formatter.js:426-446 | the loop's result is the earliest best match, or none when no candidate exceeds 0.01 |
| BlockDiff.Hashes | export/json-formatter.js:381-390 | the hash of every block, in order |
| BlockDiff.BlockMap | export/json-formatter.js:380-384 | the map's positions are positions of the list and it has at most one key per block |
| BlockDiff.BuildIsBlockMap | export/json-formatter.js:380-384 | keys in first-insertion order, each mapped to the last block with that hash |
| BlockDiff.BlockMapFacts | export/json-formatter.js:380-390 | the block map of a list is its hash index |
| BlockDiff.BuildBlockMap | export/json-formatter.js:380-390 | the `forEach` loop builds exactly the block map |
| BlockDiff.ClassifyBase | export/json-formatter.js:393-407 | the `baseMap.forEach` loop equals the base pass over the keys in insertion order |
| BlockDiff.CollectAdded | export/json-formatter.js:410-418 | the `newMap.forEach` loop equals the new pass |
| BlockDiff.Compare | export/json-formatter.js:374-421 | the added, removed and modified blocks of two parses; CompareBlocks computes it and CompareSound, CompareCounts and CompareCovers state what each list holds |
| BlockDiff.CompareBlocks | export/json-formatter.js:374-421 | the method returns the comparison specification |
| BlockDiff.BasePassSound | export/json-formatter.js:393-407 | each removal is a base block whose hash the new side lacks and with no similar block; each modification pairs it with its best match |
| BlockDiff.NewPassSound | export/json-formatter.js:410-418 | each addition is a new block whose hash the base lacks and that no modification points at |
| BlockDiff.CompareSound | export/json-formatter.js:374-421 | every reported block is removed, modified or added in that sense |
| BlockDiff.BasePassStep | export/json-formatter.js:393-407 | one base key adds one report exactly when the new side lacks its hash |
| BlockDiff.MissingStep | export/json-formatter.js:393-394 | the missing-hash count grows by one exactly at such a key |
| BlockDiff.BasePassCount | export/json-formatter.js:393-407 | reports of the base pass equal the missing distinct hashes seen |
| BlockDiff.BasePassCovers | export/json-formatter.js:393-407 | every missing hash seen is reported |
| BlockDiff.SetCardAtMostLength | export/json-formatter.js:380-390 | a list has at most as many distinct hashes as elements |
| BlockDiff.CompareUnfold | export/json-formatter.js:374-421 | the comparison is the new pass run after the base pass |
| BlockDiff.CompareCounts | export/json-formatter.js:393-407 | removals plus modifications equal the distinct base hashes the new side lacks, at most the base length |
| BlockDiff.AllMissingKeys | export/json-formatter.js:393-394 | after all keys, the missing hashes are those of base absent from new |
| BlockDiff.SubsetCard | export/json-formatter.js:393-407 | a subset is no larger |
| BlockDiff.CompareCovers | export/json-formatter.js:393-407 | every distinct base hash missing on the new side is reported |
| BlockDiff.NewPassHas | export/json-formatter.js:410-418 | once `newMap.forEach` has passed a block's hash, that block is added when it is the last of its hash, the base lacks the hash and no modification points at it |
| BlockDiff.NewPassCoversAll | export/json-formatter.js:410-418 | after the whole `newMap.forEach`, every such block is added |
| BlockDiff.CompareAddedCovers | export/json-formatter.js:410-418 | every new block that is the last of its hash, whose hash the base lacks and that no modification names as its `after`, is in `added`; with CompareSound, `added` holds exactly those blocks |
| BlockDiff.CompareAddedBound | export/json-formatter.js:410-418 | at most one addition per new block |
| BlockDiff.BasePassSelf | export/json-formatter.js:393-407 | comparing a list with itself removes and modifies nothing |
| BlockDiff.NewPassSelf | export/json-formatter.js:410-418 | comparing a list with itself adds nothing |
| BlockDiff.CompareSelf | export/json-formatter.js:374-421 | comparing a block list with itself reports nothing |
| BlockDiff.BlockPrefix | export/json-formatter.js:493-506 | empty exactly for paragraphs, images and links; otherwise ends with a space; no `\|` unless the marker has one |
| BlockDiff.RoundPercent | export/json-formatter.js:481 | `Math.round(x * 100)` is within one half of `x * 100` and lies in 0..100 for a similarity |
| BlockDiff.RemovedTokens | export/json-formatter.js:467-470 | one entry per removed block |
| BlockDiff.AddedTokens | export/json-formatter.js:473-476 | one entry per added block |
| BlockDiff.ModificationTokens | export/json-formatter.js:479-485 | three entries per modification |
| BlockDiff.DiffTokens | export/json-formatter.js:463-486 | removals, then additions, then three entries per modification |
| BlockDiff.FormatBlockDiff | export/json-formatter.js:463-488 | the method joins exactly those entries with `' \| '` |
| BlockDiff.PushRemoved | export/json-formatter.js:467-470 | the loop appends the removal entries |
| BlockDiff.PushAdded | export/json-formatter.js:473-476 | the loop appends the addition entries |
| BlockDiff.PushModified | export/json-formatter.js:479-485 | the loop appends three entries per modification |
| BlockDiff.DiffTokensHead | export/json-formatter.js:467-485 | the first entry starts with a non-whitespace character |
| BlockDiff.RemovedTokensHead | export/json-formatter.js:467-470 | the first removal entry renders the first removed block |
| BlockDiff.AddedTokensHead | export/json-formatter.js:473-476 | the first addition entry renders the first added block |
| BlockDiff.ModificationTokensHead | export/json-formatter.js:479-482 | the first modification entry is its `~` line |
| BlockDiff.JoinHead | export/json-formatter.js:487 | a join starts with its first part's first character |
| BlockDiff.FormatBlankIff | export/json-formatter.js:463-488 | the formatted diff is blank exactly when nothing was added, removed or modified |
| BlockDiff.PrefixBarFree | export/json-formatter.js:493-506 | a prefix has no `\|` when the marker has none |
| BlockDiff.RemovedTokensBarFree | export/json-formatter.js:467-470 | removal entries have no `\|` when the blocks have none |
| BlockDiff.AddedTokensBarFree | export/json-formatter.js:473-476 | addition entries have no `\|` when the blocks have none |
| BlockDiff.ModifiedTokensBarFree | export/json-formatter.js:480-484 | a modification's entries have no `\|` when its blocks have none |
| BlockDiff.ModificationTokensBarFree | export/json-formatter.js:479-485 | modification entries have no `\|` when the blocks have none |
| BlockDiff.FormatSplits | export/json-formatter.js:463-488 | splitting the diff on `' \| '` gives back its entries when no block holds a `\|` |
| BlockDiff.Diff | export/json-formatter.js:325-368 | the diff text and metrics of two markdown texts; ComputeDiff computes it and DiffBlankIff, DiffMetricsBounds and DiffSameBlocks state its properties |
| BlockDiff.ComputeDiff | export/json-formatter.js:325-368 | the method returns the diff specification: empty for identical inputs, else the block comparison and its counts |
| BlockDiff.DiffBlankIff | export/json-formatter.js:325-368 | the diff text is blank exactly when the added, removed and modified counts are all 0 |
| BlockDiff.DiffMetricsBounds | export/json-formatter.js:349-366 | removed plus modified is at most the base count, added at most the new count, unchanged at most both |
| BlockDiff.DiffSameBlocks | export/json-formatter.js:325-368 | different texts with the same parse give an empty diff with every block unchanged |
| Layout.ComboParts | export/json-formatter.js:294-301 | the stable properties kept for a combination fingerprint are all non-empty |
| Layout.ElementFingerprint | export/json-formatter.js:282-304 | the id, else the tag and name, else the combination of stable properties; FingerprintStrategy, IdFingerprintIff and NameFingerprintIff state which applies |
| Layout.FingerprintStrategy | export/json-formatter.js:282-304 | the fingerprint starts with `id:` exactly when the element has an id, `name:` when it has a name but no id, and `combo:` otherwise |
| Layout.IdFingerprintIff | export/json-formatter.js:284-286 | elements with an id share a fingerprint exactly when they share the id |
| Layout.NameFingerprintIff | export/json-formatter.js:289-291 | elements fingerprinted by name share a fingerprint exactly when they share tag and name (tags without `:`) |
| Layout.Fingerprints | export/json-formatter.js:62-65 | the fingerprint of every element, in order |
| Layout.ElementMapFacts | export/json-formatter.js:58-68 | a state's map has one key per fingerprint of its elements, listed once |
| Layout.InEveryOtherMapIff | export/json-formatter.js:76-78 | `slice(1).every(has)` holds exactly when every later state has the fingerprint |
| Layout.CommonFingerprintsFacts | export/json-formatter.js:71-83 | the common fingerprints are exactly those present in every state, each once |
| Layout.LookUpAllFound | export/json-formatter.js:86-92 | when every key is stored, one element is found per key |
| Layout.ElementMapLast | export/json-formatter.js:62-65 | `map.set` keeps the last element carrying each fingerprint |
| Layout.LayoutIsLookup | export/json-formatter.js:86-92 | the layout is the first state's map looked up at each common fingerprint, in order |
| Layout.ExtractLayoutElements | export/json-formatter.js:47-112 | the layout elements and cleaned states; ExtractLayout computes it and LayoutElementsFacts, CleanedStatesFacts and LayoutFewStates state its properties |
| Layout.BuildElementMap | export/json-formatter.js:58-68 | the `forEach` loop over one state's elements builds that state's fingerprint map, a later element of the same fingerprint overwriting an earlier one |
| Layout.BuildStateMaps | export/json-formatter.js:58-68 | the `states.map` builds one fingerprint map per state, in state order |
| Layout.InAllOtherMaps | export/json-formatter.js:76-78 | the `every` test holds exactly when every map after the first has the fingerprint |
| Layout.FilterCommonKeys | export/json-formatter.js:70-83 | the `forEach` over the first map keeps, in key order, exactly the fingerprints every other map has |
| Layout.OtherMapsHave | export/json-formatter.js:76-78 | the `every` test on the built maps agrees with the test on the states |
| Layout.CollectCommonFingerprints | export/json-formatter.js:70-83 | the fingerprints collected from the built maps are the common fingerprints of the states |
| Layout.LookUpLayoutElements | export/json-formatter.js:85-92 | the `forEach` over the common fingerprints pushes, in order, the first state's element of each fingerprint it finds |
| Layout.CleanAll | export/json-formatter.js:94-107 | one cleaned state per state, in order, each with the common elements filtered out |
| Layout.ExtractLayout | export/json-formatter.js:47-112 | the phases together return what `extractLayoutElements` returns |
| Layout.LayoutElementsFacts | export/json-formatter.js:47-112 | with two states or more, the layout holds one element of the first state per fingerprint common to all states, and nothing else |
| Layout.CleanedStatesFacts | export/json-formatter.js:95-107 | cleaning keeps every state and every field, and removes exactly the elements whose fingerprint is common; states without elements stay so |
| Layout.LayoutFewStates | export/json-formatter.js:48-55 | with fewer than two states the layout is empty and the states are unchanged |
| Layout.FindCommonBlocks | export/json-formatter.js:228-251 | the blocks of the first parse whose hash every other parse has; CollectCommonBlocks computes it and CommonBlocksIff and CommonBlocksSelf state its properties |
| OrderedIndex.AnyMatch | export/json-formatter.js:242 | `some` holds exactly when some element passes the test |
| Layout.SomeBlockHas | export/json-formatter.js:242 | the `some` test holds exactly when a block of the parse has the hash |
| Layout.IsPresentInAll | export/json-formatter.js:241-243 | the `every` test holds exactly when every parse after the first has a block with the hash |
| Layout.CollectCommonBlocks | export/json-formatter.js:228-251 | the `for…of` loop keeps, in order and with duplicates, exactly the blocks of the first parse present in every other parse |
| Layout.CommonBlocksIff | export/json-formatter.js:228-251 | a block of the first parse is common exactly when every other parse has a block with the same kind, level and first 100 characters |
| Layout.CommonBlocksSelf | export/json-formatter.js:228-251 | two copies of one parse have every block in common, duplicates included |
| Layout.BlockTypePrefix | export/json-formatter.js:263-276 | empty exactly for paragraphs, images and links; otherwise ends with a space and has no `\|` |
| Layout.SectionText | export/json-formatter.js:219-222 | the type prefix and the first 50 characters, with "..." when the content is longer; ParsedSectionNonEmpty and SectionTextBarFree state its properties |
| Layout.SectionTexts | export/json-formatter.js:219-222 | one section text per common block, in order |
| Layout.ParseAll | export/json-formatter.js:208 | the parse of every content, in order |
| Layout.ParsedSectionNonEmpty | export/json-formatter.js:219-222 | a parsed block's section text is never empty |
| Layout.JoinNonEmpty | export/json-formatter.js:222 | a join whose first part is non-empty is non-empty |
| Layout.ExtractCommonMarkdownSections | export/json-formatter.js:202-223 | the common sections joined by " | "; CommonSectionsBlankIff and CommonSectionsSplit state when it is empty and what its parts are |
| Layout.CommonSectionsBlankIff | export/json-formatter.js:202-223 | the common layout text is empty exactly when there are fewer than two contents or no common block |
| Layout.CommonSectionsSplit | export/json-formatter.js:202-223 | splitting the layout text on `' \| '` gives one section per common block when no block holds a `\|` |
| Layout.SectionTextBarFree | export/json-formatter.js:219-222 | a section text has no `\|` when its block has none |
| Layout.UrlKeys | export/json-formatter.js:125 | `urlPattern \|\| url` of every state |
| Layout.DiffChain | export/json-formatter.js:157-181 | one diffed state for each later state of a group |
| Layout.Markdowns | export/json-formatter.js:186 | the markdown of every state |
| Layout.DiffChainStep | export/json-formatter.js:157-181 | one more loop iteration appends the next state diffed against its predecessor |
| Layout.DiffAgainstPrevious | export/json-formatter.js:158-180 | one iteration: the state is diffed against the one before it and annotated with that diff |
| Layout.ProcessGroup | export/json-formatter.js:136-182 | a group of one state is kept; a longer one keeps its first state marked first of its URL, then the diff chain; ProcessUrlGroup computes it and ProcessGroupFacts and BareProcessGroup state its properties |
| Layout.ProcessUrlGroup | export/json-formatter.js:136-182 | the loop over one URL group equals the group specification |
| Layout.GroupByUrl | export/json-formatter.js:123-130 | the map's keys in insertion order are the distinct URL keys, and each maps to its states in order |
| Layout.MarkdownLayoutOf | export/json-formatter.js:117-196 | the common layout and the states with their diffs; ExtractMarkdownLayout computes it and MarkdownLayoutFacts and GroupedPermutation state its properties |
| Layout.ExtractMarkdownLayout | export/json-formatter.js:117-196 | the method returns the layout specification |
| Layout.ProcessAllGroups | export/json-formatter.js:132-182 | the `statesByUrl.forEach` loop yields the processed group of each URL key, in key order |
| Layout.GroupKeysStep | export/json-formatter.js:124-130 | one more state adds its key at the end exactly when the key is new |
| Layout.GroupOfStep | export/json-formatter.js:129 | one more state is appended to its own key's group only |
| Layout.GroupOfAbsent | export/json-formatter.js:123-130 | a key no state has has an empty group |
| Layout.GroupKeysInMap | export/json-formatter.js:135 | every listed key is in the map |
| Layout.DiffedStateFacts | export/json-formatter.js:158-180 | a later state keeps its fields, records its predecessor's id and the metrics, and has a change exactly when something was added, removed or modified |
| Layout.DiffChainAt | export/json-formatter.js:157-181 | entry `i - 1` of the chain is state `i` diffed against state `i - 1` |
| Layout.ProcessGroupFacts | export/json-formatter.js:136-182 | a lone state is emitted as is; in a larger group the first is marked first-of-URL and each later one is diffed against its predecessor |
| Layout.BareAll | export/json-formatter.js:150-180 | the states with their annotations erased |
| Layout.BareDiffed | export/json-formatter.js:157-181 | diffing a later state against its predecessor changes only its annotation |
| Layout.BareAllConcat | export/json-formatter.js:133-183 | erasing annotations distributes over concatenation |
| Layout.BareProcessGroup | export/json-formatter.js:136-182 | processing a group changes only annotations |
| Layout.ProcessGroupsBare | export/json-formatter.js:135-183 | processing all groups yields the states grouped by URL, only annotations changed |
| Layout.GroupedEmpty | export/json-formatter.js:135-183 | no states give no output |
| Layout.GroupedSnoc | export/json-formatter.js:123-183 | one more state adds it once, to its key's group |
| Layout.GroupedAll | export/json-formatter.js:123-183 | when every key is listed, grouping is a permutation |
| Layout.GroupedPermutation | export/json-formatter.js:123-183 | grouping by URL reorders the states without losing or repeating any |
| Layout.MarkdownLayoutFacts | export/json-formatter.js:117-196 | no states give no layout; otherwise the common layout is that of all markdowns, and every state is emitted once, grouped by URL, only annotations changed |
| RagHtmlFormatter.ActionEntries | export/export-manager.js:578-580 | one action entry per action, in the given order |
| RagHtmlFormatter.PushActions | export/export-manager.js:578-580 | the loop appends exactly the action entries of the list, in order, to the timeline built so far |
| RagHtmlFormatter.Timeline | export/export-manager.js:557-593 | the sorted states each followed by their actions, then the orphan actions; BuildChronologicalTimeline computes it and TimelineStates, TimelineActions, TimelineEndsWithOrphans and TimelineFirst state its properties |
| RagHtmlFormatter.BuildChronologicalTimeline | export/export-manager.js:557-593 | the loop builds exactly the timeline specification: each sorted state followed by the actions recorded after it, then the orphan actions |
| RagHtmlFormatter.PushStateParts | export/export-manager.js:565-581 | the `sortedStates.forEach` loop yields each sorted state's entry followed by the entries of the actions recorded after it, in state order |
| RagHtmlFormatter.StatePartsStep | export/export-manager.js:565-581 | the state parts of one more sorted state are those of the shorter prefix followed by that state's entry and its actions |
| RagHtmlFormatter.StatesInConcat | export/export-manager.js:557-593 | the states listed in a concatenated timeline are those of each half, in order |
| RagHtmlFormatter.StatesInActions | export/export-manager.js:578-590 | action entries contribute no state to the timeline |
| RagHtmlFormatter.StatesInStatePart | export/export-manager.js:565-581 | the part for one state lists that state and no other |
| RagHtmlFormatter.StatesInStateParts | export/export-manager.js:565-581 | the states listed by the state parts are exactly the sorted states, in order |
| RagHtmlFormatter.TimelineStates | export/export-manager.js:561-571 | the timeline lists every state once, sorted by sequence number (missing as 0), a permutation of the input, with equal numbers kept in input order |
| RagHtmlFormatter.ActionsAfterFacts | export/export-manager.js:574-576 | the actions shown after a state are sorted by sequence number and are exactly the actions whose `etatAvantId` names that state, as a permutation of the filter |
| RagHtmlFormatter.OrphansFacts | export/export-manager.js:584-586 | the orphan actions are sorted by timestamp and are exactly the actions without `etatAvantId`, as a permutation of the filter |
| RagHtmlFormatter.StatePartsActions | export/export-manager.js:565-581 | an action appears among the state parts iff it follows one of the states |
| RagHtmlFormatter.TimelineActions | export/export-manager.js:557-593 | an action appears in the timeline iff it is an orphan or follows one of the states: one naming no state is dropped |
| RagHtmlFormatter.TimelineEndsWithOrphans | export/export-manager.js:583-590 | the timeline ends with the orphan actions in timestamp order |
| RagHtmlFormatter.StatePartsFirst | export/export-manager.js:565-571 | the first sorted state is flagged first; any other state entry copies `isFirstOfUrl` |
| RagHtmlFormatter.TimelineFirst | export/export-manager.js:565-571 | in the whole timeline the first entry is the first sorted state flagged first, and every later state entry copies `isFirstOfUrl` |
| RagHtmlFormatter.ClickText | export/export-manager.js:978-992 | the text a click description names is never empty |
| RagHtmlFormatter.ClickTextChoice | export/export-manager.js:978-992 | the element's own text wins when it is not blank and differs from the tag name; all texts blank gives the tag name or `élément`; the result is always one of the candidate texts |
| RagHtmlFormatter.ClickWording | export/export-manager.js:994 | a click description is read back as a click |
| RagHtmlFormatter.InputWording | export/export-manager.js:995-996 | an input description is read back as an input |
| RagHtmlFormatter.ChangeWording | export/export-manager.js:997-1003 | each of the four change descriptions is read back as a change |
| RagHtmlFormatter.SubmitWording | export/export-manager.js:1004-1005 | the submit description is read back as a submit |
| RagHtmlFormatter.NavigationWording | export/export-manager.js:1006-1008 | a navigation description is read back as a navigation |
| RagHtmlFormatter.OtherWording | export/export-manager.js:1009-1010 | any other description `Action: k` is read back as kind `k` |
| RagHtmlFormatter.ActionDescription | export/export-manager.js:971-1012 | the French description of one action by kind; ClickWording to OtherWording and DescriptionNamesKind state the wording of each kind |
| RagHtmlFormatter.DescriptionNamesKind | export/export-manager.js:971-1012 | the description of every action tells which kind of action it describes (an absent kind reads as `undefined`) |
| RagHtmlFormatter.EscapeChar | export/export-manager.js:1071-1076 | an escaped character never contains `<` or `>` |
| RagHtmlFormatter.EscapeHtml | export/export-manager.js:1071-1076 | escaped text never contains `<` or `>` |
| RagHtmlFormatter.UnescapeEntity | export/export-manager.js:1071-1076 | each entity the serializer writes decodes back to its character |
| RagHtmlFormatter.UnescapePlain | export/export-manager.js:1071-1076 | a character the serializer leaves alone decodes to itself |
| RagHtmlFormatter.EscapeHtmlRoundTrip | export/export-manager.js:1071-1076 | decoding the escaped text gives back the original text |
| RagHtmlFormatter.LinesToHtml | export/export-manager.js:1058-1068 | one HTML line per diff entry, each rendered on its own |
| RagHtmlFormatter.TaggedText | export/export-manager.js:1060-1065 | wrapping escaped text in a tag (`del`, `ins` or `mark` here) gives a tagged line whose content is that escaped text |
| RagHtmlFormatter.TagMismatch | export/export-manager.js:1060-1065 | a line whose tag name starts differently is not tagged with that tag |
| RagHtmlFormatter.OpensWithBracket | export/export-manager.js:1060-1065 | a tagged line starts with `<` |
| RagHtmlFormatter.UntaggedText | export/export-manager.js:1067 | escaped plain text is never mistaken for a tagged line |
| RagHtmlFormatter.DelRoundTrip | export/export-manager.js:1060-1061 | reading a `del` line back gives the `- ` entry it came from |
| RagHtmlFormatter.InsRoundTrip | export/export-manager.js:1062-1063 | reading an `ins` line back gives the `+ ` entry it came from |
| RagHtmlFormatter.MarkRoundTrip | export/export-manager.js:1064-1065 | reading a `mark` line back gives the `~ ` entry it came from |
| RagHtmlFormatter.PlainRoundTrip | export/export-manager.js:1067 | an unmarked entry reads back as itself |
| RagHtmlFormatter.LineToHtmlRoundTrip | export/export-manager.js:1058-1068 | rendering a diff entry loses only the whitespace around it |
| RagHtmlFormatter.TrimKeepsMarker | export/export-manager.js:1059 | a marker after leading whitespace and before non-blank text survives the trim |
| RagHtmlFormatter.RemovedTokensAt | export/json-formatter.js:467-470 | the i-th removed entry of the diff text is the token of the i-th removed block |
| RagHtmlFormatter.AddedTokensAt | export/json-formatter.js:473-476 | the i-th added entry of the diff text is the token of the i-th added block |
| RagHtmlFormatter.ModificationTokensAt | export/json-formatter.js:479-485 | each modification contributes three consecutive entries, at positions 3i, 3i+1, 3i+2 |
| RagHtmlFormatter.DiffTokensSplit | export/json-formatter.js:463-488 | the diff entries are the removed tokens, then the added ones, then the modification triples |
| RagHtmlFormatter.RemovedEntry | export/json-formatter.js:467-470 | entry i of the diff is the token of removed block i |
| RagHtmlFormatter.AddedEntry | export/json-formatter.js:473-476 | entry `|removed|+i` of the diff is the token of added block i |
| RagHtmlFormatter.ModifiedEntry | export/json-formatter.js:479-485 | the entries after the added ones are the modification triples, in order |
| RagHtmlFormatter.RemovedLinesHtml | export/export-manager.js:1056-1061 | every removed block with text renders as a `del` line at its position |
| RagHtmlFormatter.AddedLinesHtml | export/export-manager.js:1056-1063 | every added block with text renders as an `ins` line at its position |
| RagHtmlFormatter.RemovedLine | export/export-manager.js:1060-1061 | a removed block with text renders struck out |
| RagHtmlFormatter.AddedLine | export/export-manager.js:1062-1063 | an added block with text renders inserted |
| RagHtmlFormatter.HeaderLine | export/export-manager.js:1064-1065 | a modification header renders marked |
| RagHtmlFormatter.BeforeLine | export/export-manager.js:1060-1061 | the old content of a modification, when not blank, renders struck out |
| RagHtmlFormatter.AfterLine | export/export-manager.js:1062-1063 | the new content of a modification, when not blank, renders inserted |
| RagHtmlFormatter.HeaderAt | export/export-manager.js:1056-1065 | the header of modification i, at its position in the diff, renders marked |
| RagHtmlFormatter.BeforeAt | export/export-manager.js:1056-1061 | the old content of modification i, at its position, renders struck out |
| RagHtmlFormatter.AfterAt | export/export-manager.js:1056-1063 | the new content of modification i, at its position, renders inserted |
| RagHtmlFormatter.HeaderLinesHtml | export/export-manager.js:1056-1065 | every modification header renders marked |
| RagHtmlFormatter.BeforeLinesHtml | export/export-manager.js:1056-1061 | every non-blank old content renders struck out |
| RagHtmlFormatter.AfterLinesHtml | export/export-manager.js:1056-1063 | every non-blank new content renders inserted |
| RagHtmlFormatter.DiffHtml | export/export-manager.js:1050-1069 | for a diff written by `formatBlockDiff` without ` \| ` inside blocks, the HTML is one line per entry joined by `<br>`: removed lines struck out, added lines inserted, each modification as a marked header then old struck out and new inserted |
| RagHtmlFormatter.HeaderHtml | export/export-manager.js:1064-1065 | the `[N% similar]` header of a modification renders marked |
| RagHtmlFormatter.MarkedDel | export/export-manager.js:1060-1061 | a trimmed `- ` entry renders as its escaped remainder inside `del` |
| RagHtmlFormatter.MarkedIns | export/export-manager.js:1062-1063 | a trimmed `+ ` entry renders as its escaped remainder inside `ins` |
| RagHtmlFormatter.MarkedMark | export/export-manager.js:1064-1065 | a trimmed `~ ` entry renders as its escaped remainder inside `mark` |
| RagHtmlFormatter.MarkedHtml | export/export-manager.js:1060-1065 | an entry starting with a marker renders inside that marker's tag |
| RagHtmlFormatter.TaggedEntry | export/export-manager.js:1058-1065 | a marker followed by non-blank text renders inside that marker's tag |
| RagHtmlFormatter.TaggedLine | export/export-manager.js:1058-1065 | the same after leading whitespace, which the trim removes |
| RagHtmlFormatter.LineHtmlStart | export/export-manager.js:1058-1068 | a rendered entry never begins with `<p`: its tags are `del`, `ins` or `mark`, and escaped text holds no `<` |
| RagHtmlFormatter.ConvertDiffToHtml | export/export-manager.js:1050-1069 | the "no changes" paragraph for an empty diff, else each " | " part as HTML joined by `<br>`; DiffHtml and EmptyDiffHtml state its properties |
| RagHtmlFormatter.EmptyDiffHtml | export/export-manager.js:1050-1069 | the no-changes paragraph is returned exactly for an empty diff |
| CsvFormatter.DoubleQuotes | export/export-manager.js:292 | doubling quotes never shortens the text and leaves quote-free text unchanged |
| CsvFormatter.Fields | export/export-manager.js:285-294 | an action exports one value per header column |
| CsvFormatter.RowCells | export/export-manager.js:285-294 | a row has one cell per header column |
| CsvFormatter.QuoteAll | export/export-manager.js:299 | one quoted cell per cell |
| CsvFormatter.RowLines | export/export-manager.js:299 | one row line per action |
| CsvFormatter.CsvContent | export/export-manager.js:279-300 | the header line and one quoted line per action, joined by newlines; CsvLines, AsWrittenAgrees and AmbiguousExport state its properties |
| CsvFormatter.Format | export/export-manager.js:275-307 | a result exists iff the workflow is present (the file name reads its id); the file is `workflow-<id>-actions.csv`, of type `text/csv`, with the header line then one line per action (a missing action list gives the header alone) |
| CsvFormatter.JoinLacks | export/export-manager.js:297-300 | joining parts that lack a character, with a separator lacking it, gives text that lacks it |
| CsvFormatter.LineLacks | export/export-manager.js:299 | a row line lacks any character other than quote and comma that its cells lack |
| CsvFormatter.DoubleQuotesLacks | export/export-manager.js:292 | doubling quotes adds no other character |
| CsvFormatter.RowLineSingle | export/export-manager.js:285-299 | a row whose values hold no line break is written on one line |
| CsvFormatter.HeaderSingle | export/export-manager.js:279-282 | the header is one line |
| CsvFormatter.RowsSingle | export/export-manager.js:285-299 | every row line is one line when no value holds a line break |
| CsvFormatter.CsvLines | export/export-manager.js:297-300 | the file splits at line breaks into the header and then one line per action, in order |
| CsvFormatter.ReadQuoted | export/export-manager.js:299 | reading a quoted cell consumes input |
| CsvFormatter.ReadCell | export/export-manager.js:299 | reading a cell consumes input |
| CsvFormatter.ReadRow | export/export-manager.js:299 | reading a row consumes input |
| CsvFormatter.EscapeAll | export/export-manager.js:292 | one escaped cell per cell |
| CsvFormatter.EscapedLines | export/export-manager.js:299 | one line per row |
| CsvFormatter.FieldRows | export/export-manager.js:285-294 | one field row per action |
| CsvFormatter.ReadQuotedDoubled | export/export-manager.js:292 | a value with its quotes doubled and a closing quote reads back to that value |
| CsvFormatter.ReadCellOpen | export/export-manager.js:299 | a cell that opens with a quote is read as a quoted cell |
| CsvFormatter.ReadCellDoubled | export/export-manager.js:292-299 | an escaped and quoted cell reads back to its value |
| CsvFormatter.EscapedLineStep | export/export-manager.js:299 | an escaped line is its first cell, a comma, then the rest |
| CsvFormatter.ReadRowEscaped | export/export-manager.js:299 | an escaped line reads back to its cells |
| CsvFormatter.EscapedLineOpens | export/export-manager.js:299 | an escaped line starts with a quote |
| CsvFormatter.ReadRowsEscaped | export/export-manager.js:297-300 | escaped lines joined by line breaks read back to their rows |
| CsvFormatter.ParseCsv | export/export-manager.js:285-300 | reads back the data rows of a file made of the header and quoted rows, or `None`; CorrectedRoundTrip and AsWrittenAgrees relate it to the written file |
| CsvFormatter.CorrectedRoundTrip | export/export-manager.js:285-300 | with every value escaped the way `text_content` is, the file reads back to one row per action holding exactly its values |
| CsvFormatter.AsWrittenAgrees | export/export-manager.js:285-300 | when no value other than `text_content` holds a quote, the file as written is the fully escaped one and so reads back to the actions' values |
| CsvFormatter.JoinThree | export/export-manager.js:299 | a join of three non-empty lists is the joins of each, separated |
| CsvFormatter.SameLine | export/export-manager.js:299 | two rows whose cells 5 and 6 are quoted alike together give the same line |
| CsvFormatter.AmbiguousExport | export/export-manager.js:285-299 | two different actions (id `a","b` with class `c`, and id `a` with class `b","c`) export the same file |
| SeleniumFormatter.FirstClassPrefix | export/export-manager.js:505 | the class name used is the text before the first space of the class list: all of it without a space, empty when the list starts with a space |
| SeleniumFormatter.SelectorText | export/export-manager.js:499-512 | the locator argument `By.X, "value"` of each branch of `getSelector`; ParseSelectorRoundTrip reads it back and SelectorTextInjective follows |
| SeleniumFormatter.GetSelector | export/export-manager.js:494-516 | the first non-empty locator of id, name, class, XPath and CSS selector; GetSelectorNone, ChosenSelector and SelectorPriority state the choice |
| SeleniumFormatter.GetSelectorNone | export/export-manager.js:494-516 | the selector is null iff the target is missing or its id, name, class, xpath and selector are all empty |
| SeleniumFormatter.NamedName | export/export-manager.js:498-513 | each strategy's `By.` name identifies it and holds no comma |
| SeleniumFormatter.ParseSelectorRoundTrip | export/export-manager.js:498-513 | a locator argument reads back to its strategy and value, whatever the value holds |
| SeleniumFormatter.SelectorTextInjective | export/export-manager.js:498-513 | different strategies or values give different locator arguments |
| SeleniumFormatter.ChosenSelector | export/export-manager.js:497-513 | for a target with some field set, the answer is the strategy the priority order chooses with its value |
| SeleniumFormatter.ChosenUnique | export/export-manager.js:497-513 | the priority order chooses at most one strategy |
| SeleniumFormatter.SelectorPriority | export/export-manager.js:497-513 | the answer is strategy `k` with its value iff `k`'s field is set and every higher-priority field (ID > NAME > CLASS_NAME > XPATH > CSS_SELECTOR) is empty |
| SeleniumFormatter.Underscored | export/export-manager.js:525 | replacing whitespace runs by `_` leaves no whitespace |
| SeleniumFormatter.KeepSnake | export/export-manager.js:525 | dropping characters outside `[a-z0-9_]` leaves only those |
| SeleniumFormatter.ToSnakeCase | export/export-manager.js:524-526 | a snake-case name is made of `[a-z0-9_]` only |
| SeleniumFormatter.UnderscoredFixed | export/export-manager.js:525 | text without whitespace is unchanged by the underscore step |
| SeleniumFormatter.KeepSnakeFixed | export/export-manager.js:525 | text of `[a-z0-9_]` is unchanged by the filter step |
| SeleniumFormatter.SnakeCaseFixed | export/export-manager.js:524-526 | a name already in `[a-z0-9_]` is its own snake case |
| SeleniumFormatter.SnakeCaseIdempotent | export/export-manager.js:524-526 | applying `toSnakeCase` twice is the same as once |
| SeleniumFormatter.KeepSnakeConcat | export/export-manager.js:525 | the filter works character by character |
| SeleniumFormatter.SkipInside | export/export-manager.js:525 | a leading whitespace run ends inside a first part that ends with a non-space |
| SeleniumFormatter.UnderscoredConcat | export/export-manager.js:525 | the underscore step splits at a non-space boundary |
| SeleniumFormatter.UnderscoredRun | export/export-manager.js:525 | a whitespace run before a word becomes one `_` |
| SeleniumFormatter.LowerKeepsWhitespace | export/export-manager.js:525 | lower-casing neither makes nor removes whitespace |
| SeleniumFormatter.LowerConcat | export/export-manager.js:525 | lower-casing works character by character and keeps word boundaries |
| SeleniumFormatter.SnakeCaseSpace | export/export-manager.js:524-526 | words separated by whitespace become their snake cases joined by one `_` |
| ExportManager.Round | export/export-manager.js:188-189 | `Math.round` gives the nearest integer, a half rounded up |
| ExportManager.Durations | export/export-manager.js:166 | one duration per workflow (missing as 0) |
| ExportManager.ActionCounts | export/export-manager.js:167 | one action count per workflow (missing as 0) |
| ExportManager.CountTags | export/export-manager.js:170-174 | the tag loop adds the given tags to the counts exactly as the specification does |
| ExportManager.InsightsOf | export/export-manager.js:146-192 | the default insights without workflows, else the rounded means, tag counts and extremes; GenerateInsights computes it and the lemmas below state each field |
| ExportManager.GenerateInsights | export/export-manager.js:146-192 | the one-pass loop computes exactly the specified insights: zeros and no records for no workflows, otherwise rounded averages, tag counts and the three records |
| ExportManager.AddTagsCounts | export/export-manager.js:170-174 | adding tags adds their multiplicities to the counts and their names to the keys |
| ExportManager.TagCountsAreOccurrences | export/export-manager.js:165-186 | `popularTags[t]` is the number of occurrences of `t` among all workflows' tags, and `t` is a key iff it occurs |
| ExportManager.SumBounds | export/export-manager.js:162-167 | a sum of values in `[lo, hi]` lies between `n*lo` and `n*hi` |
| ExportManager.ProductBelow | export/export-manager.js:188-189 | dividing both sides by a positive number keeps the order |
| ExportManager.MeanBetween | export/export-manager.js:188-189 | a rounded mean of a sum between `n*lo` and `n*hi` is in `[lo, hi]` |
| ExportManager.RoundedMean | export/export-manager.js:188-189 | the rounded mean of values in `[lo, hi]` is in `[lo, hi]` |
| ExportManager.QuickestIsFirstShortest | export/export-manager.js:177-179 | `quickest` is the first workflow of least duration |
| ExportManager.LongestIsFirstLongest | export/export-manager.js:180-182 | `longest` is the first workflow of greatest duration |
| ExportManager.MostActionsIsFirstBusiest | export/export-manager.js:183-185 | `mostActions` is the first workflow with the most actions |
| ExportManager.AveragesBetweenRecords | export/export-manager.js:177-189 | the average duration lies between those of `quickest` and `longest`, and the average action count is at most that of `mostActions` |
| ExportManager.ValidateExportData | export/export-manager.js:258-268 | passes iff the workflow is present and the action list is non-empty; fails with the missing-workflow error iff the workflow is absent, else with the no-actions error |
| ExportManager.ValidatedCsv | export/export-manager.js:258-307 | validated data exports as CSV with at least one line after the header |
| Extremes.FirstMin | export/export-manager.js:177-179 | the strict-smaller scan keeps a position iff the list is non-empty |
| Extremes.FirstMax | export/export-manager.js:180-185 | the strict-larger scan keeps a position iff the list is non-empty |
| Extremes.FirstMinIsEarliestMinimum | export/export-manager.js:177-179 | the kept position holds the least value and every earlier value is strictly larger |
| Extremes.FirstMaxIsEarliestMaximum | export/export-manager.js:180-185 | the kept position holds the greatest value and every earlier value is strictly smaller |
| ExportManager.RecordsIffWorkflows | export/export-manager.js:147-186 | the three record holders are null exactly for an empty list, which gets zero averages and no tags |
| RagFormatter.Abs | export/rag-formatter.js:448 | `Math.abs` gives the value or its negation, never negative |
| RagFormatter.Distances | export/rag-formatter.js:447-448 | the distance in time from every state to the action, in state order |
| RagFormatter.PageOf | export/rag-formatter.js:441-456 | the page found is a position of the state list |
| RagFormatter.GetPageForAction | export/rag-formatter.js:441-456 | the loop with `minDiff` starting at infinity and a strict `<` keeps exactly the position the specification picks |
| RagFormatter.ClosestState | export/rag-formatter.js:441-456 | the page is null iff there are no states; otherwise it is a state nearest in time to the action and every earlier state is strictly farther |
| RagFormatter.Grouping | export/rag-formatter.js:171-193 | there is a group iff there is an action |
| RagFormatter.Pages | export/rag-formatter.js:172 | the page of every action, in order |
| RagFormatter.Kinds | export/rag-formatter.js:204 | `actions.map(a => a.type)`: the kind of every action, in order |
| RagFormatter.PageState | export/rag-formatter.js:203 | a state context exists iff the page is a position of the states |
| RagFormatter.PageName | export/rag-formatter.js:414 | the page name is never empty: the title when it is set, `Page` without a page |
| RagFormatter.KindPresent | export/rag-formatter.js:382-384 | a kind is among the group's distinct interaction types exactly when some action has that kind |
| RagFormatter.GroupTitle | export/rag-formatter.js:413-423 | the wording of the most significant action kind followed by the page name; GroupTitlePriority states the priority |
| RagFormatter.GroupTitlePriority | export/rag-formatter.js:413-423 | the title is the wording of the most significant kind present (navigation, then submit, input, click, else actions) followed by the page name |
| RagFormatter.FinalizeGroup | export/rag-formatter.js:198-206 | a finalized group keeps exactly the actions of the pending group |
| RagFormatter.FinalizeAll | export/rag-formatter.js:177-192 | finalizing a list finalizes each group, in order |
| RagFormatter.FinalizeSnoc | export/rag-formatter.js:191-193 | finalizing the groups before the last and then the last gives every group finalized |
| RagFormatter.GroupingStep | export/rag-formatter.js:175-188 | one more action opens a new group when the condition on line 175 holds and otherwise joins the current group |
| RagFormatter.GroupsOf | export/rag-formatter.js:166-206 | the action groups, each a run of at most five actions on the same page; GroupActionsByContext computes it and GroupsKeepActions, GroupSizes and GroupPage state its properties |
| RagFormatter.GroupActionsByContext | export/rag-formatter.js:166-196 | the loop with a current group returns exactly the specified groups |
| RagFormatter.FlattenSnoc | export/rag-formatter.js:166-196 | the actions of one more group follow those of the others |
| RagFormatter.GroupingKeepsActions | export/rag-formatter.js:171-193 | concatenating the groups gives back the actions in order |
| RagFormatter.GroupAtWiden | export/rag-formatter.js:171-189 | a group placed within a prefix of the actions is placed within all of them |
| RagFormatter.GroupAtGrow | export/rag-formatter.js:188 | pushing the next action of the same page onto the group that ends before it keeps it placed |
| RagFormatter.OpenKeepsWellGrouped | export/rag-formatter.js:175-186 | opening a new group for the next action keeps the grouping well formed |
| RagFormatter.ExtendKeepsWellGrouped | export/rag-formatter.js:188 | adding the next action to the current group keeps the grouping well formed |
| RagFormatter.GroupingWellGrouped | export/rag-formatter.js:166-196 | the groups are contiguous runs of 1 to 5 actions of one page starting at their `startIndex`, covering all actions, and a new group starts only at a page change or after a full group |
| RagFormatter.FinalizeKeepsActions | export/rag-formatter.js:198-206 | finalizing keeps the actions of every group in order |
| RagFormatter.GroupsKeepActions | export/rag-formatter.js:166-206 | the groups returned hold every action once and in order |
| RagFormatter.GroupSizes | export/rag-formatter.js:175 | there is a group iff there is an action, and every group holds 1 to 5 actions |
| RagFormatter.GroupPage | export/rag-formatter.js:172-203 | every action of a group has the group's state context as its nearest state |
| RagFormatter.GroupsSplitAtPageChange | export/rag-formatter.js:175 | two neighbouring groups are on different pages unless the first holds 5 actions |
| RagFormatter.PageKeys | export/rag-formatter.js:378 | `s.urlPattern \|\| s.url` for every state |
| RagFormatter.CountUniquePages | export/rag-formatter.js:376-380 | 0 without states, else the number of distinct page keys; UniquePagesCount shows it is at most the number of states and 0 exactly when there are none |
| RagFormatter.UniquePagesCount | export/rag-formatter.js:376-380 | the count is the number of distinct page keys, at most the number of states, and 0 iff there are none |
| RagFormatter.GetInteractionTypes | export/rag-formatter.js:382-384 | the distinct action kinds in order of first appearance; InteractionTypesDistinct states it |
| RagFormatter.InteractionTypesDistinct | export/rag-formatter.js:382-384 | every kind is listed once, a kind is listed iff some action has it, and the first action's kind comes first |
| RagFormatter.FirstOccurrencePrefix | export/rag-formatter.js:383 | a `Set` of a non-empty list starts with its first element |
| RagFormatter.ComplexityScore | export/rag-formatter.js:352-371 | the score from action count, distinct pages, distinct kinds and form actions; CalculateComplexity classifies it and ComplexityMonotone shows the class never falls when an action is appended |
| RagFormatter.CalculateComplexity | export/rag-formatter.js:352-374 | `simple` iff the score is at most 3, `complex` iff it exceeds 7, `medium` otherwise |
| RagFormatter.DistinctKindsGrow | export/rag-formatter.js:356 | one more action never lowers the number of distinct kinds |
| RagFormatter.FormActionsGrow | export/rag-formatter.js:357 | one more action never lowers the number of form actions |
| RagFormatter.ComplexityMonotone | export/rag-formatter.js:352-374 | recording one more action never makes a workflow look simpler |
| RagFormatter.MinReal | export/rag-formatter.js:484-486 | `Math.min` is one of its arguments and at most both |
| RagFormatter.CalculateRelevanceScore | export/rag-formatter.js:482-487 | the score lies in [0, 1] and is 1 for ten actions or more |
| RagFormatter.GroupRelevanceRange | export/rag-formatter.js:482-487 | for a group of the grouping the score lies in [0.3, 0.8] |
| RagFormatter.Ids | export/rag-formatter.js:95 | `group.actions.map(a => a.id)` |
| RagFormatter.StepChunks | export/rag-formatter.js:87-100 | one step chunk per group, the i-th numbered i+2 |
| RagFormatter.ChunksOf | export/rag-formatter.js:70-114 | chunks exist iff the workflow and the action list are present (the intro reads both) |
| RagFormatter.GenerateChunks | export/rag-formatter.js:70-114 | the method builds exactly the specified chunks |
| RagFormatter.ChunkIdsSnoc | export/rag-formatter.js:95 | the ids of one more chunk follow those of the others |
| RagFormatter.IdsConcat | export/rag-formatter.js:95 | the ids of concatenated actions are concatenated ids |
| RagFormatter.StepChunkIds | export/rag-formatter.js:76-100 | the introduction carries no ids and each step chunk carries its group's |
| RagFormatter.ChunkNumbering | export/rag-formatter.js:70-114 | two chunks more than groups, numbered 1, 2, … in order; the introduction first with relevance 1 and its title, step chunks in between, the conclusion last with relevance 0.9 and its title |
| RagFormatter.ChunkRelevance | export/rag-formatter.js:87-100 | every step chunk has relevance in [0.3, 0.8] |
| RagFormatter.ChunkActionIds | export/rag-formatter.js:87-100 | the chunks' `actions_ids`, concatenated, are the ids of all actions in order |
| RagFormatter.QuestionForAction | export/rag-formatter.js:295-310 | "Étape " and the 1-based step number, then the question for the action's kind; QAPairsStructure and QAContextsDistinct state the pairs built from it |
| RagFormatter.StepPairs | export/rag-formatter.js:280-290 | one pair per action, in order |
| RagFormatter.QAPairsOf | export/rag-formatter.js:266-293 | pairs exist iff the workflow and the action list are present |
| RagFormatter.GenerateQAPairs | export/rag-formatter.js:266-293 | the method builds exactly the specified pairs |
| RagFormatter.StepContextsDiffer | export/rag-formatter.js:287 | different steps have different `step_N` contexts |
| RagFormatter.QAPairsStructure | export/rag-formatter.js:266-310 | one pair more than actions; the general pair first; pair i ≥ 1 asks `Étape i: …` and has the type of action i−1 |
| RagFormatter.QAContextPair | export/rag-formatter.js:276-287 | two different pairs have different contexts |
| RagFormatter.QAContextsDistinct | export/rag-formatter.js:276-287 | no two pairs share a context |
| Text.Trim | export/export-manager.js:1059 | `String.prototype.trim`: never longer, empty iff the text is all whitespace, otherwise neither end is whitespace |
| Text.TrimOfTrimmed | export/export-manager.js:1059 | text with no whitespace at either end is its own trim |
| Text.OrElse | export/rag-formatter.js:378 | `a \|\| b` on strings: one of the two, empty iff both are |
| Text.SplitJoin | export/export-manager.js:1056 | splitting a `join(sep)` at `sep` gives back the parts when no part holds a character that cannot start inside `sep` |
| Text.NatToStringInjective | export/rag-formatter.js:287 | different numbers print differently |
| Text.ToLower | export/rag-formatter.js:274 | lower-casing maps every character on its own and keeps the length |
| OrderedIndex.FirstOccurrencesFacts | export/rag-formatter.js:383 | `[...new Set(s)]` has no duplicates and holds exactly the elements of `s` |
| OrderedIndex.FilterAll | export/rag-formatter.js:357 | a filter that every element passes keeps the whole list |
| Sorting.SortByIsSorted | export/export-manager.js:561-563 | `Array.prototype.sort` by a numeric key leaves the list sorted by that key |
| Sorting.SortByIsPermutation | export/export-manager.js:561-563 | sorting is a permutation of the input |
| Sorting.SortByIsStable | export/export-manager.js:561-563 | sorting is stable: elements with equal keys keep their input order |
| Sorting.SortBySorted | export/export-manager.js:561-563 | a list already sorted is its own sort |

## Left out

I/O and the outside world:
- Chrome messaging, badges, notifications, IndexedDB persistence and `captureInitialState` are left out. They are I/O.
- For the same reason, the asynchronous `Promise.all` saving in `saveWorkflow` is left out. Its preconditions and the workflow record it builds are modelled.
- `generateUUID` and `Date.now()` are nondeterministic. They are replaced by a counter of fresh identifiers and a `now` parameter.
- `new Date(t).toISOString()` in the CSV export is a parameter `iso`, since date formatting is a foreign library call.
- DOM-built strings are not modelled: HTML and CSS templates, chunk contents, answers, introduction and conclusion texts, and `extractPrerequisites`.
- `escapeHtml` builds a DOM element. It is modelled as the HTML serializer's escaping of a text node (`&`, `<`, `>`, no-break space).

Semantics the model simplifies:
- Floating point is not modelled. Similarity, relevance and averages are exact reals or integers, and `NaN` timestamps do not occur.
- `ToLower` and `toSnakeCase` lower-case ASCII letters only. Unicode case mapping is not modelled.
- Strings are sequences of Unicode scalar values, while JavaScript's `.length`, `substring` and `slice` count UTF-16 code units. A character outside the Basic Multilingual Plane (an emoji, say) is one element here and two units there, and a JavaScript cut can split it, which a Dafny string cannot express. The next eight members are therefore exact only for text inside that plane.
- Layout.SectionText: the 50-character cut and the `length > 50` test for `...` count code points. A paragraph of 26 emoji is cut to 25 plus `...` in the source but kept whole here.
- Layout.ExtractCommonMarkdownSections: inherits the cut of `SectionText`.
- Layout.ComboParts: the `slice(0, 50)` of the trimmed text content counts code points.
- Layout.FindCommonBlocks: the `substring(0, 100)` of the block comparison counts code points.
- BlockParser.GetBlockHash: the `substring(0, 50)` of the hash counts code points; so do BlockParser.BlockHashOf and BlockParser.BlockHashOfIff.
- BlockParser.Parse: block `start` and `end` positions count code points, though the kinds and contents of the blocks are the same.
- EditDistance.LevenshteinDistance: the distance is over code points, so it can differ from the source's distance over code units (`"😀"` against `"x"` is 1 here and 2 there).
- EditDistance.Similarity: `maxLen` and the distance count code points, so `calculateSimilarity("a😀", "a😁")` is 1/2 here and 2/3 in the source; the same holds for EditDistance.CalculateSimilarity and BlockDiff.BlockSimilarity.
- Absent optional strings are `""`.
  - For `getActionDescription` an empty `type` therefore prints as `undefined`, as an absent one does.
  - `workflow.title` is assumed to be a string.
  - Layout.ElementFingerprint: an absent `tagName` prints as `""` in `name:${tagName}:${name}` (export/json-formatter.js:290), where the source prints `undefined`. No recorded element differs, because content-scripts/page-analyzer.js:259 always sets `tagName`.
  - `workflow.metadata` is assumed to be present where it is read: by `generateIntroductionChunk` and `generateRAGMetadata` (`metadata.duration`, export/rag-formatter.js:47 and 160) and by ExportManager.InsightsOf (`w.metadata.duration` and `w.metadata.actionCount`, export/export-manager.js:166-167), where the source throws without it. Every workflow `saveWorkflow` stores carries `metadata`, as Recorder.WorkflowOf builds it.
- `extractGroupKeywords` is regex word extraction. It is left out, so `Group` carries no keywords.
- `generateInsights` details:
  - `popularTags` is a map, so the key order of the JavaScript object is not modelled.
  - Tags that collide with `Object.prototype` members are not modelled.
  - `commonPatterns` is always empty, as in the source.
- `extractMarkdownLayout` computes a per-group `commonLayout` and then discards it. That computation has no effect on the result and is not modelled.
- The `heading` and `listItem` entries of the parser's `patterns` object (export/json-formatter.js:564 and 567) are never run: `extractHeadings` and `extractListItems` use their own expressions (662 and 693), and those are the ones modelled. The `bold` and `italic` entries (581 and 584) are never run either and are not modelled.
- The `diffThreshold` of `MarkdownDiffService` is commented as 10% but set to `0.01` in the code. The code is followed.
- SeleniumFormatter.FirstClassPrefix: a class list starting with a space gives an empty class name, as `split(' ')[0]` does.
- RagFormatter.GroupsSplitAtPageChange: it is stated on page positions rather than state records. Two equal state records at different positions are different pages in the source, because the source compares objects by identity.
- Recorder.ConsistentPreserved:
  - `discardWorkflow` and `saveWorkflow` do not check `isRecording`.
  - Called during a recording, they keep the recorder valid, but not the stronger linkage invariant.
  - This is modelled as written.

## Findings

| source | as written | input that shows it | evidently intended | confidence | as-written member | corrected member |
|---|---|---|---|---|---|---|
| export/export-manager.js:285-299 | every cell is wrapped in `"` but only `text_content` has its quotes doubled, so a quote in any other field ends its cell early | an action with element id `a","b` and class `c`, and one with id `a` and class `b","c`: both export the same file | every field escaped like `text_content`, so that the file reads back to the actions' values | not executed | CsvFormatter.AmbiguousExport | CsvFormatter.CorrectedRoundTrip |
