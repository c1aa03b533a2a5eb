/**
 * The layout passes of `JsonFormatter`: interactive elements common to every state are
 * factored out by fingerprint, and the states of one URL are replaced by a diff chain,
 * each one described against the state before it.
 */
module Layout {
  import opened Wrappers
  import opened Text
  import opened OrderedIndex
  import opened BlockParser
  import opened BlockDiff
  import opened Records

  // ---------------------------------------------------------------------------
  // Element fingerprints

  /** The stable properties of an element that are set, in a fixed order. */
  function ComboParts(e: Element): (r: seq<string>)
    ensures forall p :: p in r ==> p != []
  {
    Filter([e.tagName, e.elementType, e.role, e.placeholder, Prefix(Trim(e.textContent), 50), e.className],
      p => p != [])
  }

  /** `getElementFingerprint`: the id if any, else the tag and name, else a combination of stable properties. */
  function ElementFingerprint(e: Element): string {
    if e.id != "" then "id:" + e.id
    else if e.name != "" then "name:" + e.tagName + ":" + e.name
    else "combo:" + Join(ComboParts(e), "|")
  }

  /** The prefix of a fingerprint tells which strategy produced it. */
  lemma FingerprintStrategy(e: Element)
    ensures StartsWith(ElementFingerprint(e), "id:") <==> e.id != ""
    ensures StartsWith(ElementFingerprint(e), "name:") <==> e.id == "" && e.name != ""
    ensures StartsWith(ElementFingerprint(e), "combo:") <==> e.id == "" && e.name == ""
  {
    var f := ElementFingerprint(e);
    if e.id != "" {
      assert f[..3] == "id:";
      StartsDiffer(f, "id:", "name:", 0);
      StartsDiffer(f, "id:", "combo:", 0);
    } else if e.name != "" {
      assert f[..5] == "name:";
      StartsDiffer(f, "name:", "id:", 0);
      StartsDiffer(f, "name:", "combo:", 0);
    } else {
      assert f[..6] == "combo:";
      StartsDiffer(f, "combo:", "id:", 0);
      StartsDiffer(f, "combo:", "name:", 0);
    }
  }

  /** Elements that have an id share a fingerprint exactly when they share the id. */
  lemma IdFingerprintIff(a: Element, b: Element)
    requires a.id != ""
    ensures ElementFingerprint(a) == ElementFingerprint(b) <==> a.id == b.id
  {
    FingerprintStrategy(a);
    FingerprintStrategy(b);
    if b.id != "" && ElementFingerprint(a) == ElementFingerprint(b) {
      assert a.id == ElementFingerprint(a)[3..];
      assert b.id == ElementFingerprint(b)[3..];
    }
  }

  /**
   * Elements fingerprinted by name share a fingerprint exactly when they share tag and
   * name, provided no tag name contains a colon.
   */
  lemma NameFingerprintIff(a: Element, b: Element)
    requires a.id == "" && b.id == "" && a.name != "" && b.name != ""
    requires forall i :: 0 <= i < |a.tagName| ==> a.tagName[i] != ':'
    requires forall i :: 0 <= i < |b.tagName| ==> b.tagName[i] != ':'
    ensures ElementFingerprint(a) == ElementFingerprint(b) <==> a.tagName == b.tagName && a.name == b.name
  {
    if ElementFingerprint(a) == ElementFingerprint(b) {
      assert ElementFingerprint(a)[5..] == a.tagName + [':'] + a.name;
      assert ElementFingerprint(b)[5..] == b.tagName + [':'] + b.name;
      SplitAtChar(a.tagName, a.name, b.tagName, b.name, ':');
    }
  }

  // ---------------------------------------------------------------------------
  // Layout elements

  /** `state.interactiveElements || []`. */
  function ElementsOf(s: StateRecord): seq<Element> {
    s.interactiveElements.GetOr([])
  }

  function Fingerprints(els: seq<Element>): (r: seq<string>)
    ensures |r| == |els| && forall i :: 0 <= i < |els| ==> r[i] == ElementFingerprint(els[i])
  {
    seq(|els|, i requires 0 <= i < |els| => ElementFingerprint(els[i]))
  }

  /** The `Map` from fingerprint to element built for one state; it keeps the last element of each fingerprint. */
  function ElementMap(s: StateRecord): Index {
    Build(Fingerprints(ElementsOf(s)))
  }

  /** `stateElementMaps.slice(1).every(m => m.has(fp))`. */
  predicate InEveryOtherMap(states: seq<StateRecord>, fp: string) {
    forall i :: 1 <= i < |states| ==> fp in ElementMap(states[i]).pos
  }

  /** `commonFingerprints`: the first state's fingerprints, in map order, that every other state has. */
  function CommonFingerprints(states: seq<StateRecord>): seq<string>
    requires |states| >= 1
  {
    Filter(ElementMap(states[0]).keys, InAll(states))
  }

  /** The test of the first map's keys, as a function value for `Filter`. */
  function InAll(states: seq<StateRecord>): string -> bool {
    fp => InEveryOtherMap(states, fp)
  }

  /** `keys.forEach(k => { const e = map.get(k); if (e) out.push(e) })`. */
  function LookUpAll(keys: seq<string>, ix: Index, els: seq<Element>): seq<Element>
    decreases |keys|
  {
    if |keys| == 0 then []
    else
      var rest := LookUpAll(keys[1..], ix, els);
      if keys[0] in ix.pos && ix.pos[keys[0]] < |els| then [els[ix.pos[keys[0]]]] + rest else rest
  }

  /** One state with its common elements filtered out; a state without the field is kept as it is. */
  function CleanState(s: StateRecord, common: seq<string>): StateRecord {
    match s.interactiveElements
    case None => s
    case Some(els) => s.(interactiveElements := Some(Filter(els, e => ElementFingerprint(e) !in common)))
  }

  /** `states.map(...)` with each state cleaned. */
  function CleanAll(states: seq<StateRecord>, common: seq<string>): (r: seq<StateRecord>)
    ensures |r| == |states| && forall i :: 0 <= i < |states| ==> r[i] == CleanState(states[i], common)
  {
    seq(|states|, i requires 0 <= i < |states| => CleanState(states[i], common))
  }

  datatype LayoutExtraction = LayoutExtraction(layoutElements: seq<Element>, cleanedStates: seq<StateRecord>)

  /** `extractLayoutElements`. */
  function ExtractLayoutElements(states: seq<StateRecord>): LayoutExtraction {
    if |states| <= 1 then LayoutExtraction([], states)
    else
      var common := CommonFingerprints(states);
      LayoutExtraction(
        LookUpAll(common, ElementMap(states[0]), ElementsOf(states[0])),
        CleanAll(states, common))
  }

  /** The `Map` one state's `interactiveElements.forEach` loop builds. */
  method BuildElementMap(s: StateRecord) returns (elementMap: Index)
    ensures elementMap == ElementMap(s)
  {
    var els := ElementsOf(s);
    ghost var fps := Fingerprints(els);
    elementMap := Index([], map[]);
    for i := 0 to |els|
      invariant elementMap == Build(fps[..i])
    {
      var fingerprint := ElementFingerprint(els[i]);
      assert fps[..i + 1][..i] == fps[..i] && fps[i] == fingerprint;
      elementMap := Put(elementMap, fingerprint, i);
    }
    assert fps[..|els|] == fps;
  }

  /** `stateElementMaps.slice(1).every(stateMap => stateMap.has(fingerprint))`. */
  method InAllOtherMaps(maps: seq<Index>, fingerprint: string) returns (r: bool)
    ensures r <==> forall k :: 1 <= k < |maps| ==> fingerprint in maps[k].pos
  {
    var k := 1;
    while k < |maps|
      invariant 1 <= k
      invariant forall m :: 1 <= m < k && m < |maps| ==> fingerprint in maps[m].pos
    {
      if fingerprint !in maps[k].pos {
        return false;
      }
      k := k + 1;
    }
    return true;
  }

  /** `states.map(...)`: the element map of every state. */
  method BuildStateMaps(states: seq<StateRecord>) returns (stateElementMaps: seq<Index>)
    ensures |stateElementMaps| == |states|
    ensures forall k :: 0 <= k < |states| ==> stateElementMaps[k] == ElementMap(states[k])
  {
    stateElementMaps := [];
    for i := 0 to |states|
      invariant |stateElementMaps| == i
      invariant forall k :: 0 <= k < i ==> stateElementMaps[k] == ElementMap(states[k])
    {
      var elementMap := BuildElementMap(states[i]);
      stateElementMaps := stateElementMaps + [elementMap];
    }
  }

  /** `stateMap.has(fingerprint)` for every map but the first, as a function value for `Filter`. */
  function InOtherMaps(stateElementMaps: seq<Index>): string -> bool {
    fp => forall k :: 1 <= k < |stateElementMaps| ==> fp in stateElementMaps[k].pos
  }

  /** `firstStateMap.forEach(...)`: the first map's keys that every other map has, in key order. */
  method FilterCommonKeys(stateElementMaps: seq<Index>) returns (commonFingerprints: seq<string>)
    requires |stateElementMaps| >= 1
    ensures commonFingerprints == Filter(stateElementMaps[0].keys, InOtherMaps(stateElementMaps))
  {
    var keys := stateElementMaps[0].keys;
    ghost var inAll := InOtherMaps(stateElementMaps);
    commonFingerprints := [];
    for i := 0 to |keys|
      invariant commonFingerprints == Filter(keys[..i], inAll)
    {
      var fingerprint := keys[i];
      var isInAllStates := InAllOtherMaps(stateElementMaps, fingerprint);
      FilterStep(keys, i, inAll, commonFingerprints, isInAllStates);
      if isInAllStates {
        commonFingerprints := commonFingerprints + [fingerprint];
      }
    }
    assert keys[..|keys|] == keys;
  }

  /** The common fingerprints computed from the built maps are those of the states. */
  method CollectCommonFingerprints(states: seq<StateRecord>, stateElementMaps: seq<Index>)
    returns (commonFingerprints: seq<string>)
    requires |states| >= 1 && |stateElementMaps| == |states|
    requires forall k :: 0 <= k < |states| ==> stateElementMaps[k] == ElementMap(states[k])
    ensures commonFingerprints == CommonFingerprints(states)
  {
    commonFingerprints := FilterCommonKeys(stateElementMaps);
    forall fp | fp in stateElementMaps[0].keys
      ensures InOtherMaps(stateElementMaps)(fp) == InAll(states)(fp)
    {
      OtherMapsHave(states, stateElementMaps, fp);
    }
    FilterSame(stateElementMaps[0].keys, InOtherMaps(stateElementMaps), InAll(states));
  }

  /** Testing the built maps is testing the element maps of the states. */
  lemma OtherMapsHave(states: seq<StateRecord>, stateElementMaps: seq<Index>, fp: string)
    requires |stateElementMaps| == |states|
    requires forall k :: 0 <= k < |states| ==> stateElementMaps[k] == ElementMap(states[k])
    ensures (forall k :: 1 <= k < |stateElementMaps| ==> fp in stateElementMaps[k].pos) <==> InEveryOtherMap(states, fp)
  {
  }

  /** `commonFingerprints.forEach(...)`: each fingerprint's element in the first map, when it has one. */
  method LookUpLayoutElements(keys: seq<string>, firstStateMap: Index, firstElements: seq<Element>)
    returns (layoutElements: seq<Element>)
    ensures layoutElements == LookUpAll(keys, firstStateMap, firstElements)
  {
    layoutElements := [];
    for i := 0 to |keys|
      invariant layoutElements + LookUpAll(keys[i..], firstStateMap, firstElements)
        == LookUpAll(keys, firstStateMap, firstElements)
    {
      var fingerprint := keys[i];
      LookUpStep(keys, i, firstStateMap, firstElements);
      if fingerprint in firstStateMap.pos && firstStateMap.pos[fingerprint] < |firstElements| {
        layoutElements := layoutElements + [firstElements[firstStateMap.pos[fingerprint]]];
      }
    }
    assert keys[|keys|..] == [];
  }

  /**
   * `extractLayoutElements` as the source runs it: one map per state, the first map's
   * keys filtered by presence in every other map, the look-up of each common
   * fingerprint in the first map, and the filter of every state's elements.
   */
  method ExtractLayout(states: seq<StateRecord>) returns (r: LayoutExtraction)
    ensures r == ExtractLayoutElements(states)
  {
    if |states| <= 1 {
      return LayoutExtraction([], states);
    }
    var stateElementMaps := BuildStateMaps(states);
    var commonFingerprints := CollectCommonFingerprints(states, stateElementMaps);
    var layoutElements := LookUpLayoutElements(commonFingerprints, stateElementMaps[0], ElementsOf(states[0]));
    r := LayoutExtraction(layoutElements, CleanAll(states, commonFingerprints));
  }

  /** One step of the look-up loop: the key at `i` contributes its element, if any, before the rest. */
  lemma LookUpStep(keys: seq<string>, i: nat, ix: Index, els: seq<Element>)
    requires i < |keys|
    ensures var x := keys[i];
      LookUpAll(keys[i..], ix, els)
        == (if x in ix.pos && ix.pos[x] < |els| then [els[ix.pos[x]]] else []) + LookUpAll(keys[i + 1..], ix, els)
  {
    assert keys[i..][1..] == keys[i + 1..];
  }

  /** The fingerprint occurs in every state. */
  ghost predicate Everywhere(states: seq<StateRecord>, fp: string) {
    forall i :: 0 <= i < |states| ==> fp in Fingerprints(ElementsOf(states[i]))
  }

  /** A state's map has a key exactly for each fingerprint of its elements, listed once. */
  lemma ElementMapFacts(s: StateRecord)
    ensures forall fp :: fp in ElementMap(s).pos <==> fp in Fingerprints(ElementsOf(s))
    ensures forall fp :: fp in ElementMap(s).keys <==> fp in Fingerprints(ElementsOf(s))
    ensures NoDuplicates(ElementMap(s).keys)
  {
    BuildFacts(Fingerprints(ElementsOf(s)));
    FirstOccurrencesFacts(Fingerprints(ElementsOf(s)));
  }

  lemma ElementKeyIff(s: StateRecord, fp: string)
    ensures fp in ElementMap(s).keys <==> fp in Fingerprints(ElementsOf(s))
  {
    ElementMapFacts(s);
  }

  lemma InEveryOtherMapIff(states: seq<StateRecord>, fp: string)
    requires |states| >= 1
    ensures InEveryOtherMap(states, fp) <==> forall i :: 1 <= i < |states| ==> fp in Fingerprints(ElementsOf(states[i]))
  {
    forall i | 1 <= i < |states| {
      ElementMapFacts(states[i]);
    }
  }

  lemma CommonMember(states: seq<StateRecord>, fp: string)
    requires |states| >= 1
    ensures fp in CommonFingerprints(states) <==> fp in ElementMap(states[0]).keys && InEveryOtherMap(states, fp)
  {
  }

  lemma CommonFingerprintIff(states: seq<StateRecord>, fp: string)
    requires |states| >= 1
    ensures fp in CommonFingerprints(states) <==> Everywhere(states, fp)
  {
    CommonMember(states, fp);
    ElementKeyIff(states[0], fp);
    InEveryOtherMapIff(states, fp);
    EverywhereSplit(states, fp);
  }

  /** Present in every state is present in the first one and in every later one. */
  lemma EverywhereSplit(states: seq<StateRecord>, fp: string)
    requires |states| >= 1
    ensures Everywhere(states, fp) <==>
      fp in Fingerprints(ElementsOf(states[0])) && forall i :: 1 <= i < |states| ==> fp in Fingerprints(ElementsOf(states[i]))
  {
  }

  /** The common fingerprints are exactly those present in every state, each listed once. */
  lemma CommonFingerprintsFacts(states: seq<StateRecord>)
    requires |states| >= 1
    ensures forall fp :: fp in CommonFingerprints(states) <==> Everywhere(states, fp)
    ensures NoDuplicates(CommonFingerprints(states))
  {
    forall fp ensures fp in CommonFingerprints(states) <==> Everywhere(states, fp) {
      CommonFingerprintIff(states, fp);
    }
    ElementMapFacts(states[0]);
    FilterNoDuplicates(ElementMap(states[0]).keys, fp => InEveryOtherMap(states, fp));
  }

  /** When every key is stored, `LookUpAll` finds one element per key. */
  lemma {:induction false} LookUpAllFound(keys: seq<string>, ix: Index, els: seq<Element>)
    requires forall k :: k in keys ==> k in ix.pos && ix.pos[k] < |els|
    ensures |LookUpAll(keys, ix, els)| == |keys|
    ensures forall j :: 0 <= j < |keys| ==> LookUpAll(keys, ix, els)[j] == els[ix.pos[keys[j]]]
    decreases |keys|
  {
    if |keys| > 0 {
      assert keys[0] in keys;
      assert forall k :: k in keys[1..] ==> k in keys;
      LookUpAllFound(keys[1..], ix, els);
      forall j | 1 <= j < |keys| ensures LookUpAll(keys, ix, els)[j] == els[ix.pos[keys[j]]] {
        assert keys[1..][j - 1] == keys[j];
      }
    }
  }

  /** `e` is the last element of `els` with its fingerprint: the one a `Map` keyed by fingerprint keeps. */
  ghost predicate LastOfFingerprint(els: seq<Element>, e: Element) {
    exists k :: 0 <= k < |els| && els[k] == e && NoLaterFingerprint(els, k)
  }

  ghost predicate NoLaterFingerprint(els: seq<Element>, k: nat) {
    k < |els| && forall m :: k < m < |els| ==> ElementFingerprint(els[m]) != ElementFingerprint(els[k])
  }

  /** Each key of a state's map leads to the last element carrying that fingerprint. */
  lemma ElementMapLast(s: StateRecord)
    ensures forall fp :: fp in ElementMap(s).pos ==>
      ElementMap(s).pos[fp] < |ElementsOf(s)| && ElementFingerprint(ElementsOf(s)[ElementMap(s).pos[fp]]) == fp
      && NoLaterFingerprint(ElementsOf(s), ElementMap(s).pos[fp])
  {
    BuildFacts(Fingerprints(ElementsOf(s)));
  }

  /** The layout is the first state's map looked up at each common fingerprint. */
  lemma LayoutIsLookup(states: seq<StateRecord>)
    requires |states| >= 2
    ensures var layout := ExtractLayoutElements(states).layoutElements;
      var ix := ElementMap(states[0]);
      var common := CommonFingerprints(states);
      && |layout| == |common|
      && forall j :: 0 <= j < |common| ==> (
        && common[j] in ix.pos && NoLaterFingerprint(ElementsOf(states[0]), ix.pos[common[j]])
        && layout[j] == ElementsOf(states[0])[ix.pos[common[j]]] && ElementFingerprint(layout[j]) == common[j])
  {
    var els := ElementsOf(states[0]);
    var ix := ElementMap(states[0]);
    var common := CommonFingerprints(states);
    var layout := LookUpAll(common, ix, els);
    assert ExtractLayoutElements(states).layoutElements == layout;
    ElementMapFacts(states[0]);
    ElementMapLast(states[0]);
    assert forall k :: k in common ==> k in ix.keys;
    LookUpAllFound(common, ix, els);
    forall j | 0 <= j < |common|
      ensures common[j] in ix.pos && NoLaterFingerprint(els, ix.pos[common[j]])
      ensures layout[j] == els[ix.pos[common[j]]] && ElementFingerprint(layout[j]) == common[j]
    {
      assert common[j] in common;
    }
  }

  /**
   * With two states or more, the layout holds one element of the first state per
   * fingerprint present in every state, and nothing else; each is the last element of
   * the first state carrying that fingerprint.
   */
  lemma LayoutElementsFacts(states: seq<StateRecord>)
    requires |states| >= 2
    ensures var layout := ExtractLayoutElements(states).layoutElements;
      && Fingerprints(layout) == CommonFingerprints(states)
      && NoDuplicates(Fingerprints(layout))
      && (forall fp :: fp in Fingerprints(layout) <==> Everywhere(states, fp))
      && forall e :: e in layout ==> LastOfFingerprint(ElementsOf(states[0]), e)
  {
    var els := ElementsOf(states[0]);
    var ix := ElementMap(states[0]);
    var common := CommonFingerprints(states);
    var layout := ExtractLayoutElements(states).layoutElements;
    LayoutIsLookup(states);
    CommonFingerprintsFacts(states);
    assert Fingerprints(layout) == common;
    forall e | e in layout ensures LastOfFingerprint(els, e) {
      var j :| 0 <= j < |layout| && layout[j] == e;
      var k := ix.pos[common[j]];
      assert els[k] == e && NoLaterFingerprint(els, k);
    }
  }

  /**
   * Cleaning keeps every state and every field but the elements, which lose exactly
   * those whose fingerprint occurs in every state.
   */
  lemma CleanedStatesFacts(states: seq<StateRecord>)
    requires |states| >= 2
    ensures var cleaned := ExtractLayoutElements(states).cleanedStates;
      && |cleaned| == |states|
      && forall i :: 0 <= i < |states| ==>
        && cleaned[i].(interactiveElements := states[i].interactiveElements) == states[i]
        && cleaned[i].interactiveElements.None? == states[i].interactiveElements.None?
        && forall e :: e in ElementsOf(cleaned[i]) <==> e in ElementsOf(states[i]) && !Everywhere(states, ElementFingerprint(e))
  {
    CommonFingerprintsFacts(states);
  }

  /** With fewer than two states there is no layout and the states are returned unchanged. */
  lemma LayoutFewStates(states: seq<StateRecord>)
    requires |states| <= 1
    ensures ExtractLayoutElements(states) == LayoutExtraction([], states)
  {
  }

  // ---------------------------------------------------------------------------
  // Common markdown sections

  /** `JsonFormatter.getBlockHash`: unlike the diff's hash it keeps the first 100 characters. */
  function LayoutBlockHash(b: Block): string {
    BlockHashOf(b, 100)
  }

  predicate HasHash(bs: seq<Block>, h: string) {
    exists c :: c in bs && LayoutBlockHash(c) == h
  }

  /** `findCommonBlocks`: the blocks of the first parse whose hash occurs in every other parse. */
  function FindCommonBlocks(all: seq<seq<Block>>): seq<Block> {
    if |all| <= 1 then []
    else Filter(all[0], PresentInAllOthers(all))
  }

  /** The test `findCommonBlocks` applies to a block of the first parse, as a function value for `Filter`. */
  function PresentInAllOthers(all: seq<seq<Block>>): Block -> bool {
    b => InEveryOtherParse(all, LayoutBlockHash(b))
  }

  /** Every parse after the first has a block with this hash. */
  predicate InEveryOtherParse(all: seq<seq<Block>>, blockHash: string) {
    forall j :: 1 <= j < |all| ==> HasHash(all[j], blockHash)
  }

  /** `blocks.some(b => this.getBlockHash(b) === blockHash)`. */
  method SomeBlockHas(blocks: seq<Block>, blockHash: string) returns (r: bool)
    ensures r == HasHash(blocks, blockHash)
  {
    r := AnyMatch(blocks, HashIs(blockHash));
    if r {
      ghost var i :| 0 <= i < |blocks| && HashIs(blockHash)(blocks[i]);
      assert blocks[i] in blocks;
    } else {
      forall c | c in blocks ensures LayoutBlockHash(c) != blockHash {
        ghost var i :| 0 <= i < |blocks| && blocks[i] == c;
        assert !HashIs(blockHash)(blocks[i]);
      }
    }
  }

  /** The test `b => this.getBlockHash(b) === blockHash`. */
  function HashIs(blockHash: string): Block -> bool {
    b => LayoutBlockHash(b) == blockHash
  }

  /** `allBlocks.slice(1).every(blocks => blocks.some(...))`. */
  method IsPresentInAll(all: seq<seq<Block>>, blockHash: string) returns (r: bool)
    ensures r == InEveryOtherParse(all, blockHash)
  {
    var j := 1;
    while j < |all|
      invariant 1 <= j
      invariant forall m :: 1 <= m < j && m < |all| ==> HasHash(all[m], blockHash)
    {
      var found := SomeBlockHas(all[j], blockHash);
      if !found {
        return false;
      }
      j := j + 1;
    }
    return true;
  }

  /** The `for (const block of firstBlocks)` loop of `findCommonBlocks`. */
  method CollectCommonBlocks(all: seq<seq<Block>>) returns (commonBlocks: seq<Block>)
    ensures commonBlocks == FindCommonBlocks(all)
  {
    if |all| <= 1 {
      return [];
    }
    var firstBlocks := all[0];
    ghost var present := PresentInAllOthers(all);
    commonBlocks := [];
    for i := 0 to |firstBlocks|
      invariant commonBlocks == Filter(firstBlocks[..i], present)
    {
      var block := firstBlocks[i];
      var blockHash := LayoutBlockHash(block);
      var isPresentInAll := IsPresentInAll(all, blockHash);
      FilterStep(firstBlocks, i, present, commonBlocks, isPresentInAll);
      if isPresentInAll {
        commonBlocks := commonBlocks + [block];
      }
    }
    assert firstBlocks[..|firstBlocks|] == firstBlocks;
  }

  /** Same kind, same level and the same first 100 characters. */
  predicate SameHead(c: Block, b: Block) {
    c.kind == b.kind && c.level == b.level && Prefix(c.content, 100) == Prefix(b.content, 100)
  }

  /**
   * A block of the first parse is common exactly when every other parse has a block of
   * the same kind and level whose first 100 characters agree with it.
   */
  lemma CommonBlocksIff(all: seq<seq<Block>>)
    requires |all| >= 2
    ensures forall b :: b in FindCommonBlocks(all) <==>
      b in all[0] && forall j :: 1 <= j < |all| ==> exists c :: c in all[j] && SameHead(c, b)
  {
    var p := PresentInAllOthers(all);
    assert FindCommonBlocks(all) == Filter(all[0], p);
    forall b, j | 1 <= j < |all|
      ensures HasHash(all[j], LayoutBlockHash(b)) <==> exists c :: c in all[j] && SameHead(c, b)
    {
      forall c | c in all[j] {
        BlockHashOfIff(c, b, 100);
      }
    }
  }

  /** Every block is common to two copies of the same parse, duplicates included. */
  lemma CommonBlocksSelf(bs: seq<Block>)
    ensures FindCommonBlocks([bs, bs]) == bs
  {
    var all := [bs, bs];
    forall b | b in bs ensures forall j :: 1 <= j < |all| ==> HasHash(all[j], LayoutBlockHash(b)) {
      assert all[1] == bs;
    }
    FilterAll(bs, PresentInAllOthers(all));
  }

  /** `getBlockTypePrefix`. */
  function BlockTypePrefix(b: Block): (r: string)
    ensures r == [] <==> b.kind !in {Heading, ListItem, Separator, CodeBlock}
    ensures r != [] ==> r[|r| - 1] == ' ' && '|' !in r
  {
    match b.kind
    case Heading => Repeat('#', b.level) + " "
    case ListItem => "• "
    case Separator => "--- "
    case CodeBlock => "``` "
    case _ => ""
  }

  /** One common block as `extractCommonMarkdownSections` writes it. */
  function SectionText(b: Block): string {
    BlockTypePrefix(b) + Prefix(b.content, 50) + (if |b.content| > 50 then "..." else "")
  }

  function SectionTexts(bs: seq<Block>): (r: seq<string>)
    ensures |r| == |bs| && forall i :: 0 <= i < |bs| ==> r[i] == SectionText(bs[i])
  {
    seq(|bs|, i requires 0 <= i < |bs| => SectionText(bs[i]))
  }

  function ParseAll(contents: seq<string>): (r: seq<seq<Block>>)
    ensures |r| == |contents| && forall i :: 0 <= i < |contents| ==> r[i] == Parse(contents[i])
  {
    seq(|contents|, i requires 0 <= i < |contents| => Parse(contents[i]))
  }

  /** `extractCommonMarkdownSections`. */
  function ExtractCommonMarkdownSections(contents: seq<string>): string {
    if |contents| <= 1 then ""
    else
      var common := FindCommonBlocks(ParseAll(contents));
      if common == [] then "" else Join(SectionTexts(common), " | ")
  }

  /** A parsed paragraph, link or image has content, so its section text is never empty. */
  lemma ParsedSectionNonEmpty(s: string, b: Block)
    requires WellFormedBlock(s, b)
    ensures SectionText(b) != []
  {
    if b.kind == Link {
      assert LinkAt(s, b.start) == Some(b);
    } else if b.kind == Image {
      assert ImageAt(s, b.start) == Some(b);
    }
  }

  lemma {:induction false} JoinNonEmpty(parts: seq<string>, sep: string)
    requires |parts| >= 1 && parts[0] != []
    ensures Join(parts, sep) != []
  {
  }

  /** The common layout text is empty exactly when there are fewer than two contents or no common block. */
  lemma CommonSectionsBlankIff(contents: seq<string>)
    ensures ExtractCommonMarkdownSections(contents) == [] <==>
      |contents| <= 1 || FindCommonBlocks(ParseAll(contents)) == []
  {
    if |contents| >= 2 {
      var all := ParseAll(contents);
      var common := FindCommonBlocks(all);
      if common != [] {
        assert common[0] in all[0];
        ParseProperties(contents[0]);
        ParsedSectionNonEmpty(contents[0], common[0]);
        JoinNonEmpty(SectionTexts(common), " | ");
      }
    }
  }

  /** Section texts of bar-free blocks, joined by `' | '`, split back into those texts. */
  lemma SectionsSplit(common: seq<Block>)
    requires |common| >= 1
    requires forall b :: b in common ==> BarFree(b.content)
    ensures Split(Join(SectionTexts(common), " | "), " | ") == SectionTexts(common)
  {
    var t := SectionTexts(common);
    forall p, i | p in t && 0 <= i < |p| ensures p[i] != " | "[1] {
      var j :| 0 <= j < |t| && t[j] == p;
      assert common[j] in common;
      SectionTextBarFree(common[j]);
    }
    SplitJoin(t, " | ", 1);
  }

  /** A common block is a block of the first parse. */
  lemma CommonInFirst(all: seq<seq<Block>>, b: Block)
    requires |all| >= 2 && b in FindCommonBlocks(all)
    ensures b in all[0]
  {
  }

  /** Without `|` in the first content's blocks, splitting the layout text on `' | '` recovers one section per common block. */
  lemma CommonSectionsSplit(contents: seq<string>)
    requires |contents| >= 2 && FindCommonBlocks(ParseAll(contents)) != []
    requires forall b :: b in Parse(contents[0]) ==> BarFree(b.content)
    ensures Split(ExtractCommonMarkdownSections(contents), " | ") == SectionTexts(FindCommonBlocks(ParseAll(contents)))
  {
    var all := ParseAll(contents);
    var common := FindCommonBlocks(all);
    assert ExtractCommonMarkdownSections(contents) == Join(SectionTexts(common), " | ");
    assert all[0] == Parse(contents[0]);
    forall b | b in common ensures BarFree(b.content) {
      CommonInFirst(all, b);
    }
    SectionsSplit(common);
  }

  lemma SectionTextBarFree(b: Block)
    requires BarFree(b.content)
    ensures BarFree(SectionText(b))
  {
    var p := Prefix(b.content, 50);
    assert forall i :: 0 <= i < |p| ==> p[i] == b.content[i];
  }

  // ---------------------------------------------------------------------------
  // Markdown diff chains per URL

  /** `state.urlPattern || state.url`. */
  function UrlKey(s: StateRecord): string {
    OrElse(s.urlPattern, s.url)
  }

  function UrlKeys(states: seq<StateRecord>): (r: seq<string>)
    ensures |r| == |states| && forall i :: 0 <= i < |states| ==> r[i] == UrlKey(states[i])
  {
    seq(|states|, i requires 0 <= i < |states| => UrlKey(states[i]))
  }

  /** The URL keys in the order `statesByUrl` first meets them. */
  function GroupKeys(states: seq<StateRecord>): seq<string> {
    FirstOccurrences(UrlKeys(states))
  }

  /** `statesByUrl.get(k)`: the states of one URL, in input order. */
  function GroupOf(states: seq<StateRecord>, k: string): seq<StateRecord> {
    Filter(states, s => UrlKey(s) == k)
  }

  /** `cur` carrying the diff `d` against the state `prevId`; the diff text is kept only when it is not blank. */
  function Described(cur: StateRecord, prevId: string, d: DiffResult): StateRecord {
    var hasChange := |Trim(d.diff)| > 0;
    cur.(annotation := DiffFromPrevious(if hasChange then d.diff else "", prevId, hasChange, d.metrics))
  }

  /** A later state of a group, described by the diff `diff` computes against the state before it. */
  function DiffedState(prev: StateRecord, cur: StateRecord, diff: (string, string) -> DiffResult): StateRecord {
    Described(cur, prev.id, diff(prev.markdownContent, cur.markdownContent))
  }

  /**
   * The later states of a group, each diffed against its predecessor; `diff` is
   * `computeDiff` (a parameter only so that the lemmas about the chain need not see it).
   */
  function DiffChain(g: seq<StateRecord>, diff: (string, string) -> DiffResult): (r: seq<StateRecord>)
    requires |g| >= 1
    ensures |r| == |g| - 1
    decreases |g|
  {
    if |g| == 1 then [] else DiffChain(g[..|g| - 1], diff) + [DiffedState(g[|g| - 2], g[|g| - 1], diff)]
  }

  /** One URL group as `extractMarkdownLayout` emits it. */
  function ProcessGroup(g: seq<StateRecord>, diff: (string, string) -> DiffResult): seq<StateRecord> {
    if |g| <= 1 then g else [g[0].(annotation := FirstOfUrl)] + DiffChain(g, diff)
  }

  /** The groups of the keys `ks`, processed and concatenated in key order. */
  function ProcessGroups(states: seq<StateRecord>, ks: seq<string>, diff: (string, string) -> DiffResult): seq<StateRecord>
    decreases |ks|
  {
    if |ks| == 0 then [] else ProcessGroups(states, ks[..|ks| - 1], diff) + ProcessGroup(GroupOf(states, ks[|ks| - 1]), diff)
  }

  /** One more key's processed group appended. */
  lemma ProcessGroupsStep(states: seq<StateRecord>, ks: seq<string>, j: nat, diff: (string, string) -> DiffResult)
    requires j < |ks|
    ensures ProcessGroups(states, ks[..j + 1], diff) == ProcessGroups(states, ks[..j], diff) + ProcessGroup(GroupOf(states, ks[j]), diff)
  {
    assert ks[..j + 1][..j] == ks[..j];
  }

  /** The groups of the keys `ks`, concatenated in key order. */
  function Grouped(states: seq<StateRecord>, ks: seq<string>): seq<StateRecord>
    decreases |ks|
  {
    if |ks| == 0 then [] else Grouped(states, ks[..|ks| - 1]) + GroupOf(states, ks[|ks| - 1])
  }

  function Markdowns(states: seq<StateRecord>): (r: seq<string>)
    ensures |r| == |states| && forall i :: 0 <= i < |states| ==> r[i] == states[i].markdownContent
  {
    seq(|states|, i requires 0 <= i < |states| => states[i].markdownContent)
  }

  datatype MarkdownLayout = MarkdownLayout(commonLayout: Option<string>, statesWithDiff: seq<StateRecord>)

  /** What `extractMarkdownLayout` returns. */
  function MarkdownLayoutOf(states: seq<StateRecord>): MarkdownLayout {
    if |states| == 0 then MarkdownLayout(None, states)
    else MarkdownLayout(Some(ExtractCommonMarkdownSections(Markdowns(states))), ProcessGroups(states, GroupKeys(states), Diff))
  }

  /** One more later state appended to the chain, `d` being it diffed against the state before it. */
  lemma DiffChainStep(g: seq<StateRecord>, i: nat, chain: seq<StateRecord>, d: StateRecord, diff: (string, string) -> DiffResult)
    requires 1 <= i < |g|
    requires chain == DiffChain(g[..i], diff)
    requires d == DiffedState(g[i - 1], g[i], diff)
    ensures chain + [d] == DiffChain(g[..i + 1], diff)
  {
    assert g[..i + 1][..i] == g[..i];
  }

  lemma ProcessGroupOfChain(g: seq<StateRecord>, i: nat, chain: seq<StateRecord>, diff: (string, string) -> DiffResult)
    requires 2 <= i == |g| && chain == DiffChain(g[..i], diff)
    ensures [g[0].(annotation := FirstOfUrl)] + chain == ProcessGroup(g, diff)
  {
    assert g[..|g|] == g;
  }

  /** One iteration of that loop: `computeDiff` against the previous state, then the annotation. */
  method DiffAgainstPrevious(previous: StateRecord, current: StateRecord) returns (r: StateRecord)
    ensures r == DiffedState(previous, current, Diff)
  {
    var d := ComputeDiff(previous.markdownContent, current.markdownContent);
    r := Described(current, previous.id, d);
  }

  /** The loop over the later states of one URL group. */
  method ProcessUrlGroup(g: seq<StateRecord>) returns (r: seq<StateRecord>)
    ensures r == ProcessGroup(g, Diff)
  {
    if |g| <= 1 {
      return g;
    }
    var first := g[0].(annotation := FirstOfUrl);
    var chain: seq<StateRecord> := [];
    var i := 1;
    while i < |g|
      invariant 1 <= i <= |g|
      invariant chain == DiffChain(g[..i], Diff)
    {
      var next := DiffAgainstPrevious(g[i - 1], g[i]);
      DiffChainStep(g, i, chain, next, Diff);
      chain := chain + [next];
      i := i + 1;
    }
    ProcessGroupOfChain(g, i, chain, Diff);
    r := [first] + chain;
  }

  /** The first loop of `extractMarkdownLayout`: `statesByUrl` and its key order. */
  method GroupByUrl(states: seq<StateRecord>) returns (statesByUrl: map<string, seq<StateRecord>>, order: seq<string>)
    ensures order == GroupKeys(states)
    ensures forall k :: k in order ==> k in statesByUrl && statesByUrl[k] == GroupOf(states, k)
  {
    statesByUrl := map[];
    order := [];
    var i := 0;
    while i < |states|
      invariant 0 <= i <= |states|
      invariant order == GroupKeys(states[..i])
      invariant GroupsMap(states[..i], statesByUrl)
    {
      var k := UrlKey(states[i]);
      GroupKeysStep(states, i);
      GroupsMapStep(states, i, statesByUrl);
      var group := [];
      if k in statesByUrl {
        group := statesByUrl[k];
      } else {
        order := order + [k];
      }
      statesByUrl := statesByUrl[k := group + [states[i]]];
      i := i + 1;
    }
    assert states[..i] == states;
    GroupKeysInMap(states, statesByUrl, order);
  }

  /** `m` maps exactly the URL keys of `states`, each to its group. */
  ghost predicate GroupsMap(states: seq<StateRecord>, m: map<string, seq<StateRecord>>) {
    && (forall k :: k in m <==> k in UrlKeys(states))
    && (forall k :: k in m ==> m[k] == GroupOf(states, k))
  }

  /** One step of the first loop: the state's group, created empty when new, grows by the state. */
  lemma GroupsMapStep(states: seq<StateRecord>, i: nat, m: map<string, seq<StateRecord>>)
    requires i < |states| && GroupsMap(states[..i], m)
    ensures var k := UrlKey(states[i]);
      GroupsMap(states[..i + 1], m[k := (if k in m then m[k] else []) + [states[i]]])
  {
    var k := UrlKey(states[i]);
    var g := (if k in m then m[k] else []) + [states[i]];
    GroupKeysStep(states, i);
    GroupOfStep(states, i);
    if k !in m {
      GroupOfAbsent(states[..i], k);
    }
    assert g == GroupOf(states[..i + 1], k);
    GroupsMapUpdate(states[..i], states[..i + 1], m, k, g);
  }

  /** Updating one key of a groups map, when only that key's group changed. */
  lemma GroupsMapUpdate(before: seq<StateRecord>, after: seq<StateRecord>, m: map<string, seq<StateRecord>>,
                        k: string, g: seq<StateRecord>)
    requires GroupsMap(before, m)
    requires forall j :: j in UrlKeys(after) <==> j in UrlKeys(before) || j == k
    requires forall j :: j != k ==> GroupOf(after, j) == GroupOf(before, j)
    requires g == GroupOf(after, k)
    ensures GroupsMap(after, m[k := g])
  {
    var m2 := m[k := g];
    forall j | j in m2 ensures m2[j] == GroupOf(after, j) {
      if j != k {
        assert m2[j] == m[j];
      }
    }
  }

  /** `extractMarkdownLayout`. */
  method ExtractMarkdownLayout(states: seq<StateRecord>) returns (r: MarkdownLayout)
    ensures r == MarkdownLayoutOf(states)
  {
    if |states| == 0 {
      return MarkdownLayout(None, states);
    }
    var statesByUrl, order := GroupByUrl(states);
    var processed := ProcessAllGroups(states, statesByUrl, order);
    var allMarkdowns := Markdowns(states);
    r := MarkdownLayout(Some(ExtractCommonMarkdownSections(allMarkdowns)), processed);
  }

  /** The `statesByUrl.forEach` loop of `extractMarkdownLayout`, over the `Map` in its insertion order `order`. */
  method ProcessAllGroups(states: seq<StateRecord>, statesByUrl: map<string, seq<StateRecord>>, order: seq<string>)
    returns (processed: seq<StateRecord>)
    requires forall k :: k in order ==> k in statesByUrl && statesByUrl[k] == GroupOf(states, k)
    ensures processed == ProcessGroups(states, order, Diff)
  {
    processed := [];
    for j := 0 to |order|
      invariant processed == ProcessGroups(states, order[..j], Diff)
    {
      assert order[j] in order;
      ProcessGroupsStep(states, order, j, Diff);
      var g := ProcessUrlGroup(statesByUrl[order[j]]);
      processed := processed + g;
    }
    assert order[..|order|] == order;
  }

  lemma GroupKeysStep(states: seq<StateRecord>, i: nat)
    requires i < |states|
    ensures forall k :: k in UrlKeys(states[..i + 1]) <==> k in UrlKeys(states[..i]) || k == UrlKey(states[i])
    ensures GroupKeys(states[..i + 1]) ==
      if UrlKey(states[i]) in UrlKeys(states[..i]) then GroupKeys(states[..i]) else GroupKeys(states[..i]) + [UrlKey(states[i])]
  {
    assert UrlKeys(states[..i + 1]) == UrlKeys(states[..i]) + [UrlKey(states[i])];
    FirstOccurrencesFacts(UrlKeys(states[..i]));
  }

  lemma GroupOfStep(states: seq<StateRecord>, i: nat)
    requires i < |states|
    ensures forall k :: GroupOf(states[..i + 1], k) ==
                        if UrlKey(states[i]) == k then GroupOf(states[..i], k) + [states[i]] else GroupOf(states[..i], k)
  {
    assert states[..i + 1] == states[..i] + [states[i]];
    forall k ensures GroupOf(states[..i + 1], k) ==
      if UrlKey(states[i]) == k then GroupOf(states[..i], k) + [states[i]] else GroupOf(states[..i], k)
    {
      FilterSnoc(states[..i], states[i], s => UrlKey(s) == k);
    }
  }

  lemma {:induction false} GroupOfAbsent(states: seq<StateRecord>, k: string)
    requires k !in UrlKeys(states)
    ensures GroupOf(states, k) == []
    decreases |states|
  {
    if |states| > 0 {
      var p := states[..|states| - 1];
      var x := states[|states| - 1];
      assert UrlKeys(states) == UrlKeys(p) + [UrlKey(x)];
      GroupOfAbsent(p, k);
      assert states == p + [x];
      FilterSnoc(p, x, s => UrlKey(s) == k);
    }
  }

  lemma GroupKeysInMap(states: seq<StateRecord>, m: map<string, seq<StateRecord>>, order: seq<string>)
    requires order == GroupKeys(states)
    requires forall k :: k in m <==> k in UrlKeys(states)
    ensures forall k :: k in order ==> k in m
  {
    FirstOccurrencesFacts(UrlKeys(states));
  }

  // ---------------------------------------------------------------------------
  // Properties of the diff chains

  /** The diffed state keeps every field of `cur` and records its predecessor and the diff against it. */
  lemma DiffedStateFacts(prev: StateRecord, cur: StateRecord)
    ensures var r := DiffedState(prev, cur, Diff);
      var d := Diff(prev.markdownContent, cur.markdownContent);
      && r.(annotation := cur.annotation) == cur
      && r.annotation.DiffFromPrevious?
      && r.annotation.diffFromStateId == prev.id
      && r.annotation.diffMetrics == d.metrics
      && (r.annotation.hasContentChange <==> d.metrics.addedCount + d.metrics.removedCount + d.metrics.modifiedCount > 0)
      && r.annotation.markdownDiffContent == (if r.annotation.hasContentChange then d.diff else "")
      && (prev.markdownContent == cur.markdownContent ==> !r.annotation.hasContentChange && d.metrics == NoMetrics)
  {
    DiffBlankIff(prev.markdownContent, cur.markdownContent);
  }

  lemma {:induction false} DiffChainAt(g: seq<StateRecord>, i: nat, diff: (string, string) -> DiffResult)
    requires 1 <= i < |g|
    ensures DiffChain(g, diff)[i - 1] == DiffedState(g[i - 1], g[i], diff)
    decreases |g|
  {
    if i < |g| - 1 {
      DiffChainAt(g[..|g| - 1], i, diff);
    }
  }

  /**
   * In a URL group of two states or more the first is marked as the group's first and
   * each later state is diffed against the one just before it; a lone state is emitted as it is.
   */
  lemma ProcessGroupFacts(g: seq<StateRecord>, diff: (string, string) -> DiffResult)
    ensures |ProcessGroup(g, diff)| == |g|
    ensures |g| == 1 ==> ProcessGroup(g, diff) == g
    ensures |g| >= 2 ==> ProcessGroup(g, diff)[0] == g[0].(annotation := FirstOfUrl)
    ensures |g| >= 2 ==> forall i :: 1 <= i < |g| ==> ProcessGroup(g, diff)[i] == DiffedState(g[i - 1], g[i], diff)
  {
    if |g| >= 2 {
      forall i | 1 <= i < |g| ensures ProcessGroup(g, diff)[i] == DiffedState(g[i - 1], g[i], diff) {
        DiffChainAt(g, i, diff);
      }
    }
  }

  /** A state with the annotation of the layout pass removed. */
  function Bare(s: StateRecord): StateRecord {
    s.(annotation := Unannotated)
  }

  function BareAll(xs: seq<StateRecord>): (r: seq<StateRecord>)
    ensures |r| == |xs| && forall i :: 0 <= i < |xs| ==> r[i] == Bare(xs[i])
  {
    seq(|xs|, i requires 0 <= i < |xs| => Bare(xs[i]))
  }

  lemma BareDiffed(prev: StateRecord, cur: StateRecord, diff: (string, string) -> DiffResult)
    ensures Bare(DiffedState(prev, cur, diff)) == Bare(cur)
  {
  }

  lemma BareAllConcat(a: seq<StateRecord>, b: seq<StateRecord>)
    ensures BareAll(a + b) == BareAll(a) + BareAll(b)
  {
  }

  lemma BareProcessGroup(g: seq<StateRecord>, diff: (string, string) -> DiffResult)
    ensures BareAll(ProcessGroup(g, diff)) == BareAll(g)
  {
    if |g| >= 2 {
      var pg := ProcessGroup(g, diff);
      var chain := DiffChain(g, diff);
      assert pg == [g[0].(annotation := FirstOfUrl)] + chain;
      forall i | 0 <= i < |g| ensures BareAll(pg)[i] == BareAll(g)[i] {
        if i == 0 {
          assert pg[0] == g[0].(annotation := FirstOfUrl);
        } else {
          assert pg[i] == chain[i - 1];
          DiffChainAt(g, i, diff);
          BareDiffed(g[i - 1], g[i], diff);
        }
      }
    }
  }

  /** Processing the groups changes nothing but the annotations: the states come out grouped by URL. */
  lemma {:induction false} ProcessGroupsBare(states: seq<StateRecord>, ks: seq<string>, diff: (string, string) -> DiffResult)
    ensures BareAll(ProcessGroups(states, ks, diff)) == BareAll(Grouped(states, ks))
    decreases |ks|
  {
    if |ks| > 0 {
      var ks' := ks[..|ks| - 1];
      var g := GroupOf(states, ks[|ks| - 1]);
      ProcessGroupsBare(states, ks', diff);
      BareProcessGroup(g, diff);
      BareAllConcat(ProcessGroups(states, ks', diff), ProcessGroup(g, diff));
      BareAllConcat(Grouped(states, ks'), g);
    }
  }

  lemma {:induction false} GroupedEmpty(ks: seq<string>)
    ensures Grouped([], ks) == []
    decreases |ks|
  {
    if |ks| > 0 {
      GroupedEmpty(ks[..|ks| - 1]);
    }
  }

  lemma SplitSum(ma: multiset<StateRecord>, mb: multiset<StateRecord>, mga: multiset<StateRecord>, mgb: multiset<StateRecord>,
                 e1: multiset<StateRecord>, e2: multiset<StateRecord>)
    requires ma == mb + e1 && mga == mgb + e2
    ensures ma + mga == (mb + mgb) + (e1 + e2)
  {
  }

  /** One more state adds it to the group of its key, if that key is listed. */
  lemma {:induction false} GroupedSnoc(states: seq<StateRecord>, x: StateRecord, ks: seq<string>)
    requires NoDuplicates(ks)
    ensures multiset(Grouped(states + [x], ks)) ==
      multiset(Grouped(states, ks)) + if UrlKey(x) in ks then multiset{x} else multiset{}
    decreases |ks|
  {
    if |ks| > 0 {
      var ks' := ks[..|ks| - 1];
      var k := ks[|ks| - 1];
      assert NoDuplicates(ks');
      GroupedSnoc(states, x, ks');
      var a := Grouped(states + [x], ks');
      var b := Grouped(states, ks');
      var ga := GroupOf(states + [x], k);
      var gb := GroupOf(states, k);
      assert Grouped(states + [x], ks) == a + ga;
      assert Grouped(states, ks) == b + gb;
      FilterSnoc(states, x, s => UrlKey(s) == k);
      var e1: multiset<StateRecord> := if UrlKey(x) in ks' then multiset{x} else multiset{};
      var e2: multiset<StateRecord> := if UrlKey(x) == k then multiset{x} else multiset{};
      var e: multiset<StateRecord> := if UrlKey(x) in ks then multiset{x} else multiset{};
      assert multiset(ga) == multiset(gb) + e2;
      assert ks == ks' + [k];
      assert e == e1 + e2 by {
        assert UrlKey(x) in ks <==> UrlKey(x) in ks' || UrlKey(x) == k;
        assert UrlKey(x) == k ==> UrlKey(x) !in ks';
      }
      SplitSum(multiset(a), multiset(b), multiset(ga), multiset(gb), e1, e2);
    }
  }

  lemma {:induction false} GroupedAll(states: seq<StateRecord>, ks: seq<string>)
    requires NoDuplicates(ks)
    requires forall s :: s in states ==> UrlKey(s) in ks
    ensures multiset(Grouped(states, ks)) == multiset(states)
    decreases |states|
  {
    if |states| == 0 {
      GroupedEmpty(ks);
    } else {
      var p := states[..|states| - 1];
      var x := states[|states| - 1];
      assert states == p + [x];
      assert forall s :: s in p ==> s in states;
      GroupedAll(p, ks);
      GroupedSnoc(p, x, ks);
    }
  }

  /** Grouping by URL key reorders the states without losing or repeating any. */
  lemma GroupedPermutation(states: seq<StateRecord>)
    ensures multiset(Grouped(states, GroupKeys(states))) == multiset(states)
  {
    FirstOccurrencesFacts(UrlKeys(states));
    forall s | s in states ensures UrlKey(s) in GroupKeys(states) {
      var i :| 0 <= i < |states| && states[i] == s;
      assert UrlKeys(states)[i] == UrlKey(s);
    }
    GroupedAll(states, GroupKeys(states));
  }

  /**
   * `extractMarkdownLayout` emits every state exactly once, grouped by URL in order of
   * first appearance, with only the annotations changed, and reports the common layout
   * of all the states' markdown; an empty list gives no layout.
   */
  lemma MarkdownLayoutFacts(states: seq<StateRecord>)
    ensures |states| == 0 ==> MarkdownLayoutOf(states) == MarkdownLayout(None, [])
    ensures |states| > 0 ==> MarkdownLayoutOf(states).commonLayout == Some(ExtractCommonMarkdownSections(Markdowns(states)))
    ensures BareAll(MarkdownLayoutOf(states).statesWithDiff) == BareAll(Grouped(states, GroupKeys(states)))
    ensures multiset(Grouped(states, GroupKeys(states))) == multiset(states)
  {
    GroupedPermutation(states);
    if |states| > 0 {
      ProcessGroupsBare(states, GroupKeys(states), Diff);
    } else {
      GroupedEmpty(GroupKeys(states));
    }
  }
}
