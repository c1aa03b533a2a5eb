/**
 * `MarkdownBlockParser`: splits collapsed markdown (often a single line) into typed
 * blocks. Each detector is a regular expression run with the global flag; here each
 * one is a hand-written scanner `...At(s, i)` that returns the match the expression
 * finds when the search reaches index `i`, with the same backtracking outcome
 * (greedy and lazy quantifiers, lookahead) as the expression.
 */
module BlockParser {
  import opened Wrappers
  import opened Text
  import opened Sorting

  datatype BlockType = Heading | ListItem | Separator | CodeBlock | Paragraph | Link | Image

  /** The `type` string stored in each block. */
  function KindName(k: BlockType): (r: string)
    ensures forall i :: 0 <= i < |r| ==> 'a' <= r[i] <= 'z' || 'A' <= r[i] <= 'Z'
  {
    match k
    case Heading => "heading"
    case ListItem => "listItem"
    case Separator => "separator"
    case CodeBlock => "codeBlock"
    case Paragraph => "paragraph"
    case Link => "link"
    case Image => "image"
  }

  /**
   * A block `{type, content, start, end}`; `level` is the heading level (0 for the
   * other kinds, whose `level` is undefined) and `marker` the list marker ("" for the
   * other kinds).
   */
  datatype Block = Block(kind: BlockType, level: nat, marker: string, content: string, start: nat, end: nat)

  function StartKey(b: Block): int { b.start }

  // ---------------------------------------------------------------------------
  // Detectors

  /** `/```[^`]*```/`: a fence, then everything up to the next backtick, which must open a fence. */
  function CodeBlockAt(s: string, i: nat): (r: Option<Block>)
    requires i <= |s|
  {
    if !OccursAt(s, "```", i) then None
    else
      var j := FindChar(s, '`', i + 3);
      if OccursAt(s, "```", j) then Some(Block(CodeBlock, 0, "", Trim(s[i..j + 3]), i, j + 3)) else None
  }

  /** `/(?:---|___|\*\*\*)/`. */
  function SeparatorAt(s: string, i: nat): (r: Option<Block>)
    requires i <= |s|
  {
    if OccursAt(s, "---", i) || OccursAt(s, "___", i) || OccursAt(s, "***", i) then
      Some(Block(Separator, 0, "", Trim(s[i..i + 3]), i, i + 3))
    else None
  }

  /** `/!\[([^\]]*)\]\(([^)]+)\)/`. */
  function ImageAt(s: string, i: nat): (r: Option<Block>)
    requires i <= |s|
    ensures r.Some? ==> r.value.content != []
  {
    if !(i + 1 < |s| && s[i] == '!' && s[i + 1] == '[') then None
    else
      var j := FindChar(s, ']', i + 2);
      if j + 1 < |s| && s[j + 1] == '(' then
        var k := FindChar(s, ')', j + 2);
        if k < |s| && k >= j + 3 then
          assert s[i..k + 1][0] == '!';
          Some(Block(Image, 0, "", Trim(s[i..k + 1]), i, k + 1))
        else None
      else None
  }

  /** `/\[([^\]]+)\]\(([^)]+)\)/`. */
  function LinkAt(s: string, i: nat): (r: Option<Block>)
    requires i <= |s|
    ensures r.Some? ==> r.value.content != []
  {
    if !(i < |s| && s[i] == '[') then None
    else
      var j := FindChar(s, ']', i + 1);
      if j >= i + 2 && j + 1 < |s| && s[j + 1] == '(' then
        var k := FindChar(s, ')', j + 2);
        if k < |s| && k >= j + 3 then
          assert s[i..k + 1][0] == '[';
          Some(Block(Link, 0, "", Trim(s[i..k + 1]), i, k + 1))
        else None
      else None
  }

  /** The end of the run of `#` starting at `i`. */
  function HashRunEnd(s: string, i: nat): (k: nat)
    requires i <= |s|
    ensures i <= k <= |s|
    ensures forall j :: i <= j < k ==> s[j] == '#'
    ensures k < |s| ==> s[k] != '#'
  {
    RunEnd(s, i, c => c == '#')
  }

  /** `#{1,6}\s` matches at `q`: one to six `#` (and no more) followed by whitespace. */
  predicate HashMarkAt(s: string, q: nat)
    requires q <= |s|
  {
    var r := HashRunEnd(s, q);
    1 <= r - q <= 6 && r < |s| && IsWhitespace(s[r])
  }

  /**
   * `/(#{1,6})\s+([^#]+?)(?=\s+#{1,6}\s+|$)/`. With `h` hashes and a whitespace run
   * ending at `p`, the expression either takes the text up to the whitespace before
   * the next valid `#` mark (or to the end of the input), or, when the whitespace run
   * reaches the end of the input or another `#` mark, gives back one or two of its
   * whitespace characters as the (then empty) title.
   */
  function HeadingAt(s: string, i: nat): (r: Option<Block>)
    requires i <= |s|
    ensures r.Some? ==> var h := r.value.level;
      1 <= h <= 6 && i + h < |s| && IsWhitespace(s[i + h])
      && (forall j :: i <= j < i + h ==> s[j] == '#')
      && r.value.start == i < r.value.end <= |s| && r.value.kind == Heading
  {
    var hEnd := HashRunEnd(s, i);
    var h := hEnd - i;
    if h < 1 || h > 6 then None
    else
      var p := SkipWhitespace(s, hEnd);
      if p - hEnd < 1 then None
      else if p == |s| then
        if p - hEnd >= 2 then Some(Block(Heading, h, "", "", i, |s|)) else None
      else if s[p] == '#' then
        if p - hEnd >= 3 && HashMarkAt(s, p) then Some(Block(Heading, h, "", "", i, p - 1)) else None
      else
        var f := FindChar(s, '#', p);
        if f == |s| then Some(Block(Heading, h, "", Trim(s[p..]), i, |s|))
        else if IsWhitespace(s[f - 1]) && HashMarkAt(s, f) then
          var e := TrimEndIndex(s, f);
          assert p < e;
          Some(Block(Heading, h, "", Trim(s[p..e]), i, e))
        else None
  }

  /** The end of a list marker (`-`, `*`, `+`, or digits followed by `.`) starting at `i`. */
  function MarkerEnd(s: string, i: nat): (r: Option<nat>)
    requires i <= |s|
    ensures r.Some? ==> i < r.value <= |s|
  {
    if i < |s| && (s[i] == '-' || s[i] == '*' || s[i] == '+') then Some(i + 1)
    else
      var d := RunEnd(s, i, IsDigit);
      if d > i && d < |s| && s[d] == '.' then Some(d + 1) else None
  }

  /** The lookahead `\s+(?:[-*+]|\d+\.)\s+` holds at `e`. */
  predicate NextItemAt(s: string, e: nat)
    requires e <= |s|
  {
    e < |s| && IsWhitespace(s[e]) &&
    var q := SkipWhitespace(s, e);
    var m := MarkerEnd(s, q);
    m.Some? && m.value < |s| && IsWhitespace(s[m.value])
  }

  /** The lazy `[^]*?` stops at the first `e` where the lookahead or the end of input holds. */
  function ItemEnd(s: string, e: nat): (r: nat)
    requires e <= |s|
    ensures e <= r <= |s|
    ensures r == |s| || NextItemAt(s, r)
    ensures forall k :: e <= k < r ==> !NextItemAt(s, k)
    decreases |s| - e
  {
    if e == |s| || NextItemAt(s, e) then e else ItemEnd(s, e + 1)
  }

  /** `/([-*+]|\d+\.)\s+([^]*?)(?=\s+(?:[-*+]|\d+\.)\s+|$)/`. */
  function ListItemAt(s: string, i: nat): (r: Option<Block>)
    requires i <= |s|
  {
    match MarkerEnd(s, i)
    case None => None
    case Some(m) =>
      var p := SkipWhitespace(s, m);
      if p == m then None
      else
        var e := ItemEnd(s, p);
        Some(Block(ListItem, 0, s[i..m], Trim(s[p..e]), i, e))
  }

  // ---------------------------------------------------------------------------
  // What each detector matches, stated independently of the scanners

  /** `[^c]*c` run from `a` stops at `b`: `s[b]` is the first `c` at or after `a`. */
  predicate FirstCharAt(s: string, c: char, a: nat, b: nat) {
    a <= b < |s| && s[b] == c && forall k :: a <= k < b ==> s[k] != c
  }

  lemma FindCharFirst(s: string, c: char, a: nat, b: nat)
    requires a <= |s|
    ensures FirstCharAt(s, c, a, b) <==> FindChar(s, c, a) == b < |s|
  {
  }

  /** `/```[^`]*```/` matches at `i` with its closing fence at `j`. */
  predicate FencedAt(s: string, i: nat, j: nat) {
    OccursAt(s, "```", i) && FirstCharAt(s, '`', i + 3, j) && OccursAt(s, "```", j)
  }

  /**
   * A code block is found at `i` exactly when the opening fence is followed, after a
   * run with no backtick (possibly empty), by a closing fence. The match runs through
   * that fence, and its content is the whole match trimmed, fences included.
   */
  lemma CodeBlockAtMatches(s: string, i: nat)
    requires i <= |s|
    ensures CodeBlockAt(s, i).Some? ==> FencedAt(s, i, CodeBlockAt(s, i).value.end - 3)
    ensures forall j: nat :: FencedAt(s, i, j) ==> CodeBlockAt(s, i).Some? && CodeBlockAt(s, i).value.end == j + 3
    ensures CodeBlockAt(s, i).Some? ==> var e := CodeBlockAt(s, i).value.end;
      CodeBlockAt(s, i).value == Block(CodeBlock, 0, "", Trim(s[i..e]), i, e)
  {
    CodeBlockAtBlock(s, i);
    if OccursAt(s, "```", i) {
      var f := FindChar(s, '`', i + 3);
      forall j: nat | FencedAt(s, i, j) ensures f == j {
        FindCharFirst(s, '`', i + 3, j);
      }
      if f < |s| {
        FindCharFirst(s, '`', i + 3, f);
      }
    }
  }

  /** The detector's block: its kind, start and trimmed content, with no level or marker. */
  lemma CodeBlockAtBlock(s: string, i: nat)
    requires i <= |s|
    ensures CodeBlockAt(s, i).Some? ==> var e := CodeBlockAt(s, i).value.end;
      CodeBlockAt(s, i).value == Block(CodeBlock, 0, "", Trim(s[i..e]), i, e)
  {
  }

  /** A separator is exactly three dashes, underscores or asterisks, and its content is those three characters. */
  lemma SeparatorAtMatches(s: string, i: nat)
    requires i <= |s|
    ensures SeparatorAt(s, i).Some? <==> i + 3 <= |s| && s[i..i + 3] in ["---", "___", "***"]
    ensures SeparatorAt(s, i).Some? ==> SeparatorAt(s, i).value.end == i + 3 && SeparatorAt(s, i).value.content == s[i..i + 3]
  {
    if i + 3 <= |s| && s[i..i + 3] in ["---", "___", "***"] {
      var t := s[i..i + 3];
      assert t[0] == t[2] && t[0] in "-_*";
      TrimOfTrimmed(t);
    }
  }

  /**
   * `\]\(([^)]+)\)` after the bracketed text that starts at `a`: the first `]` is at
   * `j`, `(` follows it, and the first `)` after that is at `k`, at least one
   * character later.
   */
  predicate TargetAt(s: string, a: nat, j: nat, k: nat) {
    FirstCharAt(s, ']', a, j) && j + 1 < |s| && s[j + 1] == '(' && FirstCharAt(s, ')', j + 2, k) && k >= j + 3
  }

  /** `/!\[([^\]]*)\]\(([^)]+)\)/` matches at `i`, with its `]` at `j` and its `)` at `k`; the alt text may be empty. */
  predicate ImageShape(s: string, i: nat, j: nat, k: nat) {
    i + 1 < |s| && s[i] == '!' && s[i + 1] == '[' && TargetAt(s, i + 2, j, k)
  }

  /** `/\[([^\]]+)\]\(([^)]+)\)/` matches at `i`, with its `]` at `j` and its `)` at `k`; the text is not empty. */
  predicate LinkShape(s: string, i: nat, j: nat, k: nat) {
    i < |s| && s[i] == '[' && j >= i + 2 && TargetAt(s, i + 1, j, k)
  }

  /** The `]` and `)` of a target are the first ones the scan meets. */
  lemma TargetUnique(s: string, a: nat, j: nat, k: nat)
    requires a <= |s| && TargetAt(s, a, j, k)
    ensures FindChar(s, ']', a) == j && FindChar(s, ')', j + 2) == k
  {
    FindCharFirst(s, ']', a, j);
    FindCharFirst(s, ')', j + 2, k);
  }

  /** Where the scan succeeds, its `]` and `)` form a target. */
  lemma TargetFound(s: string, a: nat)
    requires a <= |s|
    requires var j := FindChar(s, ']', a);
      j + 1 < |s| && s[j + 1] == '(' && FindChar(s, ')', j + 2) < |s| && FindChar(s, ')', j + 2) >= j + 3
    ensures TargetAt(s, a, FindChar(s, ']', a), FindChar(s, ')', FindChar(s, ']', a) + 2))
  {
    var j := FindChar(s, ']', a);
    FindCharFirst(s, ']', a, j);
    FindCharFirst(s, ')', j + 2, FindChar(s, ')', j + 2));
  }

  /** The detector's block: its kind, start and trimmed content, with no level or marker. */
  lemma ImageAtBlock(s: string, i: nat)
    requires i <= |s|
    ensures ImageAt(s, i).Some? ==> var e := ImageAt(s, i).value.end;
      ImageAt(s, i).value == Block(Image, 0, "", Trim(s[i..e]), i, e)
  {
  }

  lemma ImageAtScanned(s: string, i: nat, j: nat, k: nat)
    requires i + 1 < |s| && s[i] == '!' && s[i + 1] == '['
    requires j + 1 < |s| && s[j + 1] == '(' && k < |s| && k >= j + 3
    requires FindChar(s, ']', i + 2) == j && FindChar(s, ')', j + 2) == k
    ensures ImageAt(s, i).Some? && ImageAt(s, i).value.end == k + 1
  {
  }

  /** An image is found at `i` exactly when `ImageShape` holds there; the match ends after the `)` and its content is the trimmed match. */
  lemma ImageAtMatches(s: string, i: nat)
    requires i <= |s|
    ensures ImageAt(s, i).Some? ==> exists j: nat, k: nat :: ImageShape(s, i, j, k) && ImageAt(s, i).value.end == k + 1
    ensures forall j: nat, k: nat :: ImageShape(s, i, j, k) ==> ImageAt(s, i).Some? && ImageAt(s, i).value.end == k + 1
    ensures ImageAt(s, i).Some? ==> var e := ImageAt(s, i).value.end;
      ImageAt(s, i).value == Block(Image, 0, "", Trim(s[i..e]), i, e)
  {
    forall j: nat, k: nat | ImageShape(s, i, j, k)
      ensures ImageAt(s, i).Some? && ImageAt(s, i).value.end == k + 1
    {
      TargetUnique(s, i + 2, j, k);
      ImageAtScanned(s, i, j, k);
    }
    if ImageAt(s, i).Some? {
      TargetFound(s, i + 2);
      var j := FindChar(s, ']', i + 2);
      assert ImageShape(s, i, j, FindChar(s, ')', j + 2));
      ImageAtBlock(s, i);
    }
  }

  /** The detector's block: its kind, start and trimmed content, with no level or marker. */
  lemma LinkAtBlock(s: string, i: nat)
    requires i <= |s|
    ensures LinkAt(s, i).Some? ==> var e := LinkAt(s, i).value.end;
      LinkAt(s, i).value == Block(Link, 0, "", Trim(s[i..e]), i, e)
  {
  }

  lemma LinkAtScanned(s: string, i: nat, j: nat, k: nat)
    requires i < |s| && s[i] == '[' && j >= i + 2
    requires j + 1 < |s| && s[j + 1] == '(' && k < |s| && k >= j + 3
    requires FindChar(s, ']', i + 1) == j && FindChar(s, ')', j + 2) == k
    ensures LinkAt(s, i).Some? && LinkAt(s, i).value.end == k + 1
  {
  }

  /** A link is found at `i` exactly when `LinkShape` holds there; the match ends after the `)` and its content is the trimmed match. */
  lemma LinkAtMatches(s: string, i: nat)
    requires i <= |s|
    ensures LinkAt(s, i).Some? ==> exists j: nat, k: nat :: LinkShape(s, i, j, k) && LinkAt(s, i).value.end == k + 1
    ensures forall j: nat, k: nat :: LinkShape(s, i, j, k) ==> LinkAt(s, i).Some? && LinkAt(s, i).value.end == k + 1
    ensures LinkAt(s, i).Some? ==> var e := LinkAt(s, i).value.end;
      LinkAt(s, i).value == Block(Link, 0, "", Trim(s[i..e]), i, e)
  {
    forall j: nat, k: nat | LinkShape(s, i, j, k)
      ensures LinkAt(s, i).Some? && LinkAt(s, i).value.end == k + 1
    {
      TargetUnique(s, i + 1, j, k);
      LinkAtScanned(s, i, j, k);
    }
    if LinkAt(s, i).Some? {
      TargetFound(s, i + 1);
      var j := FindChar(s, ']', i + 1);
      assert LinkShape(s, i, j, FindChar(s, ')', j + 2));
      LinkAtBlock(s, i);
    }
  }

  /** `([-*+]|\d+\.)`: one of `-`, `*`, `+`, or one or more digits followed by `.`. */
  predicate IsListMarker(m: string) {
    || (|m| == 1 && m[0] in "-*+")
    || (|m| >= 2 && m[|m| - 1] == '.' && forall k :: 0 <= k < |m| - 1 ==> IsDigit(m[k]))
  }

  /** A marker at `i` that ends at `m` is the only marker prefix there, so `MarkerEnd` finds it. */
  lemma MarkerEndFinds(s: string, i: nat, m: nat)
    requires i < m <= |s| && IsListMarker(s[i..m])
    ensures MarkerEnd(s, i) == Some(m)
  {
    if m - i >= 2 {
      assert s[i] == s[i..m][0];
      assert s[m - 1] == s[i..m][m - i - 1];
      forall k | i <= k < m - 1 ensures IsDigit(s[k]) {
        assert s[k] == s[i..m][k - i];
      }
      assert RunEnd(s, i, IsDigit) == m - 1;
    }
  }

  /** The marker `MarkerEnd` finds is a list marker. */
  lemma MarkerEndIsMarker(s: string, i: nat)
    requires i <= |s| && MarkerEnd(s, i).Some?
    ensures IsListMarker(s[i..MarkerEnd(s, i).value])
  {
    var m := MarkerEnd(s, i).value;
    if s[i] == '-' || s[i] == '*' || s[i] == '+' {
      assert s[i..m] == [s[i]];
    } else {
      var w := s[i..m];
      forall k | 0 <= k < |w| - 1 ensures IsDigit(w[k]) {
        assert w[k] == s[i + k];
      }
      assert w[|w| - 1] == s[m - 1];
    }
  }

  /**
   * `b` is the item whose marker `s[i..m]` is followed by whitespace: the whitespace is
   * consumed greedily, the lazy body runs from there to `ItemEnd`, and the content is
   * that body trimmed.
   */
  predicate ListItemFrom(s: string, i: nat, m: nat, b: Block) {
    && i < m < |s| && IsListMarker(s[i..m]) && IsWhitespace(s[m])
    && var p := SkipWhitespace(s, m);
    b == Block(ListItem, 0, s[i..m], Trim(s[p..ItemEnd(s, p)]), i, ItemEnd(s, p))
  }

  /**
   * A list item is found at `i` exactly when a marker there is followed by whitespace,
   * and the item is then the one `ListItemFrom` describes. Its content is empty when
   * the next item's lookahead or the end of the input follows that whitespace.
   */
  lemma ListItemAtMatches(s: string, i: nat)
    requires i <= |s|
    ensures ListItemAt(s, i).Some? ==> exists m: nat :: ListItemFrom(s, i, m, ListItemAt(s, i).value)
    ensures forall m: nat :: i < m < |s| && IsListMarker(s[i..m]) && IsWhitespace(s[m]) ==>
      ListItemAt(s, i).Some? && ListItemAt(s, i).value.marker == s[i..m]
  {
    forall m: nat | i < m < |s| && IsListMarker(s[i..m]) && IsWhitespace(s[m])
      ensures ListItemAt(s, i).Some? && ListItemAt(s, i).value.marker == s[i..m]
    {
      MarkerEndFinds(s, i, m);
    }
    if ListItemAt(s, i).Some? {
      MarkerEndIsMarker(s, i);
      ListItemAtBlock(s, i);
      assert ListItemFrom(s, i, MarkerEnd(s, i).value, ListItemAt(s, i).value);
    }
  }

  /** The list item block the scanner builds, in terms of the marker end. */
  lemma ListItemAtBlock(s: string, i: nat)
    requires i <= |s| && ListItemAt(s, i).Some?
    ensures var m := MarkerEnd(s, i).value; var p := SkipWhitespace(s, m);
      && MarkerEnd(s, i).Some? && m < p
      && ListItemAt(s, i).value == Block(ListItem, 0, s[i..m], Trim(s[p..ItemEnd(s, p)]), i, ItemEnd(s, p))
  {
  }

  /** An empty code block matches, fences and all. */
  lemma EmptyCodeBlock()
    ensures CodeBlockAt("``````", 0) == Some(Block(CodeBlock, 0, "", "``````", 0, 6))
  {
    var s := "``````";
    assert s[0..3] == "```" && s[3..6] == "```";
    assert FirstCharAt(s, '`', 3, 3);
    assert FencedAt(s, 0, 3);
    CodeBlockAtMatches(s, 0);
    assert s[0..6] == s;
    TrimOfTrimmed(s);
  }

  /** `[^`]*` cannot pass a single backtick: the fence is not closed by the later one. */
  lemma BacktickInsideCode()
    ensures CodeBlockAt("```a`b```", 0).None?
  {
    var s := "```a`b```";
    assert FirstCharAt(s, '`', 3, 4);
    FindCharFirst(s, '`', 3, 4);
    assert s[4..7][1] == 'b';
  }

  /** The alt text of an image may be empty. */
  lemma EmptyAltText()
    ensures ImageAt("![](u)", 0).Some?
  {
    assert ImageShape("![](u)", 0, 2, 5);
    ImageAtMatches("![](u)", 0);
  }

  /** The text of a link may not. */
  lemma EmptyLinkText()
    ensures LinkAt("[](u)", 0).None?
  {
    var s := "[](u)";
    assert FirstCharAt(s, ']', 1, 1);
    FindCharFirst(s, ']', 1, 1);
  }

  /** A marker and whitespace with nothing after them make an item with empty content. */
  lemma EmptyItemBody()
    ensures ListItemAt("- ", 0) == Some(Block(ListItem, 0, "-", "", 0, 2))
  {
    assert MarkerEnd("- ", 0) == Some(1);
    assert SkipWhitespace("- ", 1) == 2;
    assert ItemEnd("- ", 2) == 2;
    assert "- "[0..1] == "-";
    assert Trim("- "[2..2]) == [];
  }

  /** The match of detector `kind` when the search reaches index `i`; paragraphs have no detector. */
  function MatchAt(kind: BlockType, s: string, i: nat): (r: Option<Block>)
    requires i <= |s|
    ensures r.Some? ==> r.value.kind == kind && r.value.start == i < r.value.end <= |s|
  {
    match kind
    case CodeBlock => CodeBlockAt(s, i)
    case Heading => HeadingAt(s, i)
    case Separator => SeparatorAt(s, i)
    case ListItem => ListItemAt(s, i)
    case Image => ImageAt(s, i)
    case Link => LinkAt(s, i)
    case Paragraph => None
  }

  /** `regex.exec` from `lastIndex == from`: the leftmost match starting at or after `from`. */
  function FirstMatch(kind: BlockType, s: string, from: nat): (r: Option<Block>)
    ensures r.Some? ==> from <= r.value.start && r.value.start < |s| && MatchAt(kind, s, r.value.start) == r
    decreases |s| - from
  {
    if from >= |s| then None
    else match MatchAt(kind, s, from)
      case Some(b) => Some(b)
      case None => FirstMatch(kind, s, from + 1)
  }

  /** Searching again from an index the search passed over finds the same match. */
  lemma FirstMatchAgain(kind: BlockType, s: string, from: nat, j: nat)
    requires from <= j <= |s|
    requires FirstMatch(kind, s, from).None? || j <= FirstMatch(kind, s, from).value.start
    ensures FirstMatch(kind, s, j) == FirstMatch(kind, s, from)
  {
    var search := SearchOf(kind, s);
    forall i | from <= i < j ensures MatchesOrDefers(search, i) {
      SearchOfStep(kind, s, i);
    }
    assert search(from) == FirstMatch(kind, s, from);
    SearchAgain(search, from, j);
    assert search(j) == FirstMatch(kind, s, j);
  }

  lemma SearchOfStep(kind: BlockType, s: string, i: nat)
    requires i < |s|
    ensures MatchesOrDefers(SearchOf(kind, s), i)
  {
    var search := SearchOf(kind, s);
    FirstMatchCases(kind, s, i);
    assert search(i) == FirstMatch(kind, s, i);
    assert search(i + 1) == FirstMatch(kind, s, i + 1);
  }

  /** The search of detector `kind` over `s`, as a function of the index it starts from. */
  function SearchOf(kind: BlockType, s: string): nat -> Option<Block> {
    (i: nat) => FirstMatch(kind, s, i)
  }

  /** The search from `i` yields a match starting at `i` or what the search from `i + 1` yields. */
  predicate MatchesOrDefers(search: nat -> Option<Block>, i: nat) {
    (search(i).Some? && search(i).value.start == i) || search(i) == search(i + 1)
  }

  /** Searching again from an index before the result of such a search finds the same result. */
  lemma {:induction false} SearchAgain(search: nat -> Option<Block>, from: nat, j: nat)
    requires from <= j
    requires forall i :: from <= i < j ==> MatchesOrDefers(search, i)
    requires search(from).None? || j <= search(from).value.start
    ensures search(j) == search(from)
    decreases j - from
  {
    if from < j {
      assert MatchesOrDefers(search, from);
      SearchAgain(search, from + 1, j);
    }
  }

  /** A search from an index inside the text matches there or finds what the search from the next index finds. */
  lemma FirstMatchCases(kind: BlockType, s: string, from: nat)
    requires from < |s|
    ensures || (FirstMatch(kind, s, from).Some? && FirstMatch(kind, s, from).value.start == from)
            || FirstMatch(kind, s, from) == FirstMatch(kind, s, from + 1)
  {
  }

  /** No index the search passed over, from `from` up to the match or the end, has a match. */
  lemma FirstMatchLeftmost(kind: BlockType, s: string, from: nat)
    ensures var r := FirstMatch(kind, s, from);
      && (r.Some? ==> forall j :: from <= j < r.value.start ==> MatchAt(kind, s, j).None?)
      && (r.None? ==> forall j :: from <= j <= |s| ==> MatchAt(kind, s, j).None?)
  {
    var r := FirstMatch(kind, s, from);
    forall j | from <= j <= |s| && (r.None? || j < r.value.start) ensures MatchAt(kind, s, j).None? {
      FirstMatchAgain(kind, s, from, j);
    }
  }

  // ---------------------------------------------------------------------------
  // Claiming ranges

  /** The indices `[a, b)`. */
  function Range(a: nat, b: nat): (r: set<nat>)
    ensures forall i :: i in r <==> a <= i < b
    decreases b - a
  {
    if a >= b then {} else {a} + Range(a + 1, b)
  }

  /** Some index of the block's range has been claimed already. */
  predicate Touches(b: Block, processed: set<nat>) {
    exists i :: b.start <= i < b.end && i in processed
  }

  /** Index `i` lies inside one of the blocks. */
  predicate Claimed(bs: seq<Block>, i: nat) {
    exists b :: b in bs && b.start <= i < b.end
  }

  predicate Disjoint(a: Block, b: Block) {
    a.end <= b.start || b.end <= a.start
  }

  predicate PairwiseDisjoint(bs: seq<Block>) {
    forall i, j :: 0 <= i < |bs| && 0 <= j < |bs| && i != j ==> Disjoint(bs[i], bs[j])
  }

  /** Each block ends before the next one starts. */
  predicate Ordered(bs: seq<Block>) {
    forall i, j :: 0 <= i < j < |bs| ==> bs[i].end <= bs[j].start
  }

  /**
   * The state shared by the detector passes: every block is a detector match at its
   * own start, `processed` is exactly the set of indices the blocks cover, and no two
   * blocks overlap.
   */
  ghost predicate DetectorState(s: string, blocks: seq<Block>, processed: set<nat>) {
    && (forall b :: b in blocks ==> b.start <= |s| && b.kind != Paragraph && MatchAt(b.kind, s, b.start) == Some(b))
    && (forall i: nat :: i in processed <==> Claimed(blocks, i))
    && PairwiseDisjoint(blocks)
  }

  /**
   * One detector pass (`extractBlocks`, `extractHeadings`, `extractListItems`): each
   * successive match from index `from` on is skipped when it touches a claimed index,
   * and otherwise appended and its range claimed; the search resumes at the match's end.
   */
  function Scan(kind: BlockType, s: string, from: nat, blocks: seq<Block>, processed: set<nat>): (r: (seq<Block>, set<nat>))
    decreases |s| - from
  {
    match FirstMatch(kind, s, from)
    case None => (blocks, processed)
    case Some(b) =>
      if Touches(b, processed) then Scan(kind, s, b.end, blocks, processed)
      else Scan(kind, s, b.end, blocks + [b], processed + Range(b.start, b.end))
  }

  /** A block that touches no claimed index is disjoint from every block so far. */
  lemma ClaimKeepsState(s: string, blocks: seq<Block>, processed: set<nat>, b: Block)
    requires DetectorState(s, blocks, processed)
    requires b.start <= |s| && b.kind != Paragraph && MatchAt(b.kind, s, b.start) == Some(b)
    requires !Touches(b, processed)
    ensures DetectorState(s, blocks + [b], processed + Range(b.start, b.end))
  {
    var bs := blocks + [b];
    forall j | 0 <= j < |blocks| ensures Disjoint(b, blocks[j]) {
      var c := blocks[j];
      var x := if b.start <= c.start then c.start else b.start;
      assert x < c.end && c.start <= x ==> Claimed(blocks, x);
    }
    forall i: nat ensures i in processed + Range(b.start, b.end) <==> Claimed(bs, i) {
      if Claimed(blocks, i) {
        var c :| c in blocks && c.start <= i < c.end;
        assert c in bs;
      }
      if b.start <= i < b.end {
        assert b in bs;
      }
      if Claimed(bs, i) {
        var c :| c in bs && c.start <= i < c.end;
        if c != b {
          assert c in blocks;
        }
      }
    }
    forall i, j | 0 <= i < |bs| && 0 <= j < |bs| && i != j ensures Disjoint(bs[i], bs[j]) {
      if i < |blocks| && j < |blocks| {
        assert bs[i] == blocks[i] && bs[j] == blocks[j];
      }
    }
  }

  lemma {:induction false} ScanKeepsState(kind: BlockType, s: string, from: nat, blocks: seq<Block>, processed: set<nat>)
    requires DetectorState(s, blocks, processed)
    ensures DetectorState(s, Scan(kind, s, from, blocks, processed).0, Scan(kind, s, from, blocks, processed).1)
    decreases |s| - from
  {
    match FirstMatch(kind, s, from)
    case None =>
    case Some(b) =>
      if Touches(b, processed) {
        ScanKeepsState(kind, s, b.end, blocks, processed);
      } else {
        ClaimKeepsState(s, blocks, processed, b);
        ScanKeepsState(kind, s, b.end, blocks + [b], processed + Range(b.start, b.end));
      }
  }

  /** `isRangeProcessed`. */
  method IsRangeProcessed(start: nat, end: nat, processed: set<nat>) returns (r: bool)
    ensures r <==> exists i :: start <= i < end && i in processed
  {
    var i := start;
    while i < end
      invariant start <= i
      invariant forall k :: start <= k < i ==> k !in processed
    {
      if i in processed {
        return true;
      }
      i := i + 1;
    }
    return false;
  }

  /** `markRangeProcessed`. */
  method MarkRangeProcessed(start: nat, end: nat, processed: set<nat>) returns (r: set<nat>)
    ensures r == processed + Range(start, end)
  {
    r := processed;
    var i := start;
    while i < end
      invariant start <= i && (i <= end || i == start)
      invariant r == processed + Range(start, i)
    {
      r := r + {i};
      i := i + 1;
    }
  }

  /**
   * The `while (regex.exec(...))` loop of `extractBlocks`, `extractHeadings` and
   * `extractListItems`; `kind` selects the expression (a kind without one adds nothing).
   */
  method ExtractBlocks(s: string, kind: BlockType, blocks0: seq<Block>, processed0: set<nat>)
    returns (blocks: seq<Block>, processed: set<nat>)
    ensures (blocks, processed) == Scan(kind, s, 0, blocks0, processed0)
  {
    blocks, processed := blocks0, processed0;
    var lastIndex := 0;
    while true
      invariant Scan(kind, s, lastIndex, blocks, processed) == Scan(kind, s, 0, blocks0, processed0)
      decreases |s| - lastIndex
    {
      var m := FirstMatch(kind, s, lastIndex);
      if m.None? {
        return;
      }
      var b := m.value;
      lastIndex := b.end;
      var claimed := IsRangeProcessed(b.start, b.end, processed);
      if claimed {
        continue;
      }
      blocks := blocks + [b];
      processed := MarkRangeProcessed(b.start, b.end, processed);
    }
  }

  // ---------------------------------------------------------------------------
  // Paragraphs and the whole parse

  /** The paragraph for the gap `[a, b)`, when its trimmed text is not empty. */
  function GapParagraph(s: string, a: nat, b: nat): (r: seq<Block>)
  {
    var text := Trim(Substring(s, a, b));
    if text != [] then [Block(Paragraph, 0, "", text, a, b)] else []
  }

  /**
   * `extractParagraphs` on the blocks sorted by start: the gap before each block
   * (from the previous block's end) and the gap after the last one.
   */
  function GapParagraphs(s: string, sorted: seq<Block>, cur: nat): (r: seq<Block>)
    decreases |sorted|
  {
    if |sorted| == 0 then (if cur < |s| then GapParagraph(s, cur, |s|) else [])
    else
      (if cur < sorted[0].start then GapParagraph(s, cur, sorted[0].start) else [])
      + GapParagraphs(s, sorted[1..], sorted[0].end)
  }

  lemma Assoc(a: seq<Block>, b: seq<Block>, c: seq<Block>)
    ensures (a + b) + c == a + (b + c)
  {
  }

  lemma GapUnfold(s: string, bs: seq<Block>, i: nat, cur: nat)
    requires i < |bs|
    ensures GapParagraphs(s, bs[i..], cur)
      == (if cur < bs[i].start then GapParagraph(s, cur, bs[i].start) else []) + GapParagraphs(s, bs[i + 1..], bs[i].end)
  {
    assert bs[i..][1..] == bs[i + 1..];
  }

  /** The six detector passes in their fixed priority order. */
  function Detect(s: string): (r: (seq<Block>, set<nat>))
  {
    var (b1, p1) := Scan(CodeBlock, s, 0, [], {});
    var (b2, p2) := Scan(Heading, s, 0, b1, p1);
    var (b3, p3) := Scan(Separator, s, 0, b2, p2);
    var (b4, p4) := Scan(ListItem, s, 0, b3, p3);
    var (b5, p5) := Scan(Image, s, 0, b4, p4);
    Scan(Link, s, 0, b5, p5)
  }

  /** `parseMarkdownBlocks`: detector blocks plus gap paragraphs, sorted by start. */
  function Parse(s: string): (r: seq<Block>)
  {
    if Trim(s) == [] then []
    else
      var d := Detect(s).0;
      SortBy(d + GapParagraphs(s, SortBy(d, StartKey), 0), StartKey)
  }

  /** `extractParagraphs`: appends the gap paragraphs to `blocks`. */
  method ExtractParagraphs(s: string, blocks: seq<Block>) returns (result: seq<Block>)
    ensures result == blocks + GapParagraphs(s, SortBy(blocks, StartKey), 0)
  {
    var sorted := SortBy(blocks, StartKey);
    result := blocks;
    var currentPos: nat := 0;
    assert sorted[0..] == sorted;
    for idx := 0 to |sorted|
      invariant blocks + GapParagraphs(s, sorted, 0) == result + GapParagraphs(s, sorted[idx..], currentPos)
    {
      var block := sorted[idx];
      ghost var gap := if currentPos < block.start then GapParagraph(s, currentPos, block.start) else [];
      GapUnfold(s, sorted, idx, currentPos);
      ghost var before := result;
      if currentPos < block.start {
        var paragraphText := Trim(Substring(s, currentPos, block.start));
        if |paragraphText| > 0 {
          result := result + [Block(Paragraph, 0, "", paragraphText, currentPos, block.start)];
        }
      }
      assert result == before + gap;
      Assoc(before, gap, GapParagraphs(s, sorted[idx + 1..], block.end));
      currentPos := block.end;
    }
    assert sorted[|sorted|..] == [];
    if currentPos < |s| {
      var paragraphText := Trim(Substring(s, currentPos, |s|));
      if |paragraphText| > 0 {
        result := result + [Block(Paragraph, 0, "", paragraphText, currentPos, |s|)];
      }
    }
  }

  /** `parseMarkdownBlocks`. */
  method ParseMarkdownBlocks(markdown: string) returns (blocks: seq<Block>)
    ensures blocks == Parse(markdown)
    ensures blocks == [] <==> AllWhitespace(markdown)
    ensures SortedBy(blocks, StartKey) && Ordered(blocks)
    ensures forall k :: 0 <= k < |markdown| && !IsWhitespace(markdown[k]) ==> Claimed(blocks, k)
  {
    ParseProperties(markdown);
    if |Trim(markdown)| == 0 {
      return [];
    }
    var processed: set<nat> := {};
    blocks := [];
    blocks, processed := ExtractBlocks(markdown, CodeBlock, blocks, processed);
    blocks, processed := ExtractBlocks(markdown, Heading, blocks, processed);
    blocks, processed := ExtractBlocks(markdown, Separator, blocks, processed);
    blocks, processed := ExtractBlocks(markdown, ListItem, blocks, processed);
    blocks, processed := ExtractBlocks(markdown, Image, blocks, processed);
    blocks, processed := ExtractBlocks(markdown, Link, blocks, processed);
    blocks := ExtractParagraphs(markdown, blocks);
    blocks := SortBy(blocks, StartKey);
  }

  // ---------------------------------------------------------------------------
  // Properties of the parse

  /** What every block of a parse satisfies. */
  predicate WellFormedBlock(s: string, b: Block) {
    && b.start < b.end <= |s|
    && (b.kind == Paragraph ==> b.content != [] && !IsWhitespace(b.content[0]) && !IsWhitespace(b.content[|b.content| - 1]))
    && (b.kind != Paragraph ==> MatchAt(b.kind, s, b.start) == Some(b))
  }

  lemma {:induction false} DetectKeepsState(s: string)
    ensures DetectorState(s, Detect(s).0, Detect(s).1)
  {
    assert DetectorState(s, [], {});
    var (b1, p1) := Scan(CodeBlock, s, 0, [], {});
    ScanKeepsState(CodeBlock, s, 0, [], {});
    var (b2, p2) := Scan(Heading, s, 0, b1, p1);
    ScanKeepsState(Heading, s, 0, b1, p1);
    var (b3, p3) := Scan(Separator, s, 0, b2, p2);
    ScanKeepsState(Separator, s, 0, b2, p2);
    var (b4, p4) := Scan(ListItem, s, 0, b3, p3);
    ScanKeepsState(ListItem, s, 0, b3, p3);
    var (b5, p5) := Scan(Image, s, 0, b4, p4);
    ScanKeepsState(Image, s, 0, b4, p4);
    ScanKeepsState(Link, s, 0, b5, p5);
  }

  lemma InsertKeepsDisjoint(x: Block, t: seq<Block>)
    requires PairwiseDisjoint(t)
    requires forall y :: y in t ==> Disjoint(x, y)
    ensures PairwiseDisjoint(Insert(x, t, StartKey))
  {
    var k := InsertPos(x, t, StartKey);
    var r := Insert(x, t, StartKey);
    InsertAt(x, t, StartKey, 0);
    forall i, j | 0 <= i < |r| && 0 <= j < |r| && i != j ensures Disjoint(r[i], r[j]) {
      InsertAt(x, t, StartKey, i);
      InsertAt(x, t, StartKey, j);
      if i != k && j != k {
        var i' := if i < k then i else i - 1;
        var j' := if j < k then j else j - 1;
        assert Disjoint(t[i'], t[j']);
      } else if i == k {
        assert r[j] in t;
      } else {
        assert r[i] in t;
      }
    }
  }

  lemma {:induction false} SortKeepsDisjoint(bs: seq<Block>)
    requires PairwiseDisjoint(bs)
    ensures PairwiseDisjoint(SortBy(bs, StartKey))
  {
    if |bs| > 0 {
      var rest := bs[1..];
      assert PairwiseDisjoint(rest) by {
        forall i, j | 0 <= i < |rest| && 0 <= j < |rest| && i != j ensures Disjoint(rest[i], rest[j]) {
          assert Disjoint(bs[i + 1], bs[j + 1]);
        }
      }
      SortKeepsDisjoint(rest);
      SortByMembers(rest, StartKey);
      forall y | y in SortBy(rest, StartKey) ensures Disjoint(bs[0], y) {
        var j :| 0 <= j < |rest| && rest[j] == y;
        assert Disjoint(bs[0], bs[j + 1]);
      }
      InsertKeepsDisjoint(bs[0], SortBy(rest, StartKey));
    }
  }

  /** Sorted by start and non-overlapping: each block ends before the next one starts. */
  lemma SortedDisjointOrdered(bs: seq<Block>)
    requires SortedBy(bs, StartKey) && PairwiseDisjoint(bs)
    requires forall b :: b in bs ==> b.start < b.end
    ensures Ordered(bs)
  {
    forall i, j | 0 <= i < j < |bs| ensures bs[i].end <= bs[j].start {
      assert Disjoint(bs[i], bs[j]);
      assert bs[i] in bs && bs[j] in bs;
    }
  }

  /** The common requirements of the gap lemmas: sorted, in-bounds blocks after `cur`. */
  predicate GapInput(s: string, bs: seq<Block>, cur: nat) {
    && Ordered(bs)
    && (forall b :: b in bs ==> b.start < b.end <= |s|)
    && (|bs| > 0 ==> cur <= bs[0].start)
  }

  lemma GapInputTail(s: string, bs: seq<Block>, cur: nat)
    requires GapInput(s, bs, cur) && |bs| > 0
    ensures GapInput(s, bs[1..], bs[0].end)
    ensures GapParagraphs(s, bs, cur)
      == (if cur < bs[0].start then GapParagraph(s, cur, bs[0].start) else []) + GapParagraphs(s, bs[1..], bs[0].end)
  {
    assert forall c :: c in bs[1..] ==> c in bs;
    if |bs| > 1 {
      assert bs[0].end <= bs[1].start;
    }
  }

  /** Gap paragraphs are well-formed paragraphs that start at or after `cur`. */
  lemma {:induction false} GapWellFormed(s: string, bs: seq<Block>, cur: nat)
    requires GapInput(s, bs, cur)
    ensures forall p :: p in GapParagraphs(s, bs, cur) ==> p.kind == Paragraph && cur <= p.start && WellFormedBlock(s, p)
    decreases |bs|
  {
    var g := GapParagraphs(s, bs, cur);
    if |bs| == 0 {
      if cur < |s| {
        GapParagraphWellFormed(s, cur, |s|);
      }
    } else {
      var b := bs[0];
      assert b in bs;
      var head := if cur < b.start then GapParagraph(s, cur, b.start) else [];
      var tail := GapParagraphs(s, bs[1..], b.end);
      assert g == head + tail;
      if cur < b.start {
        GapParagraphWellFormed(s, cur, b.start);
      }
      GapInputTail(s, bs, cur);
      GapWellFormed(s, bs[1..], b.end);
    }
  }

  /** The paragraph of a gap, if any, is a well-formed paragraph spanning the gap. */
  lemma GapParagraphWellFormed(s: string, a: nat, b: nat)
    requires a < b <= |s|
    ensures forall p :: p in GapParagraph(s, a, b) ==> p.kind == Paragraph && p.start == a && WellFormedBlock(s, p)
  {
  }

  /** Two ordered runs, the first ending before the second starts, concatenate to an ordered run. */
  lemma OrderedConcat(a: seq<Block>, b: seq<Block>, bound: nat)
    requires Ordered(a) && Ordered(b)
    requires forall p :: p in a ==> p.end <= bound
    requires forall q :: q in b ==> bound <= q.start
    ensures Ordered(a + b)
  {
    var g := a + b;
    forall x, y | 0 <= x < y < |g| ensures g[x].end <= g[y].start {
      if y < |a| {
        assert g[x] == a[x] && g[y] == a[y];
      } else if x < |a| {
        assert g[x] == a[x] && a[x] in a;
        assert g[y] == b[y - |a|] && b[y - |a|] in b;
      } else {
        assert g[x] == b[x - |a|] && g[y] == b[y - |a|];
      }
    }
  }

  lemma GapParagraphShape(s: string, a: nat, b: nat)
    ensures Ordered(GapParagraph(s, a, b))
    ensures forall p :: p in GapParagraph(s, a, b) ==> p.end == b
  {
  }

  lemma {:induction false} GapOrdered(s: string, bs: seq<Block>, cur: nat)
    requires GapInput(s, bs, cur)
    ensures Ordered(GapParagraphs(s, bs, cur))
    decreases |bs|
  {
    if |bs| > 0 {
      var b := bs[0];
      assert b in bs;
      GapInputTail(s, bs, cur);
      GapOrdered(s, bs[1..], b.end);
      GapWellFormed(s, bs[1..], b.end);
      var head := if cur < b.start then GapParagraph(s, cur, b.start) else [];
      GapParagraphShape(s, cur, b.start);
      OrderedConcat(head, GapParagraphs(s, bs[1..], b.end), b.start);
    }
  }

  /** No gap paragraph overlaps one of the blocks. */
  lemma {:induction false} GapDisjoint(s: string, bs: seq<Block>, cur: nat)
    requires GapInput(s, bs, cur)
    ensures forall p, y :: p in GapParagraphs(s, bs, cur) && 0 <= y < |bs| ==> Disjoint(p, bs[y])
    decreases |bs|
  {
    if |bs| > 0 {
      var b := bs[0];
      assert b in bs;
      GapInputTail(s, bs, cur);
      GapDisjoint(s, bs[1..], b.end);
      GapWellFormed(s, bs[1..], b.end);
      var head := if cur < b.start then GapParagraph(s, cur, b.start) else [];
      var tail := GapParagraphs(s, bs[1..], b.end);
      forall p, y | p in head + tail && 0 <= y < |bs| ensures Disjoint(p, bs[y]) {
        if p in head {
          assert p.end == b.start;
          if y > 0 { assert bs[0].end <= bs[y].start; }
        } else {
          assert p in tail;
          if y > 0 { assert bs[1..][y - 1] == bs[y]; }
        }
      }
    }
  }

  /** A non-whitespace character outside every block falls in some gap paragraph. */
  lemma {:induction false} GapCoverage(s: string, bs: seq<Block>, cur: nat, k: nat)
    requires forall b :: b in bs ==> b.start <= |s|
    requires cur <= k < |s| && !IsWhitespace(s[k]) && !Claimed(bs, k)
    ensures Claimed(GapParagraphs(s, bs, cur), k)
    decreases |bs|
  {
    var g := GapParagraphs(s, bs, cur);
    if |bs| == 0 {
      GapParagraphCovers(s, cur, |s|, k);
    } else {
      var b := bs[0];
      assert b in bs;
      assert !(b.start <= k < b.end);
      var head := if cur < b.start then GapParagraph(s, cur, b.start) else [];
      var tail := GapParagraphs(s, bs[1..], b.end);
      assert g == head + tail;
      if k < b.start {
        GapParagraphCovers(s, cur, b.start, k);
        assert head[0] in g;
      } else {
        assert forall c :: c in bs[1..] ==> c in bs;
        GapCoverage(s, bs[1..], b.end, k);
        var p :| p in tail && p.start <= k < p.end;
        assert p in g;
      }
    }
  }

  /** A gap holding a non-blank character yields a paragraph spanning the whole gap. */
  lemma GapParagraphCovers(s: string, a: nat, b: nat, k: nat)
    requires a <= k < b <= |s| && !IsWhitespace(s[k])
    ensures |GapParagraph(s, a, b)| == 1
    ensures GapParagraph(s, a, b)[0].start == a && GapParagraph(s, a, b)[0].end == b
  {
    assert s[a..b][k - a] == s[k];
  }

  /** The detector blocks sorted by start, as `extractParagraphs` sees them. */
  function SortedDetected(s: string): seq<Block> {
    SortBy(Detect(s).0, StartKey)
  }

  /** All blocks before the final sort: detector blocks, then gap paragraphs. */
  function Unsorted(s: string): seq<Block> {
    Detect(s).0 + GapParagraphs(s, SortedDetected(s), 0)
  }

  lemma SortedDetectedFacts(s: string)
    ensures GapInput(s, SortedDetected(s), 0)
    ensures forall b :: b in SortedDetected(s) <==> b in Detect(s).0
    ensures forall b :: b in Detect(s).0 ==> b.start < b.end <= |s| && WellFormedBlock(s, b)
  {
    var d := Detect(s).0;
    var sd := SortedDetected(s);
    DetectedWellFormed(s);
    SortByMembers(d, StartKey);
    SortByIsSorted(d, StartKey);
    SortKeepsDisjoint(d);
    SortedDisjointOrdered(sd);
  }

  /** The detector blocks do not overlap and each is a well-formed match inside the text. */
  lemma DetectedWellFormed(s: string)
    ensures PairwiseDisjoint(Detect(s).0)
    ensures forall b :: b in Detect(s).0 ==> b.start < b.end <= |s| && WellFormedBlock(s, b)
  {
    DetectKeepsState(s);
  }

  /** No gap paragraph overlaps a detector block. */
  lemma GapsMissDetected(s: string, p: Block, c: Block)
    requires p in GapParagraphs(s, SortedDetected(s), 0) && c in Detect(s).0
    ensures Disjoint(p, c) && Disjoint(c, p)
  {
    var sd := SortedDetected(s);
    SortedDetectedFacts(s);
    GapDisjoint(s, sd, 0);
    assert c in sd;
    var y :| 0 <= y < |sd| && sd[y] == c;
  }

  /** Disjoint blocks followed by ordered blocks that miss all of them stay pairwise disjoint. */
  lemma ConcatDisjoint(d: seq<Block>, g: seq<Block>)
    requires PairwiseDisjoint(d) && Ordered(g)
    requires forall p, c :: p in g && c in d ==> Disjoint(p, c) && Disjoint(c, p)
    ensures PairwiseDisjoint(d + g)
  {
    var all := d + g;
    forall i, j | 0 <= i < |all| && 0 <= j < |all| && i != j ensures Disjoint(all[i], all[j]) {
      if i < |d| && j < |d| {
        assert all[i] == d[i] && all[j] == d[j];
      } else if i >= |d| && j >= |d| {
        assert all[i] == g[i - |d|] && all[j] == g[j - |d|];
      } else if i < |d| {
        assert all[i] == d[i] && d[i] in d;
        assert all[j] == g[j - |d|] && g[j - |d|] in g;
      } else {
        assert all[j] == d[j] && d[j] in d;
        assert all[i] == g[i - |d|] && g[i - |d|] in g;
      }
    }
  }

  lemma UnsortedDisjoint(s: string)
    ensures PairwiseDisjoint(Unsorted(s))
  {
    var d := Detect(s).0;
    var g := GapParagraphs(s, SortedDetected(s), 0);
    DetectKeepsState(s);
    SortedDetectedFacts(s);
    GapOrdered(s, SortedDetected(s), 0);
    forall p, c | p in g && c in d ensures Disjoint(p, c) && Disjoint(c, p) {
      GapsMissDetected(s, p, c);
    }
    ConcatDisjoint(d, g);
  }

  lemma UnsortedWellFormed(s: string)
    ensures forall b :: b in Unsorted(s) ==> WellFormedBlock(s, b)
  {
    var d := Detect(s).0;
    var g := GapParagraphs(s, SortedDetected(s), 0);
    SortedDetectedFacts(s);
    GapWellFormed(s, SortedDetected(s), 0);
    forall b | b in Unsorted(s) ensures WellFormedBlock(s, b) {
      if b !in d {
        assert b in g;
      }
    }
  }

  lemma UnsortedCovers(s: string, k: nat)
    requires k < |s| && !IsWhitespace(s[k])
    ensures Claimed(Unsorted(s), k)
  {
    var d := Detect(s).0;
    var sd := SortedDetected(s);
    var g := GapParagraphs(s, sd, 0);
    SortedDetectedFacts(s);
    if Claimed(d, k) {
      var b :| b in d && b.start <= k < b.end;
      assert b in Unsorted(s);
    } else {
      assert !Claimed(sd, k) by {
        forall b | b in sd ensures !(b.start <= k < b.end) {
          assert b in d;
        }
      }
      GapCoverage(s, sd, 0, k);
      var b :| b in g && b.start <= k < b.end;
      assert b in Unsorted(s);
    }
  }

  /**
   * The parse is empty exactly for blank input; its blocks are sorted by start and do
   * not overlap; and every non-whitespace character lies in some block.
   */
  lemma ParseProperties(s: string)
    ensures Parse(s) == [] <==> AllWhitespace(s)
    ensures SortedBy(Parse(s), StartKey) && Ordered(Parse(s))
    ensures forall b :: b in Parse(s) ==> WellFormedBlock(s, b)
    ensures forall k :: 0 <= k < |s| && !IsWhitespace(s[k]) ==> Claimed(Parse(s), k)
  {
    if Trim(s) != [] {
      var all := Unsorted(s);
      var r := SortBy(all, StartKey);
      assert r == Parse(s);
      UnsortedDisjoint(s);
      UnsortedWellFormed(s);
      SortByMembers(all, StartKey);
      SortByIsSorted(all, StartKey);
      SortKeepsDisjoint(all);
      SortedDisjointOrdered(r);
      forall k | 0 <= k < |s| && !IsWhitespace(s[k]) ensures Claimed(r, k) {
        UnsortedCovers(s, k);
        var b :| b in all && b.start <= k < b.end;
        assert b in r;
      }
      assert !AllWhitespace(s);
      var k :| 0 <= k < |s| && !IsWhitespace(s[k]);
      assert Claimed(r, k);
    }
  }

  /** The headings of a parse carry their own `#` count, from 1 to 6, which whitespace follows. */
  lemma ParsedHeadings(s: string)
    ensures forall b :: b in Parse(s) && b.kind == Heading ==>
      1 <= b.level <= 6 && b.start + b.level < |s| && IsWhitespace(s[b.start + b.level])
      && forall j :: b.start <= j < b.start + b.level ==> s[j] == '#'
  {
    ParseProperties(s);
    forall b | b in Parse(s) && b.kind == Heading
      ensures 1 <= b.level <= 6 && b.start + b.level < |s| && IsWhitespace(s[b.start + b.level])
      ensures forall j :: b.start <= j < b.start + b.level ==> s[j] == '#'
    {
      WellFormedHeading(s, b);
    }
  }

  /** A well-formed heading is what the heading scanner reads at its start. */
  lemma WellFormedHeading(s: string, b: Block)
    requires WellFormedBlock(s, b) && b.kind == Heading
    ensures 1 <= b.level <= 6 && b.start + b.level < |s| && IsWhitespace(s[b.start + b.level])
    ensures forall j :: b.start <= j < b.start + b.level ==> s[j] == '#'
  {
    assert HeadingAt(s, b.start) == Some(b);
  }

  // ---------------------------------------------------------------------------
  // Rendering and hashing

  /** One block as `blocksToMarkdown` writes it. */
  function BlockToMarkdown(b: Block): string {
    match b.kind
    case Heading => Repeat('#', b.level) + " " + b.content
    case ListItem => b.marker + " " + b.content
    case _ => b.content
  }

  function MapToMarkdown(bs: seq<Block>): (r: seq<string>)
    ensures |r| == |bs| && forall i :: 0 <= i < |bs| ==> r[i] == BlockToMarkdown(bs[i])
  {
    if |bs| == 0 then [] else [BlockToMarkdown(bs[0])] + MapToMarkdown(bs[1..])
  }

  /** `blocksToMarkdown`: the rendered blocks joined by single spaces. */
  function BlocksToMarkdown(bs: seq<Block>): string {
    Join(MapToMarkdown(bs), " ")
  }

  /** Rendering two runs of blocks is rendering each, separated by one space. */
  lemma BlocksToMarkdownConcat(a: seq<Block>, b: seq<Block>)
    requires |a| > 0 && |b| > 0
    ensures BlocksToMarkdown(a + b) == BlocksToMarkdown(a) + " " + BlocksToMarkdown(b)
  {
    MapToMarkdownConcat(a, b);
    JoinConcat(MapToMarkdown(a), MapToMarkdown(b), " ");
  }

  lemma MapToMarkdownConcat(a: seq<Block>, b: seq<Block>)
    ensures MapToMarkdown(a + b) == MapToMarkdown(a) + MapToMarkdown(b)
  {
    var l, r := MapToMarkdown(a + b), MapToMarkdown(a) + MapToMarkdown(b);
    forall i | 0 <= i < |l| ensures l[i] == r[i] {
      if i < |a| {
        assert (a + b)[i] == a[i];
      } else {
        assert (a + b)[i] == b[i - |a|];
      }
    }
  }

  /** `level || ''` in a template string. */
  function LevelText(level: nat): (r: string)
    ensures forall i :: 0 <= i < |r| ==> '0' <= r[i] <= '9'
  {
    if level == 0 then "" else NatToString(level)
  }

  /** `${type}:${level || ''}:${content.substring(0, n)}`. */
  function BlockHashOf(b: Block, n: nat): string {
    KindName(b.kind) + ":" + LevelText(b.level) + ":" + Prefix(b.content, n)
  }

  /** `MarkdownBlockParser.getBlockHash`: the block's identity in a diff. */
  function GetBlockHash(b: Block): string {
    BlockHashOf(b, 50)
  }

  lemma KindNameInjective(j: BlockType, k: BlockType)
    requires KindName(j) == KindName(k)
    ensures j == k
  {
    assert KindName(j)[..2] == KindName(k)[..2];
    if KindName(j)[..2] == "li" {
      assert KindName(j)[2] == KindName(k)[2];
    }
  }

  /** Two blocks hash alike exactly when they agree on kind, level and the first `n` content characters. */
  lemma BlockHashOfIff(a: Block, b: Block, n: nat)
    ensures BlockHashOf(a, n) == BlockHashOf(b, n) <==>
      a.kind == b.kind && a.level == b.level && Prefix(a.content, n) == Prefix(b.content, n)
  {
    if BlockHashOf(a, n) == BlockHashOf(b, n) {
      SameHashSameParts(a, b, n);
    }
  }

  /** Equal hashes come from equal kinds, levels and content prefixes. */
  lemma SameHashSameParts(a: Block, b: Block, n: nat)
    requires BlockHashOf(a, n) == BlockHashOf(b, n)
    ensures a.kind == b.kind && a.level == b.level && Prefix(a.content, n) == Prefix(b.content, n)
  {
    var ka, kb := KindName(a.kind), KindName(b.kind);
    var la, lb := LevelText(a.level), LevelText(b.level);
    var pa, pb := Prefix(a.content, n), Prefix(b.content, n);
    ColonJoinAssoc(ka, la, pa);
    ColonJoinAssoc(kb, lb, pb);
    ColonFieldsEqual(ka, la, pa, kb, lb, pb);
    KindNameInjective(a.kind, b.kind);
    LevelTextInjective(a.level, b.level);
  }

  lemma LevelTextInjective(m: nat, n: nat)
    requires LevelText(m) == LevelText(n)
    ensures m == n
  {
    if m > 0 && n > 0 {
      NatToStringInjective(m, n);
    }
  }

  lemma ColonJoinAssoc(k: string, l: string, p: string)
    ensures k + ":" + l + ":" + p == k + [':'] + (l + [':'] + p)
  {
  }

  /** Two texts `k:l:p` with colon-free `k` and `l` are equal only field by field. */
  lemma ColonFieldsEqual(k1: string, l1: string, p1: string, k2: string, l2: string, p2: string)
    requires forall i :: 0 <= i < |k1| ==> k1[i] != ':'
    requires forall i :: 0 <= i < |k2| ==> k2[i] != ':'
    requires forall i :: 0 <= i < |l1| ==> l1[i] != ':'
    requires forall i :: 0 <= i < |l2| ==> l2[i] != ':'
    requires k1 + [':'] + (l1 + [':'] + p1) == k2 + [':'] + (l2 + [':'] + p2)
    ensures k1 == k2 && l1 == l2 && p1 == p2
  {
    SplitAtChar(k1, l1 + [':'] + p1, k2, l2 + [':'] + p2, ':');
    SplitAtChar(l1, p1, l2, p2, ':');
  }
}
