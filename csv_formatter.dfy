/**
 * The CSV export of a workflow's actions: an unquoted header line, then one line per action
 * whose eight cells are each wrapped in double quotes. Only the `text_content` cell has its
 * quotes doubled. A reader (`ParseCsv`) for quoted CSV shows what this costs: when every cell
 * is escaped the file reads back to the exported values, and when only one is escaped two
 * different action lists can produce the same file.
 *
 * `new Date(timestamp).toISOString()` is the parameter `iso`.
 */
module CsvFormatter {
  import opened Wrappers
  import opened Text
  import opened Records

  const Headers: seq<string> := [
    "sequence_number", "timestamp", "type", "element_tag",
    "element_id", "element_class", "text_content", "url"]

  function HeaderLine(): string {
    Join(Headers, ",")
  }

  /** `s.replace(/"/g, '""')`. */
  function DoubleQuotes(s: string): (r: string)
    ensures |r| >= |s|
    ensures '"' !in s ==> r == s
  {
    if s == [] then []
    else (if s[0] == '"' then "\"\"" else [s[0]]) + DoubleQuotes(s[1..])
  }

  /** `action.sequenceNumber || ''` written into a template string. */
  function SequenceCell(n: nat): string {
    if n == 0 then "" else NatToString(n)
  }

  /** The eight values an action exports, in header order and before any escaping. */
  function Fields(a: ActionRecord, iso: int -> string): (r: seq<string>)
    ensures |r| == |Headers|
  {
    var t := a.target.GetOr(EmptyTarget);
    [SequenceCell(a.sequenceNumber), iso(a.timestamp), a.kind, t.tagName,
     t.id, t.className, t.textContent, a.url]
  }

  /** The index of `text_content`, the one column whose quotes are doubled. */
  const TextColumn: nat := 6

  /** The cells of an action's row as written: the fields with only `text_content` escaped. */
  function RowCells(a: ActionRecord, iso: int -> string): (r: seq<string>)
    ensures |r| == |Headers|
  {
    var f := Fields(a, iso);
    f[TextColumn := DoubleQuotes(f[TextColumn])]
  }

  function Quoted(cell: string): string {
    "\"" + cell + "\""
  }

  function QuoteAll(cells: seq<string>): (r: seq<string>)
    ensures |r| == |cells|
  {
    seq(|cells|, i requires 0 <= i < |cells| => Quoted(cells[i]))
  }

  /** `row.map(cell => `"${cell}"`).join(',')`. */
  function CsvLine(cells: seq<string>): string {
    Join(QuoteAll(cells), ",")
  }

  function RowLines(actions: seq<ActionRecord>, iso: int -> string): (r: seq<string>)
    ensures |r| == |actions|
  {
    seq(|actions|, i requires 0 <= i < |actions| => CsvLine(RowCells(actions[i], iso)))
  }

  /** The file text `format` builds; a missing action list exports no rows. */
  function CsvContent(actions: Option<seq<ActionRecord>>, iso: int -> string): string {
    Join([HeaderLine()] + RowLines(actions.GetOr([]), iso), "\n")
  }

  datatype CsvExport = CsvExport(filename: string, content: string, mimeType: string)

  /**
   * `CsvFormatter.format`. The file name reads the workflow's id, so a missing workflow
   * makes the call throw (`None`).
   */
  function Format(data: WorkflowData, iso: int -> string): (r: Option<CsvExport>)
    ensures r.Some? <==> data.workflow.Some?
    ensures r.Some? ==> r.value.mimeType == "text/csv"
    ensures r.Some? ==> r.value.filename == "workflow-" + data.workflow.value.id + "-actions.csv"
    ensures r.Some? ==> r.value.content == CsvContent(data.actions, iso)
  {
    match data.workflow
    case None => None
    case Some(w) =>
      Some(CsvExport("workflow-" + w.id + "-actions.csv", CsvContent(data.actions, iso), "text/csv"))
  }

  // ---------------------------------------------------------------------------------------
  // Lines of the file

  lemma {:induction false} JoinLacks(parts: seq<string>, sep: string, c: char)
    requires c !in sep
    requires forall p :: p in parts ==> c !in p
    ensures c !in Join(parts, sep)
    decreases |parts|
  {
    if |parts| > 1 {
      assert parts[0] in parts;
      forall p | p in parts[1..] ensures c !in p {
        assert p in parts;
      }
      JoinLacks(parts[1..], sep, c);
    } else if |parts| == 1 {
      assert parts[0] in parts;
    }
  }

  lemma LineLacks(cells: seq<string>, c: char)
    requires c != '"' && c != ','
    requires forall x :: x in cells ==> c !in x
    ensures c !in CsvLine(cells)
  {
    var q := QuoteAll(cells);
    forall p | p in q ensures c !in p {
      var i :| 0 <= i < |q| && q[i] == p;
      assert cells[i] in cells;
    }
    JoinLacks(q, ",", c);
  }

  lemma {:induction false} DoubleQuotesLacks(s: string, c: char)
    requires c != '"' && c !in s
    ensures c !in DoubleQuotes(s)
    decreases |s|
  {
    if s != [] {
      assert s == [s[0]] + s[1..];
      DoubleQuotesLacks(s[1..], c);
    }
  }

  /** A row whose fields hold no line break is written on one line. */
  lemma RowLineSingle(a: ActionRecord, iso: int -> string)
    requires forall j :: 0 <= j < |Headers| ==> '\n' !in Fields(a, iso)[j]
    ensures '\n' !in CsvLine(RowCells(a, iso))
  {
    var f := Fields(a, iso);
    var cells := RowCells(a, iso);
    DoubleQuotesLacks(f[TextColumn], '\n');
    forall x | x in cells ensures '\n' !in x {
      var j :| 0 <= j < |cells| && cells[j] == x;
      assert '\n' !in f[j];
    }
    LineLacks(cells, '\n');
  }

  lemma HeaderSingle()
    ensures '\n' !in HeaderLine()
  {
    var hs := Headers;
    assert hs == [hs[0], hs[1], hs[2], hs[3], hs[4], hs[5], hs[6], hs[7]];
    assert '\n' !in hs[0] && '\n' !in hs[1] && '\n' !in hs[2] && '\n' !in hs[3];
    assert '\n' !in hs[4] && '\n' !in hs[5] && '\n' !in hs[6] && '\n' !in hs[7];
    JoinLacks(hs, ",", '\n');
  }

  lemma RowsSingle(actions: seq<ActionRecord>, iso: int -> string)
    requires SingleLineFields(actions, iso)
    ensures forall k :: 0 <= k < |actions| ==> '\n' !in RowLines(actions, iso)[k]
  {
    forall k | 0 <= k < |actions| ensures '\n' !in RowLines(actions, iso)[k] {
      RowLineSingle(actions[k], iso);
    }
  }

  /** No action field holds a line break. */
  predicate SingleLineFields(actions: seq<ActionRecord>, iso: int -> string) {
    forall i, j :: 0 <= i < |actions| && 0 <= j < |Headers| ==> '\n' !in Fields(actions[i], iso)[j]
  }

  /**
   * When no field holds a line break, the file's lines are the header and then one line per
   * action, in order.
   */
  lemma CsvLines(actions: seq<ActionRecord>, iso: int -> string)
    requires SingleLineFields(actions, iso)
    ensures Split(CsvContent(Some(actions), iso), "\n") == [HeaderLine()] + RowLines(actions, iso)
    ensures |Split(CsvContent(Some(actions), iso), "\n")| == 1 + |actions|
  {
    LinesLackBreak(actions, iso);
    SplitJoin([HeaderLine()] + RowLines(actions, iso), "\n", 0);
  }

  /** Neither the header nor any row line holds a line break. */
  lemma LinesLackBreak(actions: seq<ActionRecord>, iso: int -> string)
    requires SingleLineFields(actions, iso)
    ensures forall p, i :: p in [HeaderLine()] + RowLines(actions, iso) && 0 <= i < |p| ==> p[i] != "\n"[0]
  {
    var parts := [HeaderLine()] + RowLines(actions, iso);
    HeaderSingle();
    RowsSingle(actions, iso);
    forall p, i | p in parts && 0 <= i < |p| ensures p[i] != "\n"[0] {
      var k :| 0 <= k < |parts| && parts[k] == p;
      if k > 0 {
        assert p == RowLines(actions, iso)[k - 1];
      }
    }
  }

  // ---------------------------------------------------------------------------------------
  // Reading quoted CSV back

  /**
   * Reads the rest of a quoted cell after its opening quote: a doubled quote stands for one
   * quote and a single quote closes the cell. Returns the cell and what follows it.
   */
  function ReadQuoted(s: string): (r: Option<(string, string)>)
    ensures r.Some? ==> |r.value.1| < |s|
    decreases |s|
  {
    if s == [] then None
    else if s[0] == '"' then
      if |s| > 1 && s[1] == '"' then
        match ReadQuoted(s[2..])
        case None => None
        case Some((v, rest)) => Some(("\"" + v, rest))
      else Some(("", s[1..]))
    else
      match ReadQuoted(s[1..])
      case None => None
      case Some((v, rest)) => Some(([s[0]] + v, rest))
  }

  function ReadCell(s: string): (r: Option<(string, string)>)
    ensures r.Some? ==> |r.value.1| < |s|
  {
    if s != [] && s[0] == '"' then ReadQuoted(s[1..]) else None
  }

  /** Reads comma-separated quoted cells up to the first character that is not a comma. */
  function ReadRow(s: string): (r: Option<(seq<string>, string)>)
    ensures r.Some? ==> |r.value.1| < |s|
    decreases |s|
  {
    match ReadCell(s)
    case None => None
    case Some((v, rest)) =>
      if rest != [] && rest[0] == ',' then
        match ReadRow(rest[1..])
        case None => None
        case Some((vs, rest')) => Some(([v] + vs, rest'))
      else Some(([v], rest))
  }

  /** Reads rows separated by line breaks up to the end of the text. */
  function ReadRows(s: string): Option<seq<seq<string>>>
    decreases |s|
  {
    match ReadRow(s)
    case None => None
    case Some((cells, rest)) =>
      if rest == [] then Some([cells])
      else if rest[0] == '\n' then
        match ReadRows(rest[1..])
        case None => None
        case Some(rows) => Some([cells] + rows)
      else None
  }

  /** The data rows of a file made of the header line and quoted rows. */
  function ParseCsv(content: string): Option<seq<seq<string>>> {
    var h := HeaderLine();
    if !StartsWith(content, h) then None
    else if |content| == |h| then Some([])
    else if content[|h|] == '\n' then ReadRows(content[|h| + 1..])
    else None
  }

  // ---------------------------------------------------------------------------------------
  // Escaping every cell

  function EscapeAll(cells: seq<string>): (r: seq<string>)
    ensures |r| == |cells|
  {
    seq(|cells|, i requires 0 <= i < |cells| => DoubleQuotes(cells[i]))
  }

  function EscapedLine(cells: seq<string>): string {
    CsvLine(EscapeAll(cells))
  }

  function EscapedLines(rows: seq<seq<string>>): (r: seq<string>)
    ensures |r| == |rows|
  {
    seq(|rows|, i requires 0 <= i < |rows| => EscapedLine(rows[i]))
  }

  /** The exported values of each action, one row per action. */
  function FieldRows(actions: seq<ActionRecord>, iso: int -> string): (r: seq<seq<string>>)
    ensures |r| == |actions|
  {
    seq(|actions|, i requires 0 <= i < |actions| => Fields(actions[i], iso))
  }

  /** The file with the quotes of every cell doubled, as quoted CSV requires. */
  function CorrectedCsvContent(actions: Option<seq<ActionRecord>>, iso: int -> string): string {
    Join([HeaderLine()] + EscapedLines(FieldRows(actions.GetOr([]), iso)), "\n")
  }

  lemma {:induction false} ReadQuotedDoubled(x: string, rest: string)
    requires rest == [] || rest[0] != '"'
    ensures ReadQuoted(DoubleQuotes(x) + "\"" + rest) == Some((x, rest))
    decreases |x|
  {
    var s := DoubleQuotes(x) + "\"" + rest;
    if x == [] {
      assert s == "\"" + rest;
      assert s[1..] == rest;
    } else {
      var tail := DoubleQuotes(x[1..]) + "\"" + rest;
      ReadQuotedDoubled(x[1..], rest);
      if x[0] == '"' {
        assert s == "\"\"" + tail;
        ReadQuotedEscaped(tail, x[1..], rest);
        assert x == "\"" + x[1..];
      } else {
        assert s == [x[0]] + tail;
        ReadQuotedPlain(x[0], tail, x[1..], rest);
        assert x == [x[0]] + x[1..];
      }
    }
  }

  /** A doubled quote reads as one quote of the cell. */
  lemma ReadQuotedEscaped(tail: string, v: string, rest: string)
    requires ReadQuoted(tail) == Some((v, rest))
    ensures ReadQuoted("\"\"" + tail) == Some(("\"" + v, rest))
  {
    assert ("\"\"" + tail)[2..] == tail;
  }

  /** Any other character reads as itself. */
  lemma ReadQuotedPlain(c: char, tail: string, v: string, rest: string)
    requires c != '"' && ReadQuoted(tail) == Some((v, rest))
    ensures ReadQuoted([c] + tail) == Some(([c] + v, rest))
  {
    assert ([c] + tail)[1..] == tail;
  }

  lemma ReadCellOpen(y: string)
    ensures ReadCell("\"" + y) == ReadQuoted(y)
  {
    assert ("\"" + y)[1..] == y;
  }

  lemma ReadCellDoubled(x: string, rest: string)
    requires rest == [] || rest[0] != '"'
    ensures ReadCell(Quoted(DoubleQuotes(x)) + rest) == Some((x, rest))
  {
    var d := DoubleQuotes(x);
    var y := d + "\"" + rest;
    assert Quoted(d) + rest == "\"" + y;
    ReadCellOpen(y);
    ReadQuotedDoubled(x, rest);
  }

  lemma EscapedLineStep(cells: seq<string>)
    requires |cells| > 1
    ensures EscapedLine(cells) == Quoted(DoubleQuotes(cells[0])) + "," + EscapedLine(cells[1..])
  {
    var q := QuoteAll(EscapeAll(cells));
    assert q[1..] == QuoteAll(EscapeAll(cells[1..]));
  }

  lemma {:induction false} ReadRowEscaped(cells: seq<string>, rest: string)
    requires |cells| >= 1
    requires rest == [] || (rest[0] != ',' && rest[0] != '"')
    ensures ReadRow(EscapedLine(cells) + rest) == Some((cells, rest))
    decreases |cells|
  {
    var c := cells[0];
    if |cells| == 1 {
      assert EscapedLine(cells) == Quoted(DoubleQuotes(c));
      ReadCellDoubled(c, rest);
      assert cells == [c];
    } else {
      var tail := EscapedLine(cells[1..]) + rest;
      var more := "," + tail;
      EscapedLineStep(cells);
      assert EscapedLine(cells) + rest == Quoted(DoubleQuotes(c)) + more;
      ReadCellDoubled(c, more);
      ReadRowEscaped(cells[1..], rest);
      ReadRowCons(EscapedLine(cells) + rest, c, tail, cells[1..], rest);
      assert cells == [c] + cells[1..];
    }
  }

  /** A cell followed by a comma and a readable row reads as one row. */
  lemma ReadRowCons(s: string, c: string, tail: string, cs: seq<string>, rest: string)
    requires ReadCell(s) == Some((c, "," + tail)) && ReadRow(tail) == Some((cs, rest))
    ensures ReadRow(s) == Some(([c] + cs, rest))
  {
    assert ("," + tail)[1..] == tail;
  }

  lemma EscapedLineOpens(cells: seq<string>)
    requires |cells| >= 1
    ensures EscapedLine(cells) != [] && EscapedLine(cells)[0] == '"'
  {
    var q := QuoteAll(EscapeAll(cells));
    if |cells| > 1 {
      assert EscapedLine(cells) == q[0] + "," + Join(q[1..], ",");
    }
  }

  lemma {:induction false} ReadRowsEscaped(rows: seq<seq<string>>)
    requires |rows| >= 1
    requires forall i :: 0 <= i < |rows| ==> |rows[i]| >= 1
    ensures ReadRows(Join(EscapedLines(rows), "\n")) == Some(rows)
    decreases |rows|
  {
    var lines := EscapedLines(rows);
    EscapedLineOpens(rows[0]);
    if |rows| == 1 {
      assert Join(lines, "\n") == EscapedLine(rows[0]) + [];
      ReadRowEscaped(rows[0], []);
      assert rows == [rows[0]];
    } else {
      assert lines[1..] == EscapedLines(rows[1..]);
      var rest := "\n" + Join(lines[1..], "\n");
      assert Join(lines, "\n") == EscapedLine(rows[0]) + rest;
      ReadRowEscaped(rows[0], rest);
      assert rest[1..] == Join(lines[1..], "\n");
      ReadRowsEscaped(rows[1..]);
      assert rows == [rows[0]] + rows[1..];
    }
  }

  /** With every cell escaped the file reads back to one row per action holding exactly its fields. */
  lemma CorrectedRoundTrip(actions: seq<ActionRecord>, iso: int -> string)
    ensures ParseCsv(CorrectedCsvContent(Some(actions), iso)) == Some(FieldRows(actions, iso))
  {
    var rows := FieldRows(actions, iso);
    var lines := EscapedLines(rows);
    var content := CorrectedCsvContent(Some(actions), iso);
    var h := HeaderLine();
    if |actions| == 0 {
      assert content == Join([h], "\n") == h;
    } else {
      assert ([h] + lines)[1..] == lines;
      assert content == h + "\n" + Join(lines, "\n");
      ParseAfterHeader(Join(lines, "\n"));
      ReadRowsEscaped(rows);
    }
  }

  /** A file that starts with the header line and a line break is read from after the break. */
  lemma ParseAfterHeader(body: string)
    ensures ParseCsv(HeaderLine() + "\n" + body) == ReadRows(body)
  {
    var h := HeaderLine();
    var content := h + "\n" + body;
    assert content[..|h|] == h;
    assert content[|h|] == '\n';
    assert content[|h| + 1..] == body;
  }

  /** No field of an action other than `text_content` holds a double quote. */
  predicate QuoteFreeFields(actions: seq<ActionRecord>, iso: int -> string) {
    forall i, j :: 0 <= i < |actions| && 0 <= j < |Headers| && j != TextColumn ==> '"' !in Fields(actions[i], iso)[j]
  }

  /** The file as written equals the fully escaped one exactly when no other field has a quote to double. */
  lemma AsWrittenAgrees(actions: seq<ActionRecord>, iso: int -> string)
    requires QuoteFreeFields(actions, iso)
    ensures CsvContent(Some(actions), iso) == CorrectedCsvContent(Some(actions), iso)
    ensures ParseCsv(CsvContent(Some(actions), iso)) == Some(FieldRows(actions, iso))
  {
    forall i | 0 <= i < |actions| ensures RowCells(actions[i], iso) == EscapeAll(Fields(actions[i], iso)) {
      var f := Fields(actions[i], iso);
      forall j | 0 <= j < |Headers| ensures RowCells(actions[i], iso)[j] == EscapeAll(f)[j] {
        if j != TextColumn {
          assert '"' !in f[j];
        }
      }
    }
    assert RowLines(actions, iso) == EscapedLines(FieldRows(actions, iso));
    CorrectedRoundTrip(actions, iso);
  }

  // ---------------------------------------------------------------------------------------
  // Escaping only `text_content`

  lemma JoinThree(a: seq<string>, b: seq<string>, c: seq<string>, sep: string)
    requires |a| > 0 && |b| > 0 && |c| > 0
    ensures Join(a + b + c, sep) == Join(a, sep) + sep + Join(b, sep) + sep + Join(c, sep)
  {
    JoinConcat(a + b, c, sep);
    JoinConcat(a, b, sep);
  }

  /** Two rows whose cells agree except where `"x","y"` reads the same split at two places. */
  lemma SameLine(c1: seq<string>, c2: seq<string>)
    requires |c1| == |c2| == 8
    requires c1[..4] == c2[..4] && c1[6..] == c2[6..]
    requires Quoted(c1[4]) + "," + Quoted(c1[5]) == Quoted(c2[4]) + "," + Quoted(c2[5])
    ensures CsvLine(c1) == CsvLine(c2)
  {
    var q1, q2 := QuoteAll(c1), QuoteAll(c2);
    assert q1 == q1[..4] + q1[4..6] + q1[6..];
    assert q2 == q2[..4] + q2[4..6] + q2[6..];
    JoinThree(q1[..4], q1[4..6], q1[6..], ",");
    JoinThree(q2[..4], q2[4..6], q2[6..], ",");
    assert q1[..4] == q2[..4];
    assert q1[6..] == q2[6..];
    assert Join(q1[4..6], ",") == q1[4] + "," + q1[5];
    assert Join(q2[4..6], ",") == q2[4] + "," + q2[5];
  }

  /**
   * An action whose element id is `a","b` and class is `c` exports the same file as one
   * whose id is `a` and class is `b","c`: the comma inside the first id cannot be told
   * from a cell boundary.
   */
  lemma AmbiguousExport(iso: int -> string)
    ensures var t1 := EmptyTarget.(id := "a\",\"b", className := "c");
      var t2 := EmptyTarget.(id := "a", className := "b\",\"c");
      var a1 := ActionRecord("", "click", Some(t1), "", 0, 0, None, "");
      var a2 := ActionRecord("", "click", Some(t2), "", 0, 0, None, "");
      a1 != a2 && Fields(a1, iso) != Fields(a2, iso)
      && CsvContent(Some([a1]), iso) == CsvContent(Some([a2]), iso)
  {
    var t1 := EmptyTarget.(id := "a\",\"b", className := "c");
    var t2 := EmptyTarget.(id := "a", className := "b\",\"c");
    var a1 := ActionRecord("", "click", Some(t1), "", 0, 0, None, "");
    var a2 := ActionRecord("", "click", Some(t2), "", 0, 0, None, "");
    var c1, c2 := RowCells(a1, iso), RowCells(a2, iso);
    assert Fields(a1, iso)[4] != Fields(a2, iso)[4];
    assert c1[4] == "a\",\"b" && c1[5] == "c";
    assert c2[4] == "a" && c2[5] == "b\",\"c";
    AmbiguousQuoting();
    SameLine(c1, c2);
    assert RowLines([a1], iso) == RowLines([a2], iso);
  }

  /** Quoting `a","b` then `c`, or `a` then `b","c`, gives the same text. */
  lemma AmbiguousQuoting()
    ensures Quoted("a\",\"b") + "," + Quoted("c") == Quoted("a") + "," + Quoted("b\",\"c")
  {
    assert Quoted("a\",\"b") + "," + Quoted("c") == "\"a\",\"b\",\"c\"";
    assert Quoted("a") + "," + Quoted("b\",\"c") == "\"a\",\"b\",\"c\"";
  }
}
