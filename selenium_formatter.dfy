/**
 * The two helpers of the Selenium script exporter that decide what the script says: the
 * locator chosen for an element (`getSelector`) and the snake-case test name
 * (`toSnakeCase`).
 */
module SeleniumFormatter {
  import opened Wrappers
  import opened Text
  import opened Records

  /** The locator strategies `getSelector` tries, highest priority first. */
  datatype Locator = ById | ByName | ByClassName | ByXPath | ByCssSelector {
    /** The Python constant the generated script names. */
    function Name(): string {
      match this
      case ById => "By.ID"
      case ByName => "By.NAME"
      case ByClassName => "By.CLASS_NAME"
      case ByXPath => "By.XPATH"
      case ByCssSelector => "By.CSS_SELECTOR"
    }

    function Rank(): nat {
      match this
      case ById => 0
      case ByName => 1
      case ByClassName => 2
      case ByXPath => 3
      case ByCssSelector => 4
    }

    /** The target field whose truthiness selects this strategy. */
    function Field(t: Target): string {
      match this
      case ById => t.id
      case ByName => t.name
      case ByClassName => t.className
      case ByXPath => t.xpath
      case ByCssSelector => t.selector
    }

    /** The value the locator is written with: the first class for a class-name locator. */
    function Value(t: Target): string {
      if this == ByClassName then FirstClass(t.className) else Field(t)
    }
  }

  /** `className.split(' ')[0]`. */
  function FirstClass(c: string): string {
    Split(c, " ")[0]
  }

  /** The locator argument text, `By.ID, "value"`. */
  function SelectorText(k: Locator, v: string): string {
    k.Name() + ", \"" + v + "\""
  }

  /** `getSelector`: the first non-empty of id, name, class name, XPath and CSS selector. */
  function GetSelector(target: Option<Target>): Option<string> {
    match target
    case None => None
    case Some(t) =>
      if t.id != "" then Some(SelectorText(ById, t.id))
      else if t.name != "" then Some(SelectorText(ByName, t.name))
      else if t.className != "" then Some(SelectorText(ByClassName, FirstClass(t.className)))
      else if t.xpath != "" then Some(SelectorText(ByXPath, t.xpath))
      else if t.selector != "" then Some(SelectorText(ByCssSelector, t.selector))
      else None
  }

  /**
   * The first class is the text before the first space: the whole list when it has no
   * space, and the empty string when the list starts with a space.
   */
  lemma FirstClassPrefix(c: string)
    ensures var r := FirstClass(c);
      && r <= c && ' ' !in r
      && (|r| < |c| ==> c[|r|] == ' ')
  {
    var r := FirstClass(c);
    match IndexOf(c, " ", 0)
    case None =>
      assert r == c;
      forall j | 0 <= j < |c| ensures c[j] != ' ' {
        assert !OccursAt(c, " ", j);
        assert c[j..j + 1] == [c[j]];
      }
    case Some(k) =>
      assert r == c[..k];
      assert c[k..k + 1] == " ";
      forall j | 0 <= j < k ensures c[j] != ' ' {
        assert !OccursAt(c, " ", j);
        assert c[j..j + 1] == [c[j]];
      }
  }

  /** The strategy `getSelector` uses for `t`: its field is set and every earlier one is empty. */
  predicate Chosen(t: Target, k: Locator) {
    k.Field(t) != "" && forall k': Locator :: k'.Rank() < k.Rank() ==> k'.Field(t) == ""
  }

  /** `getSelector` returns null exactly for a missing target or one with all five fields empty. */
  lemma GetSelectorNone(target: Option<Target>)
    ensures GetSelector(target).None? <==> target.None? || forall k: Locator :: k.Field(target.value) == ""
  {
    if target.Some? {
      var t := target.value;
      if GetSelector(target).None? {
        forall k: Locator ensures k.Field(t) == "" {
          match k
          case ById =>
          case ByName =>
          case ByClassName =>
          case ByXPath =>
          case ByCssSelector =>
        }
      } else {
        assert ById.Field(t) != "" || ByName.Field(t) != "" || ByClassName.Field(t) != ""
          || ByXPath.Field(t) != "" || ByCssSelector.Field(t) != "";
      }
    }
  }

  function LocatorNamed(n: string): Option<Locator> {
    if n == "By.ID" then Some(ById)
    else if n == "By.NAME" then Some(ByName)
    else if n == "By.CLASS_NAME" then Some(ByClassName)
    else if n == "By.XPATH" then Some(ByXPath)
    else if n == "By.CSS_SELECTOR" then Some(ByCssSelector)
    else None
  }

  /** Reads a locator argument back: the name up to the first comma, then `, "`, the value and `"`. */
  function ParseSelector(s: string): Option<(Locator, string)> {
    var k := FindChar(s, ',', 0);
    if k + 4 <= |s| && s[k] == ',' && s[k + 1] == ' ' && s[k + 2] == '"' && s[|s| - 1] == '"' then
      match LocatorNamed(s[..k])
      case None => None
      case Some(l) => Some((l, s[k + 3..|s| - 1]))
    else None
  }

  lemma NamedName(k: Locator)
    ensures LocatorNamed(k.Name()) == Some(k)
    ensures ',' !in k.Name()
  {
  }

  /** A locator argument reads back to its strategy and value, whatever the value holds. */
  lemma ParseSelectorRoundTrip(k: Locator, v: string)
    ensures ParseSelector(SelectorText(k, v)) == Some((k, v))
  {
    var n := k.Name();
    var s := SelectorText(k, v);
    var b := " \"" + v + "\"";
    NamedName(k);
    assert s == n + [','] + b;
    FindCharAfter(n, b, ',');
    var i := |n|;
    var pre := n + ", \"";
    assert s == pre + v + "\"";
    Middle(pre, v, "\"");
    Middle(n, ", \"", v + "\"");
    assert s[i] == ',' && s[i + 1] == ' ' && s[i + 2] == '"';
  }

  lemma Middle(a: string, b: string, c: string)
    ensures var s := a + b + c;
      s[..|a|] == a && s[|a|..|a| + |b|] == b && s[|a| + |b|..] == c
  {
  }

  lemma SelectorTextInjective(k1: Locator, v1: string, k2: Locator, v2: string)
    requires SelectorText(k1, v1) == SelectorText(k2, v2)
    ensures k1 == k2 && v1 == v2
  {
    ParseSelectorRoundTrip(k1, v1);
    ParseSelectorRoundTrip(k2, v2);
  }

  /** The strategy `getSelector` picks is the one its priority order chooses, and only that one. */
  lemma ChosenSelector(t: Target)
    requires exists k: Locator :: k.Field(t) != ""
    ensures exists k: Locator :: Chosen(t, k) && GetSelector(Some(t)) == Some(SelectorText(k, k.Value(t)))
  {
    if t.id != "" {
      assert Chosen(t, ById);
    } else if t.name != "" {
      assert Chosen(t, ByName);
    } else if t.className != "" {
      assert Chosen(t, ByClassName);
    } else if t.xpath != "" {
      assert Chosen(t, ByXPath);
    } else {
      assert Chosen(t, ByCssSelector);
    }
  }

  lemma ChosenUnique(t: Target, k1: Locator, k2: Locator)
    requires Chosen(t, k1) && Chosen(t, k2)
    ensures k1 == k2
  {
  }

  /**
   * `getSelector` answers with strategy `k` and that strategy's value exactly when `k`'s
   * field is set and the fields of every higher-priority strategy are empty.
   */
  lemma SelectorPriority(t: Target, k: Locator)
    ensures GetSelector(Some(t)) == Some(SelectorText(k, k.Value(t))) <==> Chosen(t, k)
  {
    if Chosen(t, k) {
      ChosenSelector(t);
      var k0 :| Chosen(t, k0) && GetSelector(Some(t)) == Some(SelectorText(k0, k0.Value(t)));
      ChosenUnique(t, k, k0);
    }
    if GetSelector(Some(t)) == Some(SelectorText(k, k.Value(t))) {
      GetSelectorNone(Some(t));
      ChosenSelector(t);
      var k0 :| Chosen(t, k0) && GetSelector(Some(t)) == Some(SelectorText(k0, k0.Value(t)));
      SelectorTextInjective(k, k.Value(t), k0, k0.Value(t));
    }
  }

  // ---------------------------------------------------------------------------------------
  // toSnakeCase

  /** `s.replace(/\s+/g, '_')`: every maximal run of whitespace becomes one underscore. */
  function Underscored(s: string): (r: string)
    ensures forall i :: 0 <= i < |r| ==> !IsWhitespace(r[i])
    decreases |s|
  {
    if s == [] then []
    else if IsWhitespace(s[0]) then "_" + Underscored(s[SkipWhitespace(s, 0)..])
    else [s[0]] + Underscored(s[1..])
  }

  /** The characters `[a-z0-9_]`. */
  predicate SnakeChar(c: char) {
    'a' <= c <= 'z' || '0' <= c <= '9' || c == '_'
  }

  predicate AllSnake(s: string) {
    forall i :: 0 <= i < |s| ==> SnakeChar(s[i])
  }

  /** `s.replace(/[^a-z0-9_]/g, '')`. */
  function KeepSnake(s: string): (r: string)
    ensures AllSnake(r)
  {
    if s == [] then [] else (if SnakeChar(s[0]) then [s[0]] else []) + KeepSnake(s[1..])
  }

  /** `toSnakeCase`: lower-case, whitespace runs to `_`, then drop everything outside `[a-z0-9_]`. */
  function ToSnakeCase(s: string): (r: string)
    ensures AllSnake(r)
  {
    KeepSnake(Underscored(ToLower(s)))
  }

  lemma {:induction false} UnderscoredFixed(s: string)
    requires forall i :: 0 <= i < |s| ==> !IsWhitespace(s[i])
    ensures Underscored(s) == s
    decreases |s|
  {
    if s != [] {
      UnderscoredFixed(s[1..]);
      assert s == [s[0]] + s[1..];
    }
  }

  lemma {:induction false} KeepSnakeFixed(s: string)
    requires AllSnake(s)
    ensures KeepSnake(s) == s
    decreases |s|
  {
    if s != [] {
      KeepSnakeFixed(s[1..]);
      assert s == [s[0]] + s[1..];
    }
  }

  /** A name already made of `[a-z0-9_]` is its own snake case. */
  lemma SnakeCaseFixed(s: string)
    requires AllSnake(s)
    ensures ToSnakeCase(s) == s
  {
    assert ToLower(s) == s;
    UnderscoredFixed(s);
    KeepSnakeFixed(s);
  }

  lemma SnakeCaseIdempotent(s: string)
    ensures ToSnakeCase(ToSnakeCase(s)) == ToSnakeCase(s)
  {
    SnakeCaseFixed(ToSnakeCase(s));
  }

  lemma {:induction false} KeepSnakeConcat(x: string, y: string)
    ensures KeepSnake(x + y) == KeepSnake(x) + KeepSnake(y)
    decreases |x|
  {
    if x == [] {
      assert x + y == y;
    } else {
      var h := if SnakeChar(x[0]) then [x[0]] else [];
      assert (x + y)[0] == x[0];
      assert (x + y)[1..] == x[1..] + y;
      assert KeepSnake(x + y) == h + KeepSnake(x[1..] + y);
      KeepSnakeConcat(x[1..], y);
      assert KeepSnake(x) == h + KeepSnake(x[1..]);
      assert h + (KeepSnake(x[1..]) + KeepSnake(y)) == (h + KeepSnake(x[1..])) + KeepSnake(y);
    }
  }

  /** The whitespace run at the front of `x + y` ends inside `x` when `x` ends with a non-space. */
  lemma SkipInside(x: string, y: string)
    requires x != [] && !IsWhitespace(x[|x| - 1])
    ensures SkipWhitespace(x + y, 0) == SkipWhitespace(x, 0) < |x|
  {
    var k := SkipWhitespace(x, 0);
    assert (x + y)[k] == x[k];
    SkipWhitespaceTo(x + y, 0, k);
  }

  /** Underscoring splits at a non-space boundary. */
  lemma {:induction false} UnderscoredConcat(x: string, y: string)
    requires x == [] || !IsWhitespace(x[|x| - 1])
    ensures Underscored(x + y) == Underscored(x) + Underscored(y)
    decreases |x|
  {
    if x == [] {
      assert x + y == y;
    } else if IsWhitespace(x[0]) {
      SkipInside(x, y);
      var k := SkipWhitespace(x, 0);
      assert (x + y)[k..] == x[k..] + y;
      UnderscoredConcat(x[k..], y);
    } else {
      assert (x + y)[1..] == x[1..] + y;
      UnderscoredConcat(x[1..], y);
    }
  }

  /** A whitespace run in front of a word becomes one underscore. */
  lemma UnderscoredRun(w: string, b: string)
    requires w != [] && AllWhitespace(w)
    requires b == [] || !IsWhitespace(b[0])
    ensures Underscored(w + b) == "_" + Underscored(b)
  {
    var s := w + b;
    assert s[|w|..] == b;
  }

  lemma LowerKeepsWhitespace(c: char)
    ensures IsWhitespace(LowerChar(c)) <==> IsWhitespace(c)
  {
  }

  /** Lower-casing works character by character and keeps the word boundaries. */
  lemma LowerConcat(a: string, w: string, b: string)
    requires a == [] || !IsWhitespace(a[|a| - 1])
    requires AllWhitespace(w)
    requires b == [] || !IsWhitespace(b[0])
    ensures ToLower(a + w + b) == ToLower(a) + (ToLower(w) + ToLower(b))
    ensures ToLower(a) == [] || !IsWhitespace(ToLower(a)[|a| - 1])
    ensures AllWhitespace(ToLower(w))
    ensures ToLower(b) == [] || !IsWhitespace(ToLower(b)[0])
  {
    if a != [] {
      LowerKeepsWhitespace(a[|a| - 1]);
    }
    if b != [] {
      LowerKeepsWhitespace(b[0]);
    }
    forall i | 0 <= i < |w| ensures IsWhitespace(ToLower(w)[i]) {
      LowerKeepsWhitespace(w[i]);
    }
  }

  /**
   * Words separated by whitespace become their snake cases joined by one underscore; the
   * boundary characters of the words must not be whitespace.
   */
  lemma SnakeCaseSpace(a: string, w: string, b: string)
    requires a == [] || !IsWhitespace(a[|a| - 1])
    requires w != [] && AllWhitespace(w)
    requires b == [] || !IsWhitespace(b[0])
    ensures ToSnakeCase(a + w + b) == ToSnakeCase(a) + "_" + ToSnakeCase(b)
  {
    UnderscoredSpace(a, w, b);
    var ua, ub := Underscored(ToLower(a)), Underscored(ToLower(b));
    KeepSnakeConcat(ua, "_" + ub);
    assert ("_" + ub)[0] == '_' && ("_" + ub)[1..] == ub;
    assert KeepSnake("_" + ub) == "_" + KeepSnake(ub);
  }

  /** The lowered, underscored text: the whitespace run becomes one underscore. */
  lemma UnderscoredSpace(a: string, w: string, b: string)
    requires a == [] || !IsWhitespace(a[|a| - 1])
    requires w != [] && AllWhitespace(w)
    requires b == [] || !IsWhitespace(b[0])
    ensures Underscored(ToLower(a + w + b)) == Underscored(ToLower(a)) + ("_" + Underscored(ToLower(b)))
  {
    var la, lw, lb := ToLower(a), ToLower(w), ToLower(b);
    LowerConcat(a, w, b);
    UnderscoredConcat(la, lw + lb);
    UnderscoredRun(lw, lb);
  }
}
