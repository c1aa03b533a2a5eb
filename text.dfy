/**
 * String helpers with the semantics of the JavaScript built-ins the recorder's
 * export code relies on (`trim`, `split`, `join`, `substring`, `repeat`,
 * `toLowerCase`, number-to-string and the `||` default on strings).
 * A string is a sequence of Unicode scalar values (Dafny's `char`). JavaScript counts
 * UTF-16 code units instead, so lengths and cut points agree with the source only for
 * text without characters outside the Basic Multilingual Plane.
 */
module Text {
  import opened Wrappers

  /** JavaScript's `\s` class, which is also the set of characters `trim` removes. */
  predicate IsWhitespace(c: char) {
    || c == ' ' || c == '\t' || c == '\n' || c == '\r' || c == '\U{000B}' || c == '\U{000C}'
    || c == '\U{00A0}' || c == '\U{1680}' || ('\U{2000}' <= c <= '\U{200A}')
    || c == '\U{2028}' || c == '\U{2029}' || c == '\U{202F}' || c == '\U{205F}'
    || c == '\U{3000}' || c == '\U{FEFF}'
  }

  predicate AllWhitespace(s: string) {
    forall i :: 0 <= i < |s| ==> IsWhitespace(s[i])
  }

  /** Index of the first non-whitespace character at or after `i` (`|s|` when there is none). */
  function SkipWhitespace(s: string, i: nat): (k: nat)
    requires i <= |s|
    ensures i <= k <= |s|
    ensures forall j :: i <= j < k ==> IsWhitespace(s[j])
    ensures k < |s| ==> !IsWhitespace(s[k])
    decreases |s| - i
  {
    if i < |s| && IsWhitespace(s[i]) then SkipWhitespace(s, i + 1) else i
  }

  /** `SkipWhitespace` stops at the first character that is not whitespace. */
  lemma {:induction false} SkipWhitespaceTo(s: string, i: nat, k: nat)
    requires i <= k < |s| && !IsWhitespace(s[k])
    requires forall j :: i <= j < k ==> IsWhitespace(s[j])
    ensures SkipWhitespace(s, i) == k
    decreases k - i
  {
    if i < k {
      SkipWhitespaceTo(s, i + 1, k);
    }
  }

  /** Index just past the last non-whitespace character before `j` (0 when there is none). */
  function TrimEndIndex(s: string, j: nat): (k: nat)
    requires j <= |s|
    ensures k <= j
    ensures forall i :: k <= i < j ==> IsWhitespace(s[i])
    ensures k > 0 ==> !IsWhitespace(s[k - 1])
  {
    if j > 0 && IsWhitespace(s[j - 1]) then TrimEndIndex(s, j - 1) else j
  }

  /** `String.prototype.trim`: drops leading and trailing whitespace. */
  function Trim(s: string): (r: string)
    ensures |r| <= |s|
    ensures r == [] <==> AllWhitespace(s)
    ensures r != [] ==> !IsWhitespace(r[0]) && !IsWhitespace(r[|r| - 1])
  {
    var a := SkipWhitespace(s, 0);
    var b := TrimEndIndex(s, |s|);
    if a < b then s[a..b] else []
  }

  /** A string with no whitespace at either end is its own trim. */
  lemma TrimOfTrimmed(s: string)
    requires s != [] ==> !IsWhitespace(s[0]) && !IsWhitespace(s[|s| - 1])
    ensures Trim(s) == s
  {
  }

  /** The first index at or after `i` whose character does not satisfy `p` (`|s|` when there is none). */
  function RunEnd(s: string, i: nat, p: char -> bool): (k: nat)
    requires i <= |s|
    ensures i <= k <= |s|
    ensures forall j :: i <= j < k ==> p(s[j])
    ensures k < |s| ==> !p(s[k])
    decreases |s| - i
  {
    if i < |s| && p(s[i]) then RunEnd(s, i + 1, p) else i
  }

  /** The first index of character `c` at or after `i` (`|s|` when there is none). */
  function FindChar(s: string, c: char, i: nat): (k: nat)
    requires i <= |s|
    ensures i <= k <= |s|
    ensures forall j :: i <= j < k ==> s[j] != c
    ensures k < |s| ==> s[k] == c
  {
    RunEnd(s, i, x => x != c)
  }

  predicate IsDigit(c: char) {
    '0' <= c <= '9'
  }

  /** `s.substring(a, b)`: both ends are clamped to the string and swapped when out of order. */
  function Substring(s: string, a: nat, b: nat): (r: string)
    ensures a <= b <= |s| ==> r == s[a..b]
    ensures |r| <= |s|
  {
    var lo := if a <= b then a else b;
    var hi := if a <= b then b else a;
    var lo' := if lo <= |s| then lo else |s|;
    var hi' := if hi <= |s| then hi else |s|;
    s[lo'..hi']
  }

  /** `s.substring(0, n)`. */
  function Prefix(s: string, n: nat): (r: string)
    ensures |r| == if |s| <= n then |s| else n
    ensures r <= s
  {
    if |s| <= n then s else s[..n]
  }

  predicate StartsWith(s: string, p: string) {
    |p| <= |s| && s[..|p|] == p
  }

  /** Two prefixes that differ at position `k` cannot both start `f`. */
  lemma StartsDiffer(f: string, p: string, q: string, k: nat)
    requires StartsWith(f, p) && k < |p| && k < |q| && p[k] != q[k]
    ensures !StartsWith(f, q)
  {
    assert f[k] == p[k];
  }

  /** `a || b` on two strings: the empty string is falsy. */
  function OrElse(a: string, b: string): (r: string)
    ensures r == a || r == b
    ensures r == [] <==> a == [] && b == []
  {
    if a != [] then a else b
  }

  /** `c.repeat(n)` for a one-character string `c`. */
  function Repeat(c: char, n: nat): (r: string)
    ensures |r| == n && forall i :: 0 <= i < n ==> r[i] == c
  {
    seq(n, _ => c)
  }

  /** `parts.join(sep)`. */
  function Join(parts: seq<string>, sep: string): (r: string)
    ensures |parts| == 1 ==> r == parts[0]
  {
    if |parts| == 0 then ""
    else if |parts| == 1 then parts[0]
    else parts[0] + sep + Join(parts[1..], sep)
  }

  /** `sep` occurs in `s` starting at index `k`. */
  predicate OccursAt(s: string, sep: string, k: nat) {
    k + |sep| <= |s| && s[k..k + |sep|] == sep
  }

  /** Position of the first occurrence of `sep` in `s` that starts at or after `i`. */
  function IndexOf(s: string, sep: string, i: nat): (r: Option<nat>)
    requires |sep| > 0
    ensures r.Some? ==> i <= r.value && OccursAt(s, sep, r.value)
    ensures r.Some? ==> forall k :: i <= k < r.value ==> !OccursAt(s, sep, k)
    ensures r.None? ==> forall k :: i <= k ==> !OccursAt(s, sep, k)
    decreases |s| - i
  {
    if i + |sep| > |s| then None
    else if s[i..i + |sep|] == sep then Some(i)
    else IndexOf(s, sep, i + 1)
  }

  /** `s.split(sep)` for a non-empty separator: the pieces between the leftmost non-overlapping occurrences. */
  function Split(s: string, sep: string): (r: seq<string>)
    requires |sep| > 0
    ensures |r| >= 1
    decreases |s|
  {
    match IndexOf(s, sep, 0)
    case None => [s]
    case Some(k) => [s[..k]] + Split(s[k + |sep|..], sep)
  }

  /**
   * Splitting a joined list gives the list back when the separator has a character
   * (`sep[m]`) that no part contains and that does not occur earlier in the separator.
   */
  lemma {:induction false} SplitJoin(parts: seq<string>, sep: string, m: nat)
    requires |parts| >= 1 && m < |sep|
    requires forall j :: 0 <= j < m ==> sep[j] != sep[m]
    requires forall p, i :: p in parts && 0 <= i < |p| ==> p[i] != sep[m]
    ensures Split(Join(parts, sep), sep) == parts
    decreases |parts|
  {
    assert parts[0] in parts;
    if |parts| == 1 {
      SplitOfPlain(parts[0], sep, m);
    } else {
      SplitAtFirstPart(parts, sep, m);
      TailLacks(parts, sep[m]);
      SplitJoin(parts[1..], sep, m);
      assert Split(Join(parts, sep), sep) == [parts[0]] + parts[1..];
      assert parts == [parts[0]] + parts[1..];
    }
  }

  /** The parts after the first lack a character every part lacks. */
  lemma TailLacks(parts: seq<string>, c: char)
    requires |parts| >= 1
    requires forall p, i :: p in parts && 0 <= i < |p| ==> p[i] != c
    ensures forall p, i :: p in parts[1..] && 0 <= i < |p| ==> p[i] != c
  {
    forall p, i | p in parts[1..] && 0 <= i < |p| ensures p[i] != c {
      assert p in parts;
    }
  }

  /** A string without `sep[m]` does not split. */
  lemma SplitOfPlain(t: string, sep: string, m: nat)
    requires m < |sep|
    requires forall j :: 0 <= j < m ==> sep[j] != sep[m]
    requires forall i :: 0 <= i < |t| ==> t[i] != sep[m]
    ensures Split(t, sep) == [t]
  {
    forall k | 0 <= k < |t| ensures !OccursAt(t, sep, k) {
      NoOccurrenceInside(t, [], sep, m, k);
      assert t + [] == t;
    }
    forall k | |t| <= k ensures !OccursAt(t, sep, k) { }
    assert IndexOf(t, sep, 0).None?;
  }

  /** Splitting a join of two parts or more cuts at the separator after the first part. */
  lemma SplitAtFirstPart(parts: seq<string>, sep: string, m: nat)
    requires |parts| >= 2 && m < |sep|
    requires forall j :: 0 <= j < m ==> sep[j] != sep[m]
    requires forall i :: 0 <= i < |parts[0]| ==> parts[0][i] != sep[m]
    ensures Split(Join(parts, sep), sep) == [parts[0]] + Split(Join(parts[1..], sep), sep)
  {
    var t := parts[0];
    var rest := Join(parts[1..], sep);
    var s := Join(parts, sep);
    var tail := sep + rest;
    assert s == t + tail;
    forall k | 0 <= k < |t| ensures !OccursAt(s, sep, k) {
      NoOccurrenceInside(t, tail, sep, m, k);
    }
    assert s[|t|..|t| + |sep|] == sep;
    IndexOfAt(s, sep, 0, |t|);
    assert s[|t| + |sep|..] == rest;
  }

  /** An occurrence of `sep` cannot start inside a string that lacks `sep[m]`, if `sep` itself follows. */
  lemma NoOccurrenceInside(t: string, tail: string, sep: string, m: nat, k: nat)
    requires m < |sep| && k < |t|
    requires forall j :: 0 <= j < m ==> sep[j] != sep[m]
    requires forall i :: 0 <= i < |t| ==> t[i] != sep[m]
    requires tail == [] || sep <= tail
    ensures !OccursAt(t + tail, sep, k)
  {
    var s := t + tail;
    if k + |sep| <= |s| {
      assert s[k..k + |sep|][m] == s[k + m];
      if k + m < |t| {
        assert s[k + m] == t[k + m];
      } else {
        assert s[k + m] == tail[k + m - |t|] == sep[k + m - |t|];
      }
    }
  }

  /** The leftmost occurrence is found. */
  lemma {:induction false} IndexOfAt(s: string, sep: string, i: nat, p: nat)
    requires |sep| > 0 && i <= p && OccursAt(s, sep, p)
    requires forall k :: i <= k < p ==> !OccursAt(s, sep, k)
    ensures IndexOf(s, sep, i) == Some(p)
    decreases p - i
  {
    if i < p {
      assert !OccursAt(s, sep, i);
      IndexOfAt(s, sep, i + 1, p);
    }
  }

  function DigitChar(d: nat): (c: char)
    requires d < 10
    ensures '0' <= c <= '9'
  {
    "0123456789"[d]
  }

  /** The decimal rendering of a non-negative integer, as JavaScript's template strings print it. */
  function NatToString(n: nat): (r: string)
    ensures |r| >= 1
    ensures forall i :: 0 <= i < |r| ==> '0' <= r[i] <= '9'
    ensures |r| > 1 ==> r[0] != '0'
    decreases n
  {
    if n < 10 then [DigitChar(n)] else NatToString(n / 10) + [DigitChar(n % 10)]
  }

  /** The decimal text of an integer, as a template literal writes it. */
  function IntToString(i: int): (r: string)
    ensures |r| >= 1
    ensures i >= 0 ==> r == NatToString(i)
    ensures i < 0 ==> r[0] == '-'
  {
    if i < 0 then "-" + NatToString(-i) else NatToString(i)
  }

  /** `toLowerCase` on one character, for the ASCII letters. */
  function LowerChar(c: char): (r: char)
    ensures 'A' <= c <= 'Z' ==> 'a' <= r <= 'z'
    ensures !('A' <= c <= 'Z') ==> r == c
  {
    if 'A' <= c <= 'Z' then (c as int + 32) as char else c
  }

  function ToLower(s: string): (r: string)
    ensures |r| == |s| && forall i :: 0 <= i < |s| ==> r[i] == LowerChar(s[i])
  {
    seq(|s|, i requires 0 <= i < |s| => LowerChar(s[i]))
  }

  /** Different numbers print differently. */
  lemma {:induction false} NatToStringInjective(m: nat, n: nat)
    requires NatToString(m) == NatToString(n)
    ensures m == n
    decreases m
  {
    if m >= 10 && n >= 10 {
      var a, b := NatToString(m), NatToString(n);
      assert a[|a| - 1] == DigitChar(m % 10) && b[|b| - 1] == DigitChar(n % 10);
      assert "0123456789"[m % 10] == "0123456789"[n % 10];
      assert m % 10 == n % 10;
      assert a[..|a| - 1] == NatToString(m / 10) && b[..|b| - 1] == NatToString(n / 10);
      NatToStringInjective(m / 10, n / 10);
    } else if m < 10 && n < 10 {
      assert "0123456789"[m] == "0123456789"[n];
    }
  }

  lemma FindCharAfter(a: string, b: string, c: char)
    requires forall i :: 0 <= i < |a| ==> a[i] != c
    ensures FindChar(a + [c] + b, c, 0) == |a|
  {
    var x := a + [c] + b;
    assert x[|a|] == c;
    assert forall i :: 0 <= i < |a| ==> x[i] == a[i];
  }

  /** A string made of two parts around a character `c` that the first part lacks splits back uniquely. */
  lemma SplitAtChar(a1: string, b1: string, a2: string, b2: string, c: char)
    requires forall i :: 0 <= i < |a1| ==> a1[i] != c
    requires forall i :: 0 <= i < |a2| ==> a2[i] != c
    requires a1 + [c] + b1 == a2 + [c] + b2
    ensures a1 == a2 && b1 == b2
  {
    var x := a1 + [c] + b1;
    var y := a2 + [c] + b2;
    FindCharAfter(a1, b1, c);
    FindCharAfter(a2, b2, c);
    assert a1 == x[..|a1|] && a2 == y[..|a2|];
    assert b1 == x[|a1| + 1..] && b2 == y[|a2| + 1..];
  }

  /** `parts.join(sep)` of two non-empty lists is the join of each, separated once more. */
  lemma {:induction false} JoinConcat(a: seq<string>, b: seq<string>, sep: string)
    requires |a| > 0 && |b| > 0
    ensures Join(a + b, sep) == Join(a, sep) + sep + Join(b, sep)
    decreases |a|
  {
    if |a| == 1 {
      assert (a + b)[1..] == b;
    } else {
      assert (a + b)[1..] == a[1..] + b;
      JoinConcat(a[1..], b, sep);
    }
  }
}
