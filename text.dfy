/**
 * String operations the system relies on, in the dialects that use them:
 * white space as JavaScript's `trim` and `\s` see it, white space as
 * Python's `str.strip` sees it, lower-casing, substring search, and the
 * client's e-mail pattern `/\S+@\S+\.\S+/`.
 */
module Text {

  /** Which runtime's notion of white space an operation uses. */
  datatype Dialect = JavaScript | Python

  /** ECMAScript WhiteSpace and LineTerminator: what `trim` removes and `\s` matches. */
  predicate IsJsSpace(c: char) {
    || c == '\t' || c == '\n' || c == '\U{000B}' || c == '\U{000C}' || c == '\r' || c == ' '
    || c == '\U{00A0}' || c == '\U{1680}' || ('\U{2000}' <= c <= '\U{200A}')
    || c == '\U{2028}' || c == '\U{2029}' || c == '\U{202F}' || c == '\U{205F}'
    || c == '\U{3000}' || c == '\U{FEFF}'
  }

  /** Python's `str.isspace`: what `str.strip()` removes. */
  predicate IsPySpace(c: char) {
    || ('\t' <= c <= '\r') || ('\U{001C}' <= c <= '\U{001F}') || c == ' '
    || c == '\U{0085}' || c == '\U{00A0}' || c == '\U{1680}' || ('\U{2000}' <= c <= '\U{200A}')
    || c == '\U{2028}' || c == '\U{2029}' || c == '\U{202F}' || c == '\U{205F}' || c == '\U{3000}'
  }

  predicate IsSpace(d: Dialect, c: char) {
    match d
    case JavaScript => IsJsSpace(c)
    case Python => IsPySpace(c)
  }

  /** Every character of `s` is white space (vacuously true of ""). */
  predicate AllSpace(d: Dialect, s: string) {
    forall i :: 0 <= i < |s| ==> IsSpace(d, s[i])
  }

  /** `s` without its leading white space. */
  function TrimStart(d: Dialect, s: string): (r: string)
    ensures |r| <= |s| && r == s[|s| - |r|..]
    ensures forall i :: 0 <= i < |s| - |r| ==> IsSpace(d, s[i])
    ensures r != [] ==> !IsSpace(d, r[0])
  {
    if s != [] && IsSpace(d, s[0]) then
      var r := TrimStart(d, s[1..]);
      assert forall i :: 1 <= i < |s| - |r| ==> s[i] == s[1..][i - 1];
      r
    else s
  }

  /** `s` without its trailing white space. */
  function TrimEnd(d: Dialect, s: string): (r: string)
    ensures |r| <= |s| && r == s[..|r|]
    ensures forall i :: |r| <= i < |s| ==> IsSpace(d, s[i])
    ensures r != [] ==> !IsSpace(d, r[|r| - 1])
  {
    if s != [] && IsSpace(d, s[|s| - 1]) then
      var r := TrimEnd(d, s[..|s| - 1]);
      assert forall i :: |r| <= i < |s| - 1 ==> s[i] == s[..|s| - 1][i];
      r
    else s
  }

  /** JavaScript's `s.trim()` or Python's `s.strip()`. */
  function Trim(d: Dialect, s: string): (r: string)
    ensures |r| <= |s|
    ensures r != [] ==> !IsSpace(d, r[0]) && !IsSpace(d, r[|r| - 1])
    ensures exists k, m :: 0 <= k <= m <= |s| && r == s[k..m]
              && (forall i :: 0 <= i < k ==> IsSpace(d, s[i]))
              && (forall i :: m <= i < |s| ==> IsSpace(d, s[i]))
  {
    var t := TrimStart(d, s);
    var r := TrimEnd(d, t);
    InnerSlice(d, s, t, r);
    r
  }

  /** Cutting white space from the front and then the back keeps the slice between. */
  lemma InnerSlice(d: Dialect, s: string, t: string, r: string)
    requires |t| <= |s| && t == s[|s| - |t|..]
    requires forall i :: 0 <= i < |s| - |t| ==> IsSpace(d, s[i])
    requires |r| <= |t| && r == t[..|r|]
    requires forall i :: |r| <= i < |t| ==> IsSpace(d, t[i])
    ensures exists k, m :: 0 <= k <= m <= |s| && r == s[k..m]
              && (forall i :: 0 <= i < k ==> IsSpace(d, s[i]))
              && (forall i :: m <= i < |s| ==> IsSpace(d, s[i]))
  {
    var k := |s| - |t|;
    var m := k + |r|;
    assert r == s[k..m];
    forall i | m <= i < |s| ensures IsSpace(d, s[i]) {
      assert s[i] == t[i - k];
    }
  }

  /** Trimming leaves nothing exactly when the string is all white space. */
  lemma TrimEmptyIffAllSpace(d: Dialect, s: string)
    ensures Trim(d, s) == [] <==> AllSpace(d, s)
  {
    var t := TrimStart(d, s);
    var k := |s| - |t|;
    assert t == s[k..];
    if Trim(d, s) == [] {
      assert t[0..] == t;
      assert s[..k] == s;
    } else {
      var r := Trim(d, s);
      assert r == t[..|r|];
      assert r[0] == s[k];
    }
  }

  /** A string that starts and ends with a visible character is its own trim. */
  lemma TrimKeepsVisibleEnds(d: Dialect, s: string)
    requires |s| > 0 && !IsSpace(d, s[0]) && !IsSpace(d, s[|s| - 1])
    ensures Trim(d, s) == s
  {
    assert TrimStart(d, s) == s;
  }

  /** ASCII upper case to lower case; every other character is kept. */
  function LowerChar(c: char): char {
    if 'A' <= c <= 'Z' then (c as int + 32) as char else c
  }

  /**
   * Lower-casing, character by character, modelled as ASCII-only: the
   * server's `ToLower` (C# on the search term, SQL `LOWER` on the stored
   * names) and the client's `toLowerCase` also fold letters outside ASCII,
   * which this model leaves unchanged.
   */
  function ToLower(s: string): (r: string)
    ensures |r| == |s|
    ensures forall i :: 0 <= i < |s| ==> r[i] == LowerChar(s[i])
  {
    if s == [] then [] else [LowerChar(s[0])] + ToLower(s[1..])
  }

  lemma {:induction false} ToLowerIdempotent(s: string)
    ensures ToLower(ToLower(s)) == ToLower(s)
  {
    var once := ToLower(s);
    var twice := ToLower(once);
    assert |twice| == |once|;
    forall i | 0 <= i < |s| ensures twice[i] == once[i] {
      assert once[i] == LowerChar(s[i]);
    }
  }

  /** `t` occurs in `s` as a contiguous substring (C# `Contains`, JavaScript `includes`). */
  predicate Contains(s: string, t: string) {
    exists i :: 0 <= i <= |s| - |t| && OccursAt(s, t, i)
  }

  /** `t` occurs in `s` starting at position `i`. */
  predicate OccursAt(s: string, t: string, i: int) {
    0 <= i <= |s| - |t| && s[i..i + |t|] == t
  }

  /** A term whose first character never appears in `s` does not occur in it. */
  lemma FirstCharAbsent(s: string, t: string)
    requires |t| > 0 && forall i :: 0 <= i < |s| ==> s[i] != t[0]
    ensures !Contains(s, t)
  {
    forall i | 0 <= i <= |s| - |t| ensures !OccursAt(s, t, i) {
      assert s[i] != t[0];
    }
  }

  /** Case-blind search: a term whose first letter, lower-cased, never appears lower-cased in `s` is not found. */
  lemma LowerFirstCharAbsent(s: string, t: string)
    requires |t| > 0 && forall i :: 0 <= i < |s| ==> LowerChar(s[i]) != LowerChar(t[0])
    ensures !Contains(ToLower(s), ToLower(t))
  {
    FirstCharAbsent(ToLower(s), ToLower(t));
  }

  /** Case-blind search: a string is found in any string equal to it up to case. */
  lemma LowerSameContains(s: string, t: string)
    requires |s| == |t| && forall i :: 0 <= i < |s| ==> LowerChar(s[i]) == LowerChar(t[i])
    ensures Contains(ToLower(s), ToLower(t))
  {
    assert ToLower(s) == ToLower(t);
    assert OccursAt(ToLower(s), ToLower(t), 0);
  }

  /** The empty term occurs in every string. */
  lemma ContainsEmpty(s: string)
    ensures Contains(s, "")
  {
    assert OccursAt(s, "", 0);
  }

  /**
   * The unanchored pattern `/\S+@\S+\.\S+/`: somewhere in `s` an `@` has a
   * non-space character just before it, at least one non-space character
   * after it, then a `.` followed by a non-space character. `at` and `dot`
   * are the positions of that `@` and that `.`.
   */
  predicate EmailShapeAt(s: string, at: int, dot: int) {
    && 0 < at && at + 1 < dot && dot + 1 < |s|
    && !IsJsSpace(s[at - 1]) && s[at] == '@'
    && (forall k :: at < k < dot ==> !IsJsSpace(s[k]))
    && s[dot] == '.' && !IsJsSpace(s[dot + 1])
  }

  predicate MatchesEmailPattern(s: string) {
    exists at, dot | 0 <= at < |s| && 0 <= dot < |s| :: EmailShapeAt(s, at, dot)
  }

  /** A match needs at least five characters ("a@b.c"), so the empty string never matches. */
  lemma EmailPatternNeedsFiveChars(s: string)
    requires MatchesEmailPattern(s)
    ensures |s| >= 5 && !AllSpace(JavaScript, s)
  {
    var at, dot :| 0 <= at < |s| && 0 <= dot < |s| && EmailShapeAt(s, at, dot);
    assert !IsSpace(JavaScript, s[at]);
  }

  /** The pattern is unanchored: surrounding text never spoils a match. */
  lemma EmailPatternUnanchored(pre: string, s: string, post: string)
    requires MatchesEmailPattern(s)
    ensures MatchesEmailPattern(pre + s + post)
  {
    var at, dot :| 0 <= at < |s| && 0 <= dot < |s| && EmailShapeAt(s, at, dot);
    var w := pre + s + post;
    var n := |pre|;
    forall k | n + at < k < n + dot ensures !IsJsSpace(w[k]) {
      assert w[k] == s[k - n];
    }
    assert w[n + at - 1] == s[at - 1] && w[n + at] == s[at];
    assert w[n + dot] == s[dot] && w[n + dot + 1] == s[dot + 1];
    assert EmailShapeAt(w, n + at, n + dot);
  }
  /**
   * The length JavaScript's `.length` and SQL Server's `nvarchar` bound
   * measure: UTF-16 code units, so a character beyond U+FFFF counts twice.
   */
  function Utf16Length(s: string): (r: nat)
    ensures |s| <= r <= 2 * |s|
  {
    if s == [] then 0
    else (if s[0] > '\U{FFFF}' then 2 else 1) + Utf16Length(s[1..])
  }

  /** Text made only of characters up to U+FFFF has one code unit per character. */
  lemma {:induction false} Utf16LengthOfBasicText(s: string)
    requires forall i :: 0 <= i < |s| ==> s[i] <= '\U{FFFF}'
    ensures Utf16Length(s) == |s|
  {
    if s != [] {
      assert forall i :: 0 <= i < |s| - 1 ==> s[1..][i] == s[i + 1];
      Utf16LengthOfBasicText(s[1..]);
    }
  }
}
