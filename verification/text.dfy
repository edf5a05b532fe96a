/**
 * The JavaScript string operations the scraper relies on: `trim`,
 * `startsWith`, `endsWith`, `includes`, `indexOf` and `replace` with a
 * string pattern, over Dafny strings (sequences of Unicode scalar values).
 */
module Text {
  import opened Wrappers

  /**
   * The characters `String.prototype.trim` strips: ECMAScript WhiteSpace
   * (TAB, VT, FF, ZWNBSP and every space separator) and LineTerminator
   * (LF, CR, LS, PS).
   */
  predicate IsWhitespace(c: char) {
    || c == '\t' || c == '\n' || c == '\U{B}' || c == '\U{C}' || c == '\r'
    || c == ' ' || c == '\U{A0}' || c == '\U{1680}'
    || ('\U{2000}' <= c <= '\U{200A}')
    || c == '\U{2028}' || c == '\U{2029}' || c == '\U{202F}' || c == '\U{205F}'
    || c == '\U{3000}' || c == '\U{FEFF}'
  }

  predicate AllWhitespace(s: string) {
    forall i :: 0 <= i < |s| ==> IsWhitespace(s[i])
  }

  predicate NoWhitespace(s: string) {
    forall i :: 0 <= i < |s| ==> !IsWhitespace(s[i])
  }

  /** The index of the first character at or after `i` that is not white space (`|s|` if none). */
  function SkipLeading(s: string, i: nat): (n: nat)
    requires i <= |s|
    decreases |s| - i
    ensures i <= n <= |s|
    ensures forall k :: i <= k < n ==> IsWhitespace(s[k])
    ensures n == |s| || !IsWhitespace(s[n])
  {
    if i < |s| && IsWhitespace(s[i]) then SkipLeading(s, i + 1) else i
  }

  /** The end of `s[..j]` once its trailing white space is dropped. */
  function SkipTrailing(s: string, j: nat): (n: nat)
    requires j <= |s|
    ensures n <= j
    ensures forall k :: n <= k < j ==> IsWhitespace(s[k])
    ensures n == 0 || !IsWhitespace(s[n - 1])
  {
    if j > 0 && IsWhitespace(s[j - 1]) then SkipTrailing(s, j - 1) else j
  }

  /** `s` with its leading white space removed. */
  function TrimStart(s: string): (r: string)
    ensures |r| <= |s| && r == s[|s| - |r|..]
    ensures forall k :: 0 <= k < |s| - |r| ==> IsWhitespace(s[k])
    ensures r == [] || !IsWhitespace(r[0])
  {
    s[SkipLeading(s, 0)..]
  }

  /** `s` with its trailing white space removed. */
  function TrimEnd(s: string): (r: string)
    ensures |r| <= |s| && r == s[..|r|]
    ensures forall k :: |r| <= k < |s| ==> IsWhitespace(s[k])
    ensures r == [] || !IsWhitespace(r[|r| - 1])
  {
    s[..SkipTrailing(s, |s|)]
  }

  /** `String.prototype.trim`: `s` without its leading and trailing white space. */
  function Trim(s: string): (r: string)
    ensures |r| <= |s|
    ensures r == [] || (!IsWhitespace(r[0]) && !IsWhitespace(r[|r| - 1]))
  {
    TrimEnd(TrimStart(s))
  }

  /**
   * The trimmed string is the one factor of `s` that neither starts nor ends
   * with white space and is surrounded only by white space.
   */
  lemma TrimIsFactor(s: string)
    ensures var r := Trim(s);
            exists i :: 0 <= i <= |s| - |r| && s[i..i + |r|] == r
                        && AllWhitespace(s[..i]) && AllWhitespace(s[i + |r|..])
  {
    var t := TrimStart(s);
    assert Trim(s) == TrimEnd(t);
    WhitespaceAround(s, t, Trim(s));
  }

  /**
   * Removing white space from the front of `s` (giving `t`) and then from
   * the back of `t` (giving `r`) leaves `r` as a factor of `s` with only
   * white space around it.
   */
  lemma WhitespaceAround(s: string, t: string, r: string)
    requires |t| <= |s| && t == s[|s| - |t|..] && forall k :: 0 <= k < |s| - |t| ==> IsWhitespace(s[k])
    requires |r| <= |t| && r == t[..|r|] && forall k :: |r| <= k < |t| ==> IsWhitespace(t[k])
    ensures exists i :: 0 <= i <= |s| - |r| && s[i..i + |r|] == r
                        && AllWhitespace(s[..i]) && AllWhitespace(s[i + |r|..])
  {
    var i := |s| - |t|;
    assert s[i..i + |r|] == r;
    WhitespacePrefix(s, i);
    forall k | i + |r| <= k < |s| ensures IsWhitespace(s[k]) {
      assert s[k] == t[k - i];
    }
    WhitespaceSuffix(s, i + |r|);
  }

  lemma WhitespacePrefix(s: string, i: nat)
    requires i <= |s| && forall k :: 0 <= k < i ==> IsWhitespace(s[k])
    ensures AllWhitespace(s[..i])
  {
    forall k | 0 <= k < i ensures IsWhitespace(s[..i][k]) { assert s[..i][k] == s[k]; }
  }

  lemma WhitespaceSuffix(s: string, j: nat)
    requires j <= |s| && forall k :: j <= k < |s| ==> IsWhitespace(s[k])
    ensures AllWhitespace(s[j..])
  {
    forall k | 0 <= k < |s| - j ensures IsWhitespace(s[j..][k]) { assert s[j..][k] == s[j + k]; }
  }

  /** Trimming yields the empty string exactly when the input is all white space. */
  lemma TrimEmptyIff(s: string)
    ensures Trim(s) == [] <==> AllWhitespace(s)
  {
    var t := TrimStart(s);
    var n := |s| - |t|;
    if TrimEnd(t) != [] {
      assert t[0] == s[n];
    }
  }

  /** A string that neither starts nor ends with white space is its own trim. */
  lemma TrimKeepsTrimmed(s: string)
    requires s == [] || (!IsWhitespace(s[0]) && !IsWhitespace(s[|s| - 1]))
    ensures Trim(s) == s
  {
    assert SkipLeading(s, 0) == 0;
    assert TrimStart(s) == s;
    assert SkipTrailing(s, |s|) == |s|;
  }

  /** Trimming a trimmed string changes nothing. */
  lemma TrimIdempotent(s: string)
    ensures Trim(Trim(s)) == Trim(s)
  {
    var r := Trim(s);
    assert TrimStart(r) == r;
    assert TrimEnd(r) == r;
  }

  /** `s.startsWith(p)`. */
  predicate StartsWith(s: string, p: string) {
    |p| <= |s| && s[..|p|] == p
  }

  /** `s.endsWith(p)`. */
  predicate EndsWith(s: string, p: string) {
    |p| <= |s| && s[|s| - |p|..] == p
  }

  /** `p` occurs in `s` starting at index `i`. */
  predicate OccursAt(s: string, p: string, i: nat) {
    i + |p| <= |s| && s[i..i + |p|] == p
  }

  /** The first index at or after `from` where `p` occurs in `s`. */
  function IndexOfFrom(s: string, p: string, from: nat): (r: Option<nat>)
    decreases |s| - from
    ensures r.Some? ==> from <= r.value && OccursAt(s, p, r.value)
    ensures r.Some? ==> forall j :: from <= j < r.value ==> !OccursAt(s, p, j)
    ensures r.None? ==> forall j :: from <= j ==> !OccursAt(s, p, j)
  {
    if from + |p| > |s| then None
    else if s[from..from + |p|] == p then Some(from)
    else IndexOfFrom(s, p, from + 1)
  }

  /** `s.indexOf(p)`, with -1 written as None. */
  function IndexOf(s: string, p: string): (r: Option<nat>)
    ensures r.Some? ==> OccursAt(s, p, r.value)
    ensures r.Some? ==> forall j :: 0 <= j < r.value ==> !OccursAt(s, p, j)
    ensures r.None? ==> forall j: nat :: !OccursAt(s, p, j)
  {
    IndexOfFrom(s, p, 0)
  }

  /**
   * The replacement text `String.prototype.replace` builds from `repl` for a
   * string pattern (GetSubstitution with no capture groups): `$$` is a `$`,
   * `$&` the matched text, `` $` `` the text before it, `$'` the text after
   * it, and every other `$` stands for itself. A replacement without `$` is
   * therefore inserted literally.
   */
  function Substitute(repl: string, matched: string, before: string, after: string): (r: string)
    ensures '$' !in repl ==> r == repl
    decreases |repl|
  {
    if repl == [] then []
    else if repl[0] == '$' && |repl| >= 2 && repl[1] == '$' then
      "$" + Substitute(repl[2..], matched, before, after)
    else if repl[0] == '$' && |repl| >= 2 && repl[1] == '&' then
      matched + Substitute(repl[2..], matched, before, after)
    else if repl[0] == '$' && |repl| >= 2 && repl[1] == '`' then
      before + Substitute(repl[2..], matched, before, after)
    else if repl[0] == '$' && |repl| >= 2 && repl[1] == '\'' then
      after + Substitute(repl[2..], matched, before, after)
    else
      assert '$' in repl[1..] ==> '$' in repl by {
        if '$' in repl[1..] {
          var k :| 0 <= k < |repl[1..]| && repl[1..][k] == '$';
          assert repl[k + 1] == '$';
        }
      }
      [repl[0]] + Substitute(repl[1..], matched, before, after)
  }

  /**
   * `s.replace(p, repl)` for a string pattern: only the first occurrence is
   * replaced, so everything before it and everything after it is kept.
   */
  function ReplaceFirst(s: string, p: string, repl: string): (r: string)
    ensures IndexOf(s, p).None? ==> r == s
    ensures IndexOf(s, p).Some? ==>
      var i := IndexOf(s, p).value;
      && i + |p| <= |s| && i + (|s| - i - |p|) <= |r|
      && r[..i] == s[..i]
      && r[|r| - (|s| - i - |p|)..] == s[i + |p|..]
  {
    match IndexOf(s, p)
    case None => s
    case Some(i) => s[..i] + Substitute(repl, p, s[..i], s[i + |p|..]) + s[i + |p|..]
  }

  /**
   * With a `$`-free replacement, `replace` splices `repl` in place of the
   * first occurrence of `p` and keeps every other character where it was;
   * when `p` does not occur the string comes back unchanged.
   */
  lemma ReplaceFirstLiteral(s: string, p: string, repl: string)
    requires '$' !in repl
    ensures IndexOf(s, p).None? ==> ReplaceFirst(s, p, repl) == s
    ensures IndexOf(s, p).Some? ==>
      var i := IndexOf(s, p).value;
      && s == s[..i] + p + s[i + |p|..]
      && ReplaceFirst(s, p, repl) == s[..i] + repl + s[i + |p|..]
  {
    match IndexOf(s, p)
    case None =>
    case Some(i) =>
      assert s == s[..i] + s[i..i + |p|] + s[i + |p|..];
  }
}
