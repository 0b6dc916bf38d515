/**
 The pieces of the JavaScript string library the component relies on:
 `trim`, `startsWith`, `endsWith`, `indexOf` and `replace` with a string
 pattern. A character is one Unicode scalar value; the surrogate pairs of
 JavaScript's UTF-16 strings are not modelled.
 */
module JsStrings {
  import opened Results

  /** ECMAScript LineTerminator: LF, CR, LINE SEPARATOR, PARAGRAPH SEPARATOR. */
  predicate IsLineTerminator(c: char) {
    c == '\n' || c == '\r' || c == '\U{2028}' || c == '\U{2029}'
  }

  /** ECMAScript WhiteSpace or LineTerminator: the set `trim` removes and
      the set the regular-expression class `\s` matches. */
  predicate IsWhiteSpace(c: char) {
    || IsLineTerminator(c)
    || c == '\t' || c == '\U{000B}' || c == '\U{000C}' || c == ' '
    || c == '\U{00A0}' || c == '\U{FEFF}' || c == '\U{1680}'
    || ('\U{2000}' <= c <= '\U{200A}')
    || c == '\U{202F}' || c == '\U{205F}' || c == '\U{3000}'
  }

  /** `s.startsWith(p)` */
  predicate StartsWith(s: string, p: string) {
    |p| <= |s| && s[..|p|] == p
  }

  /** `s.endsWith(p)` */
  predicate EndsWith(s: string, p: string) {
    |p| <= |s| && s[|s| - |p|..] == p
  }

  /** Removes leading white space: the result is the suffix of `s` that
      starts at its first non-white-space character. */
  function TrimStart(s: string): (r: string)
    ensures |r| <= |s|
    ensures |r| == |s| ==> r == s
    ensures |r| < |s| ==> r == s[|s| - |r|..]
    ensures forall i :: 0 <= i < |s| - |r| ==> IsWhiteSpace(s[i])
    ensures |r| > 0 ==> !IsWhiteSpace(r[0])
  {
    if |s| > 0 && IsWhiteSpace(s[0]) then TrimStart(s[1..]) else s
  }

  /** Removes trailing white space: the result is the prefix of `s` that
      ends at its last non-white-space character. */
  function TrimEnd(s: string): (r: string)
    ensures |r| <= |s| && r == s[..|r|]
    ensures forall i :: |r| <= i < |s| ==> IsWhiteSpace(s[i])
    ensures |r| > 0 ==> !IsWhiteSpace(r[|r| - 1])
  {
    if |s| > 0 && IsWhiteSpace(s[|s| - 1]) then TrimEnd(s[..|s| - 1]) else s
  }

  /** `s.trim()`: the slice of `s` left once white space is stripped from both ends. */
  function Trim(s: string): (r: string)
    ensures |r| > 0 ==> !IsWhiteSpace(r[0]) && !IsWhiteSpace(r[|r| - 1])
    ensures (forall i :: 0 <= i < |s| ==> IsWhiteSpace(s[i])) <==> r == []
    ensures exists a, b :: Stripped(s, r, a, b)
  {
    var t := TrimStart(s);
    var r := TrimEnd(t);
    assert |r| > 0 ==> r[0] == t[0];
    var a := |s| - |t|;
    assert t[..|r|] == s[a..a + |r|];
    assert Stripped(s, r, a, a + |r|);
    r
  }

  /** `r` is the slice `s[a..b]` and only white space lies outside it. */
  predicate Stripped(s: string, r: string, a: int, b: int) {
    && 0 <= a <= b <= |s| && r == s[a..b]
    && (forall i :: 0 <= i < a ==> IsWhiteSpace(s[i]))
    && (forall i :: b <= i < |s| ==> IsWhiteSpace(s[i]))
  }

  /** Trimming is determined by where the non-white-space text starts and
      ends: any slice with white space outside it and none at its own ends
      is the trim. */
  lemma TrimIsCore(s: string, a: nat, b: nat)
    requires a <= b <= |s|
    requires forall i :: 0 <= i < a ==> IsWhiteSpace(s[i])
    requires forall i :: b <= i < |s| ==> IsWhiteSpace(s[i])
    requires a < b ==> !IsWhiteSpace(s[a]) && !IsWhiteSpace(s[b - 1])
    ensures Trim(s) == s[a..b]
  {
    var r := Trim(s);
    var a', b' :| Stripped(s, r, a', b');
    if a == b {
      assert forall i :: 0 <= i < |s| ==> IsWhiteSpace(s[i]);
    } else {
      assert !IsWhiteSpace(s[a]) && !IsWhiteSpace(s[b - 1]);
      assert r != [];
      assert !IsWhiteSpace(s[a']) && !IsWhiteSpace(s[b' - 1]);
      assert a' == a && b' == b;
    }
  }

  /** A string whose ends are not white space is its own trim, and only such a string is. */
  lemma TrimFixpoint(s: string)
    ensures Trim(s) == s <==> (|s| == 0 || (!IsWhiteSpace(s[0]) && !IsWhiteSpace(s[|s| - 1])))
  {
  }

  /** `pat` occurs in `s` at index `i`. */
  predicate OccursAt(s: string, pat: string, i: int) {
    0 <= i && i + |pat| <= |s| && s[i..i + |pat|] == pat
  }

  /** `i` is the index `s.indexOf(pat)` reports. */
  predicate FirstOccurrence(s: string, pat: string, i: int) {
    OccursAt(s, pat, i) && forall j :: 0 <= j < i ==> !OccursAt(s, pat, j)
  }

  /** `s.indexOf(pat, from)`, with `None` for -1. */
  function IndexOfFrom(s: string, pat: string, from: nat): (r: Option<nat>)
    ensures r.Some? ==> from <= r.value && OccursAt(s, pat, r.value)
    ensures r.Some? ==> forall j :: from <= j < r.value ==> !OccursAt(s, pat, j)
    ensures r.None? ==> forall j :: from <= j ==> !OccursAt(s, pat, j)
    decreases |s| - from
  {
    if from + |pat| > |s| then None
    else if s[from..from + |pat|] == pat then Some(from)
    else IndexOfFrom(s, pat, from + 1)
  }

  /** `s.indexOf(pat)` */
  function IndexOf(s: string, pat: string): (r: Option<nat>)
    ensures r.Some? ==> FirstOccurrence(s, pat, r.value)
    ensures r.None? <==> forall j :: !OccursAt(s, pat, j)
  {
    IndexOfFrom(s, pat, 0)
  }

  /** Replacing by the empty string cuts the first occurrence out. */
  lemma ReplaceByNothing(s: string, pat: string, i: nat)
    requires FirstOccurrence(s, pat, i)
    ensures ReplaceFirst(s, pat, "") == s[..i] + s[i + |pat|..]
  {
    assert s[..i] + "" == s[..i];
  }

  /** Replaces the first occurrence of `pat` by `rep`, inserting `rep`
      verbatim; `s` is returned unchanged when `pat` does not occur. */
  function ReplaceFirst(s: string, pat: string, rep: string): (r: string)
    ensures (forall j :: !OccursAt(s, pat, j)) ==> r == s
    ensures forall i :: FirstOccurrence(s, pat, i) ==> r == s[..i] + rep + s[i + |pat|..]
  {
    match IndexOf(s, pat)
    case None => s
    case Some(i) =>
      assert forall k :: FirstOccurrence(s, pat, k) ==> k == i by {
        forall k | FirstOccurrence(s, pat, k) ensures k == i {
        }
      }
      s[..i] + rep + s[i + |pat|..]
  }

  /** ECMAScript GetSubstitution for a string pattern (no capture groups):
      the replacement template `t` with `$$`, `$&`, `` $` `` and `$'`
      expanded; every other `$` is kept literally. */
  function Substitute(t: string, matched: string, before: string, after: string): string
    decreases |t|
  {
    if |t| == 0 then ""
    else if t[0] == '$' && |t| >= 2 && t[1] == '$' then "$" + Substitute(t[2..], matched, before, after)
    else if t[0] == '$' && |t| >= 2 && t[1] == '&' then matched + Substitute(t[2..], matched, before, after)
    else if t[0] == '$' && |t| >= 2 && t[1] == '`' then before + Substitute(t[2..], matched, before, after)
    else if t[0] == '$' && |t| >= 2 && t[1] == '\'' then after + Substitute(t[2..], matched, before, after)
    else [t[0]] + Substitute(t[1..], matched, before, after)
  }

  /** `s.replace(pat, template)` as JavaScript evaluates it for a string
      pattern: the first occurrence only, with the template expanded. */
  function JsReplace(s: string, pat: string, template: string): (r: string)
    ensures (forall j :: !OccursAt(s, pat, j)) ==> r == s
    ensures forall i :: FirstOccurrence(s, pat, i) ==>
      r == s[..i] + Substitute(template, pat, s[..i], s[i + |pat|..]) + s[i + |pat|..]
  {
    match IndexOf(s, pat)
    case None => s
    case Some(i) =>
      assert forall k :: FirstOccurrence(s, pat, k) ==> k == i by {
        forall k | FirstOccurrence(s, pat, k) ensures k == i {
        }
      }
      s[..i] + Substitute(template, pat, s[..i], s[i + |pat|..]) + s[i + |pat|..]
  }

  /** `$$` in a replacement inserts one `$`. */
  lemma JsReplaceDollar(s: string, pat: string, t: string, i: nat)
    requires t == "$$"
    requires FirstOccurrence(s, pat, i)
    ensures JsReplace(s, pat, t) == s[..i] + "$" + s[i + |pat|..]
  {
    SubstituteTwo(t, pat, s[..i], s[i + |pat|..]);
  }

  /** `` $` `` in a replacement inserts the text before the match. */
  lemma JsReplaceBefore(s: string, pat: string, t: string, i: nat)
    requires t == "$`"
    requires FirstOccurrence(s, pat, i)
    ensures JsReplace(s, pat, t) == s[..i] + s[..i] + s[i + |pat|..]
  {
    SubstituteTwo(t, pat, s[..i], s[i + |pat|..]);
  }

  /** `$'` in a replacement inserts the text after the match. */
  lemma JsReplaceAfter(s: string, pat: string, t: string, i: nat)
    requires t == "$'"
    requires FirstOccurrence(s, pat, i)
    ensures JsReplace(s, pat, t) == s[..i] + s[i + |pat|..] + s[i + |pat|..]
  {
    SubstituteTwo(t, pat, s[..i], s[i + |pat|..]);
  }

  /** A two-character template: each of the four `$` patterns expands to
      its text, and anything else is kept as written. */
  lemma SubstituteTwo(t: string, matched: string, before: string, after: string)
    requires |t| == 2
    ensures t == "$$" ==> Substitute(t, matched, before, after) == "$"
    ensures t == "$&" ==> Substitute(t, matched, before, after) == matched
    ensures t == "$`" ==> Substitute(t, matched, before, after) == before
    ensures t == "$'" ==> Substitute(t, matched, before, after) == after
    ensures t[0] != '$' && t[1] != '$' ==> Substitute(t, matched, before, after) == t
  {
    assert t[2..] == [];
    assert Substitute(t[2..], matched, before, after) == "";
    if t[0] != '$' && t[1] != '$' {
      assert t[1..][1..] == [];
      assert Substitute(t[1..], matched, before, after) == [t[1]];
      assert t == [t[0]] + [t[1]];
    }
  }

  /** A template with no `$` is inserted verbatim. */
  lemma {:induction false} SubstituteLiteral(t: string, matched: string, before: string, after: string)
    requires '$' !in t
    ensures Substitute(t, matched, before, after) == t
    decreases |t|
  {
    if |t| > 0 {
      assert t == [t[0]] + t[1..];
      SubstituteLiteral(t[1..], matched, before, after);
    }
  }

  /** `replace` agrees with verbatim insertion whenever the replacement has no `$`. */
  lemma JsReplaceLiteral(s: string, pat: string, rep: string)
    requires '$' !in rep
    ensures JsReplace(s, pat, rep) == ReplaceFirst(s, pat, rep)
  {
    match IndexOf(s, pat)
    case None =>
    case Some(i) =>
      ReplaceAt(s, pat, rep, i);
  }

  lemma ReplaceAt(s: string, pat: string, rep: string, i: nat)
    requires '$' !in rep
    requires IndexOf(s, pat) == Some(i)
    ensures JsReplace(s, pat, rep) == s[..i] + rep + s[i + |pat|..]
    ensures ReplaceFirst(s, pat, rep) == s[..i] + rep + s[i + |pat|..]
  {
    SubstituteLiteral(rep, pat, s[..i], s[i + |pat|..]);
  }

  /** `$&` in a replacement re-inserts the matched text, so replacing a
      string by `"$&"` leaves it unchanged. */
  lemma JsReplaceAmpersand(s: string, pat: string)
    ensures JsReplace(s, pat, "$&") == s
  {
    match IndexOf(s, pat)
    case None =>
    case Some(i) =>
      SubstituteAmpersand("$&", pat, s[..i], s[i + |pat|..]);
      assert s[..i] + pat + s[i + |pat|..] == s;
  }

  lemma SubstituteAmpersand(t: string, matched: string, before: string, after: string)
    requires t == "$&"
    ensures Substitute(t, matched, before, after) == matched
  {
    assert t[2..] == [];
    assert Substitute(t[2..], matched, before, after) == "";
    assert matched + "" == matched;
  }

  /** Replacing a prefix rewrites exactly that prefix. */
  lemma ReplacePrefix(s: string, pat: string, rep: string)
    requires StartsWith(s, pat)
    ensures ReplaceFirst(s, pat, rep) == rep + s[|pat|..]
  {
    assert FirstOccurrence(s, pat, 0);
  }
}
