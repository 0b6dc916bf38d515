/**
 The regular expression `/#include\s+(.+)/` of the shader loader, as
 JavaScript's backtracking matcher evaluates it, and the global `exec`
 loop that gathers every directive of a shader source.

 A match at position `p` is described by the start `m` of capture group 1
 and the end `e` of the whole match: `#include` at `p`, white space on
 `[p + 8, m)` (at least one character), and a non-empty run of
 non-line-terminator characters on `[m, e)`. Both quantifiers are greedy,
 so among all matches at `p` the matcher reports the one with the largest
 `m` and, for that `m`, the largest `e`.
 */
module IncludeRegex {
  import opened Results
  import opened JsStrings

  const Keyword: string := "#include"

  /** One regular-expression match: the directive is `s[start..end]` and
      capture group 1 is `s[capture..end]`. */
  datatype Span = Span(start: nat, capture: nat, end: nat)

  /** `#include\s+(.+)` matches `s[p..e]` with group 1 starting at `m`. */
  ghost predicate IsMatch(s: string, p: int, m: int, e: int) {
    && 0 <= p && p + |Keyword| < m < e <= |s|
    && s[p..p + |Keyword|] == Keyword
    && (forall i :: p + |Keyword| <= i < m ==> IsWhiteSpace(s[i]))
    && (forall i :: m <= i < e ==> !IsLineTerminator(s[i]))
  }

  /** The match the backtracking matcher reports at `p`: greedy `\s+`
      first, then greedy `.+`. */
  ghost predicate IsPreferred(s: string, p: int, m: int, e: int) {
    && IsMatch(s, p, m, e)
    && forall m', e' :: IsMatch(s, p, m', e') ==> m' < m || (m' == m && e' <= e)
  }

  /** Some match of the pattern starts at `p`. */
  ghost predicate MatchesAt(s: string, p: int) {
    exists m, e :: IsMatch(s, p, m, e)
  }

  /** End of the run of white space that starts at `i`. */
  function WhiteSpaceEnd(s: string, i: nat): (j: nat)
    requires i <= |s|
    ensures i <= j <= |s|
    ensures forall k :: i <= k < j ==> IsWhiteSpace(s[k])
    ensures j < |s| ==> !IsWhiteSpace(s[j])
    decreases |s| - i
  {
    if i < |s| && IsWhiteSpace(s[i]) then WhiteSpaceEnd(s, i + 1) else i
  }

  /** End of the run of non-line-terminator characters that starts at `i`. */
  function LineEnd(s: string, i: nat): (j: nat)
    requires i <= |s|
    ensures i <= j <= |s|
    ensures forall k :: i <= k < j ==> !IsLineTerminator(s[k])
    ensures j < |s| ==> IsLineTerminator(s[j])
    decreases |s| - i
  {
    if i < |s| && !IsLineTerminator(s[i]) then LineEnd(s, i + 1) else i
  }

  /** The last index in `[lo, hi)` that holds no line terminator. */
  function LastNonTerminator(s: string, lo: nat, hi: nat): (r: Option<nat>)
    requires lo <= hi <= |s|
    ensures r.Some? ==> lo <= r.value < hi && !IsLineTerminator(s[r.value])
    ensures r.Some? ==> forall k :: r.value < k < hi ==> IsLineTerminator(s[k])
    ensures r.None? ==> forall k :: lo <= k < hi ==> IsLineTerminator(s[k])
    decreases hi - lo
  {
    if lo == hi then None
    else if !IsLineTerminator(s[hi - 1]) then Some(hi - 1)
    else LastNonTerminator(s, lo, hi - 1)
  }

  /** The greedy `.+` that starts at `m` ends at the line end. */
  lemma GreedyRest(s: string, p: nat, m: nat)
    requires p + |Keyword| < m < |s| && !IsLineTerminator(s[m])
    ensures forall m', e' :: IsMatch(s, p, m', e') && m' == m ==> e' <= LineEnd(s, m)
  {
    var e := LineEnd(s, m);
    forall m', e' | IsMatch(s, p, m', e') && m' == m ensures e' <= e {
    }
  }

  /** The white-space run after `#include` reaches a non-white-space
      character: `\s+` takes the whole run. */
  lemma MatchBeforeText(s: string, p: nat, w: nat)
    requires p + |Keyword| < w < |s| && s[p..p + |Keyword|] == Keyword
    requires forall k :: p + |Keyword| <= k < w ==> IsWhiteSpace(s[k])
    requires !IsWhiteSpace(s[w])
    ensures IsPreferred(s, p, w, LineEnd(s, w))
  {
    var e := LineEnd(s, w);
    assert IsMatch(s, p, w, e);
    GreedyRest(s, p, w);
    forall m', e' | IsMatch(s, p, m', e') ensures m' < w || (m' == w && e' <= e) {
    }
  }

  /** The white-space run after `#include` reaches the end of the text:
      `\s+` gives back characters until `.+` can take a
      non-line-terminator, the last one that exists. */
  lemma MatchAtTextEnd(s: string, p: nat, m: nat)
    requires p + |Keyword| < m < |s| && s[p..p + |Keyword|] == Keyword
    requires forall k :: p + |Keyword| <= k < |s| ==> IsWhiteSpace(s[k])
    requires !IsLineTerminator(s[m])
    requires forall k :: m < k < |s| ==> IsLineTerminator(s[k])
    ensures IsPreferred(s, p, m, LineEnd(s, m))
  {
    var e := LineEnd(s, m);
    assert IsMatch(s, p, m, e);
    GreedyRest(s, p, m);
    forall m', e' | IsMatch(s, p, m', e') ensures m' < m || (m' == m && e' <= e) {
      assert !IsLineTerminator(s[m']);
    }
  }

  /** A match has white space right after the keyword. */
  lemma MatchHasSpace(s: string, p: int)
    ensures forall m, e :: IsMatch(s, p, m, e) ==> 0 <= p + |Keyword| < |s| && IsWhiteSpace(s[p + |Keyword|])
  {
  }

  /** A match has a character other than a line terminator where the capture starts. */
  lemma MatchHasText(s: string, p: int)
    ensures forall m, e :: IsMatch(s, p, m, e) ==> 0 <= p + |Keyword| < m < |s| && !IsLineTerminator(s[m])
  {
  }

  /** The match the matcher reports at `p`, if any. */
  function MatchAt(s: string, p: nat): (r: Option<Span>)
    ensures r.Some? ==> r.value.start == p && IsPreferred(s, p, r.value.capture, r.value.end)
    ensures r.None? ==> !MatchesAt(s, p)
  {
    var k := p + |Keyword|;
    if k >= |s| || s[p..k] != Keyword then
      None
    else
      var w := WhiteSpaceEnd(s, k);
      if w == k then
        MatchHasSpace(s, p);
        assert forall m, e :: !IsMatch(s, p, m, e);
        None
      else if w < |s| then
        MatchBeforeText(s, p, w);
        Some(Span(p, w, LineEnd(s, w)))
      else
        match LastNonTerminator(s, k + 1, w)
        case None =>
          MatchHasText(s, p);
          assert forall m, e :: !IsMatch(s, p, m, e);
          None
        case Some(m) =>
          MatchAtTextEnd(s, p, m);
          Some(Span(p, m, LineEnd(s, m)))
  }

  /** The leftmost match that starts at or after `from`: one step of the
      global `exec` loop with `lastIndex == from`. */
  function FindMatch(s: string, from: nat): (r: Option<Span>)
    requires from <= |s|
    ensures r.Some? ==> from <= r.value.start && IsPreferred(s, r.value.start, r.value.capture, r.value.end)
    ensures r.Some? ==> forall q :: from <= q < r.value.start ==> !MatchesAt(s, q)
    ensures r.None? ==> forall q :: from <= q ==> !MatchesAt(s, q)
    decreases |s| - from
  {
    match MatchAt(s, from)
    case Some(sp) => Some(sp)
    case None =>
      if from == |s| then
        assert forall q :: from <= q ==> !MatchesAt(s, q);
        None
      else
        FindMatch(s, from + 1)
  }

  /** The spans the global `exec` loop collects from `lastIndex == from`
      on: each is the matcher's match at its start, they come in order
      without overlapping, and every position at which a match starts is
      either a span's start or lies inside an earlier span. */
  function CollectFrom(s: string, from: nat): (ds: seq<Span>)
    requires from <= |s|
    ensures forall i :: 0 <= i < |ds| ==> from <= ds[i].start
    ensures forall i :: 0 <= i < |ds| ==> IsPreferred(s, ds[i].start, ds[i].capture, ds[i].end)
    ensures forall i, j :: 0 <= i < j < |ds| ==> ds[i].end <= ds[j].start
    ensures forall q :: from <= q && MatchesAt(s, q) ==>
              exists i :: 0 <= i < |ds| && ds[i].start <= q < ds[i].end
    decreases |s| - from
  {
    match FindMatch(s, from)
    case None => []
    case Some(sp) =>
      var rest := CollectFrom(s, sp.end);
      CollectStep(s, from, sp, rest);
      [sp] + rest
  }

  /** The inductive step of `CollectFrom`: the leftmost match followed by
      the spans collected after it. */
  lemma CollectStep(s: string, from: nat, sp: Span, rest: seq<Span>)
    requires from <= sp.start && IsPreferred(s, sp.start, sp.capture, sp.end)
    requires forall q :: from <= q < sp.start ==> !MatchesAt(s, q)
    requires forall i :: 0 <= i < |rest| ==> sp.end <= rest[i].start
    requires forall i, j :: 0 <= i < j < |rest| ==> rest[i].end <= rest[j].start
    requires forall q :: sp.end <= q && MatchesAt(s, q) ==>
               exists i :: 0 <= i < |rest| && rest[i].start <= q < rest[i].end
    ensures var ds := [sp] + rest;
            && (forall i, j :: 0 <= i < j < |ds| ==> ds[i].end <= ds[j].start)
            && (forall q :: from <= q && MatchesAt(s, q) ==>
                  exists i :: 0 <= i < |ds| && ds[i].start <= q < ds[i].end)
  {
    var ds := [sp] + rest;
    forall q | from <= q && MatchesAt(s, q)
      ensures exists i :: 0 <= i < |ds| && ds[i].start <= q < ds[i].end
    {
      if q < sp.end {
        assert ds[0].start <= q < ds[0].end;
      } else {
        var i :| 0 <= i < |rest| && rest[i].start <= q < rest[i].end;
        assert ds[i + 1] == rest[i];
      }
    }
    forall i, j | 0 <= i < j < |ds| ensures ds[i].end <= ds[j].start {
      assert ds[j] == rest[j - 1];
      if i > 0 { assert ds[i] == rest[i - 1]; }
    }
  }

  /** Every match of the global pattern in `s`, in order. */
  function Collect(s: string): (ds: seq<Span>)
    ensures forall i :: 0 <= i < |ds| ==> IsPreferred(s, ds[i].start, ds[i].capture, ds[i].end)
    ensures forall i, j :: 0 <= i < j < |ds| ==> ds[i].end <= ds[j].start
    ensures forall q :: MatchesAt(s, q) ==> exists i :: 0 <= i < |ds| && ds[i].start <= q < ds[i].end
  {
    CollectFrom(s, 0)
  }

  /** The directive texts `match[0]` pushed by the collecting loop. */
  function Directives(s: string): (ts: seq<string>)
    ensures |ts| == |Collect(s)|
    ensures forall i :: 0 <= i < |ts| ==>
              ts[i] == s[Collect(s)[i].start..Collect(s)[i].end] && StartsWith(ts[i], Keyword)
  {
    var ds := Collect(s);
    seq(|ds|, i requires 0 <= i < |ds| => s[ds[i].start..ds[i].end])
  }

  /** Two preferred matches at the same position are the same match. */
  lemma PreferredUnique(s: string, p: int, m1: int, e1: int, m2: int, e2: int)
    requires IsPreferred(s, p, m1, e1) && IsPreferred(s, p, m2, e2)
    ensures m1 == m2 && e1 == e2
  {
  }

  /** Matching a collected directive on its own (the loop's non-global
      `match`) finds it at position 0 with the same capture group. */
  lemma Rematch(s: string, sp: Span)
    requires IsPreferred(s, sp.start, sp.capture, sp.end)
    ensures var t := s[sp.start..sp.end];
            FindMatch(t, 0) == Some(Span(0, sp.capture - sp.start, sp.end - sp.start))
  {
    var p, m, e := sp.start, sp.capture, sp.end;
    var t := s[p..e];
    UnshiftMatch(s, p, m, e);
    forall m', e' | IsMatch(t, 0, m', e') ensures m' < m - p || (m' == m - p && e' <= e - p) {
      ShiftMatch(s, p, e, m', e');
    }
    assert IsPreferred(t, 0, m - p, e - p);
    var x := MatchAt(t, 0).value;
    PreferredUnique(t, 0, x.capture, x.end, m - p, e - p);
  }

  /** A match inside a slice is a match of the whole text. */
  lemma ShiftMatch(s: string, p: int, e: int, m': int, e': int)
    requires 0 <= p <= e <= |s|
    requires IsMatch(s[p..e], 0, m', e')
    ensures IsMatch(s, p, m' + p, e' + p)
  {
    var t := s[p..e];
    assert forall i :: 0 <= i < |t| ==> t[i] == s[p + i];
    assert s[p..p + |Keyword|] == t[..|Keyword|];
    forall i | p + |Keyword| <= i < m' + p ensures IsWhiteSpace(s[i]) {
      assert s[i] == t[i - p];
    }
    forall i | m' + p <= i < e' + p ensures !IsLineTerminator(s[i]) {
      assert s[i] == t[i - p];
    }
  }

  /** A match that ends where a slice ends is a match of the slice. */
  lemma UnshiftMatch(s: string, p: int, m: int, e: int)
    requires IsMatch(s, p, m, e)
    ensures IsMatch(s[p..e], 0, m - p, e - p)
  {
    var t := s[p..e];
    assert forall i :: 0 <= i < |t| ==> t[i] == s[p + i];
    assert t[..|Keyword|] == s[p..p + |Keyword|];
  }
}
