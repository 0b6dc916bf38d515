/**
 `loadShaderWithIncludes`: fetch a fragment shader, gather its `#include`
 directives from the unmodified text, then replace each directive's first
 current occurrence by the fetched include (or by nothing when the fetch
 is not ok or throws). The network is an oracle `fetch`.
 */
module ShaderLoader {
  import opened Results
  import opened JsStrings
  import opened IncludePath
  import opened IncludeRegex

  /** What awaiting `fetch(url)` and then `response.text()` yields:
      the text of an ok response, a response that is not ok, or a throw
      (from `fetch` itself or from reading the body). */
  datatype FetchResult = Fetched(text: string) | NotOk(status: int) | Failed

  type Fetcher = string -> FetchResult

  /** Why a top-level shader could not be loaded. */
  datatype LoadError = ShaderNotOk(path: string) | FetchFailed(path: string)

  /** Capture group 1 of the directive matched on its own; `None` when
      that match fails (the loop's `if (includeMatch)`). */
  function IncludeArgument(directive: string): Option<string>
  {
    match FindMatch(directive, 0)
    case None => None
    case Some(sp) => Some(directive[sp.capture..sp.end])
  }

  /** The URL fetched for one directive. */
  function IncludeTarget(directive: string): Option<string>
  {
    match IncludeArgument(directive)
    case None => None
    case Some(arg) => Some(ResolveIncludePath(arg))
  }

  /** The text that takes the place of a directive. */
  function Inserted(r: FetchResult): string {
    if r.Fetched? then r.text else ""
  }

  /** One iteration of the processing loop, inserting the include verbatim. */
  function ApplyInclude(code: string, directive: string, fetch: Fetcher): (r: string)
    ensures IncludeTarget(directive).None? ==> r == code
    ensures (forall j :: !OccursAt(code, directive, j)) ==> r == code
    ensures IncludeTarget(directive).Some? ==>
              forall i :: FirstOccurrence(code, directive, i) ==>
                r == code[..i] + Inserted(fetch(IncludeTarget(directive).value)) + code[i + |directive|..]
  {
    match IncludeTarget(directive)
    case None => code
    case Some(path) => ReplaceFirst(code, directive, Inserted(fetch(path)))
  }

  /** None of `directives` occurs anywhere in `code`. */
  ghost predicate NoneOccur(code: string, directives: seq<string>) {
    forall k, j :: 0 <= k < |directives| ==> !OccursAt(code, directives[k], j)
  }

  /** The processing loop over the gathered directives, in order, with
      each include inserted verbatim. */
  function ApplyIncludes(code: string, directives: seq<string>, fetch: Fetcher): (r: string)
    ensures NoneOccur(code, directives) ==> r == code
    decreases |directives|
  {
    if |directives| == 0 then code
    else
      assert forall k :: 0 <= k < |directives| - 1 ==> directives[1..][k] == directives[k + 1];
      ApplyIncludes(ApplyInclude(code, directives[0], fetch), directives[1..], fetch)
  }

  /** Include expansion of a fetched shader text with verbatim insertion. */
  function Expand(code: string, fetch: Fetcher): (r: string)
    ensures (forall j :: !OccursAt(code, Keyword, j)) ==> r == code
  {
    NoKeywordNoDirectives(code);
    ApplyIncludes(code, Directives(code), fetch)
  }

  /** One iteration as the source writes it: `shaderCode.replace(d, text)`
      expands `$` patterns of the fetched text. */
  function ApplyIncludeAsWritten(code: string, directive: string, fetch: Fetcher): (r: string)
    ensures IncludeTarget(directive).None? ==> r == code
    ensures (forall j :: !OccursAt(code, directive, j)) ==> r == code
    ensures IncludeTarget(directive).Some? ==>
              forall i :: FirstOccurrence(code, directive, i) ==>
                r == code[..i]
                     + Substitute(Inserted(fetch(IncludeTarget(directive).value)), directive,
                                  code[..i], code[i + |directive|..])
                     + code[i + |directive|..]
  {
    match IncludeTarget(directive)
    case None => code
    case Some(path) =>
      match fetch(path)
      case Fetched(text) => JsReplace(code, directive, text)
      case _ => JsReplace(code, directive, "")
  }

  /** The processing loop as the source writes it. */
  function ApplyIncludesAsWritten(code: string, directives: seq<string>, fetch: Fetcher): (r: string)
    ensures NoneOccur(code, directives) ==> r == code
    decreases |directives|
  {
    if |directives| == 0 then code
    else
      assert forall k :: 0 <= k < |directives| - 1 ==> directives[1..][k] == directives[k + 1];
      ApplyIncludesAsWritten(ApplyIncludeAsWritten(code, directives[0], fetch), directives[1..], fetch)
  }

  /** Include expansion exactly as the source writes it. */
  function ExpandAsWritten(code: string, fetch: Fetcher): (r: string)
    ensures (forall j :: !OccursAt(code, Keyword, j)) ==> r == code
  {
    NoKeywordNoDirectives(code);
    ApplyIncludesAsWritten(code, Directives(code), fetch)
  }

  /** A text without `#include` has no directives. */
  lemma NoKeywordNoDirectives(code: string)
    ensures (forall j :: !OccursAt(code, Keyword, j)) ==> Directives(code) == []
  {
    var ds := Collect(code);
    if |ds| > 0 {
      assert IsMatch(code, ds[0].start, ds[0].capture, ds[0].end);
      assert OccursAt(code, Keyword, ds[0].start);
    }
  }

  /** `loadShaderWithIncludes(path)`: only the top-level fetch can fail;
      an include that is not ok or throws is dropped. */
  function LoadShaderWithIncludes(path: string, fetch: Fetcher): (r: Result<string, LoadError>)
    ensures r.Success? <==> fetch(path).Fetched?
    ensures fetch(path).NotOk? ==> r == Failure(ShaderNotOk(path))
    ensures fetch(path).Failed? ==> r == Failure(FetchFailed(path))
    ensures r.Success? && (forall j :: !OccursAt(fetch(path).text, Keyword, j)) ==> r.value == fetch(path).text
  {
    match fetch(path)
    case NotOk(_) => Failure(ShaderNotOk(path))
    case Failed => Failure(FetchFailed(path))
    case Fetched(code) => Success(ExpandAsWritten(code, fetch))
  }

  /** While no fetched file holds a `$`, a loaded shader is its verbatim
      include expansion. */
  lemma LoadIsSplice(path: string, fetch: Fetcher)
    requires forall p :: fetch(p).Fetched? ==> '$' !in fetch(p).text
    ensures fetch(path).Fetched? ==> LoadShaderWithIncludes(path, fetch) == Success(Expand(fetch(path).text, fetch))
  {
    if fetch(path).Fetched? {
      ExpandAsWrittenAgrees(fetch(path).text, fetch);
    }
  }

  /** The fragment shaders the component loads through the include
      processor, in the order it awaits them. */
  const IncludeProcessed: seq<string> := [
    "/shaders/disc/fragment.glsl",
    "/shaders/distortionHole/fragment.glsl",
    "/shaders/distortionDisc/fragment.glsl",
    "/shaders/composition/fragment.glsl",
    "/shaders/noises/fragment.glsl"
  ]

  /** Awaiting `loadShaderWithIncludes` on each path in turn: the first
      failure propagates and later paths are not loaded. */
  function LoadAll(paths: seq<string>, fetch: Fetcher): (r: Result<seq<string>, LoadError>)
    ensures r.Success? <==> forall i :: 0 <= i < |paths| ==> fetch(paths[i]).Fetched?
    ensures r.Success? ==> |r.value| == |paths|
    ensures r.Success? ==> forall i :: 0 <= i < |paths| ==> r.value[i] == ExpandAsWritten(fetch(paths[i]).text, fetch)
    ensures r.Failure? ==> exists i :: 0 <= i < |paths| && !fetch(paths[i]).Fetched?
                                     && (forall j :: 0 <= j < i ==> fetch(paths[j]).Fetched?)
                                     && Failure(r.error) == LoadShaderWithIncludes(paths[i], fetch)
    decreases |paths|
  {
    if |paths| == 0 then Success([])
    else
      match LoadShaderWithIncludes(paths[0], fetch)
      case Failure(e) => Failure(e)
      case Success(text) =>
        match LoadAll(paths[1..], fetch)
        case Failure(e) =>
          FailureExtends(paths, fetch, e);
          Failure(e)
        case Success(rest) =>
          SuccessExtends(paths, fetch, text, rest);
          Success([text] + rest)
  }

  /** The first failing path of `paths[1..]` is the first of `paths` when `paths[0]` loads. */
  lemma FailureExtends(paths: seq<string>, fetch: Fetcher, e: LoadError)
    requires |paths| > 0 && fetch(paths[0]).Fetched?
    requires exists i :: 0 <= i < |paths[1..]| && !fetch(paths[1..][i]).Fetched?
                         && (forall j :: 0 <= j < i ==> fetch(paths[1..][j]).Fetched?)
                         && Failure(e) == LoadShaderWithIncludes(paths[1..][i], fetch)
    ensures exists i :: 0 <= i < |paths| && !fetch(paths[i]).Fetched?
                        && (forall j :: 0 <= j < i ==> fetch(paths[j]).Fetched?)
                        && Failure(e) == LoadShaderWithIncludes(paths[i], fetch)
  {
    var i :| 0 <= i < |paths[1..]| && !fetch(paths[1..][i]).Fetched?
             && (forall j :: 0 <= j < i ==> fetch(paths[1..][j]).Fetched?)
             && Failure(e) == LoadShaderWithIncludes(paths[1..][i], fetch);
    forall j | 0 <= j < i + 1 ensures fetch(paths[j]).Fetched? {
      if j > 0 { assert paths[j] == paths[1..][j - 1]; }
    }
    assert paths[i + 1] == paths[1..][i];
  }

  /** The texts of `paths[1..]` after that of `paths[0]` are the texts of `paths`. */
  lemma SuccessExtends(paths: seq<string>, fetch: Fetcher, text: string, rest: seq<string>)
    requires |paths| > 0 && fetch(paths[0]).Fetched? && text == ExpandAsWritten(fetch(paths[0]).text, fetch)
    requires |rest| == |paths| - 1
    requires forall i :: 0 <= i < |paths[1..]| ==> fetch(paths[1..][i]).Fetched?
    requires forall i :: 0 <= i < |paths[1..]| ==> rest[i] == ExpandAsWritten(fetch(paths[1..][i]).text, fetch)
    ensures forall i :: 0 <= i < |paths| ==> fetch(paths[i]).Fetched?
    ensures forall i :: 0 <= i < |paths| ==> ([text] + rest)[i] == ExpandAsWritten(fetch(paths[i]).text, fetch)
  {
    assert forall i :: 0 < i < |paths| ==> paths[i] == paths[1..][i - 1];
  }

  lemma ArgumentOfMatch(d: string, a: nat, b: nat)
    requires FindMatch(d, 0) == Some(Span(0, a, b))
    ensures a <= b <= |d| && IncludeArgument(d) == Some(d[a..b])
  {
  }

  lemma SliceOfSlice(s: string, d: string, i: nat, j: nat, k: nat)
    requires i <= j <= k <= |s| && d == s[i..k]
    ensures d[j - i..k - i] == s[j..k]
  {
  }

  /** A directive text matches on its own with the capture group it had
      in the shader, so the loop reaches the fetch of its resolved URL. */
  lemma DirectiveTarget(code: string, sp: Span, d: string)
    requires IsPreferred(code, sp.start, sp.capture, sp.end)
    requires d == code[sp.start..sp.end]
    ensures IncludeArgument(d) == Some(code[sp.capture..sp.end])
    ensures IncludeTarget(d) == Some(ResolveIncludePath(code[sp.capture..sp.end]))
  {
    var a, b := sp.capture - sp.start, sp.end - sp.start;
    assert FindMatch(d, 0) == Some(Span(0, a, b)) by {
      Rematch(code, sp);
    }
    ArgumentOfMatch(d, a, b);
    SliceOfSlice(code, d, sp.start, sp.capture, sp.end);
  }

  /** Every collected directive reaches the fetch of its resolved capture. */
  lemma CollectedTarget(code: string, i: nat)
    requires i < |Collect(code)|
    ensures var sp := Collect(code)[i];
            IncludeTarget(Directives(code)[i]) == Some(ResolveIncludePath(code[sp.capture..sp.end]))
  {
    DirectiveTarget(code, Collect(code)[i], Directives(code)[i]);
  }

  lemma {:induction false} ApplyIncludesAgree(code: string, ds: seq<string>, f: Fetcher, g: Fetcher)
    requires forall i :: 0 <= i < |ds| && IncludeTarget(ds[i]).Some? ==>
               f(IncludeTarget(ds[i]).value) == g(IncludeTarget(ds[i]).value)
    ensures ApplyIncludes(code, ds, f) == ApplyIncludes(code, ds, g)
    decreases |ds|
  {
    if |ds| > 0 {
      assert ApplyInclude(code, ds[0], f) == ApplyInclude(code, ds[0], g);
      assert forall i :: 0 <= i < |ds[1..]| ==> ds[1..][i] == ds[i + 1];
      ApplyIncludesAgree(ApplyInclude(code, ds[0], f), ds[1..], f, g);
    }
  }

  /** Only the includes named by directives of the original text are
      fetched: text brought in by an include is never expanded itself, so
      two oracles that agree on those URLs give the same result. */
  lemma ExpandFetchesOriginalDirectivesOnly(code: string, f: Fetcher, g: Fetcher)
    requires forall i :: 0 <= i < |Collect(code)| ==>
               f(ResolveIncludePath(code[Collect(code)[i].capture..Collect(code)[i].end]))
               == g(ResolveIncludePath(code[Collect(code)[i].capture..Collect(code)[i].end]))
    ensures Expand(code, f) == Expand(code, g)
  {
    var ds := Directives(code);
    forall i | 0 <= i < |ds| && IncludeTarget(ds[i]).Some?
      ensures f(IncludeTarget(ds[i]).value) == g(IncludeTarget(ds[i]).value)
    {
      CollectedTarget(code, i);
    }
    ApplyIncludesAgree(code, ds, f, g);
  }

  lemma {:induction false} ApplyIncludesAsWrittenAgree(code: string, ds: seq<string>, f: Fetcher, g: Fetcher)
    requires forall i :: 0 <= i < |ds| && IncludeTarget(ds[i]).Some? ==>
               f(IncludeTarget(ds[i]).value) == g(IncludeTarget(ds[i]).value)
    ensures ApplyIncludesAsWritten(code, ds, f) == ApplyIncludesAsWritten(code, ds, g)
    decreases |ds|
  {
    if |ds| > 0 {
      assert ApplyIncludeAsWritten(code, ds[0], f) == ApplyIncludeAsWritten(code, ds[0], g);
      assert forall i :: 0 <= i < |ds[1..]| ==> ds[1..][i] == ds[i + 1];
      ApplyIncludesAsWrittenAgree(ApplyIncludeAsWritten(code, ds[0], f), ds[1..], f, g);
    }
  }

  /** The same for the expansion as written: two oracles that agree on
      the URLs of the original directives load the same shader text. */
  lemma ExpandAsWrittenFetchesOriginalDirectivesOnly(code: string, f: Fetcher, g: Fetcher)
    requires forall i :: 0 <= i < |Collect(code)| ==>
               f(ResolveIncludePath(code[Collect(code)[i].capture..Collect(code)[i].end]))
               == g(ResolveIncludePath(code[Collect(code)[i].capture..Collect(code)[i].end]))
    ensures ExpandAsWritten(code, f) == ExpandAsWritten(code, g)
  {
    var ds := Directives(code);
    forall i | 0 <= i < |ds| && IncludeTarget(ds[i]).Some?
      ensures f(IncludeTarget(ds[i]).value) == g(IncludeTarget(ds[i]).value)
    {
      CollectedTarget(code, i);
    }
    ApplyIncludesAsWrittenAgree(code, ds, f, g);
  }

  /** Whether loading succeeds is decided by the top-level fetch alone:
      includes that are not ok or throw are never fatal. */
  lemma IncludeFailuresNotFatal(path: string, f: Fetcher, g: Fetcher)
    requires f(path) == g(path)
    ensures LoadShaderWithIncludes(path, f).Success? <==> LoadShaderWithIncludes(path, g).Success?
    ensures LoadShaderWithIncludes(path, f).Failure? ==> LoadShaderWithIncludes(path, f) == LoadShaderWithIncludes(path, g)
  {
  }

  lemma {:induction false} AsWrittenAgreesStep(code: string, d: string, fetch: Fetcher)
    requires forall p :: fetch(p).Fetched? ==> '$' !in fetch(p).text
    ensures ApplyIncludeAsWritten(code, d, fetch) == ApplyInclude(code, d, fetch)
  {
    match IncludeTarget(d)
    case None =>
    case Some(path) =>
      JsReplaceLiteral(code, d, Inserted(fetch(path)));
  }

  lemma {:induction false} AsWrittenAgreesAll(code: string, ds: seq<string>, fetch: Fetcher)
    requires forall p :: fetch(p).Fetched? ==> '$' !in fetch(p).text
    ensures ApplyIncludesAsWritten(code, ds, fetch) == ApplyIncludes(code, ds, fetch)
    decreases |ds|
  {
    if |ds| > 0 {
      AsWrittenAgreesStep(code, ds[0], fetch);
      AsWrittenAgreesAll(ApplyInclude(code, ds[0], fetch), ds[1..], fetch);
    }
  }

  /** While no fetched include holds a `$`, the source's `replace` and
      verbatim insertion expand a shader identically. */
  lemma ExpandAsWrittenAgrees(code: string, fetch: Fetcher)
    requires forall p :: fetch(p).Fetched? ==> '$' !in fetch(p).text
    ensures ExpandAsWritten(code, fetch) == Expand(code, fetch)
  {
    AsWrittenAgreesAll(code, Directives(code), fetch);
  }

  /** Every match starts with `#`. */
  lemma MatchStartsWithHash(s: string, q: int)
    requires MatchesAt(s, q)
    ensures 0 <= q < |s| && s[q] == '#'
  {
    var m, e :| IsMatch(s, q, m, e);
    assert s[q] == s[q..q + |Keyword|][0];
  }

  /** Matches can only start where a `#` is. */
  lemma MatchesOnlyBetween(code: string, lo: nat, hi: nat)
    requires forall k :: 0 <= k < |code| && (k < lo || hi <= k) ==> code[k] != '#'
    ensures forall q :: MatchesAt(code, q) ==> lo <= q < hi
  {
    forall q | MatchesAt(code, q) ensures lo <= q < hi {
      MatchStartsWithHash(code, q);
    }
  }

  /** Ordered, non-overlapping spans that all start inside the span of
      one of them are that span alone. */
  lemma OnlySpan(ds: seq<Span>, i: nat, p: nat, e: nat)
    requires i < |ds| && ds[i].start == p && ds[i].end == e
    requires forall k :: 0 <= k < |ds| ==> p <= ds[k].start < e && ds[k].start < ds[k].end
    requires forall a, b :: 0 <= a < b < |ds| ==> ds[a].end <= ds[b].start
    ensures forall k :: 0 <= k < |ds| ==> k == i && ds[k] == ds[i]
    ensures ds == [ds[i]]
  {
    assert ds[0] == ds[i];
    assert ds[|ds| - 1] == ds[i];
  }

  /** Collected spans start where matches start. */
  lemma CollectedStarts(code: string, p: nat, e: nat)
    requires forall q :: MatchesAt(code, q) ==> p <= q < e
    ensures forall k :: 0 <= k < |Collect(code)| ==>
              p <= Collect(code)[k].start < e && Collect(code)[k].start < Collect(code)[k].end
  {
    var ds := Collect(code);
    forall k | 0 <= k < |ds| ensures p <= ds[k].start < e && ds[k].start < ds[k].end {
      assert MatchesAt(code, ds[k].start);
    }
  }

  /** When every match starts inside one preferred match, the global loop
      collects that match alone. */
  lemma CollectSingle(code: string, p: nat, m: nat, e: nat)
    requires IsPreferred(code, p, m, e)
    requires forall q :: MatchesAt(code, q) ==> p <= q < e
    ensures Collect(code) == [Span(p, m, e)]
  {
    var ds := Collect(code);
    CollectedStarts(code, p, e);
    assert MatchesAt(code, p);
    var i :| 0 <= i < |ds| && ds[i].start <= p < ds[i].end;
    PreferredUnique(code, p, ds[i].capture, ds[i].end, m, e);
    OnlySpan(ds, i, p, e);
  }

  /** A shader `pre + "#include " + name + "\n" + post`, with no `#` in
      `pre` or `post`, holds exactly one directive, `#include name`. */
  lemma SingleDirective(pre: string, name: string, post: string, code: string)
    requires '#' !in pre && '#' !in post
    requires |name| > 0 && !IsWhiteSpace(name[0])
    requires forall k :: 0 <= k < |name| ==> !IsLineTerminator(name[k])
    requires code == pre + Keyword + " " + name + "\n" + post
    ensures Collect(code) == [Span(|pre|, |pre| + 9, |pre| + 9 + |name|)]
  {
    var P, E := |pre|, |pre| + 9 + |name|;
    SinglePreferred(pre, name, post);
    SingleHashes(pre, name, post);
    MatchesOnlyBetween(code, P, E);
    CollectSingle(code, P, P + 9, E);
  }

  lemma SinglePreferred(pre: string, name: string, post: string)
    requires |name| > 0 && !IsWhiteSpace(name[0])
    requires forall k :: 0 <= k < |name| ==> !IsLineTerminator(name[k])
    ensures var code := pre + Keyword + " " + name + "\n" + post;
            IsPreferred(code, |pre|, |pre| + 9, |pre| + 9 + |name|)
  {
    var code := pre + Keyword + " " + name + "\n" + post;
    var P, M := |pre|, |pre| + 9;
    var E := M + |name|;
    assert code[P..P + |Keyword|] == Keyword;
    assert code[P + 8] == ' ';
    assert forall k :: 0 <= k < |name| ==> code[M + k] == name[k];
    assert code[E] == '\n';
    assert IsMatch(code, P, M, E);
    assert !IsWhiteSpace(code[M]);
    assert IsLineTerminator(code[E]);
  }

  lemma SingleHashes(pre: string, name: string, post: string)
    requires '#' !in pre && '#' !in post
    ensures var code := pre + Keyword + " " + name + "\n" + post;
            var P, E := |pre|, |pre| + 9 + |name|;
            forall k :: 0 <= k < |code| && (k < P || E <= k) ==> code[k] != '#'
  {
    var code := pre + Keyword + " " + name + "\n" + post;
    var P, E := |pre|, |pre| + 9 + |name|;
    forall k | 0 <= k < |code| && (k < P || E <= k) ensures code[k] != '#' {
      if k < P { assert code[k] == pre[k]; }
      else if E < k { assert code[k] == post[k - E - 1]; }
    }
  }

  /** One loop iteration on a directive whose first occurrence is at `i`. */
  lemma ApplyAtFirst(code: string, d: string, i: nat, path: string, fetch: Fetcher)
    requires IncludeTarget(d) == Some(path)
    requires FirstOccurrence(code, d, i)
    ensures ApplyInclude(code, d, fetch) == code[..i] + Inserted(fetch(path)) + code[i + |d|..]
  {
  }

  lemma DirectivesOfSingle(code: string, sp: Span)
    requires Collect(code) == [sp]
    requires sp.start <= sp.end <= |code|
    ensures Directives(code) == [code[sp.start..sp.end]]
  {
    assert |Directives(code)| == 1;
  }

  lemma ApplyIncludesSingle(code: string, d: string, fetch: Fetcher)
    ensures ApplyIncludes(code, [d], fetch) == ApplyInclude(code, d, fetch)
  {
    assert [d][1..] == [];
  }

  /** A shader with one directive, found first at its own position. */
  lemma ExpandOneDirective(code: string, sp: Span, fetch: Fetcher)
    requires Collect(code) == [sp]
    requires sp.start <= sp.capture <= sp.end <= |code|
    requires FirstOccurrence(code, code[sp.start..sp.end], sp.start)
    ensures Expand(code, fetch)
            == code[..sp.start] + Inserted(fetch(ResolveIncludePath(code[sp.capture..sp.end]))) + code[sp.end..]
  {
    var d := code[sp.start..sp.end];
    DirectivesOfSingle(code, sp);
    assert IsPreferred(code, sp.start, sp.capture, sp.end) by {
      assert Collect(code)[0] == sp;
    }
    DirectiveTarget(code, sp, d);
    var path := ResolveIncludePath(code[sp.capture..sp.end]);
    ApplyAtSpan(code, d, sp.start, sp.end, path, fetch);
    ApplyIncludesSingle(code, d, fetch);
  }

  lemma ApplyAtSpan(code: string, d: string, start: nat, end: nat, path: string, fetch: Fetcher)
    requires start + |d| == end
    requires IncludeTarget(d) == Some(path)
    requires FirstOccurrence(code, d, start)
    ensures ApplyInclude(code, d, fetch) == code[..start] + Inserted(fetch(path)) + code[end..]
  {
    ApplyAtFirst(code, d, start, path, fetch);
  }

  lemma ConcatSlices(a: string, b: string)
    ensures (a + b)[..|a|] == a && (a + b)[|a|..] == b
  {
  }

  /** Where the pieces of `pre + "#include " + name + "\n" + post` sit. */
  lemma SingleLayout(pre: string, name: string, post: string, code: string)
    requires '#' !in pre
    requires code == pre + Keyword + " " + name + "\n" + post
    ensures var P, M, E := |pre|, |pre| + 9, |pre| + 9 + |name|;
            E < |code| && code[..P] == pre && code[P..E] == Keyword + " " + name
            && code[M..E] == name && code[E..] == "\n" + post
            && FirstOccurrence(code, code[P..E], P)
  {
    var tail := "\n" + post;
    var directive := Keyword + " " + name;
    assert code == pre + (directive + tail);
    var P, M, E := |pre|, |pre| + 9, |pre| + 9 + |name|;
    ConcatSlices(pre, directive + tail);
    ConcatSlices(directive, tail);
    assert code[P..E] == directive;
    ConcatSlices(Keyword + " ", name);
    assert code[M..E] == name;
    assert directive[0] == '#';
    forall j | 0 <= j < P ensures !OccursAt(code, directive, j) {
      assert code[j] == pre[j];
    }
  }

  /** End to end: that single directive is replaced by the fetched text of
      its resolved URL, or by nothing when the fetch fails. */
  lemma ExpandSingleInclude(pre: string, name: string, post: string, code: string, fetch: Fetcher)
    requires '#' !in pre && '#' !in post
    requires |name| > 0 && !IsWhiteSpace(name[0])
    requires forall k :: 0 <= k < |name| ==> !IsLineTerminator(name[k])
    requires code == pre + Keyword + " " + name + "\n" + post
    ensures Expand(code, fetch) == pre + Inserted(fetch(ResolveIncludePath(name))) + "\n" + post
  {
    var P, M, E := |pre|, |pre| + 9, |pre| + 9 + |name|;
    SingleDirective(pre, name, post, code);
    SingleLayout(pre, name, post, code);
    ExpandOneDirective(code, Span(P, M, E), fetch);
    Reassemble(code, P, M, E, pre, name, post, Expand(code, fetch), fetch);
  }

  lemma Reassemble(code: string, P: nat, M: nat, E: nat, pre: string, name: string, post: string,
                   r: string, fetch: Fetcher)
    requires P <= M <= E <= |code|
    requires code[..P] == pre && code[M..E] == name && code[E..] == "\n" + post
    requires r == code[..P] + Inserted(fetch(ResolveIncludePath(code[M..E]))) + code[E..]
    ensures r == pre + Inserted(fetch(ResolveIncludePath(name))) + "\n" + post
  {
  }

  lemma ApplyAsWrittenAtSpan(code: string, d: string, start: nat, end: nat, path: string, fetch: Fetcher)
    requires start + |d| == end
    requires IncludeTarget(d) == Some(path)
    requires FirstOccurrence(code, d, start)
    ensures ApplyIncludeAsWritten(code, d, fetch)
            == code[..start] + Substitute(Inserted(fetch(path)), d, code[..start], code[end..]) + code[end..]
  {
  }

  lemma ApplyIncludesAsWrittenSingle(code: string, d: string, fetch: Fetcher)
    ensures ApplyIncludesAsWritten(code, [d], fetch) == ApplyIncludeAsWritten(code, d, fetch)
  {
    assert [d][1..] == [];
  }

  /** As written, a shader with one directive becomes the text before it,
      the fetched file taken as a replacement template, and the text after it. */
  lemma ExpandAsWrittenOneDirective(code: string, sp: Span, fetch: Fetcher)
    requires Collect(code) == [sp]
    requires sp.start <= sp.capture <= sp.end <= |code|
    requires FirstOccurrence(code, code[sp.start..sp.end], sp.start)
    ensures ExpandAsWritten(code, fetch)
            == code[..sp.start]
               + Substitute(Inserted(fetch(ResolveIncludePath(code[sp.capture..sp.end]))),
                            code[sp.start..sp.end], code[..sp.start], code[sp.end..])
               + code[sp.end..]
  {
    var d := code[sp.start..sp.end];
    DirectivesOfSingle(code, sp);
    assert IsPreferred(code, sp.start, sp.capture, sp.end) by {
      assert Collect(code)[0] == sp;
    }
    DirectiveTarget(code, sp, d);
    var path := ResolveIncludePath(code[sp.capture..sp.end]);
    ApplyAsWrittenAtSpan(code, d, sp.start, sp.end, path, fetch);
    ApplyIncludesAsWrittenSingle(code, d, fetch);
  }

  /** End to end as written: the single directive of
      `pre + "#include " + name + "\n" + post` is replaced by the fetched
      file with its `$` patterns expanded against the directive, `pre` and
      the text after the directive. */
  lemma ExpandAsWrittenSingleInclude(pre: string, name: string, post: string, code: string, fetch: Fetcher)
    requires '#' !in pre && '#' !in post
    requires |name| > 0 && !IsWhiteSpace(name[0])
    requires forall k :: 0 <= k < |name| ==> !IsLineTerminator(name[k])
    requires code == pre + Keyword + " " + name + "\n" + post
    ensures ExpandAsWritten(code, fetch)
            == pre + Substitute(Inserted(fetch(ResolveIncludePath(name))), Keyword + " " + name, pre, "\n" + post)
               + "\n" + post
  {
    var P, M, E := |pre|, |pre| + 9, |pre| + 9 + |name|;
    SingleDirective(pre, name, post, code);
    SingleLayout(pre, name, post, code);
    ExpandAsWrittenOneDirective(code, Span(P, M, E), fetch);
    ReassembleAsWritten(code, P, M, E, pre, name, post, ExpandAsWritten(code, fetch), fetch);
  }

  lemma ReassembleAsWritten(code: string, P: nat, M: nat, E: nat, pre: string, name: string, post: string,
                            r: string, fetch: Fetcher)
    requires P <= M <= E <= |code|
    requires code[..P] == pre && code[P..E] == Keyword + " " + name
    requires code[M..E] == name && code[E..] == "\n" + post
    requires r == code[..P]
                  + Substitute(Inserted(fetch(ResolveIncludePath(code[M..E]))), code[P..E], code[..P], code[E..])
                  + code[E..]
    ensures r == pre + Substitute(Inserted(fetch(ResolveIncludePath(name))), Keyword + " " + name, pre, "\n" + post)
                 + "\n" + post
  {
  }

  lemma AsWrittenFetched(code: string, d: string, fetch: Fetcher, path: string, text: string)
    requires IncludeTarget(d) == Some(path) && fetch(path) == Fetched(text)
    ensures ApplyIncludesAsWritten(code, [d], fetch) == JsReplace(code, d, text)
  {
    assert [d][1..] == [];
  }

  /** As written, a directive whose file holds `$&` is replaced by itself. */
  lemma AsWrittenAmpersandOne(code: string, sp: Span, fetch: Fetcher, amp: string)
    requires Collect(code) == [sp]
    requires sp.start <= sp.capture <= sp.end <= |code|
    requires amp == "$&" && fetch(ResolveIncludePath(code[sp.capture..sp.end])) == Fetched(amp)
    ensures ExpandAsWritten(code, fetch) == code
  {
    var d := code[sp.start..sp.end];
    DirectivesOfSingle(code, sp);
    assert IsPreferred(code, sp.start, sp.capture, sp.end) by {
      assert Collect(code)[0] == sp;
    }
    DirectiveTarget(code, sp, d);
    AsWrittenFetched(code, d, fetch, ResolveIncludePath(code[sp.capture..sp.end]), amp);
    JsReplaceAmpersand(code, d);
  }

  /** As written, an included file whose text is `$&` puts its directive
      back, so the shader keeps its `#include` line; the literal
      expansion inserts the two characters instead. */
  lemma ExpandAsWrittenAmpersand(code: string, sp: Span, fetch: Fetcher, amp: string)
    requires Collect(code) == [sp]
    requires sp.start <= sp.capture <= sp.end <= |code|
    requires FirstOccurrence(code, code[sp.start..sp.end], sp.start)
    requires amp == "$&" && fetch(ResolveIncludePath(code[sp.capture..sp.end])) == Fetched(amp)
    ensures ExpandAsWritten(code, fetch) == code
    ensures Expand(code, fetch) == code[..sp.start] + amp + code[sp.end..]
    ensures ExpandAsWritten(code, fetch) != Expand(code, fetch)
  {
    AsWrittenAmpersandOne(code, sp, fetch, amp);
    ExpandOneDirective(code, sp, fetch);
    assert IsPreferred(code, sp.start, sp.capture, sp.end) by {
      assert Collect(code)[0] == sp;
    }
    assert code[sp.start..sp.end][..|Keyword|] == Keyword;
    assert |code[..sp.start] + amp + code[sp.end..]| < |code|;
  }
}
