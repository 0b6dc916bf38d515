/**
 Resolution of the argument of a `#include` directive to the URL that is
 fetched: trim, drop the first `;`, anchor relative paths under
 `/shaders/`, and make sure the `.glsl` extension is present.
 */
module IncludePath {
  import opened JsStrings

  const ShaderDirectory: string := "/shaders/"
  const ParentPrefix: string := "../"
  const Extension: string := ".glsl"

  /** The captured argument, trimmed, with its first `;` (only) removed. */
  function CleanArgument(capture: string): (p: string)
    ensures ';' in Trim(capture) ==> |p| == |Trim(capture)| - 1
    ensures ';' !in Trim(capture) ==> p == Trim(capture)
    ensures forall i :: FirstOccurrence(Trim(capture), ";", i) ==>
      p == Trim(capture)[..i] + Trim(capture)[i + 1..]
  {
    var t := Trim(capture);
    DropSemicolon(t);
    ReplaceFirst(t, ";", "")
  }

  /** The path made absolute: `../x` becomes `/shaders/x`, a path not
      starting with `/` is put under `/shaders/`, a rooted path is kept. */
  function Absolute(p: string): (a: string)
    ensures StartsWith(a, "/")
    ensures StartsWith(p, ParentPrefix) ==> a == ShaderDirectory + p[|ParentPrefix|..]
  {
    if StartsWith(p, ParentPrefix) then
      ReplacePrefix(p, ParentPrefix, ShaderDirectory);
      ReplaceFirst(p, ParentPrefix, ShaderDirectory)
    else if !StartsWith(p, "/") then ShaderDirectory + p
    else p
  }

  /** Appends `.glsl` unless the path already ends with it. */
  function WithExtension(a: string): (r: string)
    ensures EndsWith(r, Extension)
    ensures StartsWith(r, a)
    ensures r == a <==> EndsWith(a, Extension)
    ensures !EndsWith(a, Extension) ==> r == a + Extension
  {
    if EndsWith(a, Extension) then a else a + Extension
  }

  /** The URL fetched for an include whose captured argument is `capture`. */
  function ResolveIncludePath(capture: string): (r: string)
    ensures StartsWith(r, "/") && EndsWith(r, Extension)
  {
    WithExtension(Absolute(CleanArgument(capture)))
  }

  /** Replacing `;` by nothing removes the first `;` and only it. */
  lemma DropSemicolon(t: string)
    ensures var p := ReplaceFirst(t, ";", "");
            && (';' in t ==> |p| == |t| - 1)
            && (';' !in t ==> p == t)
            && forall i :: FirstOccurrence(t, ";", i) ==> p == t[..i] + t[i + 1..]
  {
    match IndexOf(t, ";")
    case Some(i) =>
      assert t[i] == ';';
      ReplaceByNothing(t, ";", i);
      assert forall k :: FirstOccurrence(t, ";", k) ==> k == i by {
        forall k | FirstOccurrence(t, ";", k) ensures k == i {
        }
      }
    case None =>
      assert ';' !in t by {
        forall j | 0 <= j < |t| ensures t[j] != ';' { assert !OccursAt(t, ";", j); }
      }
  }

  /** `#include noise` fetches `/shaders/noise.glsl`: a bare name with
      nothing to trim, no `;` and no extension gets both the directory and
      the extension. */
  lemma ResolveBareName(name: string)
    requires |name| > 0 && !IsWhiteSpace(name[0]) && !IsWhiteSpace(name[|name| - 1])
    requires ';' !in name && name[0] != '/' && name[0] != '.'
    requires !EndsWith(name, Extension)
    ensures ResolveIncludePath(name) == ShaderDirectory + name + Extension
  {
    TrimFixpoint(name);
    assert !StartsWith(name, ParentPrefix) && !StartsWith(name, "/");
    var a := ShaderDirectory + name;
    assert Absolute(name) == a;
    var n := |Extension|;
    if |name| >= n {
      assert a[|a| - n..] == name[|name| - n..];
    } else {
      assert a[|a| - n..][n - 1 - |name|] == a[|ShaderDirectory| - 1] == '/';
      assert Extension[n - 1 - |name|] != '/';
    }
    assert !EndsWith(a, Extension);
  }

  /** `../x` resolves to `/shaders/x`, with `.glsl` added when missing. */
  lemma ResolveParent(capture: string)
    requires StartsWith(CleanArgument(capture), ParentPrefix)
    ensures ResolveIncludePath(capture)
         == WithExtension(ShaderDirectory + CleanArgument(capture)[|ParentPrefix|..])
  {
  }

  /** A bare `x` resolves to `/shaders/x`, with `.glsl` added when missing. */
  lemma ResolveBare(capture: string)
    requires !StartsWith(CleanArgument(capture), ParentPrefix)
    requires !StartsWith(CleanArgument(capture), "/")
    ensures ResolveIncludePath(capture) == WithExtension(ShaderDirectory + CleanArgument(capture))
  {
  }

  /** A rooted `/x` is kept as it is, with `.glsl` added when missing. */
  lemma ResolveRooted(capture: string)
    requires StartsWith(CleanArgument(capture), "/")
    ensures ResolveIncludePath(capture) == WithExtension(CleanArgument(capture))
  {
    AbsoluteRooted(CleanArgument(capture));
  }

  lemma AbsoluteRooted(p: string)
    requires StartsWith(p, "/")
    ensures Absolute(p) == p
  {
    assert p[0] == '/';
    assert !StartsWith(p, ParentPrefix);
  }

  /** `.glsl` is never appended twice: a cleaned path that already ends in
      `.glsl` (and is rooted) comes back unchanged. */
  lemma ExtensionNotDoubled(capture: string)
    requires StartsWith(CleanArgument(capture), "/")
    requires EndsWith(CleanArgument(capture), Extension)
    ensures ResolveIncludePath(capture) == CleanArgument(capture)
  {
    ResolveRooted(capture);
  }

  /** A path that starts with `/` and ends with `.glsl` has no white
      space at either end. */
  lemma ResolvedEnds(r: string)
    requires StartsWith(r, "/") && EndsWith(r, Extension)
    ensures r[0] == '/' && r[|r| - 1] == 'l' && Trim(r) == r
  {
    assert r[..1] == "/";
    assert r[|r| - 5..] == Extension;
    assert r[|r| - 1] == r[|r| - 5..][4];
    TrimFixpoint(r);
  }

  /** Resolving a path that holds a `;` changes its length. */
  lemma ResolveChangesLength(r: string)
    requires ';' in Trim(r)
    ensures |ResolveIncludePath(r)| != |Trim(r)|
  {
    var p := CleanArgument(r);
    var a := Absolute(p);
    assert |p| == |Trim(r)| - 1;
    assert |ResolveIncludePath(r)| == |a| || |ResolveIncludePath(r)| == |a| + 5;
    if StartsWith(p, ParentPrefix) {
      assert |a| == |p| + 6;
    } else if !StartsWith(p, "/") {
      assert |a| == |p| + 9;
    } else {
      assert |a| == |p|;
    }
  }

  /** A resolved path resolves to itself exactly when it holds no `;`
      (a second `;` in the argument survives the first resolution). */
  lemma ResolveFixpoint(capture: string)
    ensures var r := ResolveIncludePath(capture);
            ResolveIncludePath(r) == r <==> ';' !in r
  {
    var r := ResolveIncludePath(capture);
    ResolvedEnds(r);
    if ';' !in r {
      assert CleanArgument(r) == r;
      ResolveRooted(r);
    } else {
      ResolveChangesLength(r);
    }
  }
}
