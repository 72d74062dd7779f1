/** Paths as sequences of components (the shape `std::path::Path::components` yields),
    the lexical normalisation used for the second cache key, and file-name extensions. */
module Paths {
  import opened Wrappers

  datatype Component =
    | Prefix(prefix: string)   // a Windows drive or UNC prefix
    | Root                     // the root separator
    | Cur                      // `.`
    | Parent                   // `..`
    | Normal(name: string)     // any other component

  type Path = seq<Component>

  /** One iteration of the normalisation loop: `.` is dropped, `..` pops a preceding
      normal component and is pushed verbatim otherwise, everything else is pushed. */
  function Step(out: Path, c: Component): Path
  {
    match c
    case Cur => out
    case Parent => if |out| > 0 && out[|out| - 1].Normal? then out[..|out| - 1] else out + [c]
    case _ => out + [c]
  }

  /** The path that normalising `p` produces, component by component from the left. */
  function Normalized(p: Path): Path
  {
    if p == [] then [] else Step(Normalized(p[..|p| - 1]), p[|p| - 1])
  }

  /** A path with no `.` and no normal component directly followed by `..`. */
  predicate Reduced(p: Path)
  {
    && (forall i :: 0 <= i < |p| ==> !p[i].Cur?)
    && (forall i :: 0 <= i < |p| - 1 ==> !(p[i].Normal? && p[i + 1].Parent?))
  }

  /** The components of `p` other than `.`, in order. */
  function WithoutCur(p: Path): Path
  {
    if p == [] then []
    else if p[|p| - 1].Cur? then WithoutCur(p[..|p| - 1])
    else WithoutCur(p[..|p| - 1]) + [p[|p| - 1]]
  }

  /** The loop of `normalize`: walks the components and pushes or pops `out`. */
  method Normalize(path: Path) returns (out: Path)
    ensures out == Normalized(path)
    ensures Reduced(out)
  {
    out := [];
    for i := 0 to |path|
      invariant out == Normalized(path[..i])
    {
      assert path[..i + 1][..i] == path[..i];
      match path[i]
      case Cur =>
      case Parent =>
        if |out| > 0 && out[|out| - 1].Normal? {
          out := out[..|out| - 1];
        } else {
          out := out + [path[i]];
        }
      case _ =>
        out := out + [path[i]];
    }
    assert path[..|path|] == path;
    NormalizedIsReduced(path);
  }

  lemma {:induction false} NormalizedIsReduced(p: Path)
    ensures Reduced(Normalized(p))
  {
    if p != [] {
      NormalizedIsReduced(p[..|p| - 1]);
    }
  }

  lemma {:induction false} ReducedIsFixed(p: Path)
    requires Reduced(p)
    ensures Normalized(p) == p
  {
    if p != [] {
      var q := p[..|p| - 1];
      assert Reduced(q);
      ReducedIsFixed(q);
      assert p == q + [p[|p| - 1]];
    }
  }

  lemma NormalizeIdempotent(p: Path)
    ensures Normalized(Normalized(p)) == Normalized(p)
  {
    NormalizedIsReduced(p);
    ReducedIsFixed(Normalized(p));
  }

  /** Two paths that normalise alike still do after the same suffix is appended. */
  lemma {:induction false} AppendCongruence(a: Path, b: Path, q: Path)
    requires Normalized(a) == Normalized(b)
    ensures Normalized(a + q) == Normalized(b + q)
  {
    if q == [] {
      assert a + q == a && b + q == b;
    } else {
      var q' := q[..|q| - 1];
      AppendCongruence(a, b, q');
      assert (a + q)[..|a + q| - 1] == a + q';
      assert (b + q)[..|b + q| - 1] == b + q';
    }
  }

  /** A `.` anywhere in a path has no effect on its normal form. */
  lemma CurIsDropped(p: Path, q: Path)
    ensures Normalized(p + [Cur] + q) == Normalized(p + q)
  {
    assert (p + [Cur])[..|p|] == p;
    AppendCongruence(p + [Cur], p, q);
  }

  /** A `..` right after a normal component cancels it, wherever the pair stands. */
  lemma ParentCancelsNormal(p: Path, name: string, q: Path)
    ensures Normalized(p + [Normal(name), Parent] + q) == Normalized(p + q)
  {
    var a := p + [Normal(name)];
    assert a[..|a| - 1] == p;
    assert (a + [Parent])[..|a|] == a;
    assert Normalized(a) == Normalized(p) + [Normal(name)];
    assert a + [Parent] == p + [Normal(name), Parent];
    AppendCongruence(p + [Normal(name), Parent], p, q);
  }

  /** A `..` whose normalised predecessor is empty, a root, a prefix or another `..`
      is kept verbatim. */
  lemma ParentKept(p: Path)
    requires Normalized(p) == [] || !Normalized(p)[|Normalized(p)| - 1].Normal?
    ensures Normalized(p + [Parent]) == Normalized(p) + [Parent]
  {
    assert (p + [Parent])[..|p|] == p;
  }

  /** Without any `..`, normalising only removes the `.` components. */
  lemma {:induction false} NoParentOnlyDropsCur(p: Path)
    requires forall i :: 0 <= i < |p| ==> !p[i].Parent?
    ensures Normalized(p) == WithoutCur(p)
  {
    if p != [] {
      NoParentOnlyDropsCur(p[..|p| - 1]);
    }
  }

  /** Normalising never introduces a component: the output is a sub-multiset of the input. */
  lemma {:induction false} NormalizedSubMultiset(p: Path)
    ensures multiset(Normalized(p)) <= multiset(p)
  {
    if p != [] {
      var q, c := p[..|p| - 1], p[|p| - 1];
      var n := Normalized(q);
      NormalizedSubMultiset(q);
      assert p == q + [c];
      assert multiset(p) == multiset(q) + multiset{c};
      assert Normalized(p) == Step(n, c);
      if c.Cur? {
      } else if c.Parent? && |n| > 0 && n[|n| - 1].Normal? {
        assert n == n[..|n| - 1] + [n[|n| - 1]];
        assert multiset(n) == multiset(n[..|n| - 1]) + multiset{n[|n| - 1]};
      } else {
        assert Normalized(p) == n + [c];
        assert multiset(n + [c]) == multiset(n) + multiset{c};
      }
    }
  }

  // ---- file names and extensions (std::path::Path::file_name / extension) ----

  /** The final component when it is a normal one. */
  function FileName(p: Path): (r: Option<string>)
    ensures r.Some? <==> |p| > 0 && p[|p| - 1].Normal?
  {
    if |p| > 0 && p[|p| - 1].Normal? then Some(p[|p| - 1].name) else None
  }

  /** The index of the last `.` in `s`, if any. */
  function LastDot(s: string): (r: Option<nat>)
    ensures r.None? <==> (forall j :: 0 <= j < |s| ==> s[j] != '.')
    ensures r.Some? ==> r.value < |s| && s[r.value] == '.'
                        && (forall j :: r.value < j < |s| ==> s[j] != '.')
  {
    if s == [] then None
    else if s[|s| - 1] == '.' then Some(|s| - 1)
    else LastDot(s[..|s| - 1])
  }

  /** A dot with no dot after it is the last dot. */
  lemma LastDotAt(s: string, k: nat)
    requires k < |s| && s[k] == '.'
    requires forall j :: k < j < |s| ==> s[j] != '.'
    ensures LastDot(s) == Some(k)
  {
  }

  /** The extension of a file name: the text after its last `.`, provided that dot
      is not the first character and the name is not `..`. */
  function NameExtension(name: string): Option<string>
  {
    if name == ".." then None
    else match LastDot(name)
      case None => None
      case Some(k) => if k == 0 then None else Some(name[k + 1..])
  }

  function Extension(p: Path): Option<string>
  {
    match FileName(p)
    case None => None
    case Some(name) => NameExtension(name)
  }

  /** A name has extension `e` exactly when it is a non-empty stem, a dot and a
      dot-free `e`. */
  lemma ExtensionCharacterized(name: string, e: string)
    requires name != ".."
    ensures NameExtension(name) == Some(e)
        <==> exists stem :: stem != "" && name == stem + "." + e && '.' !in e
  {
    if NameExtension(name) == Some(e) {
      ExtensionSplits(name, e);
    }
    if exists stem :: stem != "" && name == stem + "." + e && '.' !in e {
      var stem :| stem != "" && name == stem + "." + e && '.' !in e;
      SplitHasExtension(stem, e);
    }
  }

  lemma ExtensionSplits(name: string, e: string)
    requires NameExtension(name) == Some(e)
    ensures name[..|name| - |e| - 1] != "" && name == name[..|name| - |e| - 1] + "." + e && '.' !in e
  {
  }

  lemma SplitHasExtension(stem: string, e: string)
    requires stem != "" && '.' !in e && stem + "." + e != ".."
    ensures NameExtension(stem + "." + e) == Some(e)
  {
    var name := stem + "." + e;
    var k := |stem|;
    assert name[k] == '.';
    assert forall j :: k < j < |name| ==> name[j] == e[j - k - 1];
    LastDotAt(name, k);
    assert name[k + 1..] == e;
  }
}
