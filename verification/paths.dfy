/** The part of `pathlib` the file handler relies on, over resolved
    absolute paths. A path is an anchor (`/` or a drive such as `C:\`) and
    its components; `resolve()` is taken to have happened already, so two
    paths denote the same place exactly when they are equal. */
module Paths {
  import opened Wrappers

  /** The components of a relative path (`PurePath.parts` without anchor). */
  type RelPath = seq<string>

  datatype AbsPath = AbsPath(anchor: string, parts: seq<string>) {

    /** `PurePath.name`: the last component, or "" for a bare anchor. */
    function Name(): string {
      if |parts| == 0 then "" else parts[|parts| - 1]
    }

    /** `PurePath.parent`: a bare anchor is its own parent. */
    function Parent(): (p: AbsPath)
      ensures p.anchor == anchor
      ensures |parts| > 0 ==> p.parts + [Name()] == parts
    {
      if |parts| == 0 then this else AbsPath(anchor, parts[..|parts| - 1])
    }

    /** `PurePath.parents`: every proper ancestor, nearest first. */
    function Parents(): (ps: seq<AbsPath>)
      ensures |ps| == |parts|
      decreases |parts|
    {
      if |parts| == 0 then [] else [Parent()] + Parent().Parents()
    }

    /** `self / name` for a single component. Joining "" leaves the path
        unchanged, as pathlib does. */
    function Join(name: string): (p: AbsPath)
      ensures p.anchor == anchor
      ensures name != "" ==> p.Name() == name && p.Parent() == this
    {
      if name == "" then this else AbsPath(anchor, parts + [name])
    }

    /** `self / rel` for a relative path given by its components. */
    function Extend(rel: RelPath): AbsPath {
      AbsPath(anchor, parts + rel)
    }
  }

  /** Joining a single-component name, as `os.walk` yields them (non-empty,
      not `.` or `..`, no separator), is injective: different
      (directory, name) pairs give different paths. */
  lemma JoinInjective(d1: AbsPath, n1: string, d2: AbsPath, n2: string)
    ensures n1 != "" && n2 != "" && d1.Join(n1) == d2.Join(n2) ==> d1 == d2 && n1 == n2
  {
    if n1 != "" && n2 != "" && d1.Join(n1) == d2.Join(n2) {
      var p1 := d1.parts + [n1];
      var p2 := d2.parts + [n2];
      assert p1 == p2;
      assert d1.parts == p1[..|p1| - 1] && d2.parts == p2[..|p2| - 1];
    }
  }

  /** `a` is `p` or one of its ancestors. */
  predicate IsAncestorOrSelf(a: AbsPath, p: AbsPath) {
    a.anchor == p.anchor && a.parts <= p.parts
  }

  /** The element of `Parents()` at distance `k + 1` above `p`. */
  lemma {:induction false} ParentsAt(p: AbsPath, k: nat)
    requires k < |p.parts|
    ensures p.Parents()[k] == AbsPath(p.anchor, p.parts[..|p.parts| - 1 - k])
    decreases |p.parts|
  {
    if k > 0 {
      ParentsAt(p.Parent(), k - 1);
    }
  }

  /** The ancestors listed by `Parents()` are exactly the paths that share
      the anchor and whose components are a proper prefix. */
  lemma ParentsIff(p: AbsPath, q: AbsPath)
    ensures q in p.Parents() <==> q.anchor == p.anchor && q.parts < p.parts
  {
    var ps := p.Parents();
    if q in ps {
      var k :| 0 <= k < |ps| && ps[k] == q;
      ParentsAt(p, k);
    }
    if q.anchor == p.anchor && q.parts < p.parts {
      var k := |p.parts| - 1 - |q.parts|;
      ParentsAt(p, k);
      assert ps[k] == q;
    }
  }

  /** The destination test of the scanner, `d in p.parents or p == d`, holds
      exactly when `d` is `p` or an ancestor of `p`. */
  lemma AncestorTestIff(p: AbsPath, d: AbsPath)
    ensures (d in p.Parents() || p == d) <==> IsAncestorOrSelf(d, p)
  {
    ParentsIff(p, d);
  }

  /** `PurePath.relative_to(root)`: the components after the root's, when
      the path starts with the root (a `ValueError` otherwise). */
  function RelativeTo(p: AbsPath, root: AbsPath): Option<RelPath> {
    if IsAncestorOrSelf(root, p) then Some(p.parts[|root.parts|..]) else None
  }

  /** `relative_to` succeeds exactly when the root is the path itself or one
      of its `parents`, and then `/` puts the path back together. */
  lemma RelativeToSpec(p: AbsPath, root: AbsPath)
    ensures RelativeTo(p, root).Some? <==> root == p || root in p.Parents()
    ensures RelativeTo(p, root).Some? ==> root.Extend(RelativeTo(p, root).value) == p
  {
    AncestorTestIff(p, root);
    if IsAncestorOrSelf(root, p) {
      assert root.parts + p.parts[|root.parts|..] == p.parts;
    }
  }

  /** `relative_to` undoes `/`: extending a root and taking the result
      relative to that root gives back the relative path. */
  lemma RelativeToExtend(root: AbsPath, rel: RelPath)
    ensures RelativeTo(root.Extend(rel), root) == Some(rel)
  {
    assert root.parts <= root.Extend(rel).parts;
    assert root.Extend(rel).parts[|root.parts|..] == rel;
  }

  /** `PurePath.parent` of a relative path: the empty path `.` is its own
      parent. */
  function RelParent(rel: RelPath): (r: RelPath)
    ensures |rel| > 0 ==> r + [rel[|rel| - 1]] == rel
    ensures |rel| == 0 ==> r == []
  {
    if |rel| == 0 then [] else rel[..|rel| - 1]
  }

  /** The index of the last '.' in `s`, or -1 (`str.rfind('.')`). */
  function LastDot(s: string): (i: int)
    ensures -1 <= i < |s|
    ensures i >= 0 ==> s[i] == '.'
    ensures forall k :: i < k < |s| ==> s[k] != '.'
  {
    if |s| == 0 then -1
    else if s[|s| - 1] == '.' then |s| - 1
    else LastDot(s[..|s| - 1])
  }

  /** `PurePath.suffix` of a name: from the last '.' on, provided that dot
      is neither the first nor the last character. */
  function Suffix(name: string): (s: string)
    ensures s == "" || (s[0] == '.' && |s| >= 2 && |s| < |name| && name[|name| - |s|..] == s)
    ensures s != "" ==> forall k :: 1 <= k < |s| ==> s[k] != '.'
    ensures s != "" <==> 0 < LastDot(name) < |name| - 1
  {
    var i := LastDot(name);
    if 0 < i < |name| - 1 then name[i..] else ""
  }
}
