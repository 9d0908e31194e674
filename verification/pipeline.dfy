/** The application's sequence: scan the source, then move the records the
    scan produced into the destination. The mover recomputes each relative
    path from the absolute path; these lemmas show that it agrees with the
    path the scan recorded, and that the batch never sends two files to the
    same place. */
module Pipeline {
  import opened Wrappers
  import opened Paths
  import opened Scanner
  import opened Mover

  /** A walk as `os.walk(source)` yields it: every directory lies at or
      below the source, and every file name is a real, nonempty name. */
  predicate WalkUnder(source: AbsPath, walk: seq<WalkStep>) {
    && (forall i :: 0 <= i < |walk| ==> IsAncestorOrSelf(source, walk[i].dir))
    && (forall i, j :: 0 <= i < |walk| && 0 <= j < |walk[i].files| ==> walk[i].files[j] != "")
  }

  /** Every scanned record has a nonempty relative path whose last element
      is the file's name. */
  lemma ScannedRelativePath(source: AbsPath, dest: AbsPath, walk: seq<WalkStep>, stat: Stat, n: nat)
    requires WalkUnder(source, walk)
    requires n < |ScanSpec(source, dest, walk, stat)|
    ensures var info := ScanSpec(source, dest, walk, stat)[n];
      && RelativeTo(info.path, source) == Some(info.relativePath)
      && |info.relativePath| > 0
      && info.path.Name() != ""
      && info.relativePath[|info.relativePath| - 1] == info.name
  {
    var info := ScanSpec(source, dest, walk, stat)[n];
    ScanSound(source, dest, walk, stat, n);
    var i, j :| 0 <= i < |walk| && 0 <= j < |walk[i].files|
      && walk[i].files[j] == info.name && info.path == walk[i].dir.Join(info.name);
    var dir := walk[i].dir;
    assert info.path.Name() == info.name && info.path.Parent() == dir;
    assert info.path.parts == dir.parts + [info.name];
    assert source.parts <= dir.parts;
    assert source.Extend(info.relativePath).parts == source.parts + info.relativePath;
    assert info.path.parts[|info.path.parts| - 1] == info.name;
  }

  /** Moving a scanned record from the scan's root puts it at the relative
      path the scan recorded, below the destination. */
  lemma ScanThenMoveTarget(source: AbsPath, dest: AbsPath, walk: seq<WalkStep>, stat: Stat, n: nat)
    requires WalkUnder(source, walk)
    requires n < |ScanSpec(source, dest, walk, stat)|
    ensures var info := ScanSpec(source, dest, walk, stat)[n];
      TargetOf(info.path, source, dest) == Some(dest.Extend(info.relativePath))
  {
    var info := ScanSpec(source, dest, walk, stat)[n];
    ScannedRelativePath(source, dest, walk, stat, n);
    TargetPreservesStructure(info.path, source, dest, info.relativePath);
  }

  /** Over a walk without repeats, the scanned records have pairwise
      different targets: no move of the batch overwrites another. */
  lemma ScanThenMoveTargetsDistinct(source: AbsPath, dest: AbsPath, walk: seq<WalkStep>, stat: Stat, n1: nat, n2: nat)
    requires WalkUnder(source, walk) && WalkDistinct(walk)
    requires n1 < n2 < |ScanSpec(source, dest, walk, stat)|
    ensures var r := ScanSpec(source, dest, walk, stat);
      TargetOf(r[n1].path, source, dest) != TargetOf(r[n2].path, source, dest)
  {
    var r := ScanSpec(source, dest, walk, stat);
    ScanNoDuplicates(source, dest, walk, stat);
    ScannedRelativePath(source, dest, walk, stat, n1);
    ScannedRelativePath(source, dest, walk, stat, n2);
    if TargetOf(r[n1].path, source, dest) == TargetOf(r[n2].path, source, dest) {
      TargetInjective(r[n1].path, r[n2].path, source, dest, r[n1].relativePath, r[n2].relativePath);
      assert false;
    }
  }
}
