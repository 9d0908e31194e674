/** `VideoScanner.scan_directory` and the `VideoFileInfo` record. The
    directory walk is an input: the sequence of (directory, file names)
    pairs `os.walk` yields, in its order. File metadata comes from a `stat`
    oracle that either gives the size or fails. */
module Scanner {
  import opened Wrappers
  import opened Paths
  import opened Classify
  import opened Seqs

  /** `VideoFileInfo`: where a video was found, its location relative to
      the scanned root, its file name and its size at scan time. */
  datatype VideoFileInfo = VideoFileInfo(path: AbsPath, relativePath: RelPath, name: string, size: nat)

  /** One triple of `os.walk`, without the subdirectory names (which only
      steer the walk itself). */
  datatype WalkStep = WalkStep(dir: AbsPath, files: seq<string>)

  /** A file the scan looks at: a name inside a visited directory. */
  datatype Entry = Entry(dir: AbsPath, name: string) {
    function Path(): AbsPath {
      dir.Join(name)
    }
  }

  /** What the body of the inner loop makes of one file. */
  datatype Verdict = NotVideo | Kept(info: VideoFileInfo) | Unreadable(path: AbsPath)

  /** Observable effects of a scan: a call of the progress callback, or the
      error line printed for a file that could not be read. */
  datatype ScanEvent = Found(info: VideoFileInfo) | AccessError(path: AbsPath)

  /** `Path.stat().st_size`, or a failure (`OSError`). */
  type Stat = AbsPath -> Option<nat>

  /** The skip test of the walk loop: the directory is the destination or
      lies below it. */
  predicate IsExcluded(dir: AbsPath, dest: AbsPath) {
    dest in dir.Parents() || dir == dest
  }

  /** The inner loop body for one file. A failure of `stat` or of
      `relative_to` is caught and only drops this file. */
  function Examine(source: AbsPath, e: Entry, stat: Stat): Verdict {
    var p := e.Path();
    if !IsVideoFile(p) then NotVideo
    else match (stat(p), RelativeTo(p, source))
      case (Some(size), Some(rel)) => Kept(VideoFileInfo(p, rel, e.name, size))
      case _ => Unreadable(p)
  }

  /** What a kept verdict says about its record. */
  lemma KeptFacts(source: AbsPath, e: Entry, stat: Stat, info: VideoFileInfo)
    ensures Examine(source, e, stat) == Kept(info) ==>
      && info.path == e.Path() && info.name == e.name
      && IsVideoFile(info.path)
      && stat(info.path) == Some(info.size)
      && RelativeTo(info.path, source) == Some(info.relativePath)
  {
  }

  /** The files named by `names`, inside `dir`, in order. */
  function Entries(dir: AbsPath, names: seq<string>): seq<Entry> {
    if |names| == 0 then []
    else Entries(dir, names[..|names| - 1]) + [Entry(dir, names[|names| - 1])]
  }

  lemma {:induction false} EntriesIndex(dir: AbsPath, names: seq<string>)
    ensures |Entries(dir, names)| == |names|
    ensures forall j :: 0 <= j < |names| ==> Entries(dir, names)[j] == Entry(dir, names[j])
  {
    if |names| > 0 {
      var init := names[..|names| - 1];
      EntriesIndex(dir, init);
      forall j | 0 <= j < |init| ensures Entries(dir, names)[j] == Entry(dir, names[j]) {
        assert init[j] == names[j];
      }
    }
  }

  /** The files the scan looks at in one step of the walk: none when the
      directory is skipped. */
  function StepEntries(step: WalkStep, dest: AbsPath): seq<Entry> {
    if IsExcluded(step.dir, dest) then [] else Entries(step.dir, step.files)
  }

  /** The files looked at in each step of the walk. */
  function Listings(walk: seq<WalkStep>, dest: AbsPath): seq<seq<Entry>> {
    seq(|walk|, i requires 0 <= i < |walk| => StepEntries(walk[i], dest))
  }

  /** Every file the scan looks at, in walk order. */
  function Visited(walk: seq<WalkStep>, dest: AbsPath): seq<Entry> {
    Flatten(Listings(walk, dest))
  }

  function KeptOf(v: Verdict): seq<VideoFileInfo> {
    if v.Kept? then [v.info] else []
  }

  function UnreadableOf(v: Verdict): seq<AbsPath> {
    if v.Unreadable? then [v.path] else []
  }

  /** The inner loop body applied to each of a run of entries. */
  function Verdicts(source: AbsPath, entries: seq<Entry>, stat: Stat): seq<Verdict> {
    Map(e => Examine(source, e, stat), entries)
  }

  /** The records among a run of verdicts, in order. */
  function KeptRecords(vs: seq<Verdict>): seq<VideoFileInfo> {
    if |vs| == 0 then [] else KeptRecords(vs[..|vs| - 1]) + KeptOf(vs[|vs| - 1])
  }

  /** The unreadable files among a run of verdicts, in order. */
  function UnreadablePaths(vs: seq<Verdict>): seq<AbsPath> {
    if |vs| == 0 then [] else UnreadablePaths(vs[..|vs| - 1]) + UnreadableOf(vs[|vs| - 1])
  }

  /** The records kept from a run of entries, in order. */
  function Collect(source: AbsPath, entries: seq<Entry>, stat: Stat): seq<VideoFileInfo> {
    KeptRecords(Verdicts(source, entries, stat))
  }

  /** The files reported as unreadable, in order. */
  function Unreadables(source: AbsPath, entries: seq<Entry>, stat: Stat): seq<AbsPath> {
    UnreadablePaths(Verdicts(source, entries, stat))
  }

  /** The list `scan_directory` returns, as a reference definition. */
  function ScanSpec(source: AbsPath, dest: AbsPath, walk: seq<WalkStep>, stat: Stat): seq<VideoFileInfo> {
    Collect(source, Visited(walk, dest), stat)
  }

  /** The callback call or error line one verdict produces. */
  function VerdictEvents(v: Verdict, notify: bool): seq<ScanEvent> {
    match v
    case NotVideo => []
    case Kept(info) => if notify then [Found(info)] else []
    case Unreadable(p) => [AccessError(p)]
  }

  /** The trace of a run of verdicts: the events of each file in turn. */
  function ScanTrace(vs: seq<Verdict>, notify: bool): seq<ScanEvent> {
    if |vs| == 0 then [] else ScanTrace(vs[..|vs| - 1], notify) + VerdictEvents(vs[|vs| - 1], notify)
  }

  /** The records passed to the callback, in call order. */
  function FoundOf(events: seq<ScanEvent>): seq<VideoFileInfo> {
    if |events| == 0 then []
    else FoundOf(events[..|events| - 1]) + (if events[|events| - 1].Found? then [events[|events| - 1].info] else [])
  }

  /** The files reported as unreadable, in report order. */
  function AccessErrorsOf(events: seq<ScanEvent>): seq<AbsPath> {
    if |events| == 0 then []
    else AccessErrorsOf(events[..|events| - 1]) + (if events[|events| - 1].AccessError? then [events[|events| - 1].path] else [])
  }

  lemma VisitedSnoc(walk: seq<WalkStep>, dest: AbsPath, i: nat)
    requires i < |walk|
    ensures Visited(walk[..i + 1], dest)
         == Visited(walk[..i], dest) + (if IsExcluded(walk[i].dir, dest) then [] else Entries(walk[i].dir, walk[i].files))
  {
    assert Listings(walk[..i + 1], dest) == Listings(walk[..i], dest) + [StepEntries(walk[i], dest)];
    FlattenSnoc(Listings(walk[..i], dest), StepEntries(walk[i], dest));
  }

  lemma VerdictsAppend(source: AbsPath, a: seq<Entry>, b: seq<Entry>, stat: Stat)
    ensures Verdicts(source, a + b, stat) == Verdicts(source, a, stat) + Verdicts(source, b, stat)
  {
    MapAppend(e => Examine(source, e, stat), a, b);
  }

  lemma VerdictsFilesSnoc(source: AbsPath, dir: AbsPath, files: seq<string>, j: nat, stat: Stat)
    requires j < |files|
    ensures Verdicts(source, Entries(dir, files[..j + 1]), stat)
         == Verdicts(source, Entries(dir, files[..j]), stat) + [Examine(source, Entry(dir, files[j]), stat)]
  {
    assert files[..j + 1][..j] == files[..j];
    VerdictsAppend(source, Entries(dir, files[..j]), [Entry(dir, files[j])], stat);
  }

  lemma KeptSnoc(vs: seq<Verdict>, v: Verdict)
    ensures KeptRecords(vs + [v]) == KeptRecords(vs) + KeptOf(v)
    ensures UnreadablePaths(vs + [v]) == UnreadablePaths(vs) + UnreadableOf(v)
  {
    assert (vs + [v])[..|vs|] == vs;
  }

  lemma {:induction false} KeptAppend(a: seq<Verdict>, b: seq<Verdict>)
    ensures KeptRecords(a + b) == KeptRecords(a) + KeptRecords(b)
    decreases |b|
  {
    if |b| > 0 {
      var b' := b[..|b| - 1];
      assert (a + b)[..|a + b| - 1] == a + b';
      KeptAppend(a, b');
    } else {
      assert a + b == a;
    }
  }

  lemma EventSnoc(events: seq<ScanEvent>, ev: ScanEvent)
    ensures FoundOf(events + [ev]) == FoundOf(events) + (if ev.Found? then [ev.info] else [])
    ensures AccessErrorsOf(events + [ev]) == AccessErrorsOf(events) + (if ev.AccessError? then [ev.path] else [])
  {
    assert (events + [ev])[..|events|] == events;
  }

  lemma ScanTraceSnoc(vs: seq<Verdict>, v: Verdict, notify: bool)
    ensures ScanTrace(vs + [v], notify) == ScanTrace(vs, notify) + VerdictEvents(v, notify)
  {
    assert (vs + [v])[..|vs|] == vs;
  }

  lemma {:induction false} ScanTraceAppend(a: seq<Verdict>, b: seq<Verdict>, notify: bool)
    ensures ScanTrace(a + b, notify) == ScanTrace(a, notify) + ScanTrace(b, notify)
    decreases |b|
  {
    if |b| > 0 {
      var b' := b[..|b| - 1];
      assert (a + b)[..|a + b| - 1] == a + b';
      ScanTraceAppend(a, b', notify);
    } else {
      assert a + b == a;
    }
  }

  lemma VerdictEventsSnoc(before: seq<ScanEvent>, v: Verdict, notify: bool)
    ensures FoundOf(before + VerdictEvents(v, notify)) == FoundOf(before) + (if notify then KeptOf(v) else [])
    ensures AccessErrorsOf(before + VerdictEvents(v, notify)) == AccessErrorsOf(before) + UnreadableOf(v)
  {
    match v
    case NotVideo =>
      assert before + [] == before;
    case Kept(info) =>
      if notify {
        EventSnoc(before, Found(info));
      } else {
        assert before + [] == before;
      }
    case Unreadable(p) =>
      EventSnoc(before, AccessError(p));
  }

  /** Taken one kind at a time, the trace holds a callback call for each
      record, in order, when there is a callback, and an error line for
      each unreadable video, in order. */
  lemma {:induction false} ScanTraceStreams(vs: seq<Verdict>, notify: bool)
    ensures FoundOf(ScanTrace(vs, notify)) == (if notify then KeptRecords(vs) else [])
    ensures AccessErrorsOf(ScanTrace(vs, notify)) == UnreadablePaths(vs)
  {
    if |vs| > 0 {
      var init := vs[..|vs| - 1];
      var v := vs[|vs| - 1];
      ScanTraceStreams(init, notify);
      VerdictEventsSnoc(ScanTrace(init, notify), v, notify);
    }
  }

  /** The body of the inner loop of `scan_directory` for one file: what it
      appends to the result and which callback call or error line it makes. */
  method ScanFile(source: AbsPath, e: Entry, stat: Stat, notify: bool)
    returns (found: seq<VideoFileInfo>, events: seq<ScanEvent>)
    ensures found == KeptOf(Examine(source, e, stat))
    ensures events == VerdictEvents(Examine(source, e, stat), notify)
  {
    var p := e.Path();
    if !IsVideoFile(p) {
      found, events := [], [];
    } else {
      var size := stat(p);
      var rel := RelativeTo(p, source);
      if size.Some? && rel.Some? {
        var info := VideoFileInfo(p, rel.value, e.name, size.value);
        assert Examine(source, e, stat) == Kept(info);
        found := [info];
        events := if notify then [Found(info)] else [];
      } else {
        assert Examine(source, e, stat) == Unreadable(p);
        found, events := [], [AccessError(p)];
      }
    }
  }

  /** The inner loop of `scan_directory`: the files of one directory that
      is not skipped. */
  method ScanFiles(source: AbsPath, step: WalkStep, stat: Stat, notify: bool)
    returns (videos: seq<VideoFileInfo>, events: seq<ScanEvent>)
    ensures videos == Collect(source, Entries(step.dir, step.files), stat)
    ensures events == ScanTrace(Verdicts(source, Entries(step.dir, step.files), stat), notify)
  {
    videos := [];
    events := [];
    ghost var vs: seq<Verdict> := [];
    for j := 0 to |step.files|
      invariant vs == Verdicts(source, Entries(step.dir, step.files[..j]), stat)
      invariant videos == KeptRecords(vs)
      invariant events == ScanTrace(vs, notify)
    {
      var e := Entry(step.dir, step.files[j]);
      ghost var v := Examine(source, e, stat);
      VerdictsFilesSnoc(source, step.dir, step.files, j, stat);
      KeptSnoc(vs, v);
      ScanTraceSnoc(vs, v, notify);
      var found, more := ScanFile(source, e, stat, notify);
      videos := videos + found;
      events := events + more;
      vs := vs + [v];
    }
    assert step.files[..|step.files|] == step.files;
  }

  /** `VideoScanner.scan_directory(source, dest, callback)`, with `notify`
      saying whether a callback was given. The result is the reference
      list; the callback sees exactly that list, one call per record in
      order; and every video that could not be read is reported, in walk
      order, without ending the scan. */
  method ScanDirectory(source: AbsPath, dest: AbsPath, walk: seq<WalkStep>, stat: Stat, notify: bool)
    returns (videos: seq<VideoFileInfo>, events: seq<ScanEvent>)
    ensures videos == ScanSpec(source, dest, walk, stat)
    ensures events == ScanTrace(Verdicts(source, Visited(walk, dest), stat), notify)
    ensures FoundOf(events) == (if notify then videos else [])
    ensures AccessErrorsOf(events) == Unreadables(source, Visited(walk, dest), stat)
  {
    videos := [];
    events := [];
    for i := 0 to |walk|
      invariant videos == Collect(source, Visited(walk[..i], dest), stat)
      invariant events == ScanTrace(Verdicts(source, Visited(walk[..i], dest), stat), notify)
    {
      var step := walk[i];
      VisitedSnoc(walk, dest, i);
      if !IsExcluded(step.dir, dest) {
        var found, more := ScanFiles(source, step, stat, notify);
        VerdictsAppend(source, Visited(walk[..i], dest), Entries(step.dir, step.files), stat);
        KeptAppend(Verdicts(source, Visited(walk[..i], dest), stat), Verdicts(source, Entries(step.dir, step.files), stat));
        ScanTraceAppend(Verdicts(source, Visited(walk[..i], dest), stat), Verdicts(source, Entries(step.dir, step.files), stat), notify);
        videos := videos + found;
        events := events + more;
      } else {
        assert Visited(walk[..i + 1], dest) == Visited(walk[..i], dest);
      }
    }
    assert walk[..|walk|] == walk;
    ScanTraceStreams(Verdicts(source, Visited(walk, dest), stat), notify);
  }

  // ----- Properties of the reference scan -----

  /** The positions of the record verdicts among `vs`, in order. */
  function KeptIndices(vs: seq<Verdict>): seq<nat> {
    if |vs| == 0 then []
    else KeptIndices(vs[..|vs| - 1]) + (if vs[|vs| - 1].Kept? then [|vs| - 1] else [])
  }

  lemma {:induction false} KeptIndicesSound(vs: seq<Verdict>)
    ensures |KeptIndices(vs)| == |KeptRecords(vs)|
    ensures forall n :: 0 <= n < |KeptIndices(vs)| ==>
      KeptIndices(vs)[n] < |vs| && vs[KeptIndices(vs)[n]] == Kept(KeptRecords(vs)[n])
  {
    if |vs| > 0 {
      var init := vs[..|vs| - 1];
      KeptIndicesSound(init);
      var p0, c0 := KeptIndices(init), KeptRecords(init);
      forall n | 0 <= n < |p0| ensures KeptIndices(vs)[n] < |vs| && vs[KeptIndices(vs)[n]] == Kept(KeptRecords(vs)[n]) {
        assert KeptIndices(vs)[n] == p0[n] && KeptRecords(vs)[n] == c0[n] && vs[p0[n]] == init[p0[n]];
      }
    }
  }

  lemma {:induction false} KeptIndicesIncreasing(vs: seq<Verdict>)
    ensures forall n :: 0 <= n < |KeptIndices(vs)| ==> KeptIndices(vs)[n] < |vs|
    ensures forall n1, n2 :: 0 <= n1 < n2 < |KeptIndices(vs)| ==> KeptIndices(vs)[n1] < KeptIndices(vs)[n2]
  {
    if |vs| > 0 {
      KeptIndicesIncreasing(vs[..|vs| - 1]);
    }
  }

  /** Where each record came from: the positions of the verdicts that
      produced the records, strictly increasing. So records come back in
      the order the walk met their files. */
  lemma KeptPositions(vs: seq<Verdict>) returns (pos: seq<nat>)
    ensures |pos| == |KeptRecords(vs)|
    ensures forall n :: 0 <= n < |pos| ==> pos[n] < |vs| && vs[pos[n]] == Kept(KeptRecords(vs)[n])
    ensures forall n1, n2 :: 0 <= n1 < n2 < |pos| ==> pos[n1] < pos[n2]
  {
    pos := KeptIndices(vs);
    KeptIndicesSound(vs);
    KeptIndicesIncreasing(vs);
  }

  /** Every visited entry is file j of walk step i, a directory that is
      not excluded; different positions come from different (i, j). */
  lemma VisitedOrigin(walk: seq<WalkStep>, dest: AbsPath, k: nat) returns (i: nat, j: nat)
    requires k < |Visited(walk, dest)|
    ensures i < |walk| && j < |walk[i].files|
    ensures !IsExcluded(walk[i].dir, dest)
    ensures Visited(walk, dest)[k] == Entry(walk[i].dir, walk[i].files[j])
    ensures k == |Flatten(Listings(walk, dest)[..i])| + j
  {
    i, j := FlattenOrigin(Listings(walk, dest), k);
    EntriesIndex(walk[i].dir, walk[i].files);
  }

  /** Every file of a walked directory that is not excluded is visited, at
      position k. */
  lemma VisitedComplete(walk: seq<WalkStep>, dest: AbsPath, i: nat, j: nat) returns (k: nat)
    requires i < |walk| && j < |walk[i].files|
    requires !IsExcluded(walk[i].dir, dest)
    ensures k < |Visited(walk, dest)| && Visited(walk, dest)[k] == Entry(walk[i].dir, walk[i].files[j])
  {
    EntriesIndex(walk[i].dir, walk[i].files);
    FlattenIndex(Listings(walk, dest), i, j);
    k := |Flatten(Listings(walk, dest)[..i])| + j;
  }

  /** Every record verdict contributes its record, and every unreadable
      verdict its path. */
  lemma {:induction false} KeptComplete(vs: seq<Verdict>, k: nat)
    requires k < |vs|
    ensures vs[k].Kept? ==> vs[k].info in KeptRecords(vs)
    ensures vs[k].Unreadable? ==> vs[k].path in UnreadablePaths(vs)
  {
    var init := vs[..|vs| - 1];
    if k < |init| {
      assert init[k] == vs[k];
      KeptComplete(init, k);
    }
  }

  /** The record at position n of the scan, with the walk step and file
      index it came from. */
  lemma ScanOrigin(source: AbsPath, dest: AbsPath, walk: seq<WalkStep>, stat: Stat, n: nat)
    returns (i: nat, j: nat)
    requires n < |ScanSpec(source, dest, walk, stat)|
    ensures i < |walk| && j < |walk[i].files| && !IsExcluded(walk[i].dir, dest)
    ensures Examine(source, Entry(walk[i].dir, walk[i].files[j]), stat) == Kept(ScanSpec(source, dest, walk, stat)[n])
  {
    var entries := Visited(walk, dest);
    var pos := KeptPositions(Verdicts(source, entries, stat));
    i, j := VisitedOrigin(walk, dest, pos[n]);
  }

  /** Every record is a video file the walk listed, named by its own file
      name, with the size `stat` gave and a relative path that is its path
      minus the source root. */
  lemma ScanSound(source: AbsPath, dest: AbsPath, walk: seq<WalkStep>, stat: Stat, n: nat)
    requires n < |ScanSpec(source, dest, walk, stat)|
    ensures var info := ScanSpec(source, dest, walk, stat)[n];
      && IsVideoFile(info.path)
      && stat(info.path) == Some(info.size)
      && RelativeTo(info.path, source) == Some(info.relativePath)
      && source.Extend(info.relativePath) == info.path
      && exists i, j :: 0 <= i < |walk| && 0 <= j < |walk[i].files|
           && walk[i].files[j] == info.name && info.path == walk[i].dir.Join(info.name)
  {
    var info := ScanSpec(source, dest, walk, stat)[n];
    var i, j := ScanOrigin(source, dest, walk, stat, n);
    KeptFacts(source, Entry(walk[i].dir, walk[i].files[j]), stat, info);
    RelativeToSpec(info.path, source);
    assert 0 <= i < |walk| && 0 <= j < |walk[i].files|
      && walk[i].files[j] == info.name && info.path == walk[i].dir.Join(info.name);
  }

  /** No record lies below the destination: the directory that held it is
      neither the destination nor inside it, so the destination is not among
      the record's ancestors. */
  lemma ScanAvoidsDestination(source: AbsPath, dest: AbsPath, walk: seq<WalkStep>, stat: Stat, n: nat)
    requires n < |ScanSpec(source, dest, walk, stat)|
    ensures dest !in ScanSpec(source, dest, walk, stat)[n].path.Parents()
  {
    var info := ScanSpec(source, dest, walk, stat)[n];
    var i, j := ScanOrigin(source, dest, walk, stat, n);
    var dir := walk[i].dir;
    if info.name != "" {
      assert info.path.Parent() == dir;
      assert info.path.Parents() == [dir] + dir.Parents();
    }
  }

  /** Every video file of a directory that is not excluded, which `stat`
      can read and which lies under the source root, is in the result. */
  lemma ScanComplete(source: AbsPath, dest: AbsPath, walk: seq<WalkStep>, stat: Stat, i: nat, j: nat)
    requires i < |walk| && j < |walk[i].files|
    requires !IsExcluded(walk[i].dir, dest)
    requires IsVideoFile(walk[i].dir.Join(walk[i].files[j]))
    requires stat(walk[i].dir.Join(walk[i].files[j])).Some?
    requires IsAncestorOrSelf(source, walk[i].dir.Join(walk[i].files[j]))
    ensures var p := walk[i].dir.Join(walk[i].files[j]);
      VideoFileInfo(p, RelativeTo(p, source).value, walk[i].files[j], stat(p).value)
        in ScanSpec(source, dest, walk, stat)
  {
    var k := VisitedComplete(walk, dest, i, j);
    KeptComplete(Verdicts(source, Visited(walk, dest), stat), k);
  }

  /** A file `stat` cannot read is left out of the result, and, when it is
      a visited video, reported as an access error; the other files are
      unaffected (`ScanComplete` needs nothing of them). */
  lemma ScanDropsUnreadable(source: AbsPath, dest: AbsPath, walk: seq<WalkStep>, stat: Stat, p: AbsPath)
    requires stat(p).None?
    ensures forall info :: info in ScanSpec(source, dest, walk, stat) ==> info.path != p
    ensures forall i, j ::
      (0 <= i < |walk| && 0 <= j < |walk[i].files| && !IsExcluded(walk[i].dir, dest)
       && walk[i].dir.Join(walk[i].files[j]) == p && IsVideoFile(p))
      ==> p in Unreadables(source, Visited(walk, dest), stat)
  {
    var r := ScanSpec(source, dest, walk, stat);
    forall info | info in r ensures info.path != p {
      var n :| 0 <= n < |r| && r[n] == info;
      ScanSound(source, dest, walk, stat, n);
    }
    forall i, j | 0 <= i < |walk| && 0 <= j < |walk[i].files| && !IsExcluded(walk[i].dir, dest)
      && walk[i].dir.Join(walk[i].files[j]) == p && IsVideoFile(p)
      ensures p in Unreadables(source, Visited(walk, dest), stat)
    {
      var k := VisitedComplete(walk, dest, i, j);
        KeptComplete(Verdicts(source, Visited(walk, dest), stat), k);
    }
  }

  /** What `os.walk` guarantees: each directory once, file names that are
      single components (non-empty, not `.` or `..`, no separator; a
      name is one component of the model's paths, so only non-emptiness
      is written out) and distinct within a directory. */
  predicate WalkDistinct(walk: seq<WalkStep>) {
    && (forall i1, i2 :: 0 <= i1 < i2 < |walk| ==> walk[i1].dir != walk[i2].dir)
    && (forall i, j :: 0 <= i < |walk| && 0 <= j < |walk[i].files| ==> walk[i].files[j] != "")
    && (forall i, j1, j2 :: 0 <= i < |walk| && 0 <= j1 < j2 < |walk[i].files| ==> walk[i].files[j1] != walk[i].files[j2])
  }

  /** Over such a walk, no file is visited twice. */
  lemma VisitedDistinct(walk: seq<WalkStep>, dest: AbsPath)
    requires WalkDistinct(walk)
    ensures forall k1, k2 :: 0 <= k1 < k2 < |Visited(walk, dest)| ==>
      Visited(walk, dest)[k1].Path() != Visited(walk, dest)[k2].Path()
  {
    var v := Visited(walk, dest);
    forall k1, k2 | 0 <= k1 < k2 < |v| ensures v[k1].Path() != v[k2].Path() {
      var i1, j1 := VisitedOrigin(walk, dest, k1);
      var i2, j2 := VisitedOrigin(walk, dest, k2);
      JoinInjective(walk[i1].dir, walk[i1].files[j1], walk[i2].dir, walk[i2].files[j2]);
    }
  }

  /** Over a walk as `os.walk` produces it, no file is reported twice;
      together with `ScanComplete`, each qualifying file appears exactly
      once. */
  lemma ScanNoDuplicates(source: AbsPath, dest: AbsPath, walk: seq<WalkStep>, stat: Stat)
    requires WalkDistinct(walk)
    ensures var r := ScanSpec(source, dest, walk, stat);
      forall n1, n2 :: 0 <= n1 < n2 < |r| ==> r[n1].path != r[n2].path
  {
    var entries := Visited(walk, dest);
    var pos := KeptPositions(Verdicts(source, entries, stat));
    VisitedDistinct(walk, dest);
  }
}
