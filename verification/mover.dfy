/** `VideoMover.move_videos`: moves each scanned file to the destination
    root at its path relative to the source root, counting successes and
    failures. Directory creation and `shutil.move` are oracles that succeed
    or fail; they receive the position of the item being processed, so an
    outcome may depend on what earlier moves did to the filesystem. */
module Mover {
  import opened Wrappers
  import opened Paths
  import opened Scanner
  import opened Seqs

  /** Why one item failed: `relative_to` raised, the target directory could
      not be created, or the move itself failed. */
  datatype MoveError = NotUnderRoot | CannotCreateDir(dir: AbsPath) | CannotMove(target: AbsPath)

  /** `Path.mkdir(parents=True, exist_ok=True)` and `shutil.move`, as
      success or failure. */
  datatype FileSystem = FileSystem(makeDirs: (nat, AbsPath) -> bool, move: (nat, AbsPath, AbsPath) -> bool)

  /** Which of the two optional callbacks the caller supplied. */
  datatype Observers = Observers(onProgress: bool, onError: bool)

  datatype MoveOutcome = Moved(source: AbsPath, target: AbsPath) | Failed(source: AbsPath, error: MoveError)

  /** Observable effects of a move: a progress callback `(moved, total)`, an
      error callback, or, without an error callback, the printed error. */
  datatype MoveEvent =
    | Progress(done: nat, total: nat)
    | ErrorReported(source: AbsPath, error: MoveError)
    | ErrorLogged(source: AbsPath, error: MoveError)

  /** The pair `move_videos` returns, with the per-item outcomes and the
      callback/log trace alongside. */
  datatype MoveReport = MoveReport(moved: nat, errors: nat, outcomes: seq<MoveOutcome>, events: seq<MoveEvent>)

  /** `dest / source.relative_to(root).parent / source.name`, or nothing when
      `relative_to` raises. */
  function TargetOf(source: AbsPath, root: AbsPath, dest: AbsPath): Option<AbsPath> {
    match RelativeTo(source, root)
    case None => None
    case Some(rel) => Some(dest.Extend(RelParent(rel)).Join(source.Name()))
  }

  /** The `try` block of the loop for the item at position k. The relative
      path is recomputed from the stored absolute path; the record's own
      `relativePath` is not consulted. */
  function MoveItem(k: nat, info: VideoFileInfo, root: AbsPath, dest: AbsPath, fs: FileSystem): MoveOutcome {
    var src := info.path;
    match TargetOf(src, root, dest)
    case None => Failed(src, NotUnderRoot)
    case Some(target) =>
      if !fs.makeDirs(k, target.Parent()) then Failed(src, CannotCreateDir(target.Parent()))
      else if !fs.move(k, src, target) then Failed(src, CannotMove(target))
      else Moved(src, target)
  }

  /** What the `try` block does with one item. The outcome names the item's
      own path. It fails with `NotUnderRoot` exactly when `relative_to`
      raises. A move happened only when creating the target's directory and
      moving into the target both succeeded. A failure names the step that
      failed, with the directory or target the block computed: the
      directory step fails exactly when it is tried on the target's parent
      and fails, and the move step fails exactly when it is tried after
      that succeeded and fails. */
  lemma MoveItemMeaning(k: nat, info: VideoFileInfo, root: AbsPath, dest: AbsPath, fs: FileSystem)
    ensures var o := MoveItem(k, info, root, dest, fs);
      && o.source == info.path
      && (RelativeTo(info.path, root).None? <==> o == Failed(info.path, NotUnderRoot))
      && (o.Moved? ==> fs.makeDirs(k, o.target.Parent()) && fs.move(k, info.path, o.target))
      && (o.Failed? && o.error.CannotCreateDir? ==> !fs.makeDirs(k, o.error.dir))
      && (o.Failed? && o.error.CannotMove? ==>
            fs.makeDirs(k, o.error.target.Parent()) && !fs.move(k, info.path, o.error.target))
    ensures var o := MoveItem(k, info, root, dest, fs);
      var t := TargetOf(info.path, root, dest);
      && (o.Moved? ==> o.target == t.value)
      && (o.Failed? && o.error.CannotCreateDir? <==> t.Some? && !fs.makeDirs(k, t.value.Parent()))
      && (o.Failed? && o.error.CannotCreateDir? ==> o.error.dir == t.value.Parent())
      && (o.Failed? && o.error.CannotMove? <==>
            t.Some? && fs.makeDirs(k, t.value.Parent()) && !fs.move(k, info.path, t.value))
      && (o.Failed? && o.error.CannotMove? ==> o.error.target == t.value)
  {
  }

  /** For a file strictly below the root, the item is moved exactly when
      the directory of `dest / rel` can be created and the file moved
      there, and then `dest / rel` is where it went. */
  lemma MoveItemTarget(k: nat, info: VideoFileInfo, root: AbsPath, dest: AbsPath, fs: FileSystem)
    ensures var o := MoveItem(k, info, root, dest, fs);
      var r := RelativeTo(info.path, root);
      r.Some? && |r.value| > 0 && info.path.Name() != "" ==>
        && (o.Moved? <==> fs.makeDirs(k, dest.Extend(r.value).Parent()) && fs.move(k, info.path, dest.Extend(r.value)))
        && (o.Moved? ==> o.target == dest.Extend(r.value))
  {
    var r := RelativeTo(info.path, root);
    if r.Some? && |r.value| > 0 && info.path.Name() != "" {
      TargetPreservesStructure(info.path, root, dest, r.value);
    }
  }

  /** The reference outcome of every item, in order. */
  function MoveItems(files: seq<VideoFileInfo>, root: AbsPath, dest: AbsPath, fs: FileSystem): seq<MoveOutcome> {
    seq(|files|, k requires 0 <= k < |files| => MoveItem(k, files[k], root, dest, fs))
  }

  function CountMoved(outcomes: seq<MoveOutcome>): nat {
    if |outcomes| == 0 then 0
    else CountMoved(outcomes[..|outcomes| - 1]) + (if outcomes[|outcomes| - 1].Moved? then 1 else 0)
  }

  /** The failed outcomes, in order. */
  function FailuresOf(outcomes: seq<MoveOutcome>): seq<MoveOutcome> {
    if |outcomes| == 0 then []
    else FailuresOf(outcomes[..|outcomes| - 1]) + (if outcomes[|outcomes| - 1].Failed? then [outcomes[|outcomes| - 1]] else [])
  }

  /** The progress calls of a trace, in order. */
  function ProgressOf(events: seq<MoveEvent>): seq<MoveEvent> {
    if |events| == 0 then []
    else ProgressOf(events[..|events| - 1]) + (if events[|events| - 1].Progress? then [events[|events| - 1]] else [])
  }

  /** The error callback calls of a trace, as failed outcomes. */
  function ReportedOf(events: seq<MoveEvent>): seq<MoveOutcome> {
    if |events| == 0 then []
    else
      var ev := events[|events| - 1];
      ReportedOf(events[..|events| - 1]) + (if ev.ErrorReported? then [Failed(ev.source, ev.error)] else [])
  }

  /** The printed errors of a trace, as failed outcomes. */
  function LoggedOf(events: seq<MoveEvent>): seq<MoveOutcome> {
    if |events| == 0 then []
    else
      var ev := events[|events| - 1];
      LoggedOf(events[..|events| - 1]) + (if ev.ErrorLogged? then [Failed(ev.source, ev.error)] else [])
  }

  /** The callback calls and printed lines of one item, given the moved
      count after it: a progress call for a move when there is a progress
      callback; for a failure, the error callback when there is one and a
      printed line otherwise. */
  function ItemEvents(o: MoveOutcome, movedAfter: nat, total: nat, obs: Observers): seq<MoveEvent> {
    match o
    case Moved(_, _) => if obs.onProgress then [Progress(movedAfter, total)] else []
    case Failed(src, err) => [if obs.onError then ErrorReported(src, err) else ErrorLogged(src, err)]
  }

  /** The trace of a run of outcomes: the events of each item in turn. */
  function Trace(outcomes: seq<MoveOutcome>, total: nat, obs: Observers): seq<MoveEvent> {
    if |outcomes| == 0 then []
    else Trace(outcomes[..|outcomes| - 1], total, obs) + ItemEvents(outcomes[|outcomes| - 1], CountMoved(outcomes), total, obs)
  }

  /** The progress calls after n successful moves out of `total`. */
  function ProgressRun(n: nat, total: nat): seq<MoveEvent> {
    if n == 0 then [] else ProgressRun(n - 1, total) + [Progress(n, total)]
  }

  /** The progress callback sees (1, total), (2, total), ... (n, total). */
  lemma {:induction false} ProgressRunShape(n: nat, total: nat)
    ensures |ProgressRun(n, total)| == n
    ensures forall k :: 0 <= k < n ==> ProgressRun(n, total)[k] == Progress(k + 1, total)
  {
    if n > 0 {
      ProgressRunShape(n - 1, total);
    }
  }

  /** Every outcome is a move or a failure, so the two counts add up. */
  lemma {:induction false} CountsAddUp(outcomes: seq<MoveOutcome>)
    ensures CountMoved(outcomes) + |FailuresOf(outcomes)| == |outcomes|
  {
    if |outcomes| > 0 {
      CountsAddUp(outcomes[..|outcomes| - 1]);
    }
  }

  /** The move count reaches the number of items, that is no error was
      counted, exactly when every item was moved. */
  lemma {:induction false} AllMovedIff(outcomes: seq<MoveOutcome>)
    ensures CountMoved(outcomes) == |outcomes| <==> forall k :: 0 <= k < |outcomes| ==> outcomes[k].Moved?
  {
    if |outcomes| > 0 {
      var init := outcomes[..|outcomes| - 1];
      AllMovedIff(init);
      CountsAddUp(init);
      assert forall k :: 0 <= k < |init| ==> init[k] == outcomes[k];
    }
  }

  lemma OutcomeSnoc(outcomes: seq<MoveOutcome>, o: MoveOutcome)
    ensures CountMoved(outcomes + [o]) == CountMoved(outcomes) + (if o.Moved? then 1 else 0)
    ensures FailuresOf(outcomes + [o]) == FailuresOf(outcomes) + (if o.Failed? then [o] else [])
  {
    assert (outcomes + [o])[..|outcomes|] == outcomes;
  }

  lemma EventSnoc(events: seq<MoveEvent>, ev: MoveEvent)
    ensures ProgressOf(events + [ev]) == ProgressOf(events) + (if ev.Progress? then [ev] else [])
    ensures ReportedOf(events + [ev]) == ReportedOf(events) + (if ev.ErrorReported? then [Failed(ev.source, ev.error)] else [])
    ensures LoggedOf(events + [ev]) == LoggedOf(events) + (if ev.ErrorLogged? then [Failed(ev.source, ev.error)] else [])
  {
    assert (events + [ev])[..|events|] == events;
  }

  lemma TraceSnoc(outcomes: seq<MoveOutcome>, o: MoveOutcome, total: nat, obs: Observers)
    ensures Trace(outcomes + [o], total, obs) == Trace(outcomes, total, obs) + ItemEvents(o, CountMoved(outcomes + [o]), total, obs)
  {
    assert (outcomes + [o])[..|outcomes|] == outcomes;
  }

  lemma ItemEventsSnoc(before: seq<MoveEvent>, o: MoveOutcome, m: nat, total: nat, obs: Observers)
    ensures ProgressOf(before + ItemEvents(o, m, total, obs))
         == ProgressOf(before) + (if o.Moved? && obs.onProgress then [Progress(m, total)] else [])
    ensures ReportedOf(before + ItemEvents(o, m, total, obs))
         == ReportedOf(before) + (if o.Failed? && obs.onError then [o] else [])
    ensures LoggedOf(before + ItemEvents(o, m, total, obs))
         == LoggedOf(before) + (if o.Failed? && !obs.onError then [o] else [])
  {
    match o
    case Moved(_, _) =>
      if obs.onProgress {
        EventSnoc(before, Progress(m, total));
      } else {
        assert before + [] == before;
      }
    case Failed(src, err) =>
      EventSnoc(before, if obs.onError then ErrorReported(src, err) else ErrorLogged(src, err));
  }

  /** The progress calls of the trace are (1, total) ... (moved, total)
      when there is a progress callback, and there are none otherwise. */
  lemma {:induction false} TraceProgress(outcomes: seq<MoveOutcome>, total: nat, obs: Observers)
    ensures ProgressOf(Trace(outcomes, total, obs)) == (if obs.onProgress then ProgressRun(CountMoved(outcomes), total) else [])
  {
    if |outcomes| > 0 {
      var init := outcomes[..|outcomes| - 1];
      var o := outcomes[|outcomes| - 1];
      TraceProgress(init, total, obs);
      var n := CountMoved(outcomes);
      ItemEventsSnoc(Trace(init, total, obs), o, n, total, obs);
      if o.Moved? {
        assert n == CountMoved(init) + 1;
        assert ProgressRun(n, total) == ProgressRun(n - 1, total) + [Progress(n, total)];
      } else {
        assert n == CountMoved(init);
      }
    }
  }

  /** Every failure, in order, goes to the error callback when there is
      one. */
  lemma {:induction false} TraceReported(outcomes: seq<MoveOutcome>, total: nat, obs: Observers)
    ensures ReportedOf(Trace(outcomes, total, obs)) == (if obs.onError then FailuresOf(outcomes) else [])
  {
    if |outcomes| > 0 {
      var init := outcomes[..|outcomes| - 1];
      var o := outcomes[|outcomes| - 1];
      TraceReported(init, total, obs);
      ItemEventsSnoc(Trace(init, total, obs), o, CountMoved(outcomes), total, obs);
    }
  }

  /** Every failure, in order, is printed when there is no error
      callback. */
  lemma {:induction false} TraceLogged(outcomes: seq<MoveOutcome>, total: nat, obs: Observers)
    ensures LoggedOf(Trace(outcomes, total, obs)) == (if obs.onError then [] else FailuresOf(outcomes))
  {
    if |outcomes| > 0 {
      var init := outcomes[..|outcomes| - 1];
      var o := outcomes[|outcomes| - 1];
      TraceLogged(init, total, obs);
      ItemEventsSnoc(Trace(init, total, obs), o, CountMoved(outcomes), total, obs);
    }
  }

  /** The `try` block itself, step by step: relative path, target, parent
      directory, move. */
  method MoveOne(k: nat, info: VideoFileInfo, root: AbsPath, dest: AbsPath, fs: FileSystem)
    returns (outcome: MoveOutcome)
    ensures outcome == MoveItem(k, info, root, dest, fs)
  {
    var rel := RelativeTo(info.path, root);
    if rel.None? {
      return Failed(info.path, NotUnderRoot);
    }
    var target := dest.Extend(RelParent(rel.value)).Join(info.path.Name());
    if !fs.makeDirs(k, target.Parent()) {
      return Failed(info.path, CannotCreateDir(target.Parent()));
    }
    if !fs.move(k, info.path, target) {
      return Failed(info.path, CannotMove(target));
    }
    return Moved(info.path, target);
  }

  /** What the loop has recorded so far agrees with its outcomes: the
      counters count them, and the trace is the events of each item in
      turn. */
  predicate Consistent(moved: nat, errors: nat, outcomes: seq<MoveOutcome>, events: seq<MoveEvent>,
                       total: nat, obs: Observers)
  {
    && moved == CountMoved(outcomes)
    && errors == |FailuresOf(outcomes)|
    && events == Trace(outcomes, total, obs)
  }

  /** One more item keeps the books consistent: the matching counter goes
      up and the item's own events are appended. */
  lemma AfterItem(moved: nat, errors: nat, outcomes: seq<MoveOutcome>, events: seq<MoveEvent>,
                  o: MoveOutcome, total: nat, obs: Observers)
    requires Consistent(moved, errors, outcomes, events, total, obs)
    ensures var moved' := moved + (if o.Moved? then 1 else 0);
      Consistent(moved', errors + (if o.Failed? then 1 else 0), outcomes + [o],
                 events + ItemEvents(o, moved', total, obs), total, obs)
  {
    OutcomeSnoc(outcomes, o);
    TraceSnoc(outcomes, o, total, obs);
  }

  /** The bookkeeping after one `try` block: bump the matching counter and
      call the progress callback, or report or print the error. */
  method RecordOutcome(moved: nat, errors: nat, outcomes: seq<MoveOutcome>, events: seq<MoveEvent>,
                       outcome: MoveOutcome, total: nat, obs: Observers)
    returns (moved': nat, errors': nat, outcomes': seq<MoveOutcome>, events': seq<MoveEvent>)
    requires Consistent(moved, errors, outcomes, events, total, obs)
    ensures Consistent(moved', errors', outcomes', events', total, obs)
    ensures outcomes' == outcomes + [outcome]
    ensures events' == events + ItemEvents(outcome, moved', total, obs)
    ensures moved' + errors' == moved + errors + 1
  {
    AfterItem(moved, errors, outcomes, events, outcome, total, obs);
    outcomes' := outcomes + [outcome];
    match outcome
    case Moved(_, _) =>
      moved', errors' := moved + 1, errors;
      events' := events;
      if obs.onProgress {
        events' := events + [Progress(moved', total)];
      }
    case Failed(src, err) =>
      moved', errors' := moved, errors + 1;
      if obs.onError {
        events' := events + [ErrorReported(src, err)];
      } else {
        events' := events + [ErrorLogged(src, err)];
      }
  }

  /** `VideoMover.move_videos(files, root, dest, progress, error)`.
      `destReady` is the outcome of creating the destination root; when
      that fails the exception escapes and nothing is moved. Otherwise each
      item is attempted exactly once, in order, and independently of how
      the others went; the counts add up to the number of items; and the
      trace is each item's events in item order, so the progress callback
      sees (1, total) ... (moved, total) and every failure goes to the error
      callback if there is one, else to the log. */
  method MoveVideos(files: seq<VideoFileInfo>, root: AbsPath, dest: AbsPath,
                    destReady: bool, fs: FileSystem, obs: Observers)
    returns (r: Result<MoveReport, MoveError>)
    ensures r.Failure? <==> !destReady
    ensures r.Failure? ==> r.error == CannotCreateDir(dest)
    ensures r.Success? ==>
      && r.value.moved + r.value.errors == |files|
      && |r.value.outcomes| == |files|
      && r.value.outcomes == MoveItems(files, root, dest, fs)
      && Consistent(r.value.moved, r.value.errors, r.value.outcomes, r.value.events, |files|, obs)
  {
    if !destReady {
      return Failure(CannotCreateDir(dest));
    }
    var moved: nat := 0;
    var errors: nat := 0;
    var total := |files|;
    var outcomes: seq<MoveOutcome> := [];
    var events: seq<MoveEvent> := [];
    ghost var want := MoveItems(files, root, dest, fs);
    for i := 0 to |files|
      invariant moved + errors == i
      invariant |outcomes| == i
      invariant outcomes == want[..i]
      invariant Consistent(moved, errors, outcomes, events, total, obs)
    {
      var outcome := MoveOne(i, files[i], root, dest, fs);
      PrefixSnoc(want, i);
      moved, errors, outcomes, events := RecordOutcome(moved, errors, outcomes, events, outcome, total, obs);
    }
    assert want[..|files|] == want;
    return Success(MoveReport(moved, errors, outcomes, events));
  }

  // ----- Where files land -----

  /** A file below the root lands at the same relative path below the
      destination: `root/a/b/c.mp4` goes to `dest/a/b/c.mp4`. */
  lemma TargetPreservesStructure(source: AbsPath, root: AbsPath, dest: AbsPath, rel: RelPath)
    requires RelativeTo(source, root) == Some(rel)
    requires |rel| > 0 && source.Name() != ""
    ensures TargetOf(source, root, dest) == Some(dest.Extend(rel))
  {
    assert source.parts == root.parts + rel;
    assert source.Name() == rel[|rel| - 1];
    assert dest.Extend(RelParent(rel)).parts + [source.Name()] == dest.parts + rel;
  }

  /** Such a target lies strictly inside the destination. */
  lemma TargetInsideDestination(source: AbsPath, root: AbsPath, dest: AbsPath, rel: RelPath)
    requires RelativeTo(source, root) == Some(rel)
    requires |rel| > 0 && source.Name() != ""
    ensures TargetOf(source, root, dest).Some?
    ensures dest in TargetOf(source, root, dest).value.Parents()
  {
    TargetPreservesStructure(source, root, dest, rel);
    ParentsIff(dest.Extend(rel), dest);
  }

  /** Different files below the root never share a target, so no move
      overwrites another one of the batch. */
  lemma TargetInjective(s1: AbsPath, s2: AbsPath, root: AbsPath, dest: AbsPath, rel1: RelPath, rel2: RelPath)
    requires RelativeTo(s1, root) == Some(rel1) && |rel1| > 0 && s1.Name() != ""
    requires RelativeTo(s2, root) == Some(rel2) && |rel2| > 0 && s2.Name() != ""
    requires TargetOf(s1, root, dest) == TargetOf(s2, root, dest)
    ensures s1 == s2
  {
    TargetPreservesStructure(s1, root, dest, rel1);
    TargetPreservesStructure(s2, root, dest, rel2);
    assert dest.parts + rel1 == dest.parts + rel2;
    assert rel1 == (dest.parts + rel1)[|dest.parts|..];
    assert rel2 == (dest.parts + rel2)[|dest.parts|..];
  }

  /** The structure example: `/src/a/b/c.mp4` moved from `/src` into `/dst`
      lands at `/dst/a/b/c.mp4`. */
  lemma TargetExample()
    ensures TargetOf(AbsPath("/", ["src", "a", "b", "c.mp4"]), AbsPath("/", ["src"]), AbsPath("/", ["dst"]))
         == Some(AbsPath("/", ["dst", "a", "b", "c.mp4"]))
  {
    var source := AbsPath("/", ["src", "a", "b", "c.mp4"]);
    var root := AbsPath("/", ["src"]);
    RelativeToExtend(root, ["a", "b", "c.mp4"]);
    assert root.Extend(["a", "b", "c.mp4"]) == source;
    TargetPreservesStructure(source, root, AbsPath("/", ["dst"]), ["a", "b", "c.mp4"]);
    assert AbsPath("/", ["dst"]).Extend(["a", "b", "c.mp4"]) == AbsPath("/", ["dst", "a", "b", "c.mp4"]);
  }
}
