# Video mover — a Dafny model of the scan and move core

Video mover finds the video files below a source folder and moves them into a
destination folder. It keeps each file's position relative to the source, and
it skips the destination when that folder lies inside the source. This project
models the logic that does this (`src/file_handler.py`) together with the
extension tables it relies on (`src/config.py`), and proves what that logic
promises:

- **Classification** (`VideoScanner.is_video_file`): the lower-cased suffix of
  the file name must be one of the 23 configured video extensions.
- **Size formatting** (`VideoScanner.format_size`): the unit chosen from B, KB,
  MB, GB, TB and PB, and the number shown with it.
- **Scan** (`VideoScanner.scan_directory`): a walk over the directories that
  `os.walk` yields.
  - It skips the destination and everything below it.
  - It keeps one `VideoFileInfo` record per readable video file.
  - It calls the optional callback once per record, and prints an error line
    for each file it could not read.
- **Move** (`VideoMover.move_videos`): every record is attempted exactly once.
  The file goes to `dest / relative_to(root).parent / name`. The moved and
  error counts add up to the number of records, and one failure never stops
  the batch.

The outside world enters as data.
- The directory walk is a sequence of (directory, file names) steps.
- `stat` is a function that gives a size or fails.
- Creating directories and `shutil.move` are success-or-failure oracles. They
  receive the item's position, so an outcome may depend on earlier moves.
- The creation of the destination root is a boolean.

Paths are resolved absolute paths: an anchor plus a list of components.
Callbacks and printed errors become a trace of events that the operations
return.

Modules, one file each:
- `Wrappers`: `Option` and `Result`.
- `Paths`: the part of `pathlib` used: `name`, `parent`, `parents`, `/`,
  `relative_to` and `suffix`.
- `Config`: the extension tables.
- `Classify`: `is_video_file`.
- `SizeFormat`: `format_size`.
- `Seqs`: concatenation of sequences.
- `Scanner`: `VideoFileInfo` and `scan_directory`.
- `Mover`: `move_videos`.
- `Pipeline`: the scan followed by the move.

The mover does not read the relative path a record stores.
- `move_videos` recomputes `source_path.relative_to(root_path)` from the
  record's absolute path (`src/file_handler.py:131`). It never reads
  `relative_path`.
- `Mover.MoveItem` does the same.
- `Pipeline.ScanThenMoveTarget` proves that the recomputed path equals the
  stored one when the move uses the scan's root.

## Model

| member | source | states |
|---|---|---|
| Paths.RelativeToSpec | src/file_handler.py:74 | `relative_to(root)` succeeds exactly when the root is the path itself or one of its parents, and the root extended by the result is the path again; otherwise it fails (ValueError) |
| Paths.RelativeToExtend | src/file_handler.py:131-134 | taking `root / rel` relative to `root` gives back `rel`, so `relative_to` undoes `/` |
| Paths.ParentsIff | src/file_handler.py:65 | `parents` lists exactly the paths with the same anchor whose components are a proper prefix of the path's |
| Paths.AncestorTestIff | src/file_handler.py:65 | the skip test `dest in current.parents or current == dest` holds exactly when the destination is the directory or one of its ancestors |
| Paths.JoinInjective | src/file_handler.py:69 | `directory / file_name` with single-component names as `os.walk` yields them (non-empty, not `.` or `..`, no separator) never gives the same path for two different (directory, name) pairs |
| Paths.Suffix | src/file_handler.py:29 | the suffix is empty or a dot followed by at least one character, strictly shorter than the name and ending it; it has no dot after its first character, so it starts at the name's last dot; it is non-empty exactly when that last dot is neither the first nor the last character |
| Config.VideoExtensionsSize | src/config.py:6-10 | the video table has exactly 23 distinct entries, among them `.mp4`, `.mkv` and `.m2ts` |
| Config.TablesDisjoint | src/config.py:6-16 | no extension is in both the video and the image table |
| Classify.VideoTableWellFormed | src/config.py:6-10 | every video extension starts with '.', has no other dot and is entirely lower-case |
| Classify.ClassifyIff | src/file_handler.py:27-29 | against a well-formed table, a name is a video exactly when it ends, ignoring case, with a table entry and has something before it; a hidden file such as `.mp4` is not one |
| Classify.ExtensionIsSuffix | src/file_handler.py:29 | a name that ends, ignoring case, with a well-formed extension and has something before it has exactly that extension as its lower-cased suffix |
| Classify.SuffixLower | src/file_handler.py:29 | lower-casing the name and then taking the suffix gives the lower-cased suffix |
| Classify.CaseInsensitive | src/file_handler.py:29 | names equal once lower-cased, such as `X.MP4` and `x.mp4`, are classified alike |
| Classify.TableOrderIff | src/file_handler.py:27-29 | classification depends only on the table: a well-formed table accepts no name another rejects exactly when it is a subset of it, so no new entries means no new videos |
| Classify.ImageIsNotVideo | src/config.py:12-16 | a name whose lower-cased suffix is an image extension is not a video |
| Classify.VideoNameExamples | src/file_handler.py:27-29 | `clip.mp4`, `CLIP.MP4` and `a.b.MKV` are videos |
| Classify.OtherNameExamples | src/file_handler.py:27-29 | `.mp4`, `clip.mp4.txt` and `photo.jpg` are not videos |
| SizeFormat.ScaleFromSpec | src/file_handler.py:34-37 | from iteration k on, the loop stops at the first unit whose value is below 1024 (PB when none is), and the value is the size divided by 1024 once per step |
| SizeFormat.FormatSize | src/file_handler.py:32-38 | the unit is B exactly for sizes below 1024; a unit other than B is reached only when the size is at least 1024^rank; a unit other than PB holds only sizes below 1024^(rank+1); the value shown is size / 1024^rank |
| SizeFormat.FormatSizeRange | src/file_handler.py:34-38 | for a non-negative size the number shown is at least 1 for every unit but B and below 1024 for every unit but PB |
| SizeFormat.FormatSizeMonotone | src/file_handler.py:32-38 | a larger size never gets a smaller unit |
| SizeFormat.FormatSizeExamples | src/file_handler.py:32-38 | 0 and 1023 stay in B, 1024 is 1 KB, 1536 is 1.5 KB, 1 MiB is 1 MB, 1024^5 is 1 PB and 1024^6 is 1024 PB |
| Scanner.ScanFile | src/file_handler.py:68-89 | one file: the record is kept exactly when the file is a video, `stat` succeeds and `relative_to` succeeds; the events are that record's callback call when a callback is given, one error line for a video whose `stat` or `relative_to` fails, and nothing otherwise |
| Scanner.ScanFiles | src/file_handler.py:68-89 | one directory: the records of its files in listing order, and a trace that is each file's events in listing order, so callback calls and error lines interleave as the files come |
| Scanner.ScanDirectory | src/file_handler.py:41-91 | the result is the reference scan of the walk; the trace is each visited file's events in walk order; taken one kind at a time, the callback sees exactly the result list, one call per record and in order, and every unreadable video of a visited directory is reported in walk order |
| Scanner.ScanTraceStreams | src/file_handler.py:83-89 | in the trace of a run of files, the callback calls are exactly the kept records in order (none without a callback) and the error lines are exactly the unreadable videos in order |
| Scanner.KeptPositions | src/file_handler.py:83-86 | each record comes from a visited file that produced it, at strictly increasing positions, so records come back in walk order |
| Scanner.VisitedOrigin | src/file_handler.py:61-69 | every file looked at is a file of a walked directory that is not skipped |
| Scanner.VisitedComplete | src/file_handler.py:61-69 | every file of every walked directory that is not skipped is looked at |
| Scanner.VisitedDistinct | src/file_handler.py:61-69 | when `os.walk` yields each directory once with distinct non-empty names, no file is looked at twice |
| Scanner.ScanOrigin | src/file_handler.py:61-83 | each record comes from file j of walk step i, a directory that is not skipped, whose examination kept exactly that record |
| Scanner.ScanSound | src/file_handler.py:68-81 | every record is a video file listed by the walk, named by its own file name, with the size `stat` gave and a relative path equal to its path minus the source root |
| Scanner.ScanAvoidsDestination | src/file_handler.py:58-66 | the destination is never among the ancestors of a returned record |
| Scanner.ScanComplete | src/file_handler.py:61-83 | every video of a directory that is not skipped, readable by `stat` and below the source root, is in the result with its size and relative path |
| Scanner.ScanDropsUnreadable | src/file_handler.py:72-89 | a file `stat` cannot read is in no record, and if it is a visited video it is reported as an access error |
| Scanner.ScanNoDuplicates | src/file_handler.py:61-83 | over a walk as `os.walk` yields it, no two records have the same path |
| Mover.MoveOne | src/file_handler.py:129-140 | the `try` block, run step by step, produces the item's outcome as `MoveItemMeaning` and `MoveItemTarget` describe it |
| Mover.MoveItemMeaning | src/file_handler.py:129-153 | the outcome names the item's path; it fails with `NotUnderRoot` exactly when `relative_to` raises; a move went to the computed target `dest / rel.parent / name` and happened only when creating its directory and moving into it both succeeded; `CannotCreateDir` is reported exactly when creating the target's parent is tried and fails, and names that parent; `CannotMove` is reported exactly when that succeeded and the move into the computed target failed, and names that target |
| Mover.MoveItemTarget | src/file_handler.py:131-140 | for a file strictly below the root, the item is moved exactly when the directory of `dest / rel` can be created and the file moved there, and the target is then `dest / rel` |
| Mover.RecordOutcome | src/file_handler.py:142-153 | after one item, exactly one counter went up and the trace is the earlier trace followed by this item's own events: a progress call (moved, total) for a move when observed, else for a failure the error callback or the printed line; counters and trace still agree with all outcomes |
| Mover.MoveVideos | src/file_handler.py:98-155 | fails only when the destination root cannot be created; otherwise each item's outcome is its own attempt, in order; `moved + errors` is the number of items; the trace is each item's events in item order (which `TraceProgress`, `TraceReported` and `TraceLogged` turn into: progress calls (1, total) … (moved, total), and each failure, in order, to the error callback if one was given, else to the log) |
| Mover.ProgressRunShape | src/file_handler.py:142-145 | the k-th progress call is (k+1, total) and there is one per move |
| Mover.TraceProgress | src/file_handler.py:142-145 | the progress calls in the trace of a run are (1, total) … (moved, total) with a progress callback, and none without |
| Mover.TraceReported | src/file_handler.py:147-151 | with an error callback, it receives every failure, in order; without one it receives nothing |
| Mover.TraceLogged | src/file_handler.py:147-153 | without an error callback, every failure is printed, in order; with one nothing is printed |
| Mover.CountsAddUp | src/file_handler.py:142-148 | every outcome is counted as exactly one of moved or failed |
| Mover.AllMovedIff | src/file_handler.py:142-155 | the moved count equals the number of items, so the error count is zero, exactly when every item was moved |
| Mover.TargetPreservesStructure | src/file_handler.py:131-134 | a file at `root / rel` lands at `dest / rel` |
| Mover.TargetInsideDestination | src/file_handler.py:131-134 | such a target lies strictly inside the destination |
| Mover.TargetInjective | src/file_handler.py:131-140 | two different files below the root never get the same target |
| Mover.TargetExample | src/file_handler.py:131-134 | `/src/a/b/c.mp4` moved from `/src` into `/dst` lands at `/dst/a/b/c.mp4` |
| Pipeline.ScannedRelativePath | src/file_handler.py:74 | over a walk of the source, every record's relative path is non-empty, matches `relative_to` of its path and ends with its name |
| Pipeline.ScanThenMoveTarget | src/file_handler.py:131-134 | moving a scanned record from the scan's root puts it at `dest` extended by the relative path the scan recorded, so the recomputed path agrees with the stored one |
| Pipeline.ScanThenMoveTargetsDistinct | src/file_handler.py:131-140 | the records of one scan have pairwise different targets, so no move of the batch overwrites another |

## Left out

- The Tkinter GUI, its worker threads and its path validation are not modelled. The same goes for icon conversion, the executable build and the launcher scripts. They are presentation and packaging; the core needs none of them.
- SizeFormat.FormatSize: the value is the exact quotient size / 1024^rank. Python's float is the same below 2^53, because dividing by 1024 is exact. Above 2^53 Python rounds the value, but the unit is unaffected. Sizes too large for a float (about 2^1024 and more) are different: the comparison with 1024.0 still works, but `size_bytes /= 1024.0` (`src/file_handler.py:37`) raises OverflowError, while the model returns the value in PB. The `.2f` rendering of the string is not modelled.
- Classify.Lower: lower-cases only 'A'..'Z' and KELVIN SIGN. Every other character whose lower-case form differs has a non-ASCII lower-case form, and the tables are all ASCII. So membership comes out the same as with `str.lower`, but the lowered string itself is not modelled.
- Scanner.VideoFileInfo: `relative_path` is a list of components, not the `str(...)` rendering with the platform's separator.
- Paths.JoinInjective: a file name is one path component. pathlib's `/` with `.`, `..` or a name that contains a separator is not modelled, so the lemma holds for the names `os.walk` yields but not for arbitrary strings (`Path('/a') / '.' == Path('/') / 'a'`).
- `Path.resolve` is taken to have happened. Symbolic links are not followed, and Windows' case-insensitive path comparison is not modelled.
- `os.walk` is an input sequence. Its list of subdirectories and its silently ignored listing errors are not modelled. The source does not prune the destination from the walk; it skips each such directory as it comes, and so does the model.
- `stat`, `mkdir` and `shutil.move` only succeed or fail. Their effect on the filesystem, overwriting an existing target, and moves across volumes are not modelled.
- Printed error messages appear only as `AccessError` and `ErrorLogged` events. The message text is not modelled.
- Callbacks are assumed not to raise. In the source, the scan callback and the move progress callback run inside the same `try` as the file operation. An exception from either would be caught: the record stays in the scan result and an error line is printed as well, and in `move_videos` the item would be counted as both moved and an error.
- Mover.MoveVideos: the creation of the destination root is the boolean `destReady`. When it fails, the model returns `Failure`, where the source lets the exception escape.
