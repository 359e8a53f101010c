# Rust `target/` cleaner — a Dafny model

This project models a command-line tool that finds Rust projects under a
set of search roots, measures each project's `target` build directory,
marks the ones not used for a while as stale, and lets the operator pick
directories to delete. The picking happens in a terminal UI, and the
deletion can be a dry run. The model covers these parts:

- **Path filters** (`PathFilter`): `is_excluded` and `is_ignored_path`.
- **Scanner** (`Scanner`): building a scanner over existing roots, the
  pruned walk of each root, turning `Cargo.toml` entries into projects,
  and concatenating the per-root results.
- **Manifest name extraction** (`RustProjects`): the line-by-line
  `[package]` / `name =` reading, with the directory name as fallback.
- **Target analysis** (`TargetFinder`): the exact or estimated size, the
  sampled last-used time, and staleness.
- **Cleaner** (`Cleaner`): deleting, or only accounting for, the selected
  target directories, and collecting the errors.
- **TUI state machine** (`Tui`): focus, selection and the freed-space
  total, confirmation, cleanup and progress, and the event loop.

The outside world is given as values. `Fs.FileSystem` is a snapshot of:
- the paths that exist;
- each directory's own modification time, its files in walk order, and
  its readable top-level entries;
- the lines of each readable text file;
- the directory tree a walk from each root yields.

`Cleaner.DiskState` holds the paths present on disk and, for each path
whose recursive removal would fail, the reason it fails. The clock is an
integer parameter `now`, counted in seconds. The key events are a finite
sequence.

Two loops of the source have no method: the early-return `for` loops of
`is_excluded` and `is_ignored_path` are modelled only as the recursive
predicates `PathFilter.IsExcluded` and `PathFilter.IsIgnoredPath`, which
recurse from the front over the pattern list. Every other loop is a
method with loop invariants, proved to compute a specification function;
the properties are lemmas about those functions. Most of these functions
are defined from the last element back. `FirstNameLineFrom` recurses from
the front because the manifest loop stops at the first name line, and
`Visited` and `VisitedAll` because the walk starts at its root. Iterator
chains that only filter or count, with no loop of their own, are plain
functions: `NotIgnored` and `CountTrue`. The TUI is a
class `CleanerTui` holding an `AppState` object. Each handler is proved
to move `Current()` exactly as a function on `Session` values says. The
lemmas about those functions state what the UI promises.

## Behaviour the model follows

Several behaviours of the code differ from what a reader of its help
texts and comments would expect. The model follows the code in each case
and proves the consequence:

- `is_ignored_path` is plain substring containment. Its two prefix tests
  never add a match (`EntryMatchesIffContains`). So an entry `/a/b` also
  ignores `/a/bc` (`PartialNameIgnored`), and ignoring is the same test as
  excluding (`IgnoredIsExcludedByEntries`).
- The ignore check inside the `find_projects` loop is dead. The roots
  were filtered by the same test already.
- `count_directory_entries` stops only after its count passes 100,000, so
  it can return 100,001 (`CountDirectoryEntries`).
- `get_last_accessed_time` breaks only after it has checked more than 100
  files, so it samples up to 101 (`SampledFiles`). It falls back to
  "now minus 30 days" whenever no sampled file is strictly older than the
  directory itself. That includes the case where file times were read
  (`LastAccessedByOldest`).
- The size estimate is computed at the 10,001st readable file. It is the
  integer mean of the sizes read so far times the top-level entry count
  (`DirectorySize`).
- `delete_target_directory` treats a target that no longer exists as
  deleted. Its recorded size is counted as freed and no error is reported
  (`VanishedTargetCountsAsFreed`).
- `perform_cleanup` calls `clean_selected_projects` once for each selected
  project that has a target, each time over the whole selection. The
  first call does the work, and the later ones report the same result
  (`CleanupIsIdempotent`).
- The run loop exits as soon as the mode is Complete. Cleanup and Ctrl-C
  both end in Complete. So the Complete-mode keys ('d' toggles dry run,
  'r' returns to Browse) are never handled; neither is Cleaning mode
  (`OnlyInteractiveHandled`, `RunStopsAtComplete`).
- The key 'q' is offered in the help texts, but Browse mode does nothing
  with it (`QuitKeyIgnoredInBrowse`).
- A manifest line counts as the name line when, trimmed, it starts with
  `name` and holds an `=`. A key such as `namespace = ...` inside
  `[package]` therefore also matches (`IsNameLine`).

## Model

| member | source | states |
|---|---|---|
| PathFilter.IsExcluded | src/scanner/rust_project_scaner.rs:134-144 | excluded iff some pattern of the list is contained in the path string |
| PathFilter.ExcludedIffOccurs | src/scanner/rust_project_scaner.rs:134-144 | excluded iff some pattern occurs in the path at some offset |
| PathFilter.ExcludedWherever | src/scanner/rust_project_scaner.rs:137-141 | a pattern occurring anywhere in the path excludes it |
| PathFilter.ExcludedBoundaryCases | src/scanner/rust_project_scaner.rs:137-143 | no patterns exclude nothing; the empty pattern excludes every path |
| PathFilter.IsIgnoredPath | src/scanner/rust_project_scaner.rs:148-189 | ignored iff one of the three substring/prefix tests holds for some ignore entry |
| PathFilter.EntryMatchesIffContains | src/scanner/rust_project_scaner.rs:150-185 | the three tests for one entry together hold iff the entry is a substring of the path |
| PathFilter.IgnoredIffSomeEntryOccurs | src/scanner/rust_project_scaner.rs:148-189 | ignored iff some ignore entry is a substring of the path |
| PathFilter.EntryAndDescendantsIgnored | src/scanner/rust_project_scaner.rs:165-184 | an ignore entry and every path below it (entry + "/" + rest) are ignored |
| PathFilter.NoIgnoresNothingIgnored | src/scanner/rust_project_scaner.rs:148-189 | with an empty ignore list no path is ignored |
| PathFilter.IgnoredIsExcludedByEntries | src/scanner/rust_project_scaner.rs:148-189 | ignoring by a list equals excluding by the same strings as patterns |
| PathFilter.PartialNameIgnored | src/scanner/rust_project_scaner.rs:151-156 | the entry /a/b ignores the sibling /a/bc |
| Scanner.NewWithIgnores | src/scanner/rust_project_scaner.rs:26-43 | fails iff some search path does not exist, naming the first missing one; otherwise keeps the three lists as given |
| Scanner.New | src/scanner/rust_project_scaner.rs:18-23 | the same outcome as NewWithIgnores with no ignore paths |
| Scanner.Visited | src/scanner/rust_project_scaner.rs:94-99 | a pruned walk yields something iff its root passes the filter, and then yields the root first |
| Scanner.VisitedAll | src/scanner/rust_project_scaner.rs:94-99 | the walks of a list of subtrees yield every subtree root that passes the filter |
| Scanner.VisitedAdmitted | src/scanner/rust_project_scaner.rs:94-99 | every entry a pruned walk yields is neither excluded nor ignored |
| Scanner.VisitedAllAdmitted | src/scanner/rust_project_scaner.rs:94-99 | the same for the walks of a list of subtrees |
| Scanner.DiscoveredStep | src/scanner/rust_project_scaner.rs:100-121 | one more walked entry appends exactly the project its manifest yields, or nothing |
| Scanner.DiscoveredAtMostEntries | src/scanner/rust_project_scaner.rs:100-121 | a scan finds at most one project per walked entry |
| Scanner.ManifestOf | src/scanner/rust_project_scaner.rs:109-119 | each found project is the accepted project of some walked Cargo.toml entry, returned by index |
| Scanner.AcceptedHasTarget | src/scanner/rust_project_scaner.rs:111-117 | an accepted manifest gives a project at the manifest's parent, with target info for parent/target |
| Scanner.ScannedProjectsAdmitted | src/scanner/rust_project_scaner.rs:94-119 | every project of a root's scan has target info and sits beside an admitted Cargo.toml of the walk |
| Scanner.ScanPath | src/scanner/rust_project_scaner.rs:88-130 | the projects found equal the specification Discovered over the pruned walk, in walk order |
| Scanner.NotIgnoredMembers | src/scanner/rust_project_scaner.rs:50-54 | a root is kept iff it is a search path that is not ignored; no more roots than search paths |
| Scanner.FilteredRootNotIgnored | src/scanner/rust_project_scaner.rs:50-66 | no filtered root is ignored, so the second ignore check in the loop never skips one |
| Scanner.NothingIgnoredScansAll | src/scanner/rust_project_scaner.rs:50-54 | with no ignore paths every search path is kept, in order |
| Scanner.ScanAllStep | src/scanner/rust_project_scaner.rs:62-82 | scanning one more root appends exactly that root's projects |
| Scanner.ScanAllHaveTargets | src/scanner/rust_project_scaner.rs:62-84 | every project of the full scan has target info |
| Scanner.FindProjects | src/scanner/rust_project_scaner.rs:46-85 | the result is the concatenation of the scans of the non-ignored roots, in root order, each project with target info |
| TargetFinder.ReadableSizesAppend | src/scanner/target_finder.rs:57-59 | the readable sizes of a concatenated walk are the concatenated readable sizes |
| TargetFinder.ReadableSizesPrefix | src/scanner/target_finder.rs:57-59 | the readable sizes of a prefix of the walk are a prefix of the readable sizes |
| TargetFinder.ReadableSizesStep | src/scanner/target_finder.rs:57-61 | one more file adds its size, when readable, to the sizes and to their sum |
| TargetFinder.EstimateIgnoresLaterFiles | src/scanner/target_finder.rs:64-75 | once more than 10,000 files are readable, files later in the walk do not change the size |
| TargetFinder.ExactSizeAdds | src/scanner/target_finder.rs:57-81 | up to 10,000 readable files the size is exact and additive over parts of the walk |
| TargetFinder.CountDirectoryEntries | src/scanner/target_finder.rs:135-150 | counts readable top-level entries, stopping once the count passes 100,000 (so at most 100,001); 0 when unreadable |
| TargetFinder.CalculateDirectorySize | src/scanner/target_finder.rs:46-82 | the exact sum up to 10,000 readable files, otherwise the integer mean of the first 10,001 times the entry count |
| TargetFinder.OldestIsMinimum | src/scanner/target_finder.rs:103-111 | the oldest time is at most the start and every sampled time, and equals one of them |
| TargetFinder.HasOlderIffOldestBelow | src/scanner/target_finder.rs:103-106 | some sampled time is older than the directory iff the oldest is |
| TargetFinder.OldestStep | src/scanner/target_finder.rs:98-112 | one more file lowers the oldest time to its modification time when that is readable and older |
| TargetFinder.LastAccessedByOldest | src/scanner/target_finder.rs:85-131 | the result is the oldest sampled time when it is below the directory time, else now minus 30 days |
| TargetFinder.LastAccessedIsOldestSample | src/scanner/target_finder.rs:98-131 | when a sampled file is older, the result is below the directory time, at most every sample, and equal to the sample whose index it returns |
| TargetFinder.LastAccessedIgnoresUnsampled | src/scanner/target_finder.rs:115-121 | files after the first 101 never change the result |
| TargetFinder.SampleLoopExit | src/scanner/target_finder.rs:115-131 | at either loop exit, the loop's state gives the specified last-used time |
| TargetFinder.GetLastAccessedTime | src/scanner/target_finder.rs:85-132 | fails iff the directory's modification time is unreadable; otherwise returns the specified last-used time |
| TargetFinder.DurationSince | src/scanner/target_finder.rs:155-157 | the elapsed time, or zero when the earlier time lies in the future; never negative |
| TargetFinder.IsStale | src/scanner/target_finder.rs:153-160 | stale iff the threshold is zero or at least threshold seconds passed since the last use |
| TargetFinder.StaleIsMonotone | src/scanner/target_finder.rs:155-159 | a stale target stays stale at any later time |
| TargetFinder.FutureIsFresh | src/scanner/target_finder.rs:155-159 | a last use in the future is not stale for a positive threshold |
| TargetFinder.UpdateStaleStatus | src/scanner/target_finder.rs:163-169 | the stale flag is recomputed; path, size and last-used time are unchanged |
| TargetFinder.FindTargetInfo | src/scanner/target_finder.rs:24-43 | fails iff project/target is not an existing directory or its time is unreadable; success carries that path, the size, the last-used time and stale = false |
| RustProjects.FirstNameLineFrom | src/scanner/rust_project.rs:51-69 | the first line at or after i that lies in [package], starts with name and has an =, and no earlier one |
| RustProjects.InPackageStep | src/scanner/rust_project.rs:54-62 | [package] enters the section, any other header leaves it, other lines keep the state |
| RustProjects.NameLineStep | src/scanner/rust_project.rs:59-69 | with the tracked state, line i is the name line iff in package, starts with name and has an =; a header never is |
| RustProjects.ExtractProjectName | src/scanner/rust_project.rs:43-82 | unreadable file fails; else the value of the first name line, else the directory name, else an error |
| RustProjects.NameFromFirstPackageLine | src/scanner/rust_project.rs:64-68 | the name comes from the first name line, and that line lies in a [package] section |
| RustProjects.NameFallback | src/scanner/rust_project.rs:72-81 | without a name line the directory name is used, and without one the extraction fails |
| RustProjects.OtherHeaderEndsSection | src/scanner/rust_project.rs:59-62 | after another header, no line before the next [package] is a name line |
| RustProjects.FallbackIsProjectDirName | src/scanner/rust_project.rs:73-76 | for dir/Cargo.toml the fallback name is the file name of dir |
| RustProjects.FromPath | src/scanner/rust_project.rs:17-34 | fails iff the directory or its Cargo.toml is missing or the name cannot be found; success has that path and no target info |
| RustProjects.WithTargetInfo | src/scanner/rust_project.rs:37-40 | attaches the target info, keeping path and name |
| RustProjects.NameLineExample | src/scanner/rust_project.rs:51-64 | in [package] then name="x", the second line is the name line |
| RustProjects.SecondFieldExample | src/scanner/rust_project.rs:65 | the second =-field of name="x" is "x" with its quotes |
| RustProjects.QuotesExample | src/scanner/rust_project.rs:66 | trimming strips the surrounding double quotes |
| RustProjects.NameValueExample | src/scanner/rust_project.rs:65-67 | the value of name="x" is x |
| RustProjects.ManifestNameExample | src/scanner/rust_project.rs:43-68 | the two-line manifest [package] / name="x" declares the name x |
| Text.Contains | src/scanner/rust_project_scaner.rs:138 | a prefix is contained, and a contained pattern is no longer than the string |
| Text.ContainsIff | src/scanner/rust_project_scaner.rs:138 | contains holds iff the pattern occurs at some offset |
| Text.OccursAtShift | src/scanner/rust_project_scaner.rs:138 | an occurrence past the first character is an occurrence in the rest of the string |
| Text.OccursAtZero | src/scanner/rust_project_scaner.rs:167 | an occurrence at offset 0 is exactly a prefix |
| Text.OccursAtContains | src/scanner/rust_project_scaner.rs:138 | an occurrence anywhere makes contains true |
| Text.StartsWithContains | src/scanner/rust_project_scaner.rs:173 | a prefix is contained |
| Text.IndexOf | src/scanner/rust_project.rs:65 | the first position of the character, or none iff it does not occur |
| Text.LastIndexOf | src/scanner/rust_project.rs:73 | the last position of the separator, or none iff it does not occur |
| Text.SecondField | src/scanner/rust_project.rs:65 | none iff there is no separator; otherwise the text between the first separator and the next one or the end |
| Text.Trim | src/scanner/rust_project.rs:52 | trimming never lengthens, and the result neither starts nor ends with whitespace |
| Text.TrimStartMatchesIsSuffix | src/scanner/rust_project.rs:66 | trimming the front drops exactly a run of matching characters |
| Text.TrimEndMatchesIsPrefix | src/scanner/rust_project.rs:66 | trimming the back drops exactly a run of matching characters |
| Text.TrimMatchesIsMiddle | src/scanner/rust_project.rs:52-66 | trimming keeps a middle slice that neither starts nor ends with a match, and everything cut off matches |
| Paths.Join | src/scanner/rust_project.rs:22 | the result is the base, at most one separator, then the name; a separator is added after a base not ending in one |
| Paths.Parent | src/scanner/rust_project_scaner.rs:112 | only the empty path and the root have no parent; a parent is a shorter prefix, empty iff the path has no separator, otherwise the root or the part before the last separator |
| Paths.FileName | src/scanner/rust_project.rs:74 | a file name is a plain component name that ends the path and is preceded by a separator or is the whole path |
| Paths.ParentOfJoin | src/scanner/rust_project.rs:73 | the parent of base joined with a component name is base |
| Paths.FileNameOfJoin | src/scanner/rust_project.rs:74 | the file name of base joined with a component name is that name |
| Counting.SumAppend | src/scanner/target_finder.rs:57-59 | sums add over concatenation |
| Counting.CountTrueBounds | src/ui/tui.rs:209-211 | the count of true flags is at most the length, and positive iff some flag is true |
| Counting.CountTruePrefix | src/scanner/target_finder.rs:139-145 | counting a prefix never gives more than counting the whole |
| Counting.CountTrueAllFalse | src/ui/tui.rs:107 | an all-false selection counts zero |
| Cleaner.DeleteTargetDirectory | src/cleaner/targer_cleaner.rs:64-73 | fails iff the path exists and its removal fails, with the reason; otherwise the path is no longer present and nothing else changes |
| Cleaner.DeleteTwiceIsDeleteOnce | src/cleaner/targer_cleaner.rs:66-68 | deleting a just-deleted path succeeds and changes nothing |
| Cleaner.CleanSelectedProjects | src/cleaner/targer_cleaner.rs:11-61 | freed bytes, errors and the new disk equal the specifications Freed, Errors and DiskAfter |
| Cleaner.RemovedAvoidsFailing | src/cleaner/targer_cleaner.rs:36-51 | a path whose removal fails is never removed |
| Cleaner.RemovedIff | src/cleaner/targer_cleaner.rs:19-54 | a path is removed iff not a dry run, its removal does not fail, and it is the target of a selected project |
| Cleaner.DryRunChangesNothing | src/cleaner/targer_cleaner.rs:26-34 | a dry run frees the whole selected size, reports no error and leaves the disk unchanged |
| Cleaner.FreedPlusFailed | src/cleaner/targer_cleaner.rs:33-50 | freed plus failed bytes equal the selected size |
| Cleaner.NoErrorsFreesAll | src/cleaner/targer_cleaner.rs:36-51 | without errors nothing failed and the whole selected size is freed |
| Cleaner.ErrorsAreFailingTargets | src/cleaner/targer_cleaner.rs:20-53 | each error names an existing, unremovable target of a selected project with its reason; there are at most as many errors as selected projects with a target; none in a dry run |
| Cleaner.VanishedTargetCountsAsFreed | src/cleaner/targer_cleaner.rs:66-68 | a selected target already gone counts as freed with no error |
| Cleaner.SameFailuresSameOutcome | src/cleaner/targer_cleaner.rs:36-51 | removing removable paths beforehand does not change what is freed or reported |
| Cleaner.CleanupIsIdempotent | src/cleaner/targer_cleaner.rs:11-61 | cleaning again on the disk left behind frees the same, reports the same and changes nothing |
| Tui.StaleStatusOnlyMarks | src/ui/tui.rs:93-104 | the recomputed list keeps every project's path, name and target presence and only updates the stale flag |
| Tui.StaleStatusKeepsSizes | src/ui/tui.rs:93-104 | the size a selection implies is the same before and after the recomputation |
| Tui.InitialSelectsNothing | src/ui/tui.rs:107-121 | the initial state is well formed, selects nothing and implies zero bytes |
| Tui.NothingSelectedNoSize | src/ui/tui.rs:374-383 | an all-false selection implies zero bytes |
| Tui.BrowseKey | src/ui/tui.rs:176-234 | browse handling keeps the selection vector index-aligned and the focus in range |
| Tui.AfterCleanup | src/ui/tui.rs:288-371 | the cleanup outcome keeps the state well formed |
| Tui.ConfirmKey | src/ui/tui.rs:237-251 | confirm handling keeps the state well formed |
| Tui.CompleteKey | src/ui/tui.rs:260-285 | 'd' flips dry-run mode and reports the new mode, 'r' returns to browsing, other keys change nothing; selection, focus, total and disk are kept |
| Tui.Dispatch | src/ui/tui.rs:156-161 | dispatching by mode keeps the state well formed |
| Tui.Step | src/ui/tui.rs:155-162 | handling one event keeps the state well formed |
| Tui.RunFinal | src/ui/tui.rs:133-168 | the loop's final state is well formed |
| Tui.RunFinalStep | src/ui/tui.rs:155-167 | one loop turn handles the next event and stops iff the mode became Complete |
| Tui.UpUndoesDown | src/ui/tui.rs:178-193 | Down then Up, with any modifiers, returns to the same state when Down was not clamped |
| Tui.FocusIsClamped | src/ui/tui.rs:181-193 | Up and Down move the focus by one with saturation at both ends; other keys keep it |
| Tui.ToggleFlipsFocused | src/ui/tui.rs:195-204 | Space with any modifiers does nothing on an empty list, and otherwise flips exactly the focused flag and sets the total to the new selection's size |
| Tui.ToggleTwiceRestores | src/ui/tui.rs:199-203 | Space twice, with any modifiers, restores the selection, with the total consistent with it |
| Tui.SelectedSizePointUpdate | src/ui/tui.rs:374-383 | changing one flag changes the implied size by that project's target size |
| Tui.ToggleAdjustsTotal | src/ui/tui.rs:199-203 | for Space with any modifiers, selecting adds the focused target's size to a consistent total; deselecting subtracts it |
| Tui.EnterConfirmsIffSelection | src/ui/tui.rs:209-219 | Enter with any modifiers reaches Confirm iff some project is selected; otherwise only the status changes |
| Tui.CtrlCCompletesWithoutCleaning | src/ui/tui.rs:222-229 | Ctrl-C in Browse only sets the mode to Complete |
| Tui.QuitKeyIgnoredInBrowse | src/ui/tui.rs:177-233 | q with any modifiers changes nothing in Browse |
| Tui.CancelKeepsSelection | src/ui/tui.rs:244-247 | n, N and Esc return to Browse keeping selection, focus, total, disk and configuration |
| Tui.ConfirmIgnoresOtherKeys | src/ui/tui.rs:238-250 | keys other than y, Y, n, N and Esc change nothing in Confirm |
| Tui.ConfirmYesCompletes | src/ui/tui.rs:239-243 | y or Y ends in Complete with full progress, selection kept; the total is the cleaner's result, or unchanged when no selected project has a target |
| Tui.DryRunConfirmReportsSelection | src/ui/tui.rs:320-343 | a dry run confirmed with y or Y, with any modifiers, leaves the disk unchanged and reports the whole selected size |
| Tui.LiveConfirmRemovesTargets | src/ui/tui.rs:320-348 | a live run confirmed with y or Y, with any modifiers, removes exactly the removable selected targets from the disk |
| Tui.DryRunToggleTwice | src/ui/tui.rs:262-271 | d twice in Complete restores the configuration |
| Tui.ResetKeepsSelection | src/ui/tui.rs:272-278 | r in Complete returns to Browse keeping the selection, total and configuration |
| Tui.StepFromInteractive | src/ui/tui.rs:156-161 | from Browse or Confirm an event leads to Browse, Confirm or Complete |
| Tui.OnlyInteractiveHandled | src/ui/tui.rs:133-168 | started in Browse or Confirm, the loop handles every event in Browse or Confirm, never in Cleaning or Complete |
| Tui.RunStopsAtComplete | src/ui/tui.rs:164-167 | if the loop stops before the events run out it is in Complete, and later events make no difference |
| Tui.TargetedWithinSelected | src/ui/tui.rs:289-297 | cleaner runs never outnumber selected projects, so progress never passes one |
| Tui.ThreeProjectDryRun | src/ui/tui.rs:93-104 | with a seven-day threshold only the ten-day-old target is stale, and a dry run over three projects frees 10 + 2048 bytes |
| Tui.AppState.constructor | src/ui/tui.rs:106-121 | focus 0, nothing selected, Browse, the help status, zero total and zero progress |
| Tui.CleanerTui.constructor | src/ui/tui.rs:78-129 | the projects with staleness recomputed, the given configuration and a fresh initial state |
| Tui.CleanerTui.UpdateTotalFreedSpace | src/ui/tui.rs:374-383 | the total becomes the size of the selected targets; nothing else changes |
| Tui.CleanerTui.HandleBrowseMode | src/ui/tui.rs:176-234 | the new state is BrowseKey of the old one |
| Tui.CleanerTui.PerformCleanup | src/ui/tui.rs:288-371 | the new session is AfterCleanup of the old one |
| Tui.CleanerTui.HandleConfirmMode | src/ui/tui.rs:237-251 | the new session is ConfirmKey of the old one |
| Tui.CleanerTui.HandleCleaningMode | src/ui/tui.rs:254-257 | nothing changes |
| Tui.CleanerTui.HandleCompleteMode | src/ui/tui.rs:260-285 | the new session is CompleteKey of the old one |
| Tui.CleanerTui.ShouldExit | src/ui/tui.rs:666-668 | true iff the mode is Complete |
| Tui.CleanerTui.RunInternal | src/ui/tui.rs:132-173 | the final session is RunFinal of the initial one over the events |

## Left out

- TargetFinder.CalculateDirectorySize: sizes are unbounded naturals. The `u64` sum, and the estimate `avg_size * dir_entry_count`, are not wrapped at 2^64.
- Cleaner.CleanSelectedProjects: `total_freed` is not wrapped at 2^64.
- Tui.CleanerTui.UpdateTotalFreedSpace: `total_freed_space` is not wrapped at 2^64.
- `SystemTime` and `Duration` are integer seconds. `SystemTime::now()` is the parameter `now`, so the clock reads inside `get_last_accessed_time` and `is_stale` are taken as one instant.
- Walks are given as trees of entries already in walkdir's order. Error entries, which `filter_map(Result::ok)` drops, and symbolic links are not modelled; `follow_links(false)` and `max_open` have no counterpart.
- A walk entry's `fileName` and its children's paths are given with the tree rather than derived from its `path`, and a recorded tree's root path is not tied to its key in `walks`; the lemmas about a scan take the tree as given.
- Paths.FileName: paths with `.` components are outside the model, so `file_name` on `a/.`, which Rust answers with `a`, is not matched (the model answers `None`).
- A file whose metadata cannot be read is `Unreadable`. In `calculate_directory_size` it adds neither size nor count; in `get_last_accessed_time` it still counts as checked. Non-file entries are not part of the file list.
- Paths are strings with `/` as the separator, and `MAIN_SEPARATOR` is `/`. `to_string_lossy` is the identity. `chars().nth` indexes characters, so non-ASCII byte offsets (`len()` is in bytes) are not modelled. Paths are not normalised.
- `read_to_string` followed by `lines()` is the list of lines of a readable file. `to_str` failing on a non-UTF-8 directory name is not modelled.
- Error values are structured datatypes rather than the source's formatted strings.
- Status messages are `Status` constructors with the raw byte counts. The text and `format_bytes`, which uses floating point, are not modelled. `cleanup_progress` is the fraction `cleaned / total_to_clean` rather than an `f32`.
- Drawing, `ListState`, terminal setup and restore, `clear_terminal`, and `println!`/`eprintln!` output are not modelled. The `directories_scanned` and `cargo_files_found` counters are left out because they are only printed.
- Key modifiers other than shift, control and alt (`SUPER`, `HYPER`, `META`) are the single constructor `OtherModifier`, since no handler tests them.
- `event::read` is a finite sequence of events. A terminal read error and the loop running past the end of the events are not modelled.
- The `Err` branch of `clean_selected_projects` inside `perform_cleanup` is not modelled, because the cleaner always returns `Ok`. The same holds for the `?` on `update_stale_status` and on `scan_path`: neither can fail. `scan_path` and `find_projects` therefore return plain sequences.
- Deleting a target changes only the `DiskState`. The scan snapshot `FileSystem` is separate from it, and the removal of a whole subtree is one path leaving `present`.
- `src/config.rs`, `src/app.rs`, `src/main.rs` and `src/ui/mod.rs` (argument handling, wiring and the `UI` trait) are not part of this model. Neither is the unused `RustProject::target_path`.
