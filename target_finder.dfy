/**
 * Analysis of a project's `target` directory: its size (exact, or estimated
 * for very large trees), a representative last-used time sampled from the
 * first files of a walk, and staleness against a threshold. Times are
 * integer seconds; `now` is passed in where the source reads the clock.
 */
module TargetFinder {
  import opened Wrappers
  import opened Counting
  import opened Paths
  import opened Fs

  /** Past this many files with readable metadata the size is estimated. */
  const ExactSizeFileLimit: nat := 10000
  /** `count_directory_entries` stops once its count passes this. */
  const EntryCountCap: nat := 100000
  /** `get_last_accessed_time` stops once it has checked more files than this. */
  const SampleFileLimit: nat := 100
  /** The last-used time assumed when no file is older than the directory: 30 days. */
  const DefaultAgeSeconds: int := 30 * 24 * 60 * 60

  /** `TargetInfo`. */
  datatype TargetInfo = TargetInfo(path: Path, sizeBytes: nat, lastAccessed: int, isStale: bool)

  datatype TargetError = TargetNotFound(path: Path) | MetadataUnavailable(path: Path)

  // ---------------------------------------------------------------- size

  /** Sizes of the files whose metadata could be read, in walk order. */
  function ReadableSizes(files: seq<FileMeta>): seq<nat>
  {
    if files == [] then []
    else
      var last := files[|files| - 1];
      ReadableSizes(files[..|files| - 1]) + (if last.Meta? then [last.size] else [])
  }

  lemma {:induction false} ReadableSizesAppend(a: seq<FileMeta>, b: seq<FileMeta>)
    ensures ReadableSizes(a + b) == ReadableSizes(a) + ReadableSizes(b)
    decreases |b|
  {
    if b == [] {
      assert a + b == a;
    } else {
      assert (a + b)[..|a + b| - 1] == a + b[..|b| - 1];
      ReadableSizesAppend(a, b[..|b| - 1]);
    }
  }

  /** The readable sizes of a prefix of the walk are a prefix of the readable sizes. */
  lemma ReadableSizesPrefix(files: seq<FileMeta>, i: nat)
    requires i <= |files|
    ensures |ReadableSizes(files[..i])| <= |ReadableSizes(files)|
    ensures ReadableSizes(files[..i]) == ReadableSizes(files)[..|ReadableSizes(files[..i])|]
  {
    assert files == files[..i] + files[i..];
    ReadableSizesAppend(files[..i], files[i..]);
  }

  /** One more file of the walk adds its size, if readable, to the sum and the count. */
  lemma ReadableSizesStep(files: seq<FileMeta>, i: nat)
    requires i < |files|
    ensures ReadableSizes(files[..i + 1]) ==
            ReadableSizes(files[..i]) + (if files[i].Meta? then [files[i].size] else [])
    ensures Sum(ReadableSizes(files[..i + 1])) ==
            Sum(ReadableSizes(files[..i])) + (if files[i].Meta? then files[i].size else 0)
  {
    assert files[..i + 1][..i] == files[..i];
    var a := ReadableSizes(files[..i]);
    if files[i].Meta? {
      assert (a + [files[i].size])[..|a|] == a;
    } else {
      assert a + [] == a;
    }
  }

  /** The specified top-level entry count: readable entries, capped just past the cap. */
  function EntryCount(topLevel: Option<seq<bool>>): nat
  {
    match topLevel
    case None => 0
    case Some(entries) => Min(CountTrue(entries), EntryCountCap + 1)
  }

  /**
   * The specified size of a directory: the exact sum when at most
   * `ExactSizeFileLimit` files are readable; otherwise the integer mean
   * of the first `ExactSizeFileLimit + 1` readable sizes times the
   * top-level entry count.
   */
  function DirectorySize(files: seq<FileMeta>, topLevel: Option<seq<bool>>): nat
  {
    var sizes := ReadableSizes(files);
    if |sizes| <= ExactSizeFileLimit then Sum(sizes)
    else (Sum(sizes[..ExactSizeFileLimit + 1]) / (ExactSizeFileLimit + 1)) * EntryCount(topLevel)
  }

  /** Once the estimate is triggered, files later in the walk do not change the size. */
  lemma EstimateIgnoresLaterFiles(files: seq<FileMeta>, more: seq<FileMeta>, topLevel: Option<seq<bool>>)
    requires |ReadableSizes(files)| > ExactSizeFileLimit
    ensures DirectorySize(files + more, topLevel) == DirectorySize(files, topLevel)
  {
    ReadableSizesAppend(files, more);
    var a := ReadableSizes(files);
    assert (a + ReadableSizes(more))[..ExactSizeFileLimit + 1] == a[..ExactSizeFileLimit + 1];
  }

  /** Below the threshold the size is exact and adds up over parts of the walk. */
  lemma ExactSizeAdds(a: seq<FileMeta>, b: seq<FileMeta>, topLevel: Option<seq<bool>>)
    requires |ReadableSizes(a + b)| <= ExactSizeFileLimit
    ensures DirectorySize(a + b, topLevel) == DirectorySize(a, topLevel) + DirectorySize(b, topLevel)
  {
    ReadableSizesAppend(a, b);
    SumAppend(ReadableSizes(a), ReadableSizes(b));
  }

  /** `count_directory_entries`: count readable top-level entries, stopping past the cap. */
  method CountDirectoryEntries(topLevel: Option<seq<bool>>) returns (count: nat)
    ensures count == EntryCount(topLevel)
    ensures count <= EntryCountCap + 1
  {
    count := 0;
    if topLevel.Some? {
      var entries := topLevel.value;
      var i := 0;
      while i < |entries|
        invariant 0 <= i <= |entries|
        invariant count == CountTrue(entries[..i]) <= EntryCountCap
      {
        assert entries[..i + 1][..i] == entries[..i];
        if entries[i] {
          count := count + 1;
          if count > EntryCountCap {
            CountTruePrefix(entries, i + 1);
            break;
          }
        }
        i := i + 1;
      }
      if i == |entries| {
        assert entries[..i] == entries;
      }
    }
  }

  /** `calculate_directory_size`: sum readable sizes, switching to the estimate past the limit. */
  method CalculateDirectorySize(dir: DirListing) returns (size: nat)
    ensures size == DirectorySize(dir.files, dir.topLevel)
  {
    var files := dir.files;
    var total := 0;
    var fileCount := 0;
    var i := 0;
    while i < |files|
      invariant 0 <= i <= |files|
      invariant fileCount == |ReadableSizes(files[..i])| <= ExactSizeFileLimit
      invariant total == Sum(ReadableSizes(files[..i]))
    {
      ReadableSizesStep(files, i);
      if files[i].Meta? {
        total := total + files[i].size;
        fileCount := fileCount + 1;
        if fileCount > ExactSizeFileLimit {
          var average := if fileCount > 0 then total / fileCount else 0;
          // `count_directory_entries` always succeeds, so the estimate is always returned here.
          var entryCount := CountDirectoryEntries(dir.topLevel);
          ReadableSizesPrefix(files, i + 1);
          return average * entryCount;
        }
      }
      i := i + 1;
    }
    assert files[..i] == files;
    return total;
  }

  // ---------------------------------------------------------------- last used

  /** Modification times that could be read, in walk order. */
  function ModTimes(files: seq<FileMeta>): seq<int>
  {
    if files == [] then []
    else
      var last := files[|files| - 1];
      ModTimes(files[..|files| - 1]) + (if last.Meta? && last.modified.Some? then [last.modified.value] else [])
  }

  /** The files `get_last_accessed_time` samples: the first `SampleFileLimit + 1` of the walk. */
  function SampledFiles(files: seq<FileMeta>): seq<FileMeta>
  {
    files[..Min(|files|, SampleFileLimit + 1)]
  }

  /** The earliest of `start` and the times in `ts`. */
  function Oldest(start: int, ts: seq<int>): int
  {
    if ts == [] then start else Min(Oldest(start, ts[..|ts| - 1]), ts[|ts| - 1])
  }

  /** `Oldest` is a lower bound of `start` and of every time in `ts`, and is one of them. */
  lemma {:induction false} OldestIsMinimum(start: int, ts: seq<int>)
    ensures Oldest(start, ts) <= start
    ensures forall i :: 0 <= i < |ts| ==> Oldest(start, ts) <= ts[i]
    ensures Oldest(start, ts) == start || exists i :: 0 <= i < |ts| && Oldest(start, ts) == ts[i]
    decreases |ts|
  {
    if ts != [] {
      var init := ts[..|ts| - 1];
      OldestIsMinimum(start, init);
      assert forall i :: 0 <= i < |init| ==> init[i] == ts[i];
    }
  }

  predicate HasOlder(dirTime: int, ts: seq<int>)
  {
    exists i :: 0 <= i < |ts| && ts[i] < dirTime
  }

  /** Some time is older than the directory exactly when the minimum is. */
  lemma HasOlderIffOldestBelow(dirTime: int, ts: seq<int>)
    ensures HasOlder(dirTime, ts) <==> Oldest(dirTime, ts) < dirTime
  {
    OldestIsMinimum(dirTime, ts);
    if HasOlder(dirTime, ts) {
      var k :| 0 <= k < |ts| && ts[k] < dirTime;
      assert Oldest(dirTime, ts) <= ts[k];
    }
  }

  /** How one more file of the walk moves the oldest time seen. */
  lemma OldestStep(files: seq<FileMeta>, i: nat, dirTime: int)
    requires i < |files|
    ensures var f := files[i];
            var o := Oldest(dirTime, ModTimes(files[..i]));
            Oldest(dirTime, ModTimes(files[..i + 1])) ==
            if f.Meta? && f.modified.Some? then Min(o, f.modified.value) else o
  {
    assert files[..i + 1][..i] == files[..i];
    var ts := ModTimes(files[..i]);
    var f := files[i];
    if f.Meta? && f.modified.Some? {
      var ts' := ts + [f.modified.value];
      assert ModTimes(files[..i + 1]) == ts';
      assert ts'[..|ts|] == ts;
    } else {
      assert ModTimes(files[..i + 1]) == ts + [];
      assert ts + [] == ts;
    }
  }

  /**
   * The specified last-used time of a directory modified at `dirTime`: the
   * oldest sampled file time when some sampled file is strictly older than
   * the directory, and otherwise `now` minus 30 days.
   */
  function LastAccessed(dirTime: int, files: seq<FileMeta>, now: int): int
  {
    var ts := ModTimes(SampledFiles(files));
    if HasOlder(dirTime, ts) then Oldest(dirTime, ts) else now - DefaultAgeSeconds
  }

  /** The last-used time is decided by the oldest sample alone. */
  lemma LastAccessedByOldest(dirTime: int, files: seq<FileMeta>, now: int)
    ensures var o := Oldest(dirTime, ModTimes(SampledFiles(files)));
            LastAccessed(dirTime, files, now) == if o < dirTime then o else now - DefaultAgeSeconds
  {
    HasOlderIffOldestBelow(dirTime, ModTimes(SampledFiles(files)));
  }

  /** When a sampled file is older, the result is the minimum over the directory and the samples: sample `j`. */
  lemma LastAccessedIsOldestSample(dirTime: int, files: seq<FileMeta>, now: int) returns (j: nat)
    requires HasOlder(dirTime, ModTimes(SampledFiles(files)))
    ensures var r := LastAccessed(dirTime, files, now);
            var ts := ModTimes(SampledFiles(files));
            && r < dirTime
            && (forall i :: 0 <= i < |ts| ==> r <= ts[i])
            && j < |ts| && r == ts[j]
  {
    var ts := ModTimes(SampledFiles(files));
    OldestIsMinimum(dirTime, ts);
    var k :| 0 <= k < |ts| && ts[k] < dirTime;
    assert Oldest(dirTime, ts) <= ts[k] < dirTime;
    j :| 0 <= j < |ts| && Oldest(dirTime, ts) == ts[j];
  }

  /** Files after the first `SampleFileLimit + 1` of the walk never matter. */
  lemma LastAccessedIgnoresUnsampled(dirTime: int, files: seq<FileMeta>, more: seq<FileMeta>, now: int)
    requires |files| > SampleFileLimit
    ensures LastAccessed(dirTime, files + more, now) == LastAccessed(dirTime, files, now)
  {
    assert SampledFiles(files + more) == SampledFiles(files);
  }

  /** Where the sampling loop stops, its state gives the specified last-used time. */
  lemma SampleLoopExit(dirTime: int, files: seq<FileMeta>, now: int, i: nat, lastModified: int, foundOlderFile: bool)
    requires (i == |files| && i <= SampleFileLimit) || (i == SampleFileLimit + 1 && i <= |files|)
    requires lastModified == Oldest(dirTime, ModTimes(files[..i]))
    requires foundOlderFile <==> lastModified < dirTime
    ensures LastAccessed(dirTime, files, now) == if foundOlderFile then lastModified else now - DefaultAgeSeconds
  {
    assert files[..i] == SampledFiles(files);
    LastAccessedByOldest(dirTime, files, now);
  }

  /** `get_last_accessed_time`. */
  method GetLastAccessedTime(dirPath: Path, dir: DirListing, now: int) returns (r: Result<int, TargetError>)
    ensures dir.modified.None? ==> r == Failure(MetadataUnavailable(dirPath))
    ensures dir.modified.Some? ==> r == Success(LastAccessed(dir.modified.value, dir.files, now))
  {
    if dir.modified.None? {
      return Failure(MetadataUnavailable(dirPath));
    }
    var dirTime := dir.modified.value;
    var files := dir.files;
    var lastModified := dirTime;
    var filesChecked := 0;
    var foundOlderFile := false;
    var i := 0;
    while i < |files|
      invariant 0 <= i <= |files| && i <= SampleFileLimit
      invariant filesChecked == i
      invariant lastModified == Oldest(dirTime, ModTimes(files[..i]))
      invariant lastModified <= dirTime
      invariant foundOlderFile <==> lastModified < dirTime
    {
      OldestStep(files, i, dirTime);
      if files[i].Meta? && files[i].modified.Some? {
        var modified := files[i].modified.value;
        if modified < lastModified && !foundOlderFile {
          lastModified := modified;
          foundOlderFile := true;
        }
        if modified < lastModified {
          lastModified := modified;
        }
      }
      filesChecked := filesChecked + 1;
      if filesChecked > SampleFileLimit {
        i := i + 1;
        assert lastModified == Oldest(dirTime, ModTimes(files[..i]));
        assert foundOlderFile <==> lastModified < dirTime;
        break;
      }
      i := i + 1;
    }
    SampleLoopExit(dirTime, files, now, i, lastModified, foundOlderFile);
    if !foundOlderFile {
      return Success(now - DefaultAgeSeconds);
    }
    return Success(lastModified);
  }

  // ---------------------------------------------------------------- staleness

  /** `now.duration_since(earlier)`, or zero when `earlier` is later than `now`. */
  function DurationSince(now: int, earlier: int): (d: nat)
    ensures d >= now - earlier
    ensures d == 0 || d == now - earlier
  {
    if now >= earlier then now - earlier else 0
  }

  /** `is_stale`: at least `threshold` seconds passed since the last use, never negative. */
  function IsStale(t: TargetInfo, threshold: nat, now: int): (r: bool)
    ensures r <==> threshold == 0 || now - t.lastAccessed >= threshold
  {
    DurationSince(now, t.lastAccessed) >= threshold
  }

  /** Once stale, a target stays stale as time goes on. */
  lemma StaleIsMonotone(t: TargetInfo, threshold: nat, now: int, later: int)
    requires now <= later && IsStale(t, threshold, now)
    ensures IsStale(t, threshold, later)
  {
  }

  /** A last-used time in the future is not stale for any positive threshold. */
  lemma FutureIsFresh(t: TargetInfo, threshold: nat, now: int)
    requires now < t.lastAccessed && threshold > 0
    ensures !IsStale(t, threshold, now)
  {
  }

  /** `update_stale_status`: recompute `is_stale`, leaving every other field as it was. */
  function UpdateStaleStatus(t: TargetInfo, threshold: nat, now: int): (r: TargetInfo)
    ensures r.isStale == IsStale(t, threshold, now)
    ensures r.path == t.path && r.sizeBytes == t.sizeBytes && r.lastAccessed == t.lastAccessed
  {
    t.(isStale := IsStale(t, threshold, now))
  }

  // ---------------------------------------------------------------- target info

  /** The specified outcome of `find_target_info` for a project directory. */
  function TargetInfoOf(fs: FileSystem, projectPath: Path, now: int): Result<TargetInfo, TargetError>
  {
    var targetPath := Join(projectPath, "target");
    if targetPath !in fs.existing || targetPath !in fs.dirs then Failure(TargetNotFound(targetPath))
    else
      var dir := fs.dirs[targetPath];
      if dir.modified.None? then Failure(MetadataUnavailable(targetPath))
      else Success(TargetInfo(targetPath, DirectorySize(dir.files, dir.topLevel),
                              LastAccessed(dir.modified.value, dir.files, now), false))
  }

  /** `find_target_info`: analyse `project/target`, failing when it is not an existing directory. */
  method FindTargetInfo(fs: FileSystem, projectPath: Path, now: int) returns (r: Result<TargetInfo, TargetError>)
    ensures r == TargetInfoOf(fs, projectPath, now)
    ensures r.Failure? <==> var t := Join(projectPath, "target");
                           t !in fs.existing || t !in fs.dirs || fs.dirs[t].modified.None?
    ensures r.Success? ==> r.value.path == Join(projectPath, "target") && !r.value.isStale
  {
    var targetPath := Join(projectPath, "target");
    if targetPath !in fs.existing || targetPath !in fs.dirs {
      return Failure(TargetNotFound(targetPath));
    }
    var dir := fs.dirs[targetPath];
    var sizeBytes := CalculateDirectorySize(dir);
    var lastAccessed := GetLastAccessedTime(targetPath, dir, now);
    if lastAccessed.Failure? {
      return Failure(lastAccessed.error);
    }
    // Staleness is decided later, by `update_stale_status`.
    var isStale := false;
    return Success(TargetInfo(targetPath, sizeBytes, lastAccessed.value, isStale));
  }
}
