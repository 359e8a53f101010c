/**
 * `RustProjectScanner`: walks each search root, pruning excluded and
 * ignored entries before descending, and turns every manifest it meets
 * into a project when both its name and its target directory can be
 * resolved. The walk itself is the tree recorded in the filesystem snapshot.
 */
module Scanner {
  import opened Wrappers
  import opened Paths
  import opened Fs
  import opened PathFilter
  import opened TargetFinder
  import opened RustProjects

  /** `RustProjectScanner`: fixed once constructed. */
  datatype RustProjectScanner = RustProjectScanner(
    searchPaths: seq<Path>,
    excludePatterns: seq<string>,
    ignorePaths: seq<Path>)

  datatype ScannerError = SearchPathMissing(path: Path)

  // ---------------------------------------------------------------- construction

  /** `new_with_ignores`: fail on the first search path that does not exist, else keep all three lists. */
  method NewWithIgnores(fs: FileSystem, searchPaths: seq<Path>, excludePatterns: seq<string>, ignorePaths: seq<Path>)
    returns (r: Result<RustProjectScanner, ScannerError>)
    ensures r.Failure? <==> exists i :: 0 <= i < |searchPaths| && searchPaths[i] !in fs.existing
    ensures r.Failure? ==> exists i :: 0 <= i < |searchPaths| && r.error == SearchPathMissing(searchPaths[i]) &&
                                      forall j :: 0 <= j < i ==> searchPaths[j] in fs.existing
    ensures r.Success? ==> r.value == RustProjectScanner(searchPaths, excludePatterns, ignorePaths)
  {
    for i := 0 to |searchPaths|
      invariant forall j :: 0 <= j < i ==> searchPaths[j] in fs.existing
    {
      if searchPaths[i] !in fs.existing {
        return Failure(SearchPathMissing(searchPaths[i]));
      }
    }
    return Success(RustProjectScanner(searchPaths, excludePatterns, ignorePaths));
  }

  /** `new`: the same, with no ignore paths. */
  method New(fs: FileSystem, searchPaths: seq<Path>, excludePatterns: seq<string>)
    returns (r: Result<RustProjectScanner, ScannerError>)
    ensures r.Failure? <==> exists i :: 0 <= i < |searchPaths| && searchPaths[i] !in fs.existing
    ensures r.Failure? ==> exists i :: 0 <= i < |searchPaths| && r.error == SearchPathMissing(searchPaths[i]) &&
                                      forall j :: 0 <= j < i ==> searchPaths[j] in fs.existing
    ensures r.Success? ==> r.value == RustProjectScanner(searchPaths, excludePatterns, [])
  {
    r := NewWithIgnores(fs, searchPaths, excludePatterns, []);
  }

  // ---------------------------------------------------------------- the walk

  /** The walk's entry filter: neither excluded nor ignored. */
  predicate Admits(s: RustProjectScanner, path: Path)
  {
    !IsExcluded(path, s.excludePatterns) && !IsIgnoredPath(path, s.ignorePaths)
  }

  /** The entries a walk of `e` yields, in order; a rejected entry is not descended into. */
  function Visited(s: RustProjectScanner, e: WalkEntry): (r: seq<WalkEntry>)
    ensures r != [] <==> Admits(s, e.path)
    ensures r != [] ==> r[0] == e
    decreases e
  {
    if !Admits(s, e.path) then [] else [e] + VisitedAll(s, e.children)
  }

  function VisitedAll(s: RustProjectScanner, es: seq<WalkEntry>): (r: seq<WalkEntry>)
    ensures forall i :: 0 <= i < |es| && Admits(s, es[i].path) ==> es[i] in r
    decreases es
  {
    if es == [] then [] else Visited(s, es[0]) + VisitedAll(s, es[1..])
  }

  /** The entries a walk from `root` yields; a root with no recorded tree yields none. */
  function WalkFrom(s: RustProjectScanner, fs: FileSystem, root: Path): seq<WalkEntry>
  {
    if root in fs.walks then Visited(s, fs.walks[root]) else []
  }

  lemma {:induction false} VisitedAdmitted(s: RustProjectScanner, e: WalkEntry)
    ensures forall v :: v in Visited(s, e) ==> Admits(s, v.path)
    decreases e
  {
    if Admits(s, e.path) {
      VisitedAllAdmitted(s, e.children);
    }
  }

  lemma {:induction false} VisitedAllAdmitted(s: RustProjectScanner, es: seq<WalkEntry>)
    ensures forall v :: v in VisitedAll(s, es) ==> Admits(s, v.path)
    decreases es
  {
    if es != [] {
      VisitedAdmitted(s, es[0]);
      VisitedAllAdmitted(s, es[1..]);
    }
  }

  // ---------------------------------------------------------------- one root

  /** `cargo_path.parent().unwrap_or(cargo_path)`. */
  function ProjectPathOf(cargoPath: Path): Path
  {
    match Parent(cargoPath)
    case Some(p) => p
    case None => cargoPath
  }

  /** The project a manifest yields: only when both the name and the target analysis succeed. */
  function Accepted(fs: FileSystem, cargoPath: Path, now: int): Option<RustProject>
  {
    var projectPath := ProjectPathOf(cargoPath);
    match ProjectAt(fs, projectPath)
    case Failure(_) => None
    case Success(project) =>
      match TargetInfoOf(fs, projectPath, now)
      case Failure(_) => None
      case Success(t) => Some(WithTargetInfo(project, t))
  }

  /** What a manifest entry contributes to the scan. */
  function Contribution(fs: FileSystem, e: WalkEntry, now: int): seq<RustProject>
  {
    if e.fileName == ManifestFileName && Accepted(fs, e.path, now).Some? then [Accepted(fs, e.path, now).value]
    else []
  }

  /** The projects found among walk entries, in walk order. */
  function Discovered(fs: FileSystem, entries: seq<WalkEntry>, now: int): seq<RustProject>
  {
    if entries == [] then []
    else Discovered(fs, entries[..|entries| - 1], now) + Contribution(fs, entries[|entries| - 1], now)
  }

  /** One more walk entry appends exactly what it contributes. */
  lemma DiscoveredStep(fs: FileSystem, entries: seq<WalkEntry>, i: nat, now: int)
    requires i < |entries|
    ensures Discovered(fs, entries[..i + 1], now) == Discovered(fs, entries[..i], now) + Contribution(fs, entries[i], now)
  {
    assert entries[..i + 1][..i] == entries[..i];
  }

  /** A scan finds at most one project per entry. */
  lemma {:induction false} DiscoveredAtMostEntries(fs: FileSystem, entries: seq<WalkEntry>, now: int)
    ensures |Discovered(fs, entries, now)| <= |entries|
    decreases |entries|
  {
    if entries != [] {
      DiscoveredAtMostEntries(fs, entries[..|entries| - 1], now);
    }
  }

  /** The `k`-th discovered project comes from an accepted manifest entry, returned as `j`. */
  lemma {:induction false} ManifestOf(fs: FileSystem, entries: seq<WalkEntry>, now: int, k: nat) returns (j: nat)
    requires k < |Discovered(fs, entries, now)|
    ensures j < |entries| && entries[j].fileName == ManifestFileName
    ensures Accepted(fs, entries[j].path, now) == Some(Discovered(fs, entries, now)[k])
    decreases |entries|
  {
    var init := entries[..|entries| - 1];
    var last := entries[|entries| - 1];
    assert Discovered(fs, entries, now) == Discovered(fs, init, now) + Contribution(fs, last, now);
    if k < |Discovered(fs, init, now)| {
      j := ManifestOf(fs, init, now, k);
      assert entries[j] == init[j];
    } else {
      j := |entries| - 1;
    }
  }

  /** Accepted projects carry their target analysis and sit where their manifest is. */
  lemma AcceptedHasTarget(fs: FileSystem, cargoPath: Path, now: int)
    requires Accepted(fs, cargoPath, now).Some?
    ensures var p := Accepted(fs, cargoPath, now).value;
            p.targetInfo.Some? && p.path == ProjectPathOf(cargoPath) &&
            p.targetInfo.value.path == Join(ProjectPathOf(cargoPath), "target")
  {
  }

  /** `p` sits beside a manifest among `entries` that the walk admitted. */
  predicate FromAdmittedManifest(s: RustProjectScanner, entries: seq<WalkEntry>, p: RustProject)
  {
    exists e :: e in entries && e.fileName == ManifestFileName && Admits(s, e.path) && p.path == ProjectPathOf(e.path)
  }

  /**
   * Every project a scan of `root` finds has its target analysis and comes
   * from a walked manifest that is neither excluded nor ignored.
   */
  lemma ScannedProjectsAdmitted(s: RustProjectScanner, fs: FileSystem, root: Path, now: int)
    ensures forall p :: p in Discovered(fs, WalkFrom(s, fs, root), now) ==> p.targetInfo.Some?
    ensures forall p :: p in Discovered(fs, WalkFrom(s, fs, root), now) ==> FromAdmittedManifest(s, WalkFrom(s, fs, root), p)
  {
    var entries := WalkFrom(s, fs, root);
    if root in fs.walks {
      VisitedAdmitted(s, fs.walks[root]);
    }
    var found := Discovered(fs, entries, now);
    forall p | p in found
      ensures p.targetInfo.Some? && FromAdmittedManifest(s, entries, p)
    {
      var k :| 0 <= k < |found| && found[k] == p;
      var j := ManifestOf(fs, entries, now, k);
      var e := entries[j];
      AcceptedHasTarget(fs, e.path, now);
      assert e in entries;
      assert Admits(s, e.path);
      assert p.path == ProjectPathOf(e.path);
    }
  }

  /** `scan_path`: one walk from `root`, keeping each manifest whose project and target resolve. */
  method ScanPath(s: RustProjectScanner, fs: FileSystem, root: Path, now: int) returns (projects: seq<RustProject>)
    ensures projects == Discovered(fs, WalkFrom(s, fs, root), now)
  {
    projects := [];
    var entries := WalkFrom(s, fs, root);
    for i := 0 to |entries|
      invariant projects == Discovered(fs, entries[..i], now)
    {
      DiscoveredStep(fs, entries, i, now);
      var entry := entries[i];
      if entry.fileName == ManifestFileName {
        var cargoPath := entry.path;
        var projectPath := ProjectPathOf(cargoPath);
        var project := FromPath(fs, projectPath);
        if project.Success? {
          var targetInfo := FindTargetInfo(fs, projectPath, now);
          if targetInfo.Success? {
            projects := projects + [WithTargetInfo(project.value, targetInfo.value)];
          }
        }
      }
    }
    assert entries[..|entries|] == entries;
  }

  // ---------------------------------------------------------------- all roots

  /** The search roots that are not ignored, in their original order. */
  function NotIgnored(roots: seq<Path>, ignores: seq<Path>): seq<Path>
  {
    if roots == [] then []
    else NotIgnored(roots[..|roots| - 1], ignores) +
         (if IsIgnoredPath(roots[|roots| - 1], ignores) then [] else [roots[|roots| - 1]])
  }

  /** A root is scanned exactly when it is a search path that is not ignored. */
  lemma {:induction false} NotIgnoredMembers(roots: seq<Path>, ignores: seq<Path>)
    ensures |NotIgnored(roots, ignores)| <= |roots|
    ensures forall r :: r in NotIgnored(roots, ignores) <==> r in roots && !IsIgnoredPath(r, ignores)
    decreases |roots|
  {
    if roots != [] {
      var init := roots[..|roots| - 1];
      NotIgnoredMembers(init, ignores);
      assert roots == init + [roots[|roots| - 1]];
    }
  }

  /** Filtering is order-preserving: with nothing ignored every root is scanned. */
  lemma {:induction false} NothingIgnoredScansAll(roots: seq<Path>)
    ensures NotIgnored(roots, []) == roots
    decreases |roots|
  {
    if roots != [] {
      NothingIgnoredScansAll(roots[..|roots| - 1]);
      assert roots == roots[..|roots| - 1] + [roots[|roots| - 1]];
    }
  }

  /** The concatenation of the per-root scans, in root order. */
  function ScanAll(s: RustProjectScanner, fs: FileSystem, roots: seq<Path>, now: int): seq<RustProject>
  {
    if roots == [] then []
    else ScanAll(s, fs, roots[..|roots| - 1], now) + Discovered(fs, WalkFrom(s, fs, roots[|roots| - 1]), now)
  }

  /** Scanning one more root appends that root's projects. */
  lemma ScanAllStep(s: RustProjectScanner, fs: FileSystem, roots: seq<Path>, i: nat, now: int)
    requires i < |roots|
    ensures ScanAll(s, fs, roots[..i + 1], now) == ScanAll(s, fs, roots[..i], now) + Discovered(fs, WalkFrom(s, fs, roots[i]), now)
  {
    assert roots[..i + 1][..i] == roots[..i];
  }

  /** No root that survives the filter is ignored. */
  lemma FilteredRootNotIgnored(roots: seq<Path>, ignores: seq<Path>, i: nat)
    requires i < |NotIgnored(roots, ignores)|
    ensures !IsIgnoredPath(NotIgnored(roots, ignores)[i], ignores)
  {
    NotIgnoredMembers(roots, ignores);
    assert NotIgnored(roots, ignores)[i] in NotIgnored(roots, ignores);
  }

  /** Every project of a full scan has its target analysis. */
  lemma {:induction false} ScanAllHaveTargets(s: RustProjectScanner, fs: FileSystem, roots: seq<Path>, now: int)
    ensures forall p :: p in ScanAll(s, fs, roots, now) ==> p.targetInfo.Some?
    decreases |roots|
  {
    if roots != [] {
      ScanAllHaveTargets(s, fs, roots[..|roots| - 1], now);
      var found := Discovered(fs, WalkFrom(s, fs, roots[|roots| - 1]), now);
      ScannedProjectsAdmitted(s, fs, roots[|roots| - 1], now);
    }
  }

  /** `find_projects`: scan the non-ignored search roots in order and concatenate what they find. */
  method FindProjects(s: RustProjectScanner, fs: FileSystem, now: int) returns (projects: seq<RustProject>)
    ensures projects == ScanAll(s, fs, NotIgnored(s.searchPaths, s.ignorePaths), now)
    ensures forall p :: p in projects ==> p.targetInfo.Some?
  {
    var filteredPaths := NotIgnored(s.searchPaths, s.ignorePaths);
    projects := [];
    for i := 0 to |filteredPaths|
      invariant projects == ScanAll(s, fs, filteredPaths[..i], now)
    {
      ScanAllStep(s, fs, filteredPaths, i, now);
      FilteredRootNotIgnored(s.searchPaths, s.ignorePaths, i);
      var path := filteredPaths[i];
      // The roots were filtered already, so this second check never skips one.
      if IsIgnoredPath(path, s.ignorePaths) {
        assert false;
        continue;
      }
      var foundProjects := ScanPath(s, fs, path, now);
      projects := projects + foundProjects;
    }
    assert filteredPaths[..|filteredPaths|] == filteredPaths;
    ScanAllHaveTargets(s, fs, filteredPaths, now);
  }
}
