/**
 * `TargetCleaner`: deletes (or, in a dry run, only accounts for) the target
 * directories of the selected projects. The disk is a value: the paths that
 * currently exist, and for each path whose recursive removal would fail, the
 * reason it fails. Each call threads the disk through and returns the new one.
 */
module Cleaner {
  import opened Wrappers
  import opened Paths
  import opened TargetFinder
  import opened RustProjects

  /** What the cleaner can observe of the disk. */
  datatype DiskState = DiskState(present: set<Path>, failing: map<Path, string>)

  /** One failed deletion: the target path and the reason the removal gave. */
  datatype CleanupError = FailedToDelete(path: Path, reason: string)

  /** `CleanupResult`: bytes freed and the failed deletions, in project order. */
  datatype CleanupResult = CleanupResult(totalFreed: nat, errors: seq<CleanupError>)

  datatype DeleteOutcome = Deleted(after: DiskState) | DeleteFailed(reason: string)

  // ---------------------------------------------------------------- one deletion

  /** `delete_target_directory`: a path already gone counts as deleted; otherwise remove it or fail. */
  function DeleteTargetDirectory(disk: DiskState, targetPath: Path): (r: DeleteOutcome)
    ensures r.DeleteFailed? <==> targetPath in disk.present && targetPath in disk.failing
    ensures r.DeleteFailed? ==> r.reason == disk.failing[targetPath]
    ensures r.Deleted? ==> r.after == DiskState(disk.present - {targetPath}, disk.failing)
  {
    if targetPath !in disk.present then Deleted(disk)
    else if targetPath in disk.failing then DeleteFailed(disk.failing[targetPath])
    else Deleted(DiskState(disk.present - {targetPath}, disk.failing))
  }

  /** Deleting a path that was just deleted succeeds and changes nothing. */
  lemma DeleteTwiceIsDeleteOnce(disk: DiskState, targetPath: Path)
    requires DeleteTargetDirectory(disk, targetPath).Deleted?
    ensures var after := DeleteTargetDirectory(disk, targetPath).after;
            DeleteTargetDirectory(after, targetPath) == Deleted(after)
  {
  }

  // ---------------------------------------------------------------- specification

  /** `selected_indices.get(i).copied().unwrap_or(false)`. */
  predicate Selected(selected: seq<bool>, i: int)
  {
    0 <= i < |selected| && selected[i]
  }

  /** The `i`-th project is selected and has a target directory. */
  predicate Targeted(selected: seq<bool>, i: int, p: RustProject)
  {
    Selected(selected, i) && p.targetInfo.Some?
  }

  function TargetPathOf(p: RustProject): Path
    requires p.targetInfo.Some?
  {
    p.targetInfo.value.path
  }

  function TargetSizeOf(p: RustProject): nat
    requires p.targetInfo.Some?
  {
    p.targetInfo.value.sizeBytes
  }

  /** The deletion of the `i`-th project's target fails against the disk as it was at the start. */
  predicate Fails(selected: seq<bool>, dryRun: bool, disk: DiskState, i: int, p: RustProject)
  {
    && !dryRun
    && Targeted(selected, i, p)
    && TargetPathOf(p) in disk.present
    && TargetPathOf(p) in disk.failing
  }

  /** The number of selected projects with a target directory. */
  function TargetedCount(projects: seq<RustProject>, selected: seq<bool>): nat
  {
    if projects == [] then 0
    else
      var n := |projects| - 1;
      TargetedCount(projects[..n], selected) + (if Targeted(selected, n, projects[n]) then 1 else 0)
  }

  /** The recorded size of every selected target directory. */
  function SelectedSize(projects: seq<RustProject>, selected: seq<bool>): nat
  {
    if projects == [] then 0
    else
      var n := |projects| - 1;
      SelectedSize(projects[..n], selected) +
      (if Targeted(selected, n, projects[n]) then TargetSizeOf(projects[n]) else 0)
  }

  /** The bytes a cleanup accounts as freed: every selected target whose deletion does not fail. */
  function Freed(projects: seq<RustProject>, selected: seq<bool>, dryRun: bool, disk: DiskState): nat
  {
    if projects == [] then 0
    else
      var n := |projects| - 1;
      Freed(projects[..n], selected, dryRun, disk) +
      (if Targeted(selected, n, projects[n]) && !Fails(selected, dryRun, disk, n, projects[n])
       then TargetSizeOf(projects[n]) else 0)
  }

  /** The recorded size of the targets whose deletion fails. */
  function FailedSize(projects: seq<RustProject>, selected: seq<bool>, dryRun: bool, disk: DiskState): nat
  {
    if projects == [] then 0
    else
      var n := |projects| - 1;
      FailedSize(projects[..n], selected, dryRun, disk) +
      (if Fails(selected, dryRun, disk, n, projects[n]) then TargetSizeOf(projects[n]) else 0)
  }

  /** One error per failing deletion, in project order. */
  function Errors(projects: seq<RustProject>, selected: seq<bool>, dryRun: bool, disk: DiskState): seq<CleanupError>
  {
    if projects == [] then []
    else
      var n := |projects| - 1;
      Errors(projects[..n], selected, dryRun, disk) +
      (if Fails(selected, dryRun, disk, n, projects[n])
       then [FailedToDelete(TargetPathOf(projects[n]), disk.failing[TargetPathOf(projects[n])])]
       else [])
  }

  /** The target paths a real cleanup removes: selected, with a target, and removable. */
  function Removed(projects: seq<RustProject>, selected: seq<bool>, dryRun: bool, failing: map<Path, string>): set<Path>
  {
    if projects == [] then {}
    else
      var n := |projects| - 1;
      Removed(projects[..n], selected, dryRun, failing) +
      (if !dryRun && Targeted(selected, n, projects[n]) && TargetPathOf(projects[n]) !in failing
       then {TargetPathOf(projects[n])} else {})
  }

  /** The disk after the cleanup. */
  function DiskAfter(projects: seq<RustProject>, selected: seq<bool>, dryRun: bool, disk: DiskState): DiskState
  {
    DiskState(disk.present - Removed(projects, selected, dryRun, disk.failing), disk.failing)
  }

  // ---------------------------------------------------------------- the operation

  /** `clean_selected_projects`. */
  method CleanSelectedProjects(projects: seq<RustProject>, selectedIndices: seq<bool>, dryRun: bool, disk: DiskState)
    returns (result: CleanupResult, diskAfter: DiskState)
    ensures result.totalFreed == Freed(projects, selectedIndices, dryRun, disk)
    ensures result.errors == Errors(projects, selectedIndices, dryRun, disk)
    ensures diskAfter == DiskAfter(projects, selectedIndices, dryRun, disk)
  {
    var totalFreed := 0;
    var errors := [];
    diskAfter := disk;
    for i := 0 to |projects|
      invariant totalFreed == Freed(projects[..i], selectedIndices, dryRun, disk)
      invariant errors == Errors(projects[..i], selectedIndices, dryRun, disk)
      invariant diskAfter == DiskAfter(projects[..i], selectedIndices, dryRun, disk)
    {
      assert projects[..i + 1][..i] == projects[..i];
      RemovedAvoidsFailing(projects[..i], selectedIndices, dryRun, disk.failing);
      var project := projects[i];
      if i < |selectedIndices| && selectedIndices[i] {
        if project.targetInfo.Some? {
          var targetPath := project.targetInfo.value.path;
          var size := project.targetInfo.value.sizeBytes;
          if dryRun {
            totalFreed := totalFreed + size;
          } else {
            match DeleteTargetDirectory(diskAfter, targetPath)
            case Deleted(after) =>
              diskAfter := after;
              totalFreed := totalFreed + size;
            case DeleteFailed(e) =>
              errors := errors + [FailedToDelete(targetPath, e)];
          }
        }
      }
    }
    assert projects[..|projects|] == projects;
    result := CleanupResult(totalFreed, errors);
  }

  // ---------------------------------------------------------------- properties

  /** A path whose removal fails is never removed. */
  lemma {:induction false} RemovedAvoidsFailing(projects: seq<RustProject>, selected: seq<bool>, dryRun: bool,
                                                failing: map<Path, string>)
    ensures forall p :: p in Removed(projects, selected, dryRun, failing) ==> p !in failing
    decreases |projects|
  {
    if projects != [] {
      RemovedAvoidsFailing(projects[..|projects| - 1], selected, dryRun, failing);
    }
  }

  /** Exactly the removable targets of the selected projects are removed; nothing else is touched. */
  lemma {:induction false} RemovedIff(projects: seq<RustProject>, selected: seq<bool>, dryRun: bool,
                                      failing: map<Path, string>, path: Path)
    ensures path in Removed(projects, selected, dryRun, failing) <==>
            !dryRun && path !in failing &&
            exists i :: 0 <= i < |projects| && Targeted(selected, i, projects[i]) && TargetPathOf(projects[i]) == path
    decreases |projects|
  {
    if projects != [] {
      var n := |projects| - 1;
      var init := projects[..n];
      RemovedIff(init, selected, dryRun, failing, path);
      RemovedAvoidsFailing(projects, selected, dryRun, failing);
      if exists i :: 0 <= i < |init| && Targeted(selected, i, init[i]) && TargetPathOf(init[i]) == path {
        var i :| 0 <= i < |init| && Targeted(selected, i, init[i]) && TargetPathOf(init[i]) == path;
        assert projects[i] == init[i];
      }
      if exists i :: 0 <= i < |projects| && Targeted(selected, i, projects[i]) && TargetPathOf(projects[i]) == path {
        var i :| 0 <= i < |projects| && Targeted(selected, i, projects[i]) && TargetPathOf(projects[i]) == path;
        if i < n {
          assert init[i] == projects[i];
        }
      }
    }
  }

  /** A dry run deletes nothing, reports no error and accounts every selected target. */
  lemma {:induction false} DryRunChangesNothing(projects: seq<RustProject>, selected: seq<bool>, disk: DiskState)
    ensures Freed(projects, selected, true, disk) == SelectedSize(projects, selected)
    ensures Errors(projects, selected, true, disk) == []
    ensures DiskAfter(projects, selected, true, disk) == disk
    decreases |projects|
  {
    if projects != [] {
      DryRunChangesNothing(projects[..|projects| - 1], selected, disk);
    }
  }

  /** What is freed and what fails together make up the selected size. */
  lemma {:induction false} FreedPlusFailed(projects: seq<RustProject>, selected: seq<bool>, dryRun: bool, disk: DiskState)
    ensures Freed(projects, selected, dryRun, disk) + FailedSize(projects, selected, dryRun, disk) ==
            SelectedSize(projects, selected)
    decreases |projects|
  {
    if projects != [] {
      FreedPlusFailed(projects[..|projects| - 1], selected, dryRun, disk);
    }
  }

  /** Without errors, the whole selected size is freed. */
  lemma {:induction false} NoErrorsFreesAll(projects: seq<RustProject>, selected: seq<bool>, dryRun: bool, disk: DiskState)
    requires Errors(projects, selected, dryRun, disk) == []
    ensures FailedSize(projects, selected, dryRun, disk) == 0
    ensures Freed(projects, selected, dryRun, disk) == SelectedSize(projects, selected)
    decreases |projects|
  {
    if projects != [] {
      NoErrorsFreesAll(projects[..|projects| - 1], selected, dryRun, disk);
    }
    FreedPlusFailed(projects, selected, dryRun, disk);
  }

  /** Each error names a selected target that exists and cannot be removed, with its reason. */
  lemma {:induction false} ErrorsAreFailingTargets(projects: seq<RustProject>, selected: seq<bool>, dryRun: bool,
                                                   disk: DiskState)
    ensures |Errors(projects, selected, dryRun, disk)| <= TargetedCount(projects, selected) <= |projects|
    ensures forall e :: e in Errors(projects, selected, dryRun, disk) ==>
              && !dryRun
              && e.path in disk.present && e.path in disk.failing && e.reason == disk.failing[e.path]
              && exists i :: 0 <= i < |projects| && Targeted(selected, i, projects[i]) && TargetPathOf(projects[i]) == e.path
    decreases |projects|
  {
    if projects != [] {
      var n := |projects| - 1;
      var init := projects[..n];
      ErrorsAreFailingTargets(init, selected, dryRun, disk);
      forall e | e in Errors(projects, selected, dryRun, disk)
        ensures exists i :: 0 <= i < |projects| && Targeted(selected, i, projects[i]) && TargetPathOf(projects[i]) == e.path
      {
        if e in Errors(init, selected, dryRun, disk) {
          var i :| 0 <= i < |init| && Targeted(selected, i, init[i]) && TargetPathOf(init[i]) == e.path;
          assert projects[i] == init[i];
        } else {
          assert Targeted(selected, n, projects[n]);
        }
      }
    }
  }

  /** A selected target that is already gone is not an error and still counts its recorded size. */
  lemma VanishedTargetCountsAsFreed(p: RustProject, disk: DiskState)
    requires p.targetInfo.Some? && TargetPathOf(p) !in disk.present
    ensures Freed([p], [true], false, disk) == TargetSizeOf(p)
    ensures Errors([p], [true], false, disk) == []
    ensures DiskAfter([p], [true], false, disk) == disk
  {
    assert [p][..0] == [];
    var gone := Removed([p], [true], false, disk.failing);
    assert Removed([], [true], false, disk.failing) == {};
    assert gone == Removed([p][..0], [true], false, disk.failing) +
                   (if TargetPathOf(p) !in disk.failing then {TargetPathOf(p)} else {});
    assert disk.present - gone == disk.present;
  }

  /** Outcomes depend on the starting disk only through which failing paths exist. */
  lemma {:induction false} SameFailuresSameOutcome(projects: seq<RustProject>, selected: seq<bool>, dryRun: bool,
                                                   disk: DiskState, gone: set<Path>)
    requires forall p :: p in gone ==> p !in disk.failing
    ensures var disk' := DiskState(disk.present - gone, disk.failing);
            && Freed(projects, selected, dryRun, disk') == Freed(projects, selected, dryRun, disk)
            && Errors(projects, selected, dryRun, disk') == Errors(projects, selected, dryRun, disk)
    decreases |projects|
  {
    if projects != [] {
      SameFailuresSameOutcome(projects[..|projects| - 1], selected, dryRun, disk, gone);
    }
  }

  /**
   * Cleaning again on the disk a cleanup left behind frees the same number
   * of bytes, reports the same errors and leaves the disk as it is.
   */
  lemma CleanupIsIdempotent(projects: seq<RustProject>, selected: seq<bool>, dryRun: bool, disk: DiskState)
    ensures var disk' := DiskAfter(projects, selected, dryRun, disk);
            && Freed(projects, selected, dryRun, disk') == Freed(projects, selected, dryRun, disk)
            && Errors(projects, selected, dryRun, disk') == Errors(projects, selected, dryRun, disk)
            && DiskAfter(projects, selected, dryRun, disk') == disk'
  {
    var gone := Removed(projects, selected, dryRun, disk.failing);
    RemovedAvoidsFailing(projects, selected, dryRun, disk.failing);
    SameFailuresSameOutcome(projects, selected, dryRun, disk, gone);
  }
}
