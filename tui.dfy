/**
 * The selection state machine behind the terminal UI: focus movement,
 * selection toggling with the freed-space total, confirmation, cleanup,
 * and the event loop that stops once the mode is Complete. Drawing and the
 * terminal are not modelled; each handler is specified by a function on the
 * values below, and the class methods are proved to compute it.
 */
module Tui {
  import opened Wrappers
  import opened Counting
  import opened Paths
  import opened TargetFinder
  import opened RustProjects
  import opened Cleaner

  /** `UIMode`. */
  datatype UIMode = Browse | Confirm | Cleaning | Complete

  datatype KeyCode = Up | Down | Enter | Esc | Char(c: char) | OtherKey
  /** `KeyModifiers`; the super, hyper and meta flags are one constructor, as no handler tests them. */
  datatype Modifier = Shift | Control | Alt | OtherModifier
  datatype KeyEvent = KeyEvent(code: KeyCode, modifiers: set<Modifier>)

  /** A terminal event; only key events reach the handlers. */
  datatype Event = Key(key: KeyEvent) | OtherEvent

  /** The status line, one constructor per message the UI sets (sizes as raw byte counts). */
  datatype Status =
    | Help
    | ConfirmDeletion(count: nat)
    | NoneSelected
    | CleaningInProgress
    | Cancelled
    | SwitchedMode(dryRun: bool)
    | BackToSelection
    | DryRunReport(freed: nat)
    | CleanupReport(freed: nat, errorCount: nat)
    | CleanupFinished(dryRun: bool, freed: nat)

  /** The cleanup progress `num / den` that the UI keeps as a float. */
  datatype Fraction = Fraction(num: nat, den: nat)

  /** The parts of the configuration the UI consults. */
  datatype Config = Config(dryRun: bool, staleThreshold: nat)

  /** `AppState` as a value. */
  datatype Screen = Screen(
    selected: nat,
    selectedProjects: seq<bool>,
    mode: UIMode,
    status: Status,
    totalFreed: nat,
    progress: Fraction)

  /** Everything a key can change: the screen, the configuration and the disk. */
  datatype Session = Session(screen: Screen, config: Config, disk: DiskState)

  /** One selection flag per project, and the focus on a project (or 0 when there are none). */
  predicate WellFormed(projects: seq<RustProject>, s: Screen)
  {
    && |s.selectedProjects| == |projects|
    && (s.selected < |projects| || (s.selected == 0 && |projects| == 0))
  }

  /** `len.saturating_sub(1)`. */
  function LastIndex(n: nat): nat
  {
    if n == 0 then 0 else n - 1
  }

  // ---------------------------------------------------------------- set-up

  /** The projects as `new` hands them to the UI: every target's staleness recomputed. */
  function WithStaleStatus(projects: seq<RustProject>, threshold: nat, now: int): seq<RustProject>
  {
    if projects == [] then []
    else
      var n := |projects| - 1;
      var p := projects[n];
      WithStaleStatus(projects[..n], threshold, now) +
      [if p.targetInfo.Some? then WithTargetInfo(p, UpdateStaleStatus(p.targetInfo.value, threshold, now)) else p]
  }

  /** Recomputing staleness keeps every project, its name, path and target size, and sets only the stale flag. */
  lemma {:induction false} StaleStatusOnlyMarks(projects: seq<RustProject>, threshold: nat, now: int)
    ensures |WithStaleStatus(projects, threshold, now)| == |projects|
    ensures forall i :: 0 <= i < |projects| ==>
              var q := WithStaleStatus(projects, threshold, now)[i];
              && q.path == projects[i].path && q.name == projects[i].name
              && (q.targetInfo.Some? <==> projects[i].targetInfo.Some?)
              && (q.targetInfo.Some? ==>
                    q.targetInfo.value == UpdateStaleStatus(projects[i].targetInfo.value, threshold, now))
    decreases |projects|
  {
    if projects != [] {
      var n := |projects| - 1;
      StaleStatusOnlyMarks(projects[..n], threshold, now);
      var r := WithStaleStatus(projects, threshold, now);
      forall i | 0 <= i < n
        ensures r[i] == WithStaleStatus(projects[..n], threshold, now)[i]
      {
      }
    }
  }

  /** So the space a selection would free is the same before and after. */
  lemma {:induction false} StaleStatusKeepsSizes(projects: seq<RustProject>, selected: seq<bool>, threshold: nat, now: int)
    ensures SelectedSize(WithStaleStatus(projects, threshold, now), selected) == SelectedSize(projects, selected)
    decreases |projects|
  {
    if projects != [] {
      var n := |projects| - 1;
      StaleStatusKeepsSizes(projects[..n], selected, threshold, now);
      StaleStatusOnlyMarks(projects, threshold, now);
      var r := WithStaleStatus(projects, threshold, now);
      assert r[..n] == WithStaleStatus(projects[..n], threshold, now);
    }
  }

  /** The state `new` starts in. */
  function InitialScreen(projectCount: nat): Screen
  {
    Screen(0, seq(projectCount, _ => false), Browse, Help, 0, Fraction(0, 1))
  }

  /** The initial state is well formed and selects nothing, so Enter does not confirm. */
  lemma InitialSelectsNothing(projects: seq<RustProject>)
    ensures WellFormed(projects, InitialScreen(|projects|))
    ensures CountTrue(InitialScreen(|projects|).selectedProjects) == 0
    ensures SelectedSize(projects, InitialScreen(|projects|).selectedProjects) == 0
  {
    CountTrueAllFalse(|projects|);
    NothingSelectedNoSize(projects, InitialScreen(|projects|).selectedProjects);
  }

  lemma {:induction false} NothingSelectedNoSize(projects: seq<RustProject>, selected: seq<bool>)
    requires forall i :: 0 <= i < |selected| ==> !selected[i]
    ensures SelectedSize(projects, selected) == 0
    decreases |projects|
  {
    if projects != [] {
      NothingSelectedNoSize(projects[..|projects| - 1], selected);
    }
  }

  // ---------------------------------------------------------------- handlers

  /** `handle_browse_mode`. */
  function BrowseKey(projects: seq<RustProject>, s: Screen, key: KeyEvent): (r: Screen)
    requires WellFormed(projects, s)
    ensures WellFormed(projects, r)
  {
    if key.code == Up then
      (if s.selected > 0 then s.(selected := s.selected - 1) else s)
    else if key.code == Down then
      (if s.selected < LastIndex(|projects|) then s.(selected := s.selected + 1) else s)
    else if key.code == Char(' ') then
      (if |projects| > 0 then
         var flipped := s.selectedProjects[s.selected := !s.selectedProjects[s.selected]];
         s.(selectedProjects := flipped, totalFreed := SelectedSize(projects, flipped))
       else s)
    else if key.code == Enter then
      (var count := CountTrue(s.selectedProjects);
       if count > 0 then s.(mode := Confirm, status := ConfirmDeletion(count))
       else s.(status := NoneSelected))
    else if key.code == Char('c') && key.modifiers == {Control} then
      s.(mode := Complete)
    else s
  }

  /**
   * The outcome of `perform_cleanup`. The cleaner runs once per selected
   * project with a target and each run starts from the disk the previous one
   * left; by idempotence every run reports what the first one did.
   */
  function AfterCleanup(projects: seq<RustProject>, session: Session): (r: Session)
    requires WellFormed(projects, session.screen)
    ensures WellFormed(projects, r.screen)
  {
    var s := session.screen;
    var dryRun := session.config.dryRun;
    var ran := TargetedCount(projects, s.selectedProjects) > 0;
    var freed := if ran then Freed(projects, s.selectedProjects, dryRun, session.disk) else s.totalFreed;
    var disk := if ran then DiskAfter(projects, s.selectedProjects, dryRun, session.disk) else session.disk;
    Session(s.(mode := Complete, status := CleanupFinished(dryRun, freed), totalFreed := freed, progress := Fraction(1, 1)),
            session.config, disk)
  }

  /** `handle_confirm_mode`. */
  function ConfirmKey(projects: seq<RustProject>, session: Session, key: KeyEvent): (r: Session)
    requires WellFormed(projects, session.screen)
    ensures WellFormed(projects, r.screen)
  {
    if key.code == Char('y') || key.code == Char('Y') then
      AfterCleanup(projects, session.(screen := session.screen.(mode := Cleaning, status := CleaningInProgress)))
    else if key.code == Char('n') || key.code == Char('N') || key.code == Esc then
      session.(screen := session.screen.(mode := Browse, status := Cancelled))
    else session
  }

  /**
   * `handle_complete_mode`: 'd' flips dry-run mode and reports it, 'r' goes back to
   * browsing; no key touches the selection, the focus, the total or the disk.
   */
  function CompleteKey(session: Session, key: KeyEvent): (r: Session)
    ensures r.disk == session.disk && r.config.staleThreshold == session.config.staleThreshold
    ensures && r.screen.selected == session.screen.selected
            && r.screen.selectedProjects == session.screen.selectedProjects
            && r.screen.totalFreed == session.screen.totalFreed
            && r.screen.progress == session.screen.progress
    ensures r.config.dryRun == (if key.code == Char('d') then !session.config.dryRun else session.config.dryRun)
    ensures key.code == Char('d') ==> r.screen.mode == session.screen.mode && r.screen.status == SwitchedMode(r.config.dryRun)
    ensures key.code == Char('r') ==> r.screen.mode == Browse && r.screen.status == BackToSelection
    ensures key.code != Char('d') && key.code != Char('r') ==> r == session
  {
    if key.code == Char('d') then
      var dryRun := !session.config.dryRun;
      session.(config := session.config.(dryRun := dryRun), screen := session.screen.(status := SwitchedMode(dryRun)))
    else if key.code == Char('r') then
      session.(screen := session.screen.(mode := Browse, status := BackToSelection))
    else session
  }

  /** The handler the run loop picks by mode; Cleaning ignores every key. */
  function Dispatch(projects: seq<RustProject>, session: Session, key: KeyEvent): (r: Session)
    requires WellFormed(projects, session.screen)
    ensures WellFormed(projects, r.screen)
  {
    match session.screen.mode
    case Browse => session.(screen := BrowseKey(projects, session.screen, key))
    case Confirm => ConfirmKey(projects, session, key)
    case Cleaning => session
    case Complete => CompleteKey(session, key)
  }

  function Step(projects: seq<RustProject>, session: Session, e: Event): (r: Session)
    requires WellFormed(projects, session.screen)
    ensures WellFormed(projects, r.screen)
  {
    match e
    case Key(key) => Dispatch(projects, session, key)
    case OtherEvent => session
  }

  /** `run_internal` over a finite event sequence: handle each event, stop after one that leaves the mode Complete. */
  function RunFinal(projects: seq<RustProject>, session: Session, events: seq<Event>): (r: Session)
    requires WellFormed(projects, session.screen)
    ensures WellFormed(projects, r.screen)
    decreases |events|
  {
    if events == [] then session
    else
      var next := Step(projects, session, events[0]);
      if next.screen.mode == Complete then next else RunFinal(projects, next, events[1..])
  }

  /** One turn of the run loop: handle the next event, then stop if it left the mode Complete. */
  lemma RunFinalStep(projects: seq<RustProject>, session: Session, events: seq<Event>, i: nat)
    requires WellFormed(projects, session.screen) && i < |events|
    ensures var next := Step(projects, session, events[i]);
            RunFinal(projects, session, events[i..]) ==
            if next.screen.mode == Complete then next else RunFinal(projects, next, events[i + 1..])
  {
    assert events[i..][1..] == events[i + 1..];
  }

  /** The sessions in which the run loop handles each event it reads. */
  function Handled(projects: seq<RustProject>, session: Session, events: seq<Event>): seq<Session>
    requires WellFormed(projects, session.screen)
    decreases |events|
  {
    if events == [] then []
    else
      var next := Step(projects, session, events[0]);
      [session] + (if next.screen.mode == Complete then [] else Handled(projects, next, events[1..]))
  }

  // ---------------------------------------------------------------- properties of the handlers

  /** A Browse or Confirm session. */
  predicate Interactive(session: Session)
  {
    session.screen.mode == Browse || session.screen.mode == Confirm
  }

  /** Down then Up, with any modifiers, returns the focus to where it was, unless Down was clamped. */
  lemma UpUndoesDown(projects: seq<RustProject>, s: Screen, down: KeyEvent, up: KeyEvent)
    requires WellFormed(projects, s) && s.selected + 1 < |projects|
    requires down.code == Down && up.code == Up
    ensures BrowseKey(projects, BrowseKey(projects, s, down), up) == s
  {
  }

  /** Focus moves by at most one and is clamped at both ends. */
  lemma FocusIsClamped(projects: seq<RustProject>, s: Screen, key: KeyEvent)
    requires WellFormed(projects, s)
    ensures var r := BrowseKey(projects, s, key);
            && (key.code == Up ==> r.selected == if s.selected == 0 then 0 else s.selected - 1)
            && (key.code == Down ==> r.selected == if s.selected + 1 < |projects| then s.selected + 1 else s.selected)
            && (key.code != Up && key.code != Down ==> r.selected == s.selected)
  {
  }

  /**
   * Space, with any modifiers, flips exactly the focused flag and recomputes the
   * total from the new selection; on an empty list it does nothing.
   */
  lemma ToggleFlipsFocused(projects: seq<RustProject>, s: Screen, key: KeyEvent)
    requires WellFormed(projects, s) && key.code == Char(' ')
    ensures |projects| == 0 ==> BrowseKey(projects, s, key) == s
    ensures var r := BrowseKey(projects, s, key);
            |projects| > 0 ==>
            && |r.selectedProjects| == |s.selectedProjects|
            && r.selectedProjects[s.selected] == !s.selectedProjects[s.selected]
            && (forall j :: 0 <= j < |projects| && j != s.selected ==> r.selectedProjects[j] == s.selectedProjects[j])
            && r.totalFreed == SelectedSize(projects, r.selectedProjects)
            && r.selected == s.selected && r.mode == s.mode
  {
  }

  /** Space twice restores the selection, leaving the total consistent with it. */
  lemma ToggleTwiceRestores(projects: seq<RustProject>, s: Screen, space: KeyEvent, again: KeyEvent)
    requires WellFormed(projects, s) && |projects| > 0
    requires space.code == Char(' ') && again.code == Char(' ')
    ensures BrowseKey(projects, BrowseKey(projects, s, space), again) ==
            s.(totalFreed := SelectedSize(projects, s.selectedProjects))
  {
    var r := BrowseKey(projects, s, space);
    assert r.selectedProjects[s.selected := !r.selectedProjects[s.selected]] == s.selectedProjects;
  }

  /** Changing one selection flag changes the selected size by exactly that project's target size. */
  lemma {:induction false} SelectedSizePointUpdate(projects: seq<RustProject>, selected: seq<bool>, i: nat, b: bool)
    requires i < |selected|
    ensures var selected' := selected[i := b];
            var before := if i < |projects| && Targeted(selected, i, projects[i]) then TargetSizeOf(projects[i]) else 0;
            var after := if i < |projects| && Targeted(selected', i, projects[i]) then TargetSizeOf(projects[i]) else 0;
            SelectedSize(projects, selected') + before == SelectedSize(projects, selected) + after
    decreases |projects|
  {
    if projects != [] {
      var n := |projects| - 1;
      SelectedSizePointUpdate(projects[..n], selected, i, b);
      if i < n {
        assert projects[..n][i] == projects[i];
      }
    }
  }

  /** Selecting a project adds its target size to a consistent total; deselecting subtracts it. */
  lemma ToggleAdjustsTotal(projects: seq<RustProject>, s: Screen, key: KeyEvent)
    requires WellFormed(projects, s) && |projects| > 0 && key.code == Char(' ')
    requires s.totalFreed == SelectedSize(projects, s.selectedProjects)
    ensures var r := BrowseKey(projects, s, key);
            var p := projects[s.selected];
            r.totalFreed + (if Targeted(s.selectedProjects, s.selected, p) then TargetSizeOf(p) else 0) ==
            s.totalFreed + (if Targeted(r.selectedProjects, s.selected, p) then TargetSizeOf(p) else 0)
  {
    SelectedSizePointUpdate(projects, s.selectedProjects, s.selected, !s.selectedProjects[s.selected]);
  }

  /** Enter, with any modifiers, confirms exactly when something is selected; otherwise only the status changes. */
  lemma EnterConfirmsIffSelection(projects: seq<RustProject>, s: Screen, key: KeyEvent)
    requires WellFormed(projects, s) && s.mode == Browse && key.code == Enter
    ensures var r := BrowseKey(projects, s, key);
            && (r.mode == Confirm <==> exists j :: 0 <= j < |s.selectedProjects| && s.selectedProjects[j])
            && (r.mode != Confirm ==> r == s.(status := NoneSelected))
            && r.selectedProjects == s.selectedProjects && r.totalFreed == s.totalFreed
  {
    CountTrueBounds(s.selectedProjects);
  }

  /** Ctrl-C in Browse completes without cleaning: selections, total and disk stay as they are. */
  lemma CtrlCCompletesWithoutCleaning(projects: seq<RustProject>, session: Session)
    requires WellFormed(projects, session.screen) && session.screen.mode == Browse
    ensures var r := Dispatch(projects, session, KeyEvent(Char('c'), {Control}));
            r == session.(screen := session.screen.(mode := Complete))
  {
  }

  /** 'q' is not handled in Browse, although the help text offers it for quitting. */
  lemma QuitKeyIgnoredInBrowse(projects: seq<RustProject>, session: Session, modifiers: set<Modifier>)
    requires WellFormed(projects, session.screen) && session.screen.mode == Browse
    ensures Dispatch(projects, session, KeyEvent(Char('q'), modifiers)) == session
  {
  }

  /** n, N and Esc cancel back to Browse with selection, focus and total unchanged. */
  lemma CancelKeepsSelection(projects: seq<RustProject>, session: Session, key: KeyEvent)
    requires WellFormed(projects, session.screen) && session.screen.mode == Confirm
    requires key.code == Char('n') || key.code == Char('N') || key.code == Esc
    ensures var r := Dispatch(projects, session, key);
            && r.screen.mode == Browse
            && r.screen.selectedProjects == session.screen.selectedProjects
            && r.screen.selected == session.screen.selected
            && r.screen.totalFreed == session.screen.totalFreed
            && r.disk == session.disk && r.config == session.config
  {
  }

  /** Keys other than y, Y, n, N and Esc do nothing in Confirm. */
  lemma ConfirmIgnoresOtherKeys(projects: seq<RustProject>, session: Session, key: KeyEvent)
    requires WellFormed(projects, session.screen) && session.screen.mode == Confirm
    requires key.code !in {Char('y'), Char('Y'), Char('n'), Char('N'), Esc}
    ensures Dispatch(projects, session, key) == session
  {
  }

  /**
   * y or Y cleans up and always ends in Complete with full progress. The
   * freed total is the cleaner's result, or unchanged when no selected
   * project has a target; selection and focus stay.
   */
  lemma ConfirmYesCompletes(projects: seq<RustProject>, session: Session, key: KeyEvent)
    requires WellFormed(projects, session.screen) && session.screen.mode == Confirm
    requires key.code == Char('y') || key.code == Char('Y')
    ensures var r := Dispatch(projects, session, key);
            var sel := session.screen.selectedProjects;
            && r.screen.mode == Complete && r.screen.progress == Fraction(1, 1)
            && r.screen.selectedProjects == sel && r.screen.selected == session.screen.selected
            && r.config == session.config
            && (TargetedCount(projects, sel) == 0 ==>
                  r.screen.totalFreed == session.screen.totalFreed && r.disk == session.disk)
            && (TargetedCount(projects, sel) > 0 ==>
                  r.screen.totalFreed == Freed(projects, sel, session.config.dryRun, session.disk))
  {
  }

  /** In a dry run, confirming with y or Y frees nothing on disk and reports the whole selected size. */
  lemma DryRunConfirmReportsSelection(projects: seq<RustProject>, session: Session, key: KeyEvent)
    requires WellFormed(projects, session.screen) && session.screen.mode == Confirm && session.config.dryRun
    requires TargetedCount(projects, session.screen.selectedProjects) > 0
    requires key.code == Char('y') || key.code == Char('Y')
    ensures var r := Dispatch(projects, session, key);
            && r.disk == session.disk
            && r.screen.totalFreed == SelectedSize(projects, session.screen.selectedProjects)
            && r.screen.status == CleanupFinished(true, r.screen.totalFreed)
  {
    DryRunChangesNothing(projects, session.screen.selectedProjects, session.disk);
  }

  /** In live mode, every selected removable target is gone after y or Y, and only such targets are. */
  lemma LiveConfirmRemovesTargets(projects: seq<RustProject>, session: Session, key: KeyEvent, path: Path)
    requires WellFormed(projects, session.screen) && session.screen.mode == Confirm && !session.config.dryRun
    requires TargetedCount(projects, session.screen.selectedProjects) > 0
    requires key.code == Char('y') || key.code == Char('Y')
    ensures var r := Dispatch(projects, session, key);
            var sel := session.screen.selectedProjects;
            && r.disk.failing == session.disk.failing
            && (path in r.disk.present <==>
                  path in session.disk.present &&
                  !(path !in session.disk.failing &&
                    exists i :: 0 <= i < |projects| && Targeted(sel, i, projects[i]) && TargetPathOf(projects[i]) == path))
  {
    RemovedIff(projects, session.screen.selectedProjects, false, session.disk.failing, path);
  }

  /** Toggling dry run twice in Complete restores the configuration. */
  lemma DryRunToggleTwice(session: Session)
    requires session.screen.mode == Complete
    ensures var d := KeyEvent(Char('d'), {});
            CompleteKey(CompleteKey(session, d), d).config == session.config
  {
  }

  /** r in Complete returns to Browse with the selection preserved. */
  lemma ResetKeepsSelection(session: Session)
    requires session.screen.mode == Complete
    ensures var r := CompleteKey(session, KeyEvent(Char('r'), {}));
            r.screen.mode == Browse && r.screen.selectedProjects == session.screen.selectedProjects &&
            r.screen.totalFreed == session.screen.totalFreed && r.config == session.config
  {
  }

  /** A handler run in Browse or Confirm leaves the session in Browse, Confirm or Complete. */
  lemma StepFromInteractive(projects: seq<RustProject>, session: Session, e: Event)
    requires WellFormed(projects, session.screen) && Interactive(session)
    ensures var r := Step(projects, session, e);
            Interactive(r) || r.screen.mode == Complete
  {
  }

  /**
   * Started in Browse or Confirm, the run loop only ever handles events in
   * Browse or Confirm: the Cleaning and Complete handlers are never invoked.
   */
  lemma {:induction false} OnlyInteractiveHandled(projects: seq<RustProject>, session: Session, events: seq<Event>)
    requires WellFormed(projects, session.screen) && Interactive(session)
    ensures |Handled(projects, session, events)| <= |events|
    ensures forall h :: h in Handled(projects, session, events) ==> Interactive(h)
    decreases |events|
  {
    if events != [] {
      var next := Step(projects, session, events[0]);
      StepFromInteractive(projects, session, events[0]);
      if next.screen.mode != Complete {
        OnlyInteractiveHandled(projects, next, events[1..]);
      }
    }
  }

  /** The loop ends in Complete unless the events run out, and nothing after the completing event is read. */
  lemma {:induction false} RunStopsAtComplete(projects: seq<RustProject>, session: Session, events: seq<Event>)
    requires WellFormed(projects, session.screen)
    ensures |Handled(projects, session, events)| < |events| ==> RunFinal(projects, session, events).screen.mode == Complete
    ensures forall rest :: |Handled(projects, session, events)| < |events| ==>
              RunFinal(projects, session, events[..|Handled(projects, session, events)|] + rest) ==
              RunFinal(projects, session, events)
    decreases |events|
  {
    if events != [] {
      var next := Step(projects, session, events[0]);
      if next.screen.mode != Complete {
        RunStopsAtComplete(projects, next, events[1..]);
        var k := |Handled(projects, session, events)|;
        forall rest | k < |events|
          ensures RunFinal(projects, session, events[..k] + rest) == RunFinal(projects, session, events)
        {
          var es := events[..k] + rest;
          assert k == 1 + |Handled(projects, next, events[1..])|;
          assert es[0] == events[0];
          assert es[1..] == events[1..][..k - 1] + rest;
          assert RunFinal(projects, session, es) == RunFinal(projects, next, es[1..]);
        }
      } else {
        forall rest
          ensures RunFinal(projects, session, events[..1] + rest) == RunFinal(projects, session, events)
        {
          assert (events[..1] + rest)[0] == events[0];
        }
      }
    }
  }

  /** Progress never passes one: cleaner runs never outnumber selected projects. */
  lemma {:induction false} TargetedWithinSelected(projects: seq<RustProject>, selected: seq<bool>)
    requires |projects| <= |selected|
    ensures TargetedCount(projects, selected) <= CountTrue(selected[..|projects|])
    decreases |projects|
  {
    if projects != [] {
      var n := |projects| - 1;
      TargetedWithinSelected(projects[..n], selected);
      assert selected[..|projects|][..n] == selected[..n];
    }
  }

  /**
   * Three projects: targets of 10 and 2048 bytes, the second last used ten
   * days ago, and one without a target. With a seven-day threshold only the
   * second is stale, and a dry run over all of them frees 2058 bytes
   * without errors and without touching the disk.
   */
  lemma ThreeProjectDryRun(now: int, disk: DiskState)
    ensures var day := 24 * 60 * 60;
            var a := RustProject("/w/a", "a", Some(TargetInfo("/w/a/target", 10, now, false)));
            var b := RustProject("/w/b", "b", Some(TargetInfo("/w/b/target", 2048, now - 10 * day, false)));
            var c := RustProject("/w/c", "c", None);
            var projects := WithStaleStatus([a, b, c], 7 * day, now);
            var selected := [true, true, true];
            && |projects| == 3 && projects[0].targetInfo.Some? && projects[1].targetInfo.Some?
            && !projects[0].targetInfo.value.isStale && projects[1].targetInfo.value.isStale
            && projects[2].targetInfo.None?
            && Freed(projects, selected, true, disk) == 2058
            && Errors(projects, selected, true, disk) == []
            && DiskAfter(projects, selected, true, disk) == disk
  {
    var day := 24 * 60 * 60;
    var a := RustProject("/w/a", "a", Some(TargetInfo("/w/a/target", 10, now, false)));
    var b := RustProject("/w/b", "b", Some(TargetInfo("/w/b/target", 2048, now - 10 * day, false)));
    var c := RustProject("/w/c", "c", None);
    var ps := [a, b, c];
    var selected := [true, true, true];
    var projects := WithStaleStatus(ps, 7 * day, now);
    StaleStatusOnlyMarks(ps, 7 * day, now);
    assert projects[0].targetInfo.value == UpdateStaleStatus(a.targetInfo.value, 7 * day, now);
    assert projects[1].targetInfo.value == UpdateStaleStatus(b.targetInfo.value, 7 * day, now);
    StaleStatusKeepsSizes(ps, selected, 7 * day, now);
    DryRunChangesNothing(projects, selected, disk);
    assert ps[..2] == [a, b] && [a, b][..1] == [a] && [a][..0] == [];
    assert SelectedSize([a], selected) == 10;
    assert SelectedSize([a, b], selected) == 2058;
    assert SelectedSize(ps, selected) == 2058;
  }

  // ---------------------------------------------------------------- the objects

  /** `AppState`. */
  class AppState {
    var selected: nat
    var selectedProjects: seq<bool>
    var mode: UIMode
    var statusMessage: Status
    var totalFreedSpace: nat
    var cleanupProgress: Fraction

    constructor (projectCount: nat)
      ensures Snapshot() == InitialScreen(projectCount)
    {
      selected := 0;
      selectedProjects := seq(projectCount, _ => false);
      mode := Browse;
      statusMessage := Help;
      totalFreedSpace := 0;
      cleanupProgress := Fraction(0, 1);
    }

    function Snapshot(): Screen
      reads this
    {
      Screen(selected, selectedProjects, mode, statusMessage, totalFreedSpace, cleanupProgress)
    }
  }

  /** `CleanerTUI`, with the disk it deletes from. */
  class CleanerTui {
    const projects: seq<RustProject>
    var config: Config
    var disk: DiskState
    const state: AppState

    predicate Valid()
      reads this, state
    {
      WellFormed(projects, state.Snapshot())
    }

    function Current(): Session
      reads this, state
    {
      Session(state.Snapshot(), config, disk)
    }

    /** `new`: recompute staleness for every target and start browsing with nothing selected. */
    constructor (projects: seq<RustProject>, config: Config, disk: DiskState, now: int)
      ensures this.projects == WithStaleStatus(projects, config.staleThreshold, now)
      ensures this.config == config && this.disk == disk
      ensures fresh(state) && state.Snapshot() == InitialScreen(|projects|)
      ensures Valid()
    {
      var updatedProjects := [];
      for i := 0 to |projects|
        invariant updatedProjects == WithStaleStatus(projects[..i], config.staleThreshold, now)
      {
        assert projects[..i + 1][..i] == projects[..i];
        var project := projects[i];
        if project.targetInfo.Some? {
          var targetInfo := UpdateStaleStatus(project.targetInfo.value, config.staleThreshold, now);
          updatedProjects := updatedProjects + [WithTargetInfo(project, targetInfo)];
        } else {
          updatedProjects := updatedProjects + [project];
        }
      }
      assert projects[..|projects|] == projects;
      StaleStatusOnlyMarks(projects, config.staleThreshold, now);
      this.projects := updatedProjects;
      this.config := config;
      this.disk := disk;
      state := new AppState(|updatedProjects|);
    }

    /** `update_total_freed_space`: recompute the total from scratch. */
    method UpdateTotalFreedSpace()
      requires |state.selectedProjects| == |projects|
      modifies state
      ensures state.totalFreedSpace == SelectedSize(projects, state.selectedProjects)
      ensures state.Snapshot() == old(state.Snapshot()).(totalFreed := state.totalFreedSpace)
    {
      state.totalFreedSpace := 0;
      for i := 0 to |projects|
        invariant state.totalFreedSpace == SelectedSize(projects[..i], state.selectedProjects)
        invariant state.Snapshot() == old(state.Snapshot()).(totalFreed := state.totalFreedSpace)
      {
        assert projects[..i + 1][..i] == projects[..i];
        if state.selectedProjects[i] {
          if projects[i].targetInfo.Some? {
            state.totalFreedSpace := state.totalFreedSpace + projects[i].targetInfo.value.sizeBytes;
          }
        }
      }
      assert projects[..|projects|] == projects;
    }

    /** `handle_browse_mode`. */
    method HandleBrowseMode(key: KeyEvent)
      requires Valid()
      modifies state
      ensures Valid()
      ensures state.Snapshot() == BrowseKey(projects, old(state.Snapshot()), key)
    {
      if key.code == Up {
        if state.selected > 0 {
          state.selected := state.selected - 1;
        }
      } else if key.code == Down {
        if state.selected < LastIndex(|projects|) {
          state.selected := state.selected + 1;
        }
      } else if key.code == Char(' ') {
        if |projects| > 0 {
          state.selectedProjects := state.selectedProjects[state.selected := !state.selectedProjects[state.selected]];
          UpdateTotalFreedSpace();
        }
      } else if key.code == Enter {
        var selectedCount := CountTrue(state.selectedProjects);
        if selectedCount > 0 {
          state.mode := Confirm;
          state.statusMessage := ConfirmDeletion(selectedCount);
        } else {
          state.statusMessage := NoneSelected;
        }
      } else if key.code == Char('c') && key.modifiers == {Control} {
        state.mode := Complete;
      }
    }

    /** `perform_cleanup`: run the cleaner once per selected project with a target, then complete. */
    method PerformCleanup()
      requires Valid()
      modifies this, state
      ensures Valid()
      ensures Current() == AfterCleanup(projects, old(Current()))
    {
      var totalToClean := CountTrue(state.selectedProjects);
      var cleaned := 0;
      ghost var sel, dry, disk0, freed0 := state.selectedProjects, config.dryRun, disk, state.totalFreedSpace;
      for i := 0 to |projects|
        invariant cleaned == TargetedCount(projects[..i], sel)
        invariant cleaned <= totalToClean
        invariant config == old(config)
        invariant state.selected == old(state.selected) && state.selectedProjects == sel
        invariant state.mode == old(state.mode)
        invariant disk == if cleaned == 0 then disk0 else DiskAfter(projects, sel, dry, disk0)
        invariant state.totalFreedSpace == if cleaned == 0 then freed0 else Freed(projects, sel, dry, disk0)
      {
        assert projects[..i + 1][..i] == projects[..i];
        TargetedWithinSelected(projects[..i + 1], sel);
        CountTruePrefix(sel, i + 1);
        if state.selectedProjects[i] {
          if projects[i].targetInfo.Some? {
            cleaned := cleaned + 1;
            state.cleanupProgress := Fraction(cleaned, totalToClean);
            CleanupIsIdempotent(projects, sel, dry, disk0);
            var result, diskAfter := CleanSelectedProjects(projects, state.selectedProjects, config.dryRun, disk);
            disk := diskAfter;
            if config.dryRun {
              state.statusMessage := DryRunReport(result.totalFreed);
            } else {
              state.statusMessage := CleanupReport(result.totalFreed, |result.errors|);
            }
            state.totalFreedSpace := result.totalFreed;
          }
        }
      }
      assert projects[..|projects|] == projects;
      state.mode := Complete;
      state.statusMessage := CleanupFinished(config.dryRun, state.totalFreedSpace);
      state.cleanupProgress := Fraction(1, 1);
    }

    /** `handle_confirm_mode`. */
    method HandleConfirmMode(key: KeyEvent)
      requires Valid()
      modifies this, state
      ensures Valid()
      ensures Current() == ConfirmKey(projects, old(Current()), key)
    {
      if key.code == Char('y') || key.code == Char('Y') {
        state.mode := Cleaning;
        state.statusMessage := CleaningInProgress;
        PerformCleanup();
      } else if key.code == Char('n') || key.code == Char('N') || key.code == Esc {
        state.mode := Browse;
        state.statusMessage := Cancelled;
      }
    }

    /** `handle_cleaning_mode`: input is ignored. */
    method HandleCleaningMode(key: KeyEvent)
      requires Valid()
      ensures Current() == old(Current())
    {
    }

    /** `handle_complete_mode`. */
    method HandleCompleteMode(key: KeyEvent)
      requires Valid()
      modifies this, state
      ensures Valid()
      ensures Current() == CompleteKey(old(Current()), key)
    {
      if key.code == Char('d') {
        config := config.(dryRun := !config.dryRun);
        state.statusMessage := SwitchedMode(config.dryRun);
      } else if key.code == Char('r') {
        state.mode := Browse;
        state.statusMessage := BackToSelection;
      }
    }

    /** `should_exit`. */
    function ShouldExit(): (r: bool)
      reads this, state
      ensures r <==> Current().screen.mode == Complete
    {
      state.mode == Complete
    }

    /** `run_internal` over the events the terminal delivers, until the mode is Complete or they run out. */
    method RunInternal(events: seq<Event>)
      requires Valid()
      modifies this, state
      ensures Valid()
      ensures Current() == RunFinal(projects, old(Current()), events)
    {
      var i := 0;
      while i < |events|
        invariant 0 <= i <= |events|
        invariant Valid()
        invariant RunFinal(projects, old(Current()), events) == RunFinal(projects, Current(), events[i..])
        decreases |events| - i
      {
        ghost var before := Current();
        RunFinalStep(projects, before, events, i);
        match events[i] {
          case Key(key) =>
            match state.mode {
              case Browse => HandleBrowseMode(key);
              case Confirm => HandleConfirmMode(key);
              case Cleaning => HandleCleaningMode(key);
              case Complete => HandleCompleteMode(key);
            }
          case OtherEvent =>
        }
        assert Current() == Step(projects, before, events[i]);
        i := i + 1;
        if ShouldExit() {
          break;
        }
      }
    }
  }
}
