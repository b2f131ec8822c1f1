/** Runs of the restore protocol that reach its unusual ends. */
module RestoreWitnesses {
  import opened Common
  import opened SnapshotRestore
  import O = Objects

  /** A state without objects. */
  function Bare(rest: string, bytes: nat): StateFile {
    O.StateFile(O.BLANK.(rest := rest), bytes)
  }

  /** The live directory holds one file that nothing references, the snapshot none. */
  const LEFTOVER: Files := map[O.Temporary(0) := ""]

  /** The run stands at its last step. */
  ghost predicate Ends(run: seq<Sys>, s: Sys) {
    IsRun(run) && run[|run| - 1] == s
  }

  lemma Then(run: seq<Sys>, s: Sys, s': Sys) returns (longer: seq<Sys>)
    requires Ends(run, s) && Next(s, s')
    ensures Ends(longer, s') && longer == run + [s']
  {
    hide Next;
    RunExtends(run, s');
    longer := run + [s'];
  }

  function Live(before: StateFile): Disk {
    Disk(Some(before), Some(LEFTOVER), map[], map[], None)
  }

  /** A restore of `target` over `before`, with the first names that `MkdirTemp` draws. */
  function Loading(before: StateFile, target: StateFile, journaled: bool): Attempt {
    Attempt(target, map[], Some(before), LEFTOVER, 0, 0, journaled, false)
  }

  function InStage(before: StateFile, stage: Stage): Disk {
    Live(before).(stages := map[0 := stage])
  }

  const FULL := Stage(Some(map[]))

  lemma Begun(before: StateFile, target: StateFile) returns (run: seq<Sys>)
    requires before.state.catalog == target.state.catalog == O.EMPTY && target.bytes <= O.STATE_FILE_LIMIT
    ensures Ends(run, Sys(InStage(before, Stage(None)), Staging, Some(Loading(before, target, false)))) && |run| == 3
  {
    var a := Loading(before, target, false);
    var live := Sys(Live(before), Idle, None);
    assert LiveOperation(START, live);
    run := Then([START], START, live);
    var begun := Sys(InStage(before, Stage(None)), Staging, Some(a));
    assert map[][0 := Stage(None)] == map[0 := Stage(None)];
    assert BeginLoad(live, begun);
    run := Then(run, live, begun);
  }

  lemma Prepared(before: StateFile, target: StateFile) returns (run: seq<Sys>)
    requires before.state.catalog == target.state.catalog == O.EMPTY && target.bytes <= O.STATE_FILE_LIMIT
    ensures Ends(run, Sys(InStage(before, FULL), Ready, Some(Loading(before, target, false)))) && |run| == 7
  {
    var a := Some(Loading(before, target, false));
    run := Begun(before, target);
    var begun, filled := Sys(InStage(before, Stage(None)), Staging, a), Sys(InStage(before, FULL), Staging, a);
    assert map[0 := Stage(None)][0 := FULL] == map[0 := FULL];
    assert ChangeStage(begun, filled);
    run := Then(run, begun, filled);
    var staged := filled.(phase := Staged);
    assert FinishStage(filled, staged);
    run := Then(run, filled, staged);
    var reserved := Sys(InStage(before, FULL).(backups := map[0 := map[]]), BackupReserved, a);
    var none: map<nat, Files>, one: map<nat, Files> := map[], map[0 := map[]];
    assert none[0 := map[]] == one && one - {0} == none;
    assert ReserveBackup(staged, reserved);
    run := Then(run, staged, reserved);
    var ready := Sys(InStage(before, FULL), Ready, a);
    assert ReleaseBackup(reserved, ready);
    run := Then(run, reserved, ready);
  }

  /** The directory between the two renames. */
  function Between(before: StateFile, target: StateFile): Disk {
    Disk(Some(before), None, map[0 := LEFTOVER], map[0 := FULL], Some(Journal(0, 0, target.state)))
  }

  lemma Swapping(before: StateFile, target: StateFile) returns (run: seq<Sys>)
    requires before.state.catalog == target.state.catalog == O.EMPTY && target.bytes <= O.STATE_FILE_LIMIT
    ensures Ends(run, Sys(Between(before, target), Moved, Some(Loading(before, target, true)))) && |run| == 9
  {
    run := Prepared(before, target);
    var ready := Sys(InStage(before, FULL), Ready, Some(Loading(before, target, false)));
    var journaled := Sys(InStage(before, FULL).(journal := Some(Journal(0, 0, target.state))), Journaled, Some(Loading(before, target, true)));
    assert WriteJournal(ready, journaled);
    run := Then(run, ready, journaled);
    var moved := Sys(Between(before, target), Moved, Some(Loading(before, target, true)));
    assert map[][0 := LEFTOVER] == map[0 := LEFTOVER];
    assert MoveLive(journaled, moved);
    run := Then(run, journaled, moved);
  }

  /** A crash and the decision after the restart. */
  lemma Crashed(run: seq<Sys>, s: Sys) returns (longer: seq<Sys>)
    requires Ends(run, s) && !s.phase.Corrupt?
    ensures var n := |run| - 1;
            && |longer| == |run| + 3 && run <= longer && Crash(longer[n], longer[n + 1]) && Restart(longer[n + 1], longer[n + 2])
            && RecoverDecide(longer[n + 2], longer[n + 3])
    ensures Ends(longer, Sys(Decide(s.disk).0, Decide(s.disk).1, s.attempt))
  {
    hide Decide;
    var down, up, decided := s.(phase := Down), s.(phase := RecoverStart), Sys(Decide(s.disk).0, Decide(s.disk).1, s.attempt);
    assert Crash(s, down) && Restart(down, up) && RecoverDecide(up, decided);
    longer := Then(run, s, down);
    longer := Then(longer, down, up);
    longer := Then(longer, up, decided);
  }

  /** A crash while staging: the store opens again, and the stage directory is still there. */
  lemma StageIsLeftBehind() returns (run: seq<Sys>)
    ensures IsRun(run) && |run| == 6 && run[2].phase.Staging? && Crash(run[2], run[3]) && Restart(run[3], run[4]) && RecoverDecide(run[4], run[5])
    ensures run[5].phase.Idle? && 0 in run[5].disk.stages
  {
    var s := Bare("", 0);
    var begun := Begun(s, s);
    run := Crashed(begun, begun[2]);
    assert run[2] == begun[2];
  }

  /** A crash between the two renames of a restore whose snapshot equals the live state: recovery
      installs the staged copy, without the commit. */
  lemma IdenticalRestore() returns (run: seq<Sys>)
    ensures IsRun(run) && |run| == 12 && run[8].phase.Moved? && Crash(run[8], run[9]) && Restart(run[9], run[10]) && RecoverDecide(run[10], run[11])
    ensures run[11].phase.RemoveBackup? && run[11].disk.objects == Some(map[]) && run[11].attempt.Some? && !run[11].attempt.value.committed
    ensures run[11].attempt.value.beforeObjects != map[]
  {
    assert O.Temporary(0) in LEFTOVER;
    var s := Bare("", 0);
    var moved := Swapping(s, s);
    run := Crashed(moved, moved[8]);
    assert run[8] == moved[8];
  }

  /** The same crash where only the rest of the state differs, the objects being the same: the digest
      does not match, and the backup is put back. */
  lemma SameObjectsOtherRest() returns (run: seq<Sys>)
    ensures IsRun(run) && |run| == 12 && run[8].phase.Moved? && run[11].phase.RemoveObjects? && run[11].attempt.Some?
    ensures var a := run[11].attempt.value;
            && a.beforeState.Some? && a.beforeState.value.state.catalog == a.target.state.catalog && !SameDigest(a)
            && 0 in run[11].disk.backups && run[11].disk.backups[0] == a.beforeObjects
  {
    var moved := Swapping(Bare("", 0), Bare("x", 0));
    assert "" != "x";
    run := Crashed(moved, moved[8]);
    assert run[8] == moved[8];
  }

  /** The same crash where the live `state.json` is over 256 MiB: recovery is refused, and the objects
      stay in the backup directory. */
  lemma OversizedRestore() returns (run: seq<Sys>)
    ensures IsRun(run) && |run| == 12 && run[8].phase.Moved? && run[11].phase.Down?
    ensures run[11].disk.objects.None? && run[11].disk.journal.Some? && !O.Readable(run[11].disk.state)
  {
    var moved := Swapping(Bare("", O.STATE_FILE_LIMIT + 1), Bare("x", 0));
    run := Crashed(moved, moved[8]);
    assert run[8] == moved[8];
  }
}
