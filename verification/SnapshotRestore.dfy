/**
 Snapshot restore with crash recovery (internal/state/snapshot.go).

 `LoadSnapshot` swaps the live object directory for a staged one by two renames and
 commits through `state.json`; a journal lets `recoverSnapshotRestore` finish or undo the
 swap.  The protocol is a step machine: every filesystem call is one step, directory
 removal and staging may stop at any intermediate content, and the process may stop
 between any two steps, also inside recovery.
 */
module SnapshotRestore {
  import opened Common
  import O = Objects

  type Files = map<O.FileName, O.Body>

  /** A persisted state, with the catalog that says which object files it references; and its encoding
      in `state.json`. */
  type State = O.State
  type StateFile = O.StateFile

  /** A `.snapshot-restore-*` directory; only its `objects` subdirectory is ever read. */
  datatype Stage = Stage(objects: Option<Files>)

  /** The journal names its two directories and the digest of the target state.
      SHA-256 of the canonical encoding is injective, so the digest is the state itself. */
  datatype Journal = Journal(backup: nat, stage: nat, target: State)

  /** The data directory.  `backups` and `stages` are the `.objects-backup-*` and
      `.snapshot-restore-*` directories by the suffix `MkdirTemp` chose. */
  datatype Disk = Disk(
    state: Option<StateFile>,
    objects: Option<Files>,
    backups: map<nat, Files>,
    stages: map<nat, Stage>,
    journal: Option<Journal>)

  datatype Phase =
    | Idle
    | Down
    | Staging
    | Staged
    | BackupReserved
    | Ready
    | Journaled
    | Moved
    | Installed
    | RecoverStart
    | RemoveBackup
    | RemoveObjects
    | RemoveStage
    | RemoveJournal
    | Corrupt

  /** The restore in progress, or the last one: what it loads, what was live before it,
      the names it drew, and how far it got. */
  datatype Attempt = Attempt(
    target: StateFile,
    files: Files,
    beforeState: Option<StateFile>,
    beforeObjects: Files,
    backup: nat,
    stage: nat,
    journaled: bool,
    committed: bool)

  datatype Sys = Sys(disk: Disk, phase: Phase, attempt: Option<Attempt>)

  /** `state.json` is paired with an object directory that holds every file it references,
      with the recorded content. */
  ghost predicate Paired(state: Option<StateFile>, objects: Files) {
    state.Some? ==>
      var slots := state.value.state.catalog.slots;
      forall s <- slots :: O.Holds(objects, slots[s])
  }

  /** `persistedStateDigest` equals the journal's target digest; a missing file has digest "". */
  predicate DigestMatches(disk: Disk, target: State) {
    disk.state.Some? && disk.state.value.state == target
  }

  /* ------------------------------ Steps ------------------------------ */

  /** Object operations between restores; each one ends in a paired directory. */
  ghost predicate LiveOperation(s: Sys, s': Sys) {
    && s.phase.Idle? && s'.phase.Idle? && s'.attempt == s.attempt
    && s'.disk.objects.Some?
    && s'.disk == s.disk.(state := s'.disk.state, objects := s'.disk.objects)
    && Paired(s'.disk.state, s'.disk.objects.value)
  }

  /** `readSnapshot` accepted a snapshot (whose `state.json` is at most 64 MiB); `MkdirTemp` creates the stage under a fresh name. */
  ghost predicate BeginLoad(s: Sys, s': Sys) {
    && s.phase.Idle? && s'.phase.Staging? && s'.attempt.Some?
    && var a := s'.attempt.value;
    && Paired(Some(a.target), a.files) && a.target.bytes <= O.STATE_FILE_LIMIT
    && a.stage !in s.disk.stages
    && s.disk.objects.Some?
    && a.beforeState == s.disk.state && a.beforeObjects == s.disk.objects.value
    && !a.journaled && !a.committed
    && s'.disk == s.disk.(stages := s.disk.stages[a.stage := Stage(None)])
  }

  /** Materializing the stage, or removing it again on an error: any content may be seen meanwhile. */
  ghost predicate ChangeStage(s: Sys, s': Sys) {
    && s.phase in {Staging, Staged, Ready} && s.attempt.Some?
    && s'.phase.Staging? && s'.attempt == s.attempt
    && s.attempt.value.stage in s'.disk.stages
    && s'.disk == s.disk.(stages := s.disk.stages[s.attempt.value.stage := s'.disk.stages[s.attempt.value.stage]])
  }

  /** Giving up before the journal exists: the deferred `RemoveAll` of the stage. */
  ghost predicate Abandon(s: Sys, s': Sys) {
    && s.phase in {Staging, Staged, Ready} && s.attempt.Some?
    && s' == s.(phase := Idle, disk := s.disk.(stages := s.disk.stages - {s.attempt.value.stage}))
  }

  ghost predicate FinishStage(s: Sys, s': Sys) {
    && s.phase.Staging? && s.attempt.Some? && s' == s.(phase := Staged)
    && s.attempt.value.stage in s.disk.stages
    && s.disk.stages[s.attempt.value.stage] == Stage(Some(s.attempt.value.files))
  }

  /** `MkdirTemp` draws the backup name by creating an empty directory. */
  ghost predicate ReserveBackup(s: Sys, s': Sys) {
    && s.phase.Staged? && s.attempt.Some? && s'.attempt.Some?
    && s'.phase.BackupReserved?
    && var a' := s'.attempt.value;
    && a' == s.attempt.value.(backup := a'.backup)
    && a'.backup !in s.disk.backups
    && s'.disk == s.disk.(backups := s.disk.backups[a'.backup := map[]])
  }

  ghost predicate ReleaseBackup(s: Sys, s': Sys) {
    && s.phase.BackupReserved? && s.attempt.Some?
    && s' == s.(phase := Ready, disk := s.disk.(backups := s.disk.backups - {s.attempt.value.backup}))
  }

  ghost predicate WriteJournal(s: Sys, s': Sys) {
    && s.phase.Ready? && s.attempt.Some? && s.disk.journal.None?
    && var a := s.attempt.value;
    && s' == s.(phase := Journaled, attempt := Some(a.(journaled := true)),
                disk := s.disk.(journal := Some(Journal(a.backup, a.stage, a.target.state))))
  }

  ghost predicate MoveLive(s: Sys, s': Sys) {
    && s.phase.Journaled? && s.attempt.Some? && s.disk.objects.Some?
    && s.attempt.value.backup !in s.disk.backups
    && s' == s.(phase := Moved,
                disk := s.disk.(objects := None, backups := s.disk.backups[s.attempt.value.backup := s.disk.objects.value]))
  }

  ghost predicate InstallStaged(s: Sys, s': Sys) {
    && s.phase.Moved? && s.attempt.Some? && s.disk.objects.None?
    && s.attempt.value.stage in s.disk.stages && s.disk.stages[s.attempt.value.stage].objects.Some?
    && s' == s.(phase := Installed,
                disk := s.disk.(objects := s.disk.stages[s.attempt.value.stage].objects,
                                stages := s.disk.stages[s.attempt.value.stage := Stage(None)]))
  }

  /** The rename of `state.json`: the commit point.  Recovery follows in the same process. */
  ghost predicate CommitState(s: Sys, s': Sys) {
    && s.phase.Installed? && s.attempt.Some?
    && s' == s.(phase := RecoverStart, attempt := Some(s.attempt.value.(committed := true)),
                disk := s.disk.(state := Some(s.attempt.value.target)))
  }

  /** A failing call after the journal rename: `LoadSnapshot` runs recovery itself. */
  ghost predicate GiveUp(s: Sys, s': Sys) {
    && s.phase in {Journaled, Moved, Installed} && O.Readable(s.disk.state)
    && s' == s.(phase := RecoverStart)
  }

  ghost predicate Crash(s: Sys, s': Sys) {
    && !s.phase.Corrupt? && s' == s.(phase := Down)
  }

  ghost predicate Restart(s: Sys, s': Sys) {
    && s.phase.Down? && s' == s.(phase := RecoverStart)
  }

  /** Recovery reads the journal and the digest of `state.json`, and chooses its branch;
      in the matching branch this includes putting a missing `objects` directory back.
      Without a journal, opening continues and creates `objects` if it is missing.  Either way a
      `state.json` over 256 MiB is refused, and the process ends. */
  function Decide(disk: Disk): (Disk, Phase) {
    if disk.journal.None? then
      (if disk.objects.None? then disk.(objects := Some(map[])) else disk, if O.Readable(disk.state) then Idle else Down)
    else if !O.Readable(disk.state) then
      (disk, Down)
    else
      var j := disk.journal.value;
      if DigestMatches(disk, j.target) then
        if disk.objects.Some? then
          (disk, RemoveBackup)
        else if j.stage in disk.stages && disk.stages[j.stage].objects.Some? then
          (disk.(objects := disk.stages[j.stage].objects, stages := disk.stages[j.stage := Stage(None)]), RemoveBackup)
        else if j.backup in disk.backups then
          (disk.(objects := Some(disk.backups[j.backup]), backups := disk.backups - {j.backup}), RemoveBackup)
        else
          (disk, Corrupt)
      else if j.backup in disk.backups then
        (disk, RemoveObjects)
      else if disk.objects.Some? then
        (disk, RemoveStage)
      else
        (disk, Corrupt)
  }

  ghost predicate RecoverDecide(s: Sys, s': Sys) {
    && s.phase.RecoverStart?
    && s' == s.(disk := Decide(s.disk).0, phase := Decide(s.disk).1)
  }

  /** One entry of the backup goes, or the emptied directory itself; then the next phase. */
  ghost predicate RemovingBackup(s: Sys, s': Sys) {
    && s.phase.RemoveBackup? && s.disk.journal.Some?
    && var b := s.disk.journal.value.backup;
    if b !in s.disk.backups then
      s' == s.(phase := RemoveStage)
    else
      || s' == s.(disk := s.disk.(backups := s.disk.backups - {b}))
      || (b in s'.disk.backups && s' == s.(disk := s.disk.(backups := s.disk.backups[b := s'.disk.backups[b]])))
  }

  ghost predicate RemovingObjects(s: Sys, s': Sys) {
    && s.phase.RemoveObjects? && s.disk.journal.Some?
    && var b := s.disk.journal.value.backup;
    if s.disk.objects.None? then
      && b in s.disk.backups
      && s' == s.(phase := RemoveStage,
                  disk := s.disk.(objects := Some(s.disk.backups[b]), backups := s.disk.backups - {b}))
    else
      || s' == s.(disk := s.disk.(objects := None))
      || (s'.disk.objects.Some? && s' == s.(disk := s.disk.(objects := s'.disk.objects)))
  }

  ghost predicate RemovingStage(s: Sys, s': Sys) {
    && s.phase.RemoveStage? && s.disk.journal.Some?
    && var g := s.disk.journal.value.stage;
    if g !in s.disk.stages then
      s' == s.(phase := RemoveJournal)
    else
      || s' == s.(disk := s.disk.(stages := s.disk.stages - {g}))
      || (g in s'.disk.stages && s' == s.(disk := s.disk.(stages := s.disk.stages[g := s'.disk.stages[g]])))
  }

  ghost predicate RemovingJournal(s: Sys, s': Sys) {
    && s.phase.RemoveJournal?
    && s' == s.(phase := Idle, disk := s.disk.(journal := None))
  }

  ghost predicate RecoveryStep(s: Sys, s': Sys) {
    || RecoverDecide(s, s') || RemovingBackup(s, s') || RemovingObjects(s, s')
    || RemovingStage(s, s') || RemovingJournal(s, s')
  }

  ghost predicate LoadStep(s: Sys, s': Sys) {
    || BeginLoad(s, s') || ChangeStage(s, s') || Abandon(s, s') || FinishStage(s, s')
    || ReserveBackup(s, s') || ReleaseBackup(s, s') || WriteJournal(s, s')
    || MoveLive(s, s') || InstallStaged(s, s') || CommitState(s, s') || GiveUp(s, s')
  }

  ghost predicate Next(s: Sys, s': Sys) {
    || LiveOperation(s, s') || LoadStep(s, s') || RecoveryStep(s, s')
    || Crash(s, s') || Restart(s, s')
  }

  /** A freshly created data directory. */
  const START := Sys(Disk(None, Some(map[]), map[], map[], None), Idle, None)

  ghost predicate StepAt(run: seq<Sys>, i: nat)
    requires i + 1 < |run|
  {
    Next(run[i], run[i + 1])
  }

  ghost predicate IsRun(run: seq<Sys>) {
    && |run| > 0 && run[0] == START
    && forall i: nat :: i + 1 < |run| ==> StepAt(run, i)
  }

  /* ------------------------------ Invariant ------------------------------ */

  /** The journal belongs to the attempt, and `state.json` is what the attempt left it. */
  ghost predicate Linked(s: Sys) {
    && s.attempt.Some?
    && var a := s.attempt.value;
    && s.disk.journal == Some(Journal(a.backup, a.stage, a.target.state)) && a.journaled
    && Paired(a.beforeState, a.beforeObjects) && Paired(Some(a.target), a.files) && a.target.bytes <= O.STATE_FILE_LIMIT
    && s.disk.state == (if a.committed then Some(a.target) else a.beforeState)
  }

  /** The snapshot's state is the live one, object metadata, queues, tables and documents included. */
  predicate SameDigest(a: Attempt) {
    a.beforeState.Some? && a.beforeState.value.state == a.target.state
  }

  /** The directory contents that a finished restore may leave. */
  ghost predicate Outcome(a: Attempt, disk: Disk) {
    && disk.objects.Some?
    && disk.state == (if a.committed then Some(a.target) else a.beforeState)
    && (|| (disk.objects.value == a.files && (a.committed || SameDigest(a)))
        || (disk.objects.value == a.beforeObjects && !a.committed))
  }

  /** What recovery can rely on at any moment while the journal exists. */
  ghost predicate Recoverable(a: Attempt, disk: Disk) {
    if DigestMatches(disk, a.target.state) then
      || Outcome(a, disk)
      || (disk.objects.None? && a.stage in disk.stages && disk.stages[a.stage] == Stage(Some(a.files)))
    else
      if a.backup in disk.backups then disk.backups[a.backup] == a.beforeObjects else disk.objects == Some(a.beforeObjects)
  }

  ghost predicate StageReady(a: Attempt, disk: Disk) {
    a.stage in disk.stages && disk.stages[a.stage] == Stage(Some(a.files))
  }

  ghost predicate PhaseOk(s: Sys, a: Attempt) {
    match s.phase
    case Journaled => s.disk.objects == Some(a.beforeObjects) && a.backup !in s.disk.backups && StageReady(a, s.disk) && !a.committed
    case Moved => s.disk.objects.None? && a.backup in s.disk.backups && s.disk.backups[a.backup] == a.beforeObjects && StageReady(a, s.disk) && !a.committed
    case Installed => s.disk.objects == Some(a.files) && a.backup in s.disk.backups && s.disk.backups[a.backup] == a.beforeObjects && !a.committed
    case Down => Recoverable(a, s.disk)
    case RecoverStart => Recoverable(a, s.disk)
    case RemoveBackup => DigestMatches(s.disk, a.target.state) && Outcome(a, s.disk)
    case RemoveObjects => !DigestMatches(s.disk, a.target.state) && a.backup in s.disk.backups && s.disk.backups[a.backup] == a.beforeObjects
    case RemoveStage => Outcome(a, s.disk) && a.backup !in s.disk.backups
    case RemoveJournal => Outcome(a, s.disk) && a.backup !in s.disk.backups && a.stage !in s.disk.stages
    case _ => false
  }

  ghost predicate Quiet(s: Sys) {
    && s.disk.journal.None? && s.disk.objects.Some? && Paired(s.disk.state, s.disk.objects.value)
    && s.phase in {Idle, Down, RecoverStart, Staging, Staged, BackupReserved, Ready}
    && (s.phase in {Staging, Staged, BackupReserved, Ready} ==>
          && s.attempt.Some?
          && var a := s.attempt.value;
          && Paired(Some(a.target), a.files) && a.target.bytes <= O.STATE_FILE_LIMIT && !a.committed && !a.journaled
          && a.beforeState == s.disk.state && s.disk.objects == Some(a.beforeObjects)
          && a.stage in s.disk.stages
          && (s.phase in {Staged, BackupReserved, Ready} ==> StageReady(a, s.disk))
          && (s.phase.BackupReserved? ==> a.backup in s.disk.backups)
          && (s.phase.Ready? ==> a.backup !in s.disk.backups))
    && (s.attempt.Some? && s.attempt.value.journaled && s.phase in {Idle, Down, RecoverStart} ==>
          s.attempt.value.stage !in s.disk.stages && s.attempt.value.backup !in s.disk.backups)
  }

  ghost predicate Inv(s: Sys) {
    if s.disk.journal.None? then Quiet(s) else Linked(s) && PhaseOk(s, s.attempt.value)
  }

  lemma JournalImpliesRecoverable(s: Sys)
    requires Inv(s) && s.disk.journal.Some?
    ensures Recoverable(s.attempt.value, s.disk)
  {
  }

  lemma LoadStepKeepsInv(s: Sys, s': Sys)
    requires Inv(s) && LoadStep(s, s')
    ensures Inv(s')
  {
    if GiveUp(s, s') { JournalImpliesRecoverable(s); }
  }

  lemma DecideKeepsInv(s: Sys, s': Sys)
    requires Inv(s) && RecoverDecide(s, s')
    ensures Inv(s')
  {
  }

  lemma RemovalKeepsInv(s: Sys, s': Sys)
    requires Inv(s) && (RemovingBackup(s, s') || RemovingObjects(s, s'))
    ensures Inv(s')
  {
  }

  lemma RecoveryStepKeepsInv(s: Sys, s': Sys)
    requires Inv(s) && RecoveryStep(s, s')
    ensures Inv(s')
  {
    if RecoverDecide(s, s') {
      DecideKeepsInv(s, s');
    } else if RemovingBackup(s, s') || RemovingObjects(s, s') {
      RemovalKeepsInv(s, s');
    }
  }

  lemma StepKeepsInv(s: Sys, s': Sys)
    requires Inv(s) && Next(s, s')
    ensures Inv(s')
  {
    if LoadStep(s, s') {
      LoadStepKeepsInv(s, s');
    } else if RecoveryStep(s, s') {
      RecoveryStepKeepsInv(s, s');
    } else if Crash(s, s') && s.disk.journal.Some? {
      JournalImpliesRecoverable(s);
    }
  }

  lemma {:induction false} RunKeepsInv(run: seq<Sys>, i: nat)
    requires IsRun(run) && i < |run|
    ensures Inv(run[i])
  {
    if i > 0 {
      RunKeepsInv(run, i - 1);
      assert StepAt(run, i - 1);
      StepKeepsInv(run[i - 1], run[i]);
    }
  }

  /* ------------------------------ Theorems ------------------------------ */

  /** Recovery never reports a missing object directory, in any run. */
  lemma RecoveryNeverCorrupt(run: seq<Sys>, i: nat)
    requires IsRun(run) && i < |run|
    ensures !run[i].phase.Corrupt?
  {
    RunKeepsInv(run, i);
  }

  /** Whenever no restore is in flight, `state.json` is paired with the object directory and the
      journal is gone; if the last restore got as far as its journal, so are its two directories. */
  lemma IdleIsPaired(run: seq<Sys>, i: nat)
    requires IsRun(run) && i < |run| && run[i].phase.Idle?
    ensures run[i].disk.journal.None? && run[i].disk.objects.Some?
    ensures Paired(run[i].disk.state, run[i].disk.objects.value)
    ensures run[i].attempt.Some? && run[i].attempt.value.journaled ==>
              && run[i].attempt.value.stage !in run[i].disk.stages
              && run[i].attempt.value.backup !in run[i].disk.backups
  {
    RunKeepsInv(run, i);
  }

  /** The same restore, no less committed. */
  ghost predicate SameRestore(s: Sys, s': Sys) {
    && s.attempt.Some? && s'.attempt.Some?
    && s'.attempt.value == s.attempt.value.(committed := s'.attempt.value.committed)
    && (s.attempt.value.committed ==> s'.attempt.value.committed)
  }

  /** Only the last step of recovery removes a journal. */
  lemma JournalStep(s: Sys, s': Sys)
    requires Inv(s) && s.disk.journal.Some? && Next(s, s')
    ensures SameRestore(s, s')
    ensures s'.phase.Idle? <==> s'.disk.journal.None?
    ensures s'.phase.Idle? ==> s.phase.RemoveJournal? && s' == s.(phase := Idle, disk := s.disk.(journal := None))
  {
    if LoadStep(s, s') {
    } else if RecoveryStep(s, s') {
    }
  }

  lemma {:induction false} JournalPersists(run: seq<Sys>, i: nat, j: nat)
    requires IsRun(run) && i <= j < |run| && run[i].disk.journal.Some?
    requires forall k :: i <= k <= j ==> !run[k].phase.Idle?
    ensures run[j].disk.journal.Some? && SameRestore(run[i], run[j])
    decreases j - i
  {
    RunKeepsInv(run, i);
    if i < j {
      JournalPersists(run, i, j - 1);
      RunKeepsInv(run, j - 1);
      assert StepAt(run, j - 1);
      JournalStep(run[j - 1], run[j]);
    }
  }

  /** The restore theorem.  From any moment `i` at which a journal exists, through any crashes
      and restarts, up to the first recovery that completes at `j`: the data directory holds the
      new pair if the rename of `state.json` happened and the old pair otherwise.  The one
      exception to "old directory" is a snapshot equal to the live state, where the staged copy
      of the same files may have been installed.  Journal, backup and stage are gone. */
  lemma RestoreResolves(run: seq<Sys>, i: nat, j: nat)
    requires IsRun(run) && i < j < |run| && run[i].disk.journal.Some?
    requires run[j].phase.Idle? && forall k :: i <= k < j ==> !run[k].phase.Idle?
    ensures SameRestore(run[i], run[j])
    ensures var a, d := run[j].attempt.value, run[j].disk;
            && d.journal.None? && a.backup !in d.backups && a.stage !in d.stages
            && d.objects.Some? && Paired(d.state, d.objects.value)
            && (a.committed ==> d.state == Some(a.target) && d.objects.value == a.files)
            && (!a.committed ==> d.state == a.beforeState)
            && (!a.committed && !SameDigest(a) ==> d.objects.value == a.beforeObjects)
            && (!a.committed ==> d.objects.value in {a.beforeObjects, a.files})
  {
    JournalPersists(run, i, j - 1);
    RunKeepsInv(run, j - 1);
    assert StepAt(run, j - 1);
    JournalStep(run[j - 1], run[j]);
    RunKeepsInv(run, j);
  }

  /** When a run is in recovery, the digest matches and `objects` is missing, the staged directory
      is there: the branch that puts the backup back in that case is never taken. */
  lemma StagedObjectsArePresent(run: seq<Sys>, i: nat)
    requires IsRun(run) && i < |run| && run[i].phase.RecoverStart?
    requires run[i].disk.journal.Some? && run[i].disk.objects.None?
    requires DigestMatches(run[i].disk, run[i].disk.journal.value.target)
    ensures var j := run[i].disk.journal.value;
            j.stage in run[i].disk.stages && run[i].disk.stages[j.stage].objects.Some?
  {
    RunKeepsInv(run, i);
  }

  /** Before the journal rename there is nothing to recover: a crash then changes neither
      `state.json` nor `objects`, and the next recovery leaves the stage directory behind. */
  lemma CrashBeforeJournalLeavesStage(run: seq<Sys>, i: nat)
    requires IsRun(run) && i + 3 < |run|
    requires run[i].phase in {Staging, Staged, BackupReserved, Ready}
    requires Crash(run[i], run[i + 1]) && Restart(run[i + 1], run[i + 2]) && RecoverDecide(run[i + 2], run[i + 3])
    ensures (run[i + 3].phase.Idle? <==> O.Readable(run[i].disk.state)) && run[i + 3].disk == run[i].disk
    ensures run[i].attempt.Some? && run[i].attempt.value.stage in run[i + 3].disk.stages
  {
    RunKeepsInv(run, i);
  }

  /** Restoring a snapshot equal to the live state, stopped between the two renames: the digest matches
      although the commit did not happen, and recovery installs the staged copy. */
  lemma IdenticalRestoreInstallsStage(run: seq<Sys>, i: nat)
    requires IsRun(run) && i + 3 < |run| && run[i].phase.Moved?
    requires Crash(run[i], run[i + 1]) && Restart(run[i + 1], run[i + 2]) && RecoverDecide(run[i + 2], run[i + 3])
    ensures run[i].attempt.Some?
    ensures var a := run[i].attempt.value;
            && !a.committed
            && (O.Readable(a.beforeState) ==> (SameDigest(a) <==> run[i + 3].disk.objects == Some(a.files) && run[i + 3].phase.RemoveBackup?))
            && (O.Readable(a.beforeState) ==> (!SameDigest(a) <==> run[i + 3].phase.RemoveObjects?))
  {
    RunKeepsInv(run, i);
  }

  /** Recovery, and the opening that follows it, is refused exactly when `state.json` is over 256 MiB. */
  lemma RecoveryRefusedIff(run: seq<Sys>, i: nat)
    requires IsRun(run) && i + 1 < |run| && run[i].phase.RecoverStart? && RecoverDecide(run[i], run[i + 1])
    ensures run[i + 1].phase.Down? <==> !O.Readable(run[i].disk.state)
    ensures run[i + 1].phase.Down? ==> run[i + 1].disk == run[i].disk
  {
    RunKeepsInv(run, i);
    RunKeepsInv(run, i + 1);
  }

  lemma OversizedStep(s: Sys, s': Sys)
    requires Inv(s) && Next(s, s') && s.phase in {Down, RecoverStart} && !O.Readable(s.disk.state)
    ensures s'.phase in {Down, RecoverStart} && s'.disk == s.disk
  {
    hide Linked, PhaseOk, Paired;
    assert !LiveOperation(s, s') && !LoadStep(s, s');
  }

  /** Such a directory is stuck: no later step of the run changes it or gets past recovery. */
  lemma {:induction false} OversizedIsStuck(run: seq<Sys>, i: nat, j: nat)
    requires IsRun(run) && i <= j < |run| && run[i].phase in {Down, RecoverStart} && !O.Readable(run[i].disk.state)
    ensures run[j].phase in {Down, RecoverStart} && run[j].disk == run[i].disk
    decreases j
  {
    if i < j {
      hide Inv, Next;
      OversizedIsStuck(run, i, j - 1);
      RunKeepsInv(run, j - 1);
      assert StepAt(run, j - 1);
      OversizedStep(run[j - 1], run[j]);
    }
  }

  /** A stage directory that belongs neither to the journal nor to a restore in progress. */
  ghost predicate Orphan(s: Sys, g: nat, content: Stage) {
    && g in s.disk.stages && s.disk.stages[g] == content
    && (s.disk.journal.Some? ==> s.disk.journal.value.stage != g)
    && (s.phase in {Staging, Staged, BackupReserved, Ready} ==> s.attempt.Some? && s.attempt.value.stage != g)
  }

  lemma OrphanStep(s: Sys, s': Sys, g: nat, content: Stage)
    requires Inv(s) && Orphan(s, g, content) && Next(s, s')
    ensures Orphan(s', g, content)
  {
    if LoadStep(s, s') {
      OrphanLoadStep(s, s', g, content);
    } else if RecoveryStep(s, s') {
      OrphanRecoveryStep(s, s', g, content);
    }
  }

  lemma OrphanLoadStep(s: Sys, s': Sys, g: nat, content: Stage)
    requires Inv(s) && Orphan(s, g, content) && LoadStep(s, s')
    ensures Orphan(s', g, content)
  {
  }

  lemma OrphanRecoveryStep(s: Sys, s': Sys, g: nat, content: Stage)
    requires Inv(s) && Orphan(s, g, content) && RecoveryStep(s, s')
    ensures Orphan(s', g, content)
  {
  }

  /** And it does stay for good: after a crash before the journal, no later step of the run, whatever
      is restored, recovered or crashes afterwards, removes or changes that stage directory. */
  lemma {:induction false} StageStaysForGood(run: seq<Sys>, i: nat, j: nat)
    requires IsRun(run) && i < j < |run| && run[i].phase in {Staging, Staged, BackupReserved, Ready} && Crash(run[i], run[i + 1])
    ensures run[i].attempt.Some?
    ensures var g := run[i].attempt.value.stage;
            g in run[i].disk.stages && Orphan(run[j], g, run[i].disk.stages[g])
    decreases j
  {
    RunKeepsInv(run, i);
    if j > i + 1 {
      StageStaysForGood(run, i, j - 1);
      RunKeepsInv(run, j - 1);
      assert StepAt(run, j - 1);
      OrphanStep(run[j - 1], run[j], run[i].attempt.value.stage, run[i].disk.stages[run[i].attempt.value.stage]);
    }
  }

  /* ------------------------------ The code ------------------------------ */

  lemma RunExtends(run: seq<Sys>, s: Sys)
    requires IsRun(run) && Next(run[|run| - 1], s)
    ensures IsRun(run + [s])
  {
    var longer := run + [s];
    forall i: nat | i + 1 < |longer| ensures StepAt(longer, i) {
      if i + 1 < |run| { assert StepAt(run, i); }
    }
  }

  /** `run'` continues `run` and does not come to rest on the way. */
  ghost predicate Extends(run: seq<Sys>, run': seq<Sys>) {
    && run <= run'
    && forall k :: |run| <= k < |run'| ==> !run'[k].phase.Idle?
  }

  /** The data directory with the calls of `recoverSnapshotRestore` and `LoadSnapshot`, in order.
      `run` records the directory after every call, so that a crash point is a prefix of it. */
  class DataDirectory {
    var disk: Disk
    ghost var run: seq<Sys>

    ghost predicate Valid()
      reads this
    {
      IsRun(run) && run[|run| - 1].disk == disk
    }

    ghost function Now(): Sys
      requires Valid()
      reads this
    {
      run[|run| - 1]
    }

    constructor ()
      ensures Valid() && Now() == START
    {
      disk := START.disk;
      run := [START];
    }

    /** The code stands at `phase`, having made one more call. */
    ghost method Record(phase: Phase, attempt: Option<Attempt>)
      requires IsRun(run) && Next(run[|run| - 1], Sys(disk, phase, attempt))
      requires !phase.Idle?
      modifies this`run
      ensures Valid() && Extends(old(run), run) && Now() == Sys(disk, phase, attempt)
    {
      RunExtends(run, Sys(disk, phase, attempt));
      run := run + [Sys(disk, phase, attempt)];
    }

    /** One call of `RemoveAll` on the backup: an entry, or the directory itself. */
    method ShrinkBackup(b: nat, rest: Option<Files>)
      requires Valid() && Now().phase.RemoveBackup? && disk.journal.Some? && disk.journal.value.backup == b
      requires b in disk.backups
      modifies this
      ensures Valid() && Extends(old(run), run)
      ensures Now() == old(Now()).(disk := disk)
      ensures disk == old(disk).(backups := if rest.Some? then old(disk.backups)[b := rest.value] else old(disk.backups) - {b})
    {
      ghost var before := Now();
      disk := disk.(backups := if rest.Some? then disk.backups[b := rest.value] else disk.backups - {b});
      assert RemovingBackup(before, before.(disk := disk));
      Record(RemoveBackup, before.attempt);
    }

    /** `RemoveAll` of the backup: its entries one by one, then the directory. */
    method EmptyBackup(b: nat)
      requires Valid() && Now().phase.RemoveBackup? && disk.journal.Some? && disk.journal.value.backup == b
      requires b in disk.backups
      modifies this
      ensures Valid() && Extends(old(run), run)
      ensures Now() == old(Now()).(disk := disk) && disk == old(disk).(backups := old(disk.backups) - {b})
    {
      while disk.backups[b] != map[]
        invariant Valid() && Extends(old(run), run) && b in disk.backups
        invariant Now() == old(Now()).(disk := disk)
        invariant disk == old(disk).(backups := disk.backups) && disk.backups - {b} == old(disk.backups) - {b}
        decreases |disk.backups[b]|
      {
        var name :| name in disk.backups[b];
        ShrinkBackup(b, Some(disk.backups[b] - {name}));
      }
      ShrinkBackup(b, None);
    }

    method RemoveBackupDirectory(b: nat)
      requires Valid() && Now().phase.RemoveBackup? && disk.journal.Some? && disk.journal.value.backup == b
      modifies this
      ensures Valid() && Extends(old(run), run)
      ensures Now() == old(Now()).(phase := RemoveStage, disk := old(disk).(backups := old(disk.backups) - {b}))
    {
      if b in disk.backups {
        EmptyBackup(b);
      }
      assert disk.backups == old(disk.backups) - {b};
      assert RemovingBackup(Now(), Now().(phase := RemoveStage));
      Record(RemoveStage, Now().attempt);
    }

    method ShrinkObjects(rest: Option<Files>)
      requires Valid() && Now().phase.RemoveObjects? && disk.journal.Some? && disk.objects.Some?
      modifies this
      ensures Valid() && Extends(old(run), run)
      ensures Now() == old(Now()).(disk := disk) && disk == old(disk).(objects := rest)
    {
      ghost var before := Now();
      disk := disk.(objects := rest);
      assert RemovingObjects(before, before.(disk := disk));
      Record(RemoveObjects, before.attempt);
    }

    /** `RemoveAll` of the live objects: one by one, then the directory. */
    method EmptyObjects()
      requires Valid() && Now().phase.RemoveObjects? && disk.journal.Some? && disk.objects.Some?
      modifies this
      ensures Valid() && Extends(old(run), run)
      ensures Now() == old(Now()).(disk := disk) && disk == old(disk).(objects := None)
    {
      while disk.objects.value != map[]
        invariant Valid() && Extends(old(run), run) && disk.objects.Some?
        invariant Now() == old(Now()).(disk := disk) && disk == old(disk).(objects := disk.objects)
        decreases |disk.objects.value|
      {
        var name :| name in disk.objects.value;
        ShrinkObjects(Some(disk.objects.value - {name}));
      }
      ShrinkObjects(None);
    }

    /** `RemoveAll` of the live objects, then the rename that puts the backup back. */
    method PutBackupBack(b: nat)
      requires Valid() && Now().phase.RemoveObjects? && disk.journal.Some? && disk.journal.value.backup == b
      requires b in disk.backups
      modifies this
      ensures Valid() && Extends(old(run), run)
      ensures Now() == old(Now()).(phase := RemoveStage,
                disk := old(disk).(objects := Some(old(disk.backups[b])), backups := old(disk.backups) - {b}))
    {
      if disk.objects.Some? {
        EmptyObjects();
      }
      ghost var before := Now();
      disk := disk.(objects := Some(disk.backups[b]), backups := disk.backups - {b});
      assert RemovingObjects(before, before.(phase := RemoveStage, disk := disk));
      Record(RemoveStage, before.attempt);
    }

    method ShrinkStage(g: nat, rest: Option<Stage>)
      requires Valid() && Now().phase.RemoveStage? && disk.journal.Some? && disk.journal.value.stage == g
      requires g in disk.stages
      modifies this
      ensures Valid() && Extends(old(run), run)
      ensures Now() == old(Now()).(disk := disk)
      ensures disk == old(disk).(stages := if rest.Some? then old(disk.stages)[g := rest.value] else old(disk.stages) - {g})
    {
      ghost var before := Now();
      disk := disk.(stages := if rest.Some? then disk.stages[g := rest.value] else disk.stages - {g});
      assert RemovingStage(before, before.(disk := disk));
      Record(RemoveStage, before.attempt);
    }

    /** `RemoveAll` of the stage: its objects one by one, then the directory. */
    method EmptyStage(g: nat)
      requires Valid() && Now().phase.RemoveStage? && disk.journal.Some? && disk.journal.value.stage == g
      requires g in disk.stages
      modifies this
      ensures Valid() && Extends(old(run), run)
      ensures Now() == old(Now()).(disk := disk) && disk == old(disk).(stages := old(disk.stages) - {g})
    {
      while disk.stages[g].objects.Some? && disk.stages[g].objects.value != map[]
        invariant Valid() && Extends(old(run), run) && g in disk.stages
        invariant Now() == old(Now()).(disk := disk)
        invariant disk == old(disk).(stages := disk.stages) && disk.stages - {g} == old(disk.stages) - {g}
        decreases if disk.stages[g].objects.Some? then |disk.stages[g].objects.value| else 0
      {
        var name :| name in disk.stages[g].objects.value;
        ShrinkStage(g, Some(Stage(Some(disk.stages[g].objects.value - {name}))));
      }
      ShrinkStage(g, None);
    }

    method RemoveStageDirectory(g: nat)
      requires Valid() && Now().phase.RemoveStage? && disk.journal.Some? && disk.journal.value.stage == g
      modifies this
      ensures Valid() && Extends(old(run), run)
      ensures Now() == old(Now()).(phase := RemoveJournal, disk := old(disk).(stages := old(disk.stages) - {g}))
    {
      if g in disk.stages {
        EmptyStage(g);
      }
      assert disk.stages == old(disk.stages) - {g};
      assert RemovingStage(Now(), Now().(phase := RemoveJournal));
      Record(RemoveJournal, Now().attempt);
    }

    /** The first decision of `recoverSnapshotRestore`, and the rename it may make. */
    method ChooseBranch() returns (phase: Phase)
      requires Valid() && Now().phase.RecoverStart?
      modifies this
      ensures Valid() && Now() == old(Now()).(disk := Decide(old(disk)).0, phase := phase)
      ensures phase == Decide(old(disk)).1
      ensures old(run) < run && run[..|run| - 1] == old(run)
    {
      ghost var before := Now();
      if disk.journal.None? {
        phase := if O.Readable(disk.state) then Idle else Down;
        if disk.objects.None? {
          disk := disk.(objects := Some(map[]));
        }
      } else if disk.state.Some? && disk.state.value.bytes > O.STATE_FILE_LIMIT {
        phase := Down;
      } else {
        var journal := disk.journal.value;
        if DigestMatches(disk, journal.target) {
          phase := RemoveBackup;
          if disk.objects.None? {
            if journal.stage in disk.stages && disk.stages[journal.stage].objects.Some? {
              disk := disk.(objects := disk.stages[journal.stage].objects, stages := disk.stages[journal.stage := Stage(None)]);
            } else if journal.backup in disk.backups {
              disk := disk.(objects := Some(disk.backups[journal.backup]), backups := disk.backups - {journal.backup});
            } else {
              phase := Corrupt;
            }
          }
        } else {
          phase := if journal.backup in disk.backups then RemoveObjects else if disk.objects.Some? then RemoveStage else Corrupt;
        }
      }
      assert RecoverDecide(before, before.(disk := disk, phase := phase));
      RunExtends(run, Sys(disk, phase, before.attempt));
      run := run + [Sys(disk, phase, before.attempt)];
    }

    /** `recoverSnapshotRestore` and the reading of `state.json` that follows it, uninterrupted: from any
        reachable directory they succeed exactly when `state.json` is not over 256 MiB, and otherwise
        change nothing; every intermediate directory is a step of the protocol. */
    method Recover() returns (ok: bool)
      requires Valid() && Now().phase.RecoverStart?
      modifies this
      ensures Valid() && old(run) < run && (ok <==> O.Readable(old(disk).state))
      ensures if ok then Now().phase.Idle? else Now().phase.Down? && disk == old(disk)
      ensures forall k :: |old(run)| <= k < |run| - 1 ==> !run[k].phase.Idle?
      ensures Now().attempt == old(Now()).attempt
    {
      RunKeepsInv(run, |run| - 1);
      var phase := ChooseBranch();
      RunKeepsInv(run, |run| - 1);
      if phase.Idle? {
        return true;
      }
      if phase.Corrupt? || phase.Down? {
        return false;
      }
      FinishRecovery(phase);
      ok := true;
    }

    /** The removals of the chosen branch, then the journal. */
    method FinishRecovery(phase: Phase)
      requires Valid() && Now().phase == phase && phase in {RemoveBackup, RemoveObjects, RemoveStage} && disk.journal.Some?
      requires phase.RemoveObjects? ==> disk.journal.value.backup in disk.backups
      modifies this
      ensures Valid() && old(run) < run && Now().phase.Idle? && Now().attempt == old(Now()).attempt
      ensures forall k :: |old(run)| <= k < |run| - 1 ==> !run[k].phase.Idle?
    {
      var journal := disk.journal.value;
      if phase.RemoveBackup? {
        RemoveBackupDirectory(journal.backup);
      } else if phase.RemoveObjects? {
        PutBackupBack(journal.backup);
      }
      RemoveStageDirectory(journal.stage);
      ghost var before := Now();
      disk := disk.(journal := None);
      assert RemovingJournal(before, before.(phase := Idle, disk := disk));
      RunExtends(run, Sys(disk, Idle, before.attempt));
      run := run + [Sys(disk, Idle, before.attempt)];
    }

    /** `materializeLoadedSnapshot`: the object files, one by one, into the new stage. */
    method CopyFiles(files: Files, stage: nat)
      requires Valid() && Now().phase.Staging? && Now().attempt.Some? && Now().attempt.value.stage == stage
      requires stage in disk.stages
      modifies this
      ensures Valid() && Extends(old(run), run)
      ensures Now() == old(Now()).(disk := disk)
      ensures disk == old(disk).(stages := old(disk.stages)[stage := Stage(Some(files))])
    {
      var todo, done: Files := files.Keys, map[];
      SetStage(stage, Stage(Some(done)));
      while todo != {}
        invariant Valid() && Extends(old(run), run) && todo <= files.Keys
        invariant Now() == old(Now()).(disk := disk)
        invariant disk == old(disk).(stages := old(disk.stages)[stage := Stage(Some(done))])
        invariant done == files - todo
        decreases |todo|
      {
        var name :| name in todo;
        done, todo := done[name := files[name]], todo - {name};
        SetStage(stage, Stage(Some(done)));
      }
      assert done == files;
    }

    method SetStage(stage: nat, content: Stage)
      requires Valid() && Now().phase.Staging? && Now().attempt.Some? && Now().attempt.value.stage == stage
      requires stage in disk.stages
      modifies this
      ensures Valid() && Extends(old(run), run)
      ensures Now() == old(Now()).(disk := disk)
      ensures disk == old(disk).(stages := old(disk.stages)[stage := content])
    {
      ghost var before := Now();
      disk := disk.(stages := disk.stages[stage := content]);
      assert ChangeStage(before, before.(disk := disk));
      Record(Staging, before.attempt);
    }

    method JournalAndMove(target: StateFile, stage: nat, backup: nat)
      requires Valid() && Now().phase.Ready? && Now().attempt.Some?
      requires Now().attempt.value.target == target && Now().attempt.value.stage == stage && Now().attempt.value.backup == backup
      modifies this
      ensures Valid() && Extends(old(run), run) && Now().phase.Moved?
      ensures Now().attempt == Some(old(Now()).attempt.value.(journaled := true))
    {
      RunKeepsInv(run, |run| - 1);
      ghost var ready := Now();
      disk := disk.(journal := Some(Journal(backup, stage, target.state)));
      ghost var journaled := Sys(disk, Journaled, Some(ready.attempt.value.(journaled := true)));
      assert WriteJournal(ready, journaled);
      Record(Journaled, journaled.attempt);
      disk := disk.(objects := None, backups := disk.backups[backup := disk.objects.value]);
      assert MoveLive(journaled, Sys(disk, Moved, journaled.attempt));
      Record(Moved, journaled.attempt);
    }

    /** Journal, the two renames, and the commit of `state.json`. */
    method SwapDirectories(target: StateFile, stage: nat, backup: nat)
      requires Valid() && Now().phase.Ready? && Now().attempt.Some?
      requires Now().attempt.value.target == target && Now().attempt.value.stage == stage && Now().attempt.value.backup == backup
      modifies this
      ensures Valid() && Extends(old(run), run) && Now().phase.RecoverStart?
      ensures Now().attempt == Some(old(Now()).attempt.value.(journaled := true, committed := true))
      ensures disk.journal.Some? && disk.state == Some(target)
    {
      JournalAndMove(target, stage, backup);
      RunKeepsInv(run, |run| - 1);
      ghost var moved := Now();
      disk := disk.(objects := disk.stages[stage].objects, stages := disk.stages[stage := Stage(None)]);
      ghost var installed := Sys(disk, Installed, moved.attempt);
      assert InstallStaged(moved, installed);
      Record(Installed, moved.attempt);
      disk := disk.(state := Some(target));
      ghost var committed := Sys(disk, RecoverStart, Some(moved.attempt.value.(committed := true)));
      assert CommitState(installed, committed);
      Record(RecoverStart, committed.attempt);
    }

    /** `LoadSnapshot` after `readSnapshot` accepted (`target`, `files`), uninterrupted.
        `stage` and `backup` are the names `MkdirTemp` draws. */
    method LoadSnapshot(target: StateFile, files: Files, stage: nat, backup: nat) returns (ok: bool)
      requires Valid() && Now().phase.Idle?
      requires Paired(Some(target), files) && target.bytes <= O.STATE_FILE_LIMIT
      requires stage !in disk.stages && backup !in disk.backups
      modifies this
      ensures Valid() && old(run) < run && ok && Now().phase.Idle?
      ensures disk.state == Some(target) && disk.objects == Some(files) && disk.journal.None?
      ensures backup !in disk.backups && stage !in disk.stages
    {
      PrepareStage(target, files, stage, backup);
      SwapDirectories(target, stage, backup);
      ghost var i := |run| - 1;
      ok := Recover();
      RestoreResolves(run, i, |run| - 1);
    }

    /** The stage with the snapshot's files, and a name for the backup. */
    method PrepareStage(target: StateFile, files: Files, stage: nat, backup: nat)
      requires Valid() && Now().phase.Idle?
      requires Paired(Some(target), files) && target.bytes <= O.STATE_FILE_LIMIT
      requires stage !in disk.stages && backup !in disk.backups
      modifies this
      ensures Valid() && old(run) < run && Extends(old(run), run) && Now().phase.Ready? && Now().attempt.Some?
      ensures old(disk.objects).Some? && Now().attempt.value == Attempt(target, files, old(disk.state), old(disk.objects).value, backup, stage, false, false)
    {
      RunKeepsInv(run, |run| - 1);
      ghost var a := Attempt(target, files, disk.state, disk.objects.value, backup, stage, false, false);
      ghost var before := Now();
      disk := disk.(stages := disk.stages[stage := Stage(None)]);
      assert BeginLoad(before, Sys(disk, Staging, Some(a)));
      Record(Staging, Some(a));
      CopyFiles(files, stage);
      assert FinishStage(Now(), Now().(phase := Staged));
      Record(Staged, Some(a));
      ReserveName(backup);
    }

    /** `MkdirTemp` and `Remove`: the backup name is drawn and free again. */
    method ReserveName(backup: nat)
      requires Valid() && Now().phase.Staged? && Now().attempt.Some? && Now().attempt.value.backup == backup
      requires backup !in disk.backups
      modifies this
      ensures Valid() && Extends(old(run), run) && Now() == old(Now()).(phase := Ready)
    {
      ghost var before := Now();
      disk := disk.(backups := disk.backups[backup := map[]]);
      assert ReserveBackup(before, before.(phase := BackupReserved, disk := disk));
      Record(BackupReserved, before.attempt);
      ghost var reserved := Now();
      disk := disk.(backups := disk.backups - {backup});
      assert ReleaseBackup(reserved, reserved.(phase := Ready, disk := disk));
      Record(Ready, before.attempt);
      assert disk.backups == before.disk.backups;
    }
  }
}
