/** The guarantees of the backup pair over whole schedules, and exactly when a rollback restores. */
module BackupTheorems {
  import opened Options
  import opened BackupMachine
  import opened BackupSafety

  // ---------------------------------------------------------------- old and new are never mixed

  /** The files are part of the old pair, and hold nothing else. */
  predicate PartOfOldPair(g: Job, files: map<Slot, File>) {
    forall s :: s in files ==> s in OldPair(g) && files[s] == OldPair(g)[s]
  }

  lemma NewPairExactly(g: Job, files: map<Slot, File>)
    requires NewInstalled(g, files) && OnlyFinals(files)
    ensures files == NewPair(g)
  {
    assert forall s :: s in files <==> s in NewPair(g);
  }

  lemma OldPartOnly(g: Job, files: map<Slot, File>)
    requires AllowedFiles(g, files) && NotNew(files, DataFinal) && NotNew(files, SigFinal) && OnlyFinals(files)
    ensures PartOfOldPair(g, files)
  {
    forall s | s in files ensures s in OldPair(g) && files[s] == OldPair(g)[s] {
      assert s in {DataFinal, SigFinal};
      assert Allowed(g, s, files[s]);
    }
  }

  /** Under any schedule, a recovery that finishes leaves the complete new pair and nothing else, or
      part of the old pair and nothing else, or (if the journal was never written) what it found. */
  lemma FinishedIsOneGeneration(g: Job, run: seq<Machine>, i: nat)
    requires IsRun(g, run) && i < |run| && run[i].proc.Done?
    ensures run[i].disk.journal.None?
    ensures run[i].disk.audit == Some(Success) ==> run[i].disk.files == NewPair(g)
    ensures run[i].disk.audit == Some(RolledBack) ==> PartOfOldPair(g, run[i].disk.files)
    ensures run[i].disk.audit == None ==> run[i].disk == InitialDisk(g)
  {
    RunKeepsInv(g, run, i);
    var m := run[i];
    if Committed(g, m) {
      NewPairExactly(g, m.disk.files);
    } else if Undone(g, m) {
      OldPartOnly(g, m.disk.files);
    }
    hide NewPair, OldPair, PartOfOldPair, InitialDisk;
  }

  // ---------------------------------------------------------------- the commit point

  predicate CommitDurable(m: Machine) {
    m.disk.journal.Some? && m.disk.journal.value.phase == StateCommitted
  }

  lemma DurableMeansCommitting(g: Job, m: Machine)
    requires Inv(g, m)
    ensures CommitDurable(m) ==> OnCommitSide(g, m)
    ensures OnRollbackSide(g, m) ==> !CommitDurable(m) && m.disk.audit != Some(Success)
    ensures OnCommitSide(g, m) ==> m.disk.audit != Some(RolledBack) && !m.proc.Failed?
  {
  }

  lemma RunNext(g: Job, run: seq<Machine>, k: nat)
    requires IsRun(g, run) && 0 < k < |run|
    ensures Next(g, run[k-1], run[k])
  {
    hide Next;
    assert Next(g, run[k-1], run[k-1+1]);
  }

  lemma CommitSideNext(g: Job, m: Machine, m': Machine)
    requires OnCommitSide(g, m) && Next(g, m, m')
    ensures OnCommitSide(g, m')
  {
    InvNext(g, m, m');
  }

  lemma {:induction false} CommitSideStays(g: Job, run: seq<Machine>, i: nat, k: nat)
    requires IsRun(g, run) && i <= k < |run| && OnCommitSide(g, run[i])
    ensures OnCommitSide(g, run[k])
  {
    hide OnCommitSide, Next, IsRun;
    if i < k {
      CommitSideStays(g, run, i, k - 1);
      RunNext(g, run, k);
      CommitSideNext(g, run[k-1], run[k]);
    }
  }

  /** Once the journal durably says `state-committed`, no later schedule fails or undoes it: every
      recovery that finishes leaves exactly the new pair, no journal, and outcome success. */
  lemma CommitIsFinal(g: Job, run: seq<Machine>, i: nat, k: nat)
    requires IsRun(g, run) && i <= k < |run| && CommitDurable(run[i])
    ensures !run[k].proc.Failed? && run[k].disk.audit != Some(RolledBack)
    ensures run[k].proc.Done? ==> run[k].disk == Disk(NewPair(g), None, Some(Success))
  {
    RunKeepsInv(g, run, i);
    DurableMeansCommitting(g, run[i]);
    CommitSideStays(g, run, i, k);
    DurableMeansCommitting(g, run[k]);
    if run[k].proc.Done? {
      assert Committed(g, run[k]);
      NewPairExactly(g, run[k].disk.files);
    }
  }

  // ---------------------------------------------------------------- one audit outcome

  lemma AuditNext(g: Job, m: Machine, m': Machine)
    requires Inv(g, m) && Next(g, m, m')
    ensures m.disk.audit.Some? ==> m'.disk.audit == m.disk.audit
    ensures m'.disk.audit == Some(Success) && m.disk.audit != Some(Success) ==> CommitDurable(m)
    ensures m'.proc != Failed(AuditConflict)
  {
    InvNext(g, m, m');
  }

  lemma NoConflictHere(g: Job, m: Machine)
    requires Inv(g, m)
    ensures m.proc != Failed(AuditConflict)
  {
  }

  /** The transaction gets at most one outcome, and the recorder never sees a conflicting request. */
  lemma {:induction false} AuditOutcomeFixed(g: Job, run: seq<Machine>, i: nat, k: nat)
    requires IsRun(g, run) && i <= k < |run|
    ensures run[i].disk.audit.Some? ==> run[k].disk.audit == run[i].disk.audit
    ensures run[k].proc != Failed(AuditConflict)
  {
    hide Inv, Next;
    if i == k {
      RunKeepsInv(g, run, k);
      NoConflictHere(g, run[k]);
    } else {
      AuditOutcomeFixed(g, run, i, k - 1);
      RunKeepsInv(g, run, k - 1);
      RunNext(g, run, k);
      AuditNext(g, run[k-1], run[k]);
    }
  }

  lemma {:induction false} SuccessNeedsCommit(g: Job, run: seq<Machine>, k: nat) returns (i: nat)
    requires IsRun(g, run) && k < |run| && run[k].disk.audit == Some(Success)
    ensures i <= k && CommitDurable(run[i])
  {
    assert k > 0;
    if run[k-1].disk.audit == Some(Success) {
      i := SuccessNeedsCommit(g, run, k - 1);
    } else {
      hide Inv, Next;
      RunKeepsInv(g, run, k - 1);
      RunNext(g, run, k);
      AuditNext(g, run[k-1], run[k]);
      i := k - 1;
    }
  }

  /** "success" is recorded only after `state-committed` was durable, "rolled-back" only if it never is. */
  lemma OutcomeTellsTheTruth(g: Job, run: seq<Machine>, k: nat)
    requires IsRun(g, run) && k < |run|
    ensures run[k].disk.audit == Some(Success) ==> exists i :: 0 <= i <= k && CommitDurable(run[i])
    ensures run[k].disk.audit == Some(RolledBack) ==> forall i :: 0 <= i < |run| ==> !CommitDurable(run[i])
  {
    if run[k].disk.audit == Some(Success) {
      var i := SuccessNeedsCommit(g, run, k);
    }
    if run[k].disk.audit == Some(RolledBack) {
      forall i | 0 <= i < |run| ensures !CommitDurable(run[i]) {
        RolledBackNeverCommits(g, run, k, i);
      }
    }
  }

  lemma RolledBackNeverCommits(g: Job, run: seq<Machine>, k: nat, i: nat)
    requires IsRun(g, run) && k < |run| && i < |run| && run[k].disk.audit == Some(RolledBack)
    ensures !CommitDurable(run[i])
  {
    var last := if i < k then k else i;
    AuditOutcomeFixed(g, run, k, last);
    if CommitDurable(run[i]) {
      CommitIsFinal(g, run, i, last);
    }
  }

  // ---------------------------------------------------------------- the journal moves forward

  function Rank(p: Phase): nat {
    match p case Prepared => 0 case StateCommitted => 1 case AuditCommitted => 2
  }

  /** A rewritten journal is strictly further on, in phase and in sequence; a removed one never returns. */
  predicate Forward(j: Option<Journal>, j': Option<Journal>) {
    || j == j'
    || (j.Some? && j'.Some? && Rank(j.value.phase) < Rank(j'.value.phase) && j.value.sequence < j'.value.sequence)
  }

  lemma JournalForward(g: Job, m: Machine, m': Machine)
    requires Inv(g, m) && Next(g, m, m')
    ensures Forward(m.disk.journal, m'.disk.journal)
         || (m.disk.journal.None? && m.disk == InitialDisk(g) && m'.disk.journal == Some(PreparedJournal(g)))
         || (m'.disk.journal.None? && m'.proc.Done?)
  {
    hide AllowedFiles, WrittenTo, DigestOk, OldPair;
  }

  // ---------------------------------------------------------------- when a rollback restores

  /** What one uninterrupted rollback leaves: each old file whose rollback copy exists. */
  function Restored(g: Job, files: map<Slot, File>): map<Slot, File> {
    (if g.oldData.Some? && DataRollback in files then map[DataFinal := files[DataRollback]] else map[]) +
    (if g.oldSig.Some? && SigRollback in files then map[SigFinal := files[SigRollback]] else map[])
  }

  const RECOVERY_STEPS: nat := 11

  /** The directory after the four file moves of a rollback. */
  function Undo(g: Job, files: map<Slot, File>): map<Slot, File> {
    var f1 := Remove(files, DataFinal);
    var f2 := if g.oldData.Some? then Rename(f1, DataRollback, DataFinal) else f1;
    var f3 := Remove(f2, SigFinal);
    if g.oldSig.Some? then Rename(f3, SigRollback, SigFinal) else f3
  }

  function Drop(g: Job, files: map<Slot, File>): map<Slot, File> {
    var f1 := Remove(files, DataTemp);
    var f2 := if g.newSig.Some? then Remove(f1, SigTemp) else f1;
    Remove(Remove(f2, DataRollback), SigRollback)
  }

  lemma UndoRuns(g: Job, disk: Disk, n: nat)
    ensures var j := PreparedJournal(g);
      Run(g, Machine(disk, Recovering(RemoveData, j)), n + 4)
      == Run(g, Machine(disk.(files := Undo(g, disk.files)), Recovering(CompleteAudit, j)), n)
  {
    var j := PreparedJournal(g);
    var m0 := Machine(disk, Recovering(RemoveData, j));
    var m1 := Step(g, m0);
    var m2 := Step(g, m1);
    var m3 := Step(g, m2);
    RunUnfold(g, m0, n + 4);
    RunUnfold(g, m1, n + 3);
    RunUnfold(g, m2, n + 2);
    RunUnfold(g, m3, n + 1);
  }

  lemma AuditRuns(g: Job, disk: Disk, j: Journal, n: nat)
    requires disk.audit.None? || disk.audit.value == OutcomeOf(j)
    ensures var j' := j.(phase := AuditCommitted, sequence := j.sequence + 1);
      Run(g, Machine(disk, Recovering(CompleteAudit, j)), n + 2)
      == Run(g, Machine(disk.(journal := Some(j'), audit := Some(OutcomeOf(j))), Recovering(DropDataTemp, j')), n)
  {
    var m0 := Machine(disk, Recovering(CompleteAudit, j));
    RunUnfold(g, m0, n + 2);
    RunUnfold(g, Step(g, m0), n + 1);
  }

  lemma DropRuns(g: Job, disk: Disk, j: Journal)
    requires j.sigDigest == g.newSig
    ensures Run(g, Machine(disk, Recovering(DropDataTemp, j)), 5) == Machine(Disk(Drop(g, disk.files), None, disk.audit), Done)
  {
    var m0 := Machine(disk, Recovering(DropDataTemp, j));
    var m1 := Step(g, m0);
    var m2 := Step(g, m1);
    var m3 := Step(g, m2);
    var m4 := Step(g, m3);
    RunUnfold(g, m0, 5);
    RunUnfold(g, m1, 4);
    RunUnfold(g, m2, 3);
    RunUnfold(g, m3, 2);
    RunUnfold(g, m4, 1);
    RunUnfold(g, Step(g, m4), 0);
    hide Run;
  }

  lemma UndoThenDrop(g: Job, files: map<Slot, File>)
    requires AllowedFiles(g, files)
    ensures Drop(g, Undo(g, files)) == Restored(g, files)
  {
    var r := Drop(g, Undo(g, files));
    forall s: Slot ensures s in r <==> s in Restored(g, files) {
      assert s.DataFinal? || s.SigFinal? || s.DataTemp? || s.SigTemp? || s.DataRollback? || s.SigRollback?;
      assert SigTemp in files ==> g.newSig.Some?;
    }
  }

  /** From any directory a prepared journal can be found in, one uninterrupted recovery finishes and
      restores exactly the old files that had been moved aside; an old file still in place is lost. */
  lemma RollbackExactly(g: Job, disk: Disk)
    requires disk.journal == Some(PreparedJournal(g)) && disk.audit != Some(Success) && AllowedFiles(g, disk.files)
    ensures Run(g, Machine(disk, BeginRecovery(disk)), RECOVERY_STEPS)
         == Machine(Disk(Restored(g, disk.files), None, Some(RolledBack)), Done)
  {
    hide Run, Step, Undo, Drop, AllowedFiles, Restored;
    var undone := disk.(files := Undo(g, disk.files));
    UndoRuns(g, disk, 7);
    AuditRuns(g, undone, PreparedJournal(g), 5);
    var j' := UndoneJournal(g);
    DropRuns(g, undone.(journal := Some(j'), audit := Some(RolledBack)), j');
    UndoThenDrop(g, disk.files);
  }

  /** Rollback restores the old pair if and only if each pre-existing file had already been moved aside. */
  lemma RollbackRestoresIff(g: Job, disk: Disk)
    requires disk.journal == Some(PreparedJournal(g)) && disk.audit != Some(Success) && AllowedFiles(g, disk.files)
    ensures Run(g, Machine(disk, BeginRecovery(disk)), RECOVERY_STEPS).disk.files == OldPair(g)
      <==> (g.oldData.Some? ==> DataRollback in disk.files) && (g.oldSig.Some? ==> SigRollback in disk.files)
  {
    RollbackExactly(g, disk);
    hide Run;
    RestoredIff(g, disk.files);
  }

  lemma RestoredIff(g: Job, files: map<Slot, File>)
    requires AllowedFiles(g, files)
    ensures Restored(g, files) == OldPair(g)
      <==> (g.oldData.Some? ==> DataRollback in files) && (g.oldSig.Some? ==> SigRollback in files)
  {
    assert DataFinal in OldPair(g) <==> g.oldData.Some?;
    assert SigFinal in OldPair(g) <==> g.oldSig.Some?;
    if (g.oldData.Some? ==> DataRollback in files) && (g.oldSig.Some? ==> SigRollback in files) {
      assert forall s :: s in Restored(g, files) <==> s in OldPair(g);
    }
  }

  /** For the first crash of any schedule, by the write step it interrupts: the recovery restores the old
      pair exactly when both old files were aside. */
  lemma CrashedWriteRestoresIff(g: Job, run: seq<Machine>, i: nat, at: WriteStep)
    requires IsRun(g, run) && i < |run| && run[i].proc == Writing(at)
    requires at != WriteJournal && at != Finalize
    ensures var disk := run[i].disk;
      Run(g, Machine(disk, BeginRecovery(disk)), RECOVERY_STEPS).disk.files == OldPair(g)
      <==> (g.oldData.None? || at != MoveDataAside) && (g.oldSig.None? || (at != MoveDataAside && at != MoveSigAside))
  {
    RunKeepsInv(g, run, i);
    assert Preparing(g, run[i]);
    WrittenAllowed(g, at);
    RollbackRestoresIff(g, run[i].disk);
    WrittenAside(g, at);
    hide Run, WrittenTo, OldPair;
  }

  lemma WrittenAside(g: Job, at: WriteStep)
    ensures DataRollback in WrittenTo(g, at) <==> g.oldData.Some? && at != WriteJournal && at != MoveDataAside
    ensures SigRollback in WrittenTo(g, at) <==>
              g.oldSig.Some? && at != WriteJournal && at != MoveDataAside && at != MoveSigAside
  {
  }

  /** Two steps into a rollback of a directory that holds the old data aside, the data is back; the next
      rollback deletes it. */
  lemma RollbackTwice(g: Job, disk: Disk)
    requires g.oldData.Some? && DataRollback in disk.files
    requires disk.journal == Some(PreparedJournal(g)) && disk.audit.None? && AllowedFiles(g, disk.files)
    ensures var once := Run(g, Machine(disk, BeginRecovery(disk)), 2);
      && once.proc == Recovering(RemoveSig, PreparedJournal(g)) && once.disk.journal == disk.journal
      && DataFinal in once.disk.files && once.disk.files[DataFinal] == File(Old, g.oldData.value)
      && Run(g, Machine(once.disk, BeginRecovery(once.disk)), RECOVERY_STEPS)
         == Machine(Disk(Restored(g, once.disk.files), None, Some(RolledBack)), Done)
      && DataFinal !in Restored(g, once.disk.files)
  {
    var m0 := Machine(disk, BeginRecovery(disk));
    RunUnfold(g, m0, 2);
    RunUnfold(g, Step(g, m0), 1);
    var once := Run(g, m0, 2).disk;
    assert Allowed(g, DataRollback, disk.files[DataRollback]);
    assert once.files == Rename(Remove(disk.files, DataFinal), DataRollback, DataFinal);
    assert AllowedFiles(g, once.files);
    hide Run, AllowedFiles;
    RollbackExactly(g, once);
  }

  // ---------------------------------------------------------------- recovering a commit

  lemma DropCommitted(g: Job, files: map<Slot, File>)
    requires NewInstalled(g, files) && DataTemp !in files && SigTemp !in files
    ensures Drop(g, files) == NewPair(g)
  {
    var r := Drop(g, files);
    forall s: Slot ensures s in r <==> s in NewPair(g) {
      assert s.DataFinal? || s.SigFinal? || s.DataTemp? || s.SigTemp? || s.DataRollback? || s.SigRollback?;
    }
  }

  lemma AuditValues(o: Option<Outcome>)
    ensures o == None || o == Some(Success) || o == Some(RolledBack)
  {
    match o
    case None =>
    case Some(x) => match x case Success => case RolledBack =>
  }

  lemma CommitSideShape(g: Job, m: Machine)
    requires OnCommitSide(g, m) && m.disk.journal.Some?
    ensures NewInstalled(g, m.disk.files) && DataTemp !in m.disk.files && SigTemp !in m.disk.files
    ensures m.disk.journal == Some(CommitJournal(g)) || m.disk.journal == Some(CommittedJournal(g))
    ensures m.disk.audit == Some(Success) || (m.disk.audit.None? && m.disk.journal == Some(CommitJournal(g)))
  {
    AuditValues(m.disk.audit);
  }

  /** Past the commit point an uninterrupted recovery always finishes, wherever the last one stopped. */
  lemma CommitRecoveryFinishes(g: Job, m: Machine)
    requires OnCommitSide(g, m) && m.disk.journal.Some?
    ensures Run(g, Machine(m.disk, BeginRecovery(m.disk)), if CommitDurable(m) then 7 else 5)
         == Machine(Disk(NewPair(g), None, Some(Success)), Done)
  {
    var disk := m.disk;
    CommitSideShape(g, m);
    InstalledDigests(g, disk.files);
    hide Run, Step, Drop, NewInstalled, NewPair, DigestOk, OnCommitSide;
    var j' := CommittedJournal(g);
    if disk.journal == Some(CommitJournal(g)) {
      AuditRuns(g, disk, CommitJournal(g), 5);
    }
    DropRuns(g, disk.(journal := Some(j'), audit := Some(Success)), j');
    DropCommitted(g, disk.files);
  }

  // ---------------------------------------------------------------- the stuck journal

  /** After a rollback was audited, its journal is judged by the committed pair's digests: a recovery
      finishes if and only if the files it finds carry the bytes of the new generation. */
  lemma UndoneJournalFinishesIff(g: Job, disk: Disk)
    requires disk.journal == Some(UndoneJournal(g))
    ensures Run(g, Machine(disk, BeginRecovery(disk)), 5).proc.Done?
      <==> DigestOk(disk.files, DataFinal, Some(g.newData)) && DigestOk(disk.files, SigFinal, g.newSig)
  {
    hide Run, Step, DigestOk;
    if BeginRecovery(disk) == Failed(PairRejected) {
      StoppedStays(g, Machine(disk, Failed(PairRejected)), 5);
    } else {
      DropRuns(g, disk, UndoneJournal(g));
    }
  }

  /** The old pair is back at its own names, whatever else is left over. */
  predicate FullyRestored(g: Job, files: map<Slot, File>) {
    && (DataFinal in files <==> g.oldData.Some?) && (DataFinal in files ==> files[DataFinal] == File(Old, g.oldData.value))
    && (SigFinal in files <==> g.oldSig.Some?) && (SigFinal in files ==> files[SigFinal] == File(Old, g.oldSig.value))
  }

  /** The old bytes differ from those of the backup that was rolled back. */
  predicate BytesDiffer(g: Job) {
    g.oldData != Some(g.newData) || (g.newSig.Some? && g.oldSig != g.newSig)
  }

  /** A rejected journal is never removed: every later invocation finds and reports the same thing. */
  lemma {:induction false} RejectedForever(g: Job, run: seq<Machine>, i: nat, k: nat)
    requires IsRun(g, run) && i <= k < |run|
    requires !Running(run[i].proc) && BeginRecovery(run[i].disk) == Failed(PairRejected)
    ensures run[k].disk == run[i].disk && !Running(run[k].proc)
  {
    if i < k {
      RejectedForever(g, run, i, k - 1);
      assert Next(g, run[k-1], run[k-1+1]);
    }
  }

  /** In any schedule, a complete rollback interrupted before its journal is removed: when the old bytes
      differ from the new ones nothing ever changes again and no recovery ever runs; when they are the
      same, one uninterrupted recovery finishes with exactly the old pair. */
  lemma RestoredPairStuckIff(g: Job, run: seq<Machine>, i: nat)
    requires IsRun(g, run) && i < |run| && !Running(run[i].proc)
    requires run[i].disk.journal == Some(UndoneJournal(g)) && FullyRestored(g, run[i].disk.files)
    ensures BytesDiffer(g) ==> forall k :: i <= k < |run| ==> run[k].disk == run[i].disk && !Running(run[k].proc)
    ensures !BytesDiffer(g) ==>
              Run(g, Machine(run[i].disk, BeginRecovery(run[i].disk)), 5) == Machine(Disk(OldPair(g), None, Some(RolledBack)), Done)
  {
    RunKeepsInv(g, run, i);
    var disk := run[i].disk;
    RestoredDigests(g, disk.files);
    if BytesDiffer(g) {
      hide Inv, Run, FullyRestored, BytesDiffer, IsRun;
      forall k | i <= k < |run| ensures run[k].disk == disk && !Running(run[k].proc) {
        RejectedForever(g, run, i, k);
      }
    } else {
      UndoneLeftovers(g, run[i]);
      hide Inv, Run, DigestOk;
      DropRuns(g, disk, UndoneJournal(g));
      DropRestored(g, disk.files);
    }
  }

  lemma RestoredDigests(g: Job, files: map<Slot, File>)
    requires FullyRestored(g, files)
    ensures DigestOk(files, DataFinal, Some(g.newData)) && DigestOk(files, SigFinal, g.newSig) <==> !BytesDiffer(g)
  {
  }

  lemma UndoneLeftovers(g: Job, m: Machine)
    requires Inv(g, m) && m.disk.journal == Some(UndoneJournal(g))
    ensures AllowedFiles(g, m.disk.files) && m.disk.audit == Some(RolledBack)
  {
  }

  lemma DropRestored(g: Job, files: map<Slot, File>)
    requires FullyRestored(g, files) && AllowedFiles(g, files)
    ensures Drop(g, files) == OldPair(g)
  {
    var r := Drop(g, files);
    forall s: Slot ensures s in r <==> s in OldPair(g) {
      assert s.DataFinal? || s.SigFinal? || s.DataTemp? || s.SigTemp? || s.DataRollback? || s.SigRollback?;
      assert SigTemp in files ==> g.newSig.Some?;
    }
  }
}
