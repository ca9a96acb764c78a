/** The backup command's own procedures, run against a directory whose power may fail before any
    atomic operation: `budget` operations succeed, and the next one never happens. */
module BackupRoot {
  import opened Options
  import opened BackupMachine
  import opened BackupRuns

  datatype Verdict = Finished | Crashed | Rejected(reason: Reason)

  function VerdictOf(p: Process): Verdict {
    match p
    case Done => Finished
    case Failed(r) => Rejected(r)
    case _ => Crashed
  }

  /** `n` steps of the machine from `start` end on this disk with this verdict. */
  ghost predicate Reaches(g: Job, start: Machine, n: nat, disk: Disk, v: Verdict) {
    Run(g, start, n).disk == disk && VerdictOf(Run(g, start, n).proc) == v
  }

  class Root {
    var files: map<Slot, File>
    var journal: Option<Journal>
    var audit: Option<Outcome>
    var budget: nat

    ghost function Contents(): Disk
      reads this
    {
      Disk(files, journal, audit)
    }

    /** Charges one atomic operation; false means the crash comes first. */
    method Power() returns (on: bool)
      modifies this`budget
      ensures on == (old(budget) > 0)
      ensures budget == if on then old(budget) - 1 else 0
    {
      on := budget > 0;
      if on {
        budget := budget - 1;
      }
    }

    method RemoveIfRegular(s: Slot)
      modifies this`files
      ensures files == Remove(old(files), s)
    {
      if s in files {
        files := map t | t in files && t != s :: files[t];
      }
    }

    method RenameIfRegular(from: Slot, to: Slot)
      requires from != to
      modifies this`files
      ensures files == Rename(old(files), from, to)
    {
      if from in files {
        var f := files[from];
        RemoveIfRegular(from);
        files := files[to := f];
      }
    }

    /** With power for `n` operations the journal is gone at the end; without it the crash leaves it. */
    twostate predicate Settles(v: Verdict, n: nat)
      reads this
    {
      && v == (if old(budget) >= n then Finished else Crashed)
      && (v == Finished <==> journal.None?) && (v == Crashed ==> budget == 0)
    }

    /** A journal past `prepared` is for files that carry its digests. */
    predicate Damaged()
      reads this
    {
      && journal.Some? && !journal.value.phase.Prepared?
      && (!(DataFinal in files && files[DataFinal].bytes == journal.value.dataDigest)
          || !(journal.value.sigDigest.Some? ==> SigFinal in files && files[SigFinal].bytes == journal.value.sigDigest.value))
    }

    /** The audit log already holds the other outcome. */
    predicate Conflicts()
      reads this
    {
      && journal.Some? && !journal.value.phase.AuditCommitted? && audit.Some?
      && audit.value != if journal.value.phase.StateCommitted? then Success else RolledBack
    }

    /** How many operations a recovery that is not refused takes. */
    function Needed(): nat
      reads this
    {
      if journal.None? then 0 else match journal.value.phase case Prepared => 11 case StateCommitted => 7 case AuditCommitted => 5
    }

    /** The file moves of a rollback. */
    method UndoMoves(ghost g: Job, j: Journal) returns (on: bool)
      modifies this
      ensures on ==>
        Run(g, Machine(old(Contents()), Recovering(RemoveData, j)), old(budget)) == Run(g, Machine(Contents(), Recovering(CompleteAudit, j)), budget)
      ensures !on ==> Reaches(g, Machine(old(Contents()), Recovering(RemoveData, j)), old(budget), Contents(), Crashed)
      ensures on <==> old(budget) >= 4
      ensures budget == (if on then old(budget) - 4 else 0) && journal == old(journal) && audit == old(audit)
    {
      hide Run, Remove, Rename, InitialDisk;
      RunUnfold(g, Machine(Contents(), Recovering(RemoveData, j)), budget);
      on := Power();
      if !on { return; }
      RemoveIfRegular(DataFinal);
      RunUnfold(g, Machine(Contents(), Recovering(RestoreData, j)), budget);
      on := Power();
      if !on { return; }
      if j.hadData {
        RenameIfRegular(DataRollback, DataFinal);
      }
      RunUnfold(g, Machine(Contents(), Recovering(RemoveSig, j)), budget);
      on := Power();
      if !on { return; }
      RemoveIfRegular(SigFinal);
      RunUnfold(g, Machine(Contents(), Recovering(RestoreSig, j)), budget);
      on := Power();
      if !on { return; }
      if j.hadSig {
        RenameIfRegular(SigRollback, SigFinal);
      }
    }

    /** Removes temporary and rollback files, then the journal. */
    method CleanUp(ghost g: Job, j: Journal) returns (v: Verdict)
      requires journal.Some?
      modifies this
      ensures Reaches(g, Machine(old(Contents()), Recovering(DropDataTemp, j)), old(budget), Contents(), v)
      ensures Settles(v, 5)
    {
      hide Run, Remove, Rename, InitialDisk;
      RunUnfold(g, Machine(Contents(), Recovering(DropDataTemp, j)), budget);
      var on := Power();
      if !on { return Crashed; }
      RemoveIfRegular(DataTemp);
      RunUnfold(g, Machine(Contents(), Recovering(DropSigTemp, j)), budget);
      on := Power();
      if !on { return Crashed; }
      if j.sigDigest.Some? {
        RemoveIfRegular(SigTemp);
      }
      ghost var mid, k := Machine(Contents(), Recovering(DropDataRollback, j)), budget;
      v := DropRollbacks(g, j);
      hide Reaches;
      Passes(g, Machine(old(Contents()), Recovering(DropDataTemp, j)), old(budget), mid, k);
    }

    method DropRollbacks(ghost g: Job, j: Journal) returns (v: Verdict)
      requires journal.Some?
      modifies this
      ensures Reaches(g, Machine(old(Contents()), Recovering(DropDataRollback, j)), old(budget), Contents(), v)
      ensures Settles(v, 3)
    {
      hide Run, Remove;
      RunUnfold(g, Machine(Contents(), Recovering(DropDataRollback, j)), budget);
      var on := Power();
      if !on { return Crashed; }
      RemoveIfRegular(DataRollback);
      RunUnfold(g, Machine(Contents(), Recovering(DropSigRollback, j)), budget);
      on := Power();
      if !on { return Crashed; }
      RemoveIfRegular(SigRollback);
      RunUnfold(g, Machine(Contents(), Recovering(DropJournal, j)), budget);
      on := Power();
      if !on { return Crashed; }
      journal := None;
      StoppedStays(g, Machine(Contents(), Done), budget);
      return Finished;
    }

    /** Completes the audit transaction, advances the journal past it, and cleans up. */
    method FinishRecovery(ghost g: Job, loaded: Journal) returns (v: Verdict)
      requires journal.Some?
      modifies this
      ensures Reaches(g, Machine(old(Contents()), Recovering(CompleteAudit, loaded)), old(budget), Contents(), v)
      ensures if old(audit).None? || old(audit).value == OutcomeOf(loaded) then Settles(v, 7)
              else v == (if old(budget) > 0 then Rejected(AuditConflict) else Crashed) && Contents() == old(Contents())
      ensures v == Crashed ==> budget == 0
    {
      hide Run, Reaches;
      var j := loaded;
      ghost var start, n := Machine(Contents(), Recovering(CompleteAudit, loaded)), budget;
      RunUnfold(g, start, budget);
      var on := Power();
      if !on {
        Here(g, start, n, Contents());
        return Crashed;
      }
      var outcome := if j.phase == StateCommitted then Success else RolledBack;
      if audit.Some? && audit.value != outcome {
        StoppedStays(g, Machine(Contents(), Failed(AuditConflict)), budget);
        Ends(g, start, n, Contents(), Failed(AuditConflict));
        return Rejected(AuditConflict);
      }
      audit := Some(outcome);
      RunUnfold(g, Machine(Contents(), Recovering(CommitAudit, j)), budget);
      on := Power();
      if !on {
        Ends(g, start, n, Contents(), Recovering(CommitAudit, j));
        return Crashed;
      }
      j := j.(phase := AuditCommitted, sequence := j.sequence + 1);
      journal := Some(j);
      Passes(g, start, n, Machine(Contents(), Recovering(DropDataTemp, j)), budget);
      v := CleanUp(g, j);
    }

    /** Recovery from whatever the journal says, for every point at which the power can fail.  It says that
        it finished exactly when no journal is left; files that are not the journal's are refused and
        nothing is touched. */
    method RecoverBackupPair(ghost g: Job) returns (v: Verdict)
      modifies this
      ensures v == Finished <==> journal.None?
      ensures v == Crashed ==> budget == 0
      ensures old(journal.None?) ==> v == Finished && Contents() == old(Contents())
      ensures v == Rejected(PairRejected) <==> old(Damaged())
      ensures old(Conflicts() && !Damaged()) ==> v in {Rejected(AuditConflict), Crashed} && audit == old(audit)
      ensures old(!Conflicts() && !Damaged()) ==> v == if old(budget) >= old(Needed()) then Finished else Crashed
      ensures v == Rejected(PairRejected) ==> Contents() == old(Contents())
      ensures Reaches(g, Machine(old(Contents()), BeginRecovery(old(Contents()))), old(budget), Contents(), v)
    {
      hide Run, Reaches;
      ghost var start, n := Machine(Contents(), BeginRecovery(Contents())), budget;
      if journal.None? {
        StoppedStays(g, start, n);
        Ends(g, start, n, Contents(), Done);
        return Finished;
      }
      var j := journal.value;
      if j.phase == StateCommitted || j.phase == AuditCommitted {
        if !DigestOk(files, DataFinal, Some(j.dataDigest)) || !DigestOk(files, SigFinal, j.sigDigest) {
          StoppedStays(g, start, n);
          Ends(g, start, n, Contents(), Failed(PairRejected));
          return Rejected(PairRejected);
        }
        if j.phase != AuditCommitted {
          v := FinishRecovery(g, j);
        } else {
          v := CleanUp(g, j);
        }
      } else {
        var on := UndoMoves(g, j);
        if !on {
          return Crashed;
        }
        Passes(g, start, n, Machine(Contents(), Recovering(CompleteAudit, j)), budget);
        v := FinishRecovery(g, j);
      }
    }

    /** The backup from the journal write on: old files aside, new files in, commit, recover.  It says that it
        finished only when the new pair stands alone, and power is all it takes. */
    method InstallPair(ghost g: Job, hadData: bool, hadSig: bool, sign: bool, dataDigest: int, sigDigest: Option<int>) returns (v: Verdict)
      requires Contents() == InitialDisk(g)
      requires hadData == g.oldData.Some? && hadSig == g.oldSig.Some? && sign == g.newSig.Some?
      requires dataDigest == g.newData && sigDigest == g.newSig
      modifies this
      ensures Reaches(g, Start(g), old(budget), Contents(), v)
      ensures v == Finished ==> Contents() == Disk(NewPair(g), None, Some(Success))
      ensures v == if old(budget) >= INSTALL_STEPS then Finished else Crashed
    {
      WriteFinishes(g, budget);
      hide Run, Remove, Rename, InitialDisk;
      RunUnfold(g, Machine(Contents(), Writing(WriteJournal)), budget);
      var on := Power();
      if !on { return Crashed; }
      var j := Journal(hadData, hadSig, dataDigest, sigDigest, Prepared, 1);
      journal := Some(j);
      RunUnfold(g, Machine(Contents(), Writing(MoveDataAside)), budget);
      on := Power();
      if !on { return Crashed; }
      if hadData {
        RenameIfRegular(DataFinal, DataRollback);
      }
      RunUnfold(g, Machine(Contents(), Writing(MoveSigAside)), budget);
      on := Power();
      if !on { return Crashed; }
      if hadSig {
        RenameIfRegular(SigFinal, SigRollback);
      }
      ghost var mid, k := Machine(Contents(), Writing(InstallData)), budget;
      v := InstallNew(g, j, sign);
      hide Reaches;
      Passes(g, Start(g), old(budget), mid, k);
    }

    /** New files into place, the commit record, and the recovery that finishes it. */
    method InstallNew(ghost g: Job, prepared: Journal, sign: bool) returns (v: Verdict)
      requires prepared == PreparedJournal(g) && sign == g.newSig.Some?
      modifies this
      ensures Reaches(g, Machine(old(Contents()), Writing(InstallData)), old(budget), Contents(), v)
    {
      hide Run, Remove, Rename;
      RunUnfold(g, Machine(Contents(), Writing(InstallData)), budget);
      var on := Power();
      if !on { return Crashed; }
      RenameIfRegular(DataTemp, DataFinal);
      RunUnfold(g, Machine(Contents(), Writing(InstallSig)), budget);
      on := Power();
      if !on { return Crashed; }
      if sign {
        RenameIfRegular(SigTemp, SigFinal);
      }
      RunUnfold(g, Machine(Contents(), Writing(CommitState)), budget);
      on := Power();
      if !on { return Crashed; }
      var j := prepared.(phase := StateCommitted, sequence := prepared.sequence + 1);
      journal := Some(j);
      RunUnfold(g, Machine(Contents(), Writing(Finalize)), budget);
      on := Power();
      if !on { return Crashed; }
      v := RecoverBackupPair(g);
    }
  }

  lemma Here(g: Job, start: Machine, n: nat, disk: Disk)
    requires Run(g, start, n) == start && start.disk == disk && Running(start.proc)
    ensures Reaches(g, start, n, disk, Crashed)
  {
  }

  lemma Ends(g: Job, start: Machine, n: nat, disk: Disk, p: Process)
    requires Run(g, start, n) == Machine(disk, p)
    ensures Reaches(g, start, n, disk, VerdictOf(p))
  {
  }

  lemma Passes(g: Job, start: Machine, n: nat, mid: Machine, k: nat)
    requires Run(g, start, n) == Run(g, mid, k)
    ensures forall disk, v {:trigger Reaches(g, mid, k, disk, v)} :: Reaches(g, mid, k, disk, v) ==> Reaches(g, start, n, disk, v)
  {
  }
}
