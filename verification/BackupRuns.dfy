/** Schedules that reach the states in which a backup pair is lost or its journal stuck. */
module BackupRuns {
  import opened Options
  import opened BackupMachine
  import opened BackupSafety
  import opened BackupTheorems

  function Last(run: seq<Machine>): Machine
    requires run != []
  {
    run[|run| - 1]
  }

  // ---------------------------------------------------------------- building schedules

  lemma Snoc(g: Job, run: seq<Machine>, m: Machine)
    requires IsRun(g, run) && Next(g, Last(run), m)
    ensures IsRun(g, run + [m]) && Last(run + [m]) == m
  {
    hide Next;
    var longer := run + [m];
    forall i | 0 <= i < |longer| - 1 ensures Next(g, longer[i], longer[i+1]) {
      if i < |run| - 1 {
        assert Next(g, run[i], run[i+1]);
      }
    }
  }

  /** A schedule goes on with `n` uninterrupted steps. */
  lemma {:induction false} GoesOn(g: Job, run: seq<Machine>, n: nat) returns (longer: seq<Machine>)
    requires IsRun(g, run)
    ensures IsRun(g, longer) && run <= longer && Last(longer) == Run(g, Last(run), n)
    decreases n
  {
    RunUnfold(g, Last(run), n);
    hide IsRun, Step, Run;
    if n == 0 {
      longer := run;
    } else if Running(Last(run).proc) {
      Snoc(g, run, Step(g, Last(run)));
      longer := GoesOn(g, run + [Step(g, Last(run))], n - 1);
    } else {
      StoppedStays(g, Last(run), n);
      longer := run;
    }
  }

  /** The process dies, and only the disk is left. */
  lemma Crashes(g: Job, run: seq<Machine>) returns (longer: seq<Machine>)
    requires IsRun(g, run) && Running(Last(run).proc)
    ensures IsRun(g, longer) && longer == run + [Last(run).(proc := Idle)]
  {
    Snoc(g, run, Last(run).(proc := Idle));
    longer := run + [Last(run).(proc := Idle)];
  }

  /** A stopped process recovers for `n` steps. */
  lemma Recovers(g: Job, run: seq<Machine>, n: nat) returns (longer: seq<Machine>)
    requires IsRun(g, run) && !Running(Last(run).proc)
    ensures IsRun(g, longer) && run < longer
    ensures Last(longer) == Run(g, Machine(Last(run).disk, BeginRecovery(Last(run).disk)), n)
  {
    var m := Last(run).(proc := BeginRecovery(Last(run).disk));
    Snoc(g, run, m);
    longer := GoesOn(g, run + [m], n);
  }

  function Before(at: WriteStep): WriteStep {
    match at
    case WriteJournal => WriteJournal
    case MoveDataAside => WriteJournal
    case MoveSigAside => MoveDataAside
    case InstallData => MoveSigAside
    case InstallSig => InstallData
    case CommitState => InstallSig
    case Finalize => CommitState
  }

  function Order(at: WriteStep): nat {
    match at
    case WriteJournal => 0
    case MoveDataAside => 1
    case MoveSigAside => 2
    case InstallData => 3
    case InstallSig => 4
    case CommitState => 5
    case Finalize => 6
  }

  /** Every write can come to every one of its steps. */
  lemma {:induction false} WriteReaches(g: Job, at: WriteStep) returns (run: seq<Machine>)
    requires at != WriteJournal && at != Finalize
    ensures IsRun(g, run) && Last(run) == Machine(Disk(WrittenTo(g, at), Some(PreparedJournal(g)), None), Writing(at))
    decreases Order(at)
  {
    if at == MoveDataAside {
      assert IsRun(g, [Start(g)]);
      RunUnfold(g, Start(g), 1);
      run := GoesOn(g, [Start(g)], 1);
    } else {
      var sofar := WriteReaches(g, Before(at));
      WriteAdvances(g, Before(at), Last(sofar).disk);
      RunUnfold(g, Last(sofar), 1);
      hide WrittenTo, IsRun, WritingStep;
      run := GoesOn(g, sofar, 1);
    }
  }

  // ---------------------------------------------------------------- a write that crashes

  /** Each step of the write can be the one a crash interrupts; the schedule then finishes, and keeps the
      old pair exactly when both old files were aside. */
  lemma CrashedWriteEnds(g: Job, at: WriteStep) returns (run: seq<Machine>, i: nat)
    requires at != WriteJournal && at != Finalize
    ensures IsRun(g, run) && i < |run| - 1 && run[i].proc == Writing(at) && run[i+1] == run[i].(proc := Idle)
    ensures Last(run).proc.Done? && Last(run).disk.audit == Some(RolledBack)
    ensures Last(run).disk.files == OldPair(g)
      <==> (g.oldData.None? || at != MoveDataAside) && (g.oldSig.None? || (at != MoveDataAside && at != MoveSigAside))
  {
    var written := WriteReaches(g, at);
    i := |written| - 1;
    CrashedWriteRestoresIff(g, written, i, at);
    WrittenAllowed(g, at);
    RollbackExactly(g, Last(written).disk);
    hide WrittenTo, Run, OldPair, IsRun, AllowedFiles, Restored, BeginRecovery, PreparedJournal;
    var crashed := Crashes(g, written);
    run := Recovers(g, crashed, RECOVERY_STEPS);
    assert run[i] == crashed[i] && run[i+1] == crashed[i+1];
  }

  // ---------------------------------------------------------------- a rollback that crashes

  /** Rollback is not restartable.  Any schedule that has left the old data aside under a prepared journal
      can go on so that the first rollback puts the data back and the second one, which finishes, deletes
      it: no name holds it any more. */
  lemma InterruptedRollbackLosesData(g: Job, run: seq<Machine>) returns (longer: seq<Machine>, i: nat)
    requires IsRun(g, run) && Last(run).proc.Idle? && g.oldData.Some? && DataRollback in Last(run).disk.files
    requires Last(run).disk.journal == Some(PreparedJournal(g)) && Last(run).disk.audit.None?
    ensures IsRun(g, longer) && run <= longer && |run| <= i < |longer|
    ensures DataFinal in longer[i].disk.files && longer[i].disk.files[DataFinal] == File(Old, g.oldData.value)
    ensures Last(longer).proc.Done? && Last(longer).disk.files.Keys <= {SigFinal}
  {
    RunKeepsInv(g, run, |run| - 1);
    PreparedAllowed(g, Last(run));
    RollbackTwice(g, Last(run).disk);
    hide IsRun, Run, AllowedFiles, BeginRecovery, PreparedJournal, Inv;
    longer, i := RecoversTwice(g, run, 2);
  }

  /** A recovery dies after `n` steps, and another one runs to its end. */
  lemma RecoversTwice(g: Job, run: seq<Machine>, n: nat) returns (longer: seq<Machine>, i: nat)
    requires IsRun(g, run) && !Running(Last(run).proc)
    requires Running(Run(g, Machine(Last(run).disk, BeginRecovery(Last(run).disk)), n).proc)
    ensures IsRun(g, longer) && run <= longer && |run| <= i < |longer|
    ensures longer[i] == Run(g, Machine(Last(run).disk, BeginRecovery(Last(run).disk)), n)
    ensures Last(longer) == Run(g, Machine(longer[i].disk, BeginRecovery(longer[i].disk)), RECOVERY_STEPS)
  {
    hide IsRun, Run, BeginRecovery, Running;
    var once := Recovers(g, run, n);
    i := |once| - 1;
    RunningStops();
    var crashed := Crashes(g, once);
    longer := Recovers(g, crashed, RECOVERY_STEPS);
    assert longer[i] == once[i];
  }

  lemma RunningStops()
    ensures !Running(Idle)
  {
  }

  lemma PreparedAllowed(g: Job, m: Machine)
    requires Inv(g, m) && m.proc.Idle? && m.disk.journal == Some(PreparedJournal(g))
    ensures AllowedFiles(g, m.disk.files)
  {
  }

  /** So every backup that replaces a file has a schedule of two crashes that loses the old data. */
  lemma ReplacedDataCanBeLost(g: Job) returns (run: seq<Machine>, i: nat)
    requires g.oldData.Some?
    ensures IsRun(g, run) && i < |run|
    ensures DataFinal in run[i].disk.files && run[i].disk.files[DataFinal] == File(Old, g.oldData.value)
    ensures Last(run).proc.Done? && Last(run).disk.files.Keys <= {SigFinal}
  {
    var written := WriteReaches(g, MoveSigAside);
    WrittenAside(g, MoveSigAside);
    hide WrittenTo, IsRun;
    var crashed := Crashes(g, written);
    run, i := InterruptedRollbackLosesData(g, crashed);
  }

  // ---------------------------------------------------------------- a journal that stays

  lemma UndoneAside(g: Job)
    ensures FullyRestored(g, Undo(g, WrittenTo(g, InstallData)))
  {
  }

  /** Every backup has a schedule of two crashes that puts the old pair back and leaves the journal. */
  lemma RestoredPairReached(g: Job) returns (run: seq<Machine>)
    ensures IsRun(g, run) && Last(run).proc.Idle?
    ensures Last(run).disk.journal == Some(UndoneJournal(g)) && FullyRestored(g, Last(run).disk.files)
  {
    var written := WriteReaches(g, InstallData);
    var disk := Last(written).disk;
    UndoRuns(g, disk, 2);
    AuditRuns(g, disk.(files := Undo(g, disk.files)), PreparedJournal(g), 0);
    UndoneAside(g);
    hide WrittenTo, IsRun, Undo, FullyRestored, Run;
    var crashed := Crashes(g, written);
    var undone := Recovers(g, crashed, 6);
    RunUnfold(g, Last(undone), 0);
    run := Crashes(g, undone);
  }

  /** From `i` on the disk is the same and no process runs. */
  ghost predicate Still(run: seq<Machine>, i: nat)
    requires i < |run|
  {
    forall k :: i <= k < |run| ==> run[k].disk == run[i].disk && !Running(run[k].proc)
  }

  /** When its bytes differ from the old ones, such a schedule can only go on without ever changing the
      disk again: the old pair stands, its journal stays, and no later invocation recovers. */
  lemma BackupCanBeStuck(g: Job) returns (run: seq<Machine>)
    requires BytesDiffer(g)
    ensures IsRun(g, run) && FullyRestored(g, Last(run).disk.files) && Last(run).disk.journal.Some?
    ensures forall longer: seq<Machine> :: IsRun(g, longer) && run <= longer ==> Still(longer, |run| - 1)
  {
    run := RestoredPairReached(g);
    hide FullyRestored, BytesDiffer, UndoneJournal;
    forall longer: seq<Machine> | IsRun(g, longer) && run <= longer ensures Still(longer, |run| - 1) {
      assert longer[|run| - 1] == Last(run);
      RestoredPairStuckIff(g, longer, |run| - 1);
    }
  }

  // ---------------------------------------------------------------- the undisturbed write

  const INSTALL_STEPS: nat := 14

  /** How many steps an undisturbed write still has to make. */
  function StepsLeft(p: Process): nat {
    match p
    case Writing(at) => INSTALL_STEPS - Order(at)
    case Recovering(CompleteAudit, _) => 7
    case Recovering(CommitAudit, _) => 6
    case Recovering(DropDataTemp, _) => 5
    case Recovering(DropSigTemp, _) => 4
    case Recovering(DropDataRollback, _) => 3
    case Recovering(DropSigRollback, _) => 2
    case Recovering(DropJournal, _) => 1
    case _ => 0
  }

  /** On the way from the start to the new pair, with no crash behind. */
  ghost predicate Straight(g: Job, m: Machine) {
    m == Start(g) || Preparing(g, m) || (OnCommitSide(g, m) && (Running(m.proc) || m.proc.Done?))
  }

  lemma PreparingSteps(g: Job, m: Machine)
    requires Preparing(g, m)
    ensures Straight(g, Step(g, m)) && StepsLeft(Step(g, m).proc) == StepsLeft(m.proc) - 1
  {
    var at := m.proc.at;
    if at != CommitState {
      WriteAdvances(g, at, m.disk);
    }
    assert WrittenTo(g, CommitState) == WrittenTo(g, Finalize);
    hide WrittenTo, InitialDisk;
  }

  lemma CommittingSteps(g: Job, m: Machine)
    requires Committing(g, m) && Running(m.proc)
    ensures Running(Step(g, m).proc) && StepsLeft(Step(g, m).proc) == StepsLeft(m.proc) - 1
  {
    CommittedFiles(g);
    InstalledDigests(g, WrittenTo(g, Finalize));
    hide WrittenTo, NewInstalled, InitialDisk, DigestOk;
  }

  lemma CommittedSteps(g: Job, m: Machine)
    requires Committed(g, m) && Running(m.proc)
    ensures Running(Step(g, m).proc) || Step(g, m).proc.Done?
    ensures StepsLeft(Step(g, m).proc) == StepsLeft(m.proc) - 1
  {
    hide NewInstalled, InitialDisk, WrittenTo;
  }

  lemma CommitSteps(g: Job, m: Machine)
    requires OnCommitSide(g, m) && Running(m.proc)
    ensures Straight(g, Step(g, m)) && StepsLeft(Step(g, m).proc) == StepsLeft(m.proc) - 1
  {
    CommitSideNext(g, m, Step(g, m));
    hide Committing, Committed, Step, StepsLeft, Preparing;
    if Committing(g, m) {
      CommittingSteps(g, m);
    } else {
      CommittedSteps(g, m);
    }
  }

  lemma StraightSteps(g: Job, m: Machine)
    requires Straight(g, m) && Running(m.proc)
    ensures Straight(g, Step(g, m)) && StepsLeft(Step(g, m).proc) == StepsLeft(m.proc) - 1
  {
    if m == Start(g) {
      hide OnCommitSide;
    } else if Preparing(g, m) {
      PreparingSteps(g, m);
    } else {
      CommitSteps(g, m);
    }
  }

  lemma {:induction false} StraightRuns(g: Job, m: Machine, n: nat)
    requires Straight(g, m) && n <= StepsLeft(m.proc)
    ensures Straight(g, Run(g, m, n)) && StepsLeft(Run(g, m, n).proc) == StepsLeft(m.proc) - n
    decreases n
  {
    hide Straight, Step, Run;
    RunUnfold(g, m, n);
    if n > 0 {
      LeftMeansRunning(g, m);
      StraightSteps(g, m);
      StraightRuns(g, Step(g, m), n - 1);
    }
  }

  lemma LeftMeansRunning(g: Job, m: Machine)
    requires Straight(g, m)
    ensures StepsLeft(m.proc) > 0 <==> Running(m.proc)
    ensures StepsLeft(m.proc) == 0 ==> m == Machine(Disk(NewPair(g), None, Some(Success)), Done)
  {
    if m.proc.Done? {
      assert Committed(g, m);
      NewPairExactly(g, m.disk.files);
    }
  }

  /** A write with power for its fourteen steps ends in exactly the new pair, and with any less it is
      still under way. */
  lemma WriteFinishes(g: Job, n: nat)
    ensures n >= INSTALL_STEPS ==> Run(g, Start(g), n) == Machine(Disk(NewPair(g), None, Some(Success)), Done)
    ensures n < INSTALL_STEPS ==> Running(Run(g, Start(g), n).proc)
  {
    hide Run, InitialDisk, NewPair;
    var k := if n < INSTALL_STEPS then n else INSTALL_STEPS;
    StraightRuns(g, Start(g), k);
    LeftMeansRunning(g, Run(g, Start(g), k));
    if n > k {
      RunsOn(g, Start(g), k, n - k);
      StoppedStays(g, Run(g, Start(g), k), n - k);
    }
  }

  lemma {:induction false} RunsOn(g: Job, m: Machine, k: nat, n: nat)
    ensures Run(g, m, k + n) == Run(g, Run(g, m, k), n)
    decreases k
  {
    hide Run;
    RunUnfold(g, m, k);
    RunUnfold(g, m, k + n);
    if k > 0 {
      RunsOn(g, Step(g, m), k - 1, n);
    }
  }
}
