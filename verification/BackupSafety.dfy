/** What every schedule of crashes and recoveries keeps true of the backup pair. */
module BackupSafety {
  import opened Options
  import opened BackupMachine

  // ---------------------------------------------------------------- the invariant

  /** The only file each name can ever hold. */
  predicate Allowed(g: Job, s: Slot, f: File) {
    match s
    case DataFinal => (f.gen == Old && g.oldData == Some(f.bytes)) || (f.gen == New && f.bytes == g.newData)
    case SigFinal => (f.gen == Old && g.oldSig == Some(f.bytes)) || (f.gen == New && g.newSig == Some(f.bytes))
    case DataTemp => f.gen == New && f.bytes == g.newData
    case SigTemp => f.gen == New && g.newSig == Some(f.bytes)
    case DataRollback => f.gen == Old && g.oldData == Some(f.bytes)
    case SigRollback => f.gen == Old && g.oldSig == Some(f.bytes)
  }

  predicate AllowedFiles(g: Job, files: map<Slot, File>) {
    forall s :: s in files ==> Allowed(g, s, files[s])
  }

  predicate NotNew(files: map<Slot, File>, s: Slot) {
    s in files ==> files[s].gen == Old
  }

  function Aside(g: Job): map<Slot, File> {
    OldFile(DataRollback, g.oldData) + OldFile(SigRollback, g.oldSig)
  }

  /** The directory just before write step `at`. */
  function WrittenTo(g: Job, at: WriteStep): map<Slot, File> {
    var temps := map[DataTemp := File(New, g.newData)] + NewFile(SigTemp, g.newSig);
    match at
    case WriteJournal => OldPair(g) + temps
    case MoveDataAside => OldPair(g) + temps
    case MoveSigAside => OldFile(DataRollback, g.oldData) + OldFile(SigFinal, g.oldSig) + temps
    case InstallData => Aside(g) + temps
    case InstallSig => Aside(g) + map[DataFinal := File(New, g.newData)] + NewFile(SigTemp, g.newSig)
    case CommitState => Aside(g) + NewPair(g)
    case Finalize => Aside(g) + NewPair(g)
  }

  function UndoneJournal(g: Job): Journal { PreparedJournal(g).(phase := AuditCommitted, sequence := 2) }
  function CommitJournal(g: Job): Journal { PreparedJournal(g).(phase := StateCommitted, sequence := 2) }
  function CommittedJournal(g: Job): Journal { PreparedJournal(g).(phase := AuditCommitted, sequence := 3) }

  /** The temporary and rollback names already gone when cleanup is at `step`. */
  predicate Dropped(files: map<Slot, File>, step: RecoverStep) {
    match step
    case DropDataTemp => true
    case DropSigTemp => DataTemp !in files
    case DropDataRollback => DataTemp !in files && SigTemp !in files
    case DropSigRollback => DataTemp !in files && SigTemp !in files && DataRollback !in files
    case DropJournal => OnlyFinals(files)
    case _ => false
  }

  predicate OnlyFinals(files: map<Slot, File>) {
    files.Keys <= {DataFinal, SigFinal}
  }

  ghost predicate Untouched(g: Job, m: Machine) {
    m.disk == InitialDisk(g) && (m.proc == Writing(WriteJournal) || m.proc.Idle? || m.proc.Done?)
  }

  ghost predicate Preparing(g: Job, m: Machine) {
    && m.disk.journal == Some(PreparedJournal(g)) && m.disk.audit.None?
    && m.proc.Writing? && m.proc.at != WriteJournal && m.proc.at != Finalize
    && m.disk.files == WrittenTo(g, m.proc.at)
  }

  /** How far a rollback has got: finals it has cleared or restored so far hold nothing new. */
  predicate UndoneTo(files: map<Slot, File>, step: RecoverStep) {
    match step
    case RemoveData => true
    case RestoreData => DataFinal !in files
    case RemoveSig => NotNew(files, DataFinal)
    case RestoreSig => NotNew(files, DataFinal) && SigFinal !in files
    case CompleteAudit => NotNew(files, DataFinal) && NotNew(files, SigFinal)
    case CommitAudit => NotNew(files, DataFinal) && NotNew(files, SigFinal)
    case _ => false
  }

  ghost predicate Undoing(g: Job, m: Machine) {
    && m.disk.journal == Some(PreparedJournal(g)) && m.disk.audit != Some(Success)
    && AllowedFiles(g, m.disk.files)
    && (m.proc.Idle? || (m.proc.Recovering? && m.proc.j == PreparedJournal(g)
          && UndoneTo(m.disk.files, m.proc.step) && (m.proc.step == CommitAudit ==> m.disk.audit == Some(RolledBack))))
  }

  ghost predicate Undone(g: Job, m: Machine) {
    && m.disk.audit == Some(RolledBack)
    && AllowedFiles(g, m.disk.files) && NotNew(m.disk.files, DataFinal) && NotNew(m.disk.files, SigFinal)
    && if m.disk.journal.None? then OnlyFinals(m.disk.files) && (m.proc.Idle? || m.proc.Done?)
       else && m.disk.journal == Some(UndoneJournal(g))
            && (m.proc.Idle? || m.proc == Failed(PairRejected)
                || (m.proc.Recovering? && m.proc.j == UndoneJournal(g) && Dropped(m.disk.files, m.proc.step)))
  }

  ghost predicate Committing(g: Job, m: Machine) {
    && m.disk.journal == Some(CommitJournal(g)) && m.disk.audit != Some(RolledBack)
    && m.disk.files == WrittenTo(g, Finalize)
    && (m.proc.Idle? || m.proc == Writing(Finalize) || m.proc == Recovering(CompleteAudit, CommitJournal(g))
        || (m.proc == Recovering(CommitAudit, CommitJournal(g)) && m.disk.audit == Some(Success)))
  }

  predicate NewInstalled(g: Job, files: map<Slot, File>) {
    && DataFinal in files && files[DataFinal] == File(New, g.newData)
    && (SigFinal in files <==> g.newSig.Some?)
    && (SigFinal in files ==> files[SigFinal] == File(New, g.newSig.value))
  }

  ghost predicate Committed(g: Job, m: Machine) {
    && m.disk.audit == Some(Success) && NewInstalled(g, m.disk.files)
    && if m.disk.journal.None? then OnlyFinals(m.disk.files) && (m.proc.Idle? || m.proc.Done?)
       else && m.disk.journal == Some(CommittedJournal(g))
            && DataTemp !in m.disk.files && SigTemp !in m.disk.files
            && (m.proc.Idle? || (m.proc.Recovering? && m.proc.j == CommittedJournal(g) && Dropped(m.disk.files, m.proc.step)))
  }

  ghost predicate OnRollbackSide(g: Job, m: Machine) {
    Untouched(g, m) || Preparing(g, m) || Undoing(g, m) || Undone(g, m)
  }

  ghost predicate OnCommitSide(g: Job, m: Machine) {
    Committing(g, m) || Committed(g, m)
  }

  ghost predicate Inv(g: Job, m: Machine) {
    OnRollbackSide(g, m) || OnCommitSide(g, m)
  }

  // ---------------------------------------------------------------- it is inductive

  lemma UntouchedNext(g: Job, m: Machine, m': Machine)
    requires Untouched(g, m) && Next(g, m, m')
    ensures Untouched(g, m') || Preparing(g, m')
  {
  }

  function After(at: WriteStep): WriteStep {
    match at
    case WriteJournal => MoveDataAside
    case MoveDataAside => MoveSigAside
    case MoveSigAside => InstallData
    case InstallData => InstallSig
    case InstallSig => CommitState
    case CommitState => Finalize
    case Finalize => Finalize
  }

  lemma MoveDataAsideFiles(g: Job)
    ensures WrittenTo(g, MoveSigAside)
         == if g.oldData.Some? then Rename(WrittenTo(g, MoveDataAside), DataFinal, DataRollback) else WrittenTo(g, MoveDataAside)
  {
  }

  lemma MoveSigAsideFiles(g: Job)
    ensures WrittenTo(g, InstallData)
         == if g.oldSig.Some? then Rename(WrittenTo(g, MoveSigAside), SigFinal, SigRollback) else WrittenTo(g, MoveSigAside)
  {
  }

  lemma InstallDataFiles(g: Job)
    ensures WrittenTo(g, InstallSig) == Rename(WrittenTo(g, InstallData), DataTemp, DataFinal)
  {
  }

  lemma InstallSigFiles(g: Job)
    ensures WrittenTo(g, CommitState)
         == if g.newSig.Some? then Rename(WrittenTo(g, InstallSig), SigTemp, SigFinal) else WrittenTo(g, InstallSig)
  {
  }

  lemma WriteAdvances(g: Job, at: WriteStep, disk: Disk)
    requires disk.files == WrittenTo(g, at) && at != WriteJournal && at != Finalize && at != CommitState
    ensures WritingStep(g, disk, at) == Machine(disk.(files := WrittenTo(g, After(at))), Writing(After(at)))
  {
    MoveDataAsideFiles(g);
    MoveSigAsideFiles(g);
    InstallDataFiles(g);
    InstallSigFiles(g);
    hide WrittenTo, Rename;
  }

  lemma AllowedUnion(g: Job, a: map<Slot, File>, b: map<Slot, File>)
    requires AllowedFiles(g, a) && AllowedFiles(g, b)
    ensures AllowedFiles(g, a + b)
  {
    hide Allowed;
  }

  lemma WrittenAllowed(g: Job, at: WriteStep)
    ensures AllowedFiles(g, WrittenTo(g, at))
  {
    PartsAllowed(g);
    hide AllowedFiles, OldFile, NewFile;
    var temps := map[DataTemp := File(New, g.newData)] + NewFile(SigTemp, g.newSig);
    AllowedUnion(g, map[DataTemp := File(New, g.newData)], NewFile(SigTemp, g.newSig));
    AllowedUnion(g, OldFile(DataFinal, g.oldData), OldFile(SigFinal, g.oldSig));
    AllowedUnion(g, OldFile(DataRollback, g.oldData), OldFile(SigFinal, g.oldSig));
    AllowedUnion(g, OldFile(DataRollback, g.oldData), OldFile(SigRollback, g.oldSig));
    AllowedUnion(g, OldPair(g), temps);
    AllowedUnion(g, OldFile(DataRollback, g.oldData) + OldFile(SigFinal, g.oldSig), temps);
    AllowedUnion(g, Aside(g), temps);
    AllowedUnion(g, Aside(g), map[DataFinal := File(New, g.newData)]);
    AllowedUnion(g, Aside(g) + map[DataFinal := File(New, g.newData)], NewFile(SigTemp, g.newSig));
    AllowedUnion(g, map[DataFinal := File(New, g.newData)], NewFile(SigFinal, g.newSig));
    AllowedUnion(g, Aside(g), NewPair(g));
  }

  lemma PartsAllowed(g: Job)
    ensures AllowedFiles(g, OldFile(DataFinal, g.oldData)) && AllowedFiles(g, OldFile(SigFinal, g.oldSig))
    ensures AllowedFiles(g, OldFile(DataRollback, g.oldData)) && AllowedFiles(g, OldFile(SigRollback, g.oldSig))
    ensures AllowedFiles(g, map[DataTemp := File(New, g.newData)]) && AllowedFiles(g, NewFile(SigTemp, g.newSig))
    ensures AllowedFiles(g, map[DataFinal := File(New, g.newData)]) && AllowedFiles(g, NewFile(SigFinal, g.newSig))
  {
  }

  lemma PreparingNext(g: Job, m: Machine, m': Machine)
    requires Preparing(g, m) && Next(g, m, m')
    ensures Preparing(g, m') || Undoing(g, m') || Committing(g, m')
  {
    if m.proc.at != CommitState {
      WriteAdvances(g, m.proc.at, m.disk);
    }
    WrittenAllowed(g, m.proc.at);
    assert WrittenTo(g, CommitState) == WrittenTo(g, Finalize);
    hide WrittenTo, AllowedFiles, InitialDisk;
  }

  lemma UndoingNext(g: Job, m: Machine, m': Machine)
    requires Undoing(g, m) && Next(g, m, m')
    ensures Undoing(g, m') || Undone(g, m')
  {
  }

  lemma UndoneNext(g: Job, m: Machine, m': Machine)
    requires Undone(g, m) && Next(g, m, m')
    ensures Undone(g, m')
  {
  }

  lemma CommittedFiles(g: Job)
    ensures NewInstalled(g, WrittenTo(g, Finalize))
    ensures DataTemp !in WrittenTo(g, Finalize) && SigTemp !in WrittenTo(g, Finalize)
  {
  }

  lemma CommittingNext(g: Job, m: Machine, m': Machine)
    requires Committing(g, m) && Next(g, m, m')
    ensures Committing(g, m') || Committed(g, m')
  {
    hide WrittenTo, NewInstalled, DigestOk, OldPair;
    CommittedFiles(g);
    InstalledDigests(g, WrittenTo(g, Finalize));
  }

  lemma CommittedNext(g: Job, m: Machine, m': Machine)
    requires Committed(g, m) && Next(g, m, m')
    ensures Committed(g, m')
  {
    if !Running(m.proc) && m.disk.journal.Some? {
      InstalledDigests(g, m.disk.files);
    }
    if m.proc.Recovering? && m.proc.step == DropSigRollback {
      AllDropped(Remove(m.disk.files, SigRollback));
    }
  }

  lemma AllDropped(files: map<Slot, File>)
    requires DataTemp !in files && SigTemp !in files && DataRollback !in files && SigRollback !in files
    ensures OnlyFinals(files)
  {
    forall s | s in files.Keys ensures s in {DataFinal, SigFinal} {
      assert s.DataFinal? || s.SigFinal? || s.DataTemp? || s.SigTemp? || s.DataRollback? || s.SigRollback?;
    }
  }

  lemma InstalledDigests(g: Job, files: map<Slot, File>)
    requires NewInstalled(g, files)
    ensures DigestOk(files, DataFinal, Some(g.newData)) && DigestOk(files, SigFinal, g.newSig)
  {
  }

  lemma InvNext(g: Job, m: Machine, m': Machine)
    requires Inv(g, m) && Next(g, m, m')
    ensures Inv(g, m')
    ensures OnCommitSide(g, m) ==> OnCommitSide(g, m')
    ensures Undone(g, m) ==> Undone(g, m')
  {
    hide Untouched, Preparing, Undoing, Undone, Committing, Committed, Next;
    if Untouched(g, m) { UntouchedNext(g, m, m'); }
    if Preparing(g, m) { PreparingNext(g, m, m'); }
    if Undoing(g, m) { UndoingNext(g, m, m'); }
    if Undone(g, m) { UndoneNext(g, m, m'); }
    if Committing(g, m) { CommittingNext(g, m, m'); }
    if Committed(g, m) { CommittedNext(g, m, m'); }
  }

  lemma {:induction false} RunKeepsInv(g: Job, run: seq<Machine>, i: nat)
    requires IsRun(g, run) && i < |run|
    ensures Inv(g, run[i])
  {
    if i > 0 {
      RunKeepsInv(g, run, i - 1);
      assert Next(g, run[i-1], run[i-1+1]);
      hide Inv, Next;
      InvNext(g, run[i-1], run[i]);
    }
  }
}
