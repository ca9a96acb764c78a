/** The two-file atomic replace and its recovery journal, one atomic step at a time.

    A machine is a directory, a journal, the audit log's verdict on the transaction, and the process
    working on them.  A crash forgets the process and nothing else. */
module BackupMachine {
  import opened Options

  /** Which run wrote a file; digests see only the bytes. */
  datatype Generation = Old | New

  datatype File = File(gen: Generation, bytes: int)

  datatype Slot = DataFinal | SigFinal | DataTemp | SigTemp | DataRollback | SigRollback

  datatype Phase = Prepared | StateCommitted | AuditCommitted

  /** The recovery journal.  An unsigned backup has no signature digest and no signature temp file. */
  datatype Journal = Journal(hadData: bool, hadSig: bool, dataDigest: int, sigDigest: Option<int>, phase: Phase, sequence: nat)

  datatype Outcome = Success | RolledBack

  datatype Disk = Disk(files: map<Slot, File>, journal: Option<Journal>, audit: Option<Outcome>)

  /** What one backup replaces and what it installs. */
  datatype Job = Job(oldData: Option<int>, oldSig: Option<int>, newData: int, newSig: Option<int>)

  datatype WriteStep =
    | WriteJournal | MoveDataAside | MoveSigAside | InstallData | InstallSig | CommitState | Finalize

  datatype RecoverStep =
    | RemoveData | RestoreData | RemoveSig | RestoreSig | CompleteAudit | CommitAudit
    | DropDataTemp | DropSigTemp | DropDataRollback | DropSigRollback | DropJournal

  datatype Reason = PairRejected | AuditConflict

  datatype Process =
    | Idle
    | Writing(at: WriteStep)
    | Recovering(step: RecoverStep, j: Journal)
    | Done
    | Failed(reason: Reason)

  datatype Machine = Machine(disk: Disk, proc: Process)

  // ---------------------------------------------------------------- file operations

  function Remove(files: map<Slot, File>, s: Slot): map<Slot, File> { files - {s} }

  function Rename(files: map<Slot, File>, from: Slot, to: Slot): map<Slot, File> {
    if from in files then (files - {from})[to := files[from]] else files
  }

  // ---------------------------------------------------------------- recovery

  predicate DigestOk(files: map<Slot, File>, s: Slot, want: Option<int>) {
    want.Some? ==> s in files && files[s].bytes == want.value
  }

  /** Reads the journal and decides where recovery starts. */
  function BeginRecovery(disk: Disk): Process {
    match disk.journal
    case None => Done
    case Some(j) =>
      if j.phase == Prepared then Recovering(RemoveData, j)
      else if !DigestOk(disk.files, DataFinal, Some(j.dataDigest)) || !DigestOk(disk.files, SigFinal, j.sigDigest) then Failed(PairRejected)
      else Recovering(if j.phase == StateCommitted then CompleteAudit else DropDataTemp, j)
  }

  function OutcomeOf(j: Journal): Outcome {
    if j.phase == StateCommitted then Success else RolledBack
  }

  /** One atomic step of a recovery holding `j` in memory. */
  function RecoveryStep(disk: Disk, step: RecoverStep, j: Journal): Machine {
    var f := disk.files;
    match step
    case RemoveData => Machine(disk.(files := Remove(f, DataFinal)), Recovering(RestoreData, j))
    case RestoreData =>
      Machine(disk.(files := if j.hadData then Rename(f, DataRollback, DataFinal) else f), Recovering(RemoveSig, j))
    case RemoveSig => Machine(disk.(files := Remove(f, SigFinal)), Recovering(RestoreSig, j))
    case RestoreSig =>
      Machine(disk.(files := if j.hadSig then Rename(f, SigRollback, SigFinal) else f), Recovering(CompleteAudit, j))
    case CompleteAudit =>
      if disk.audit.Some? && disk.audit.value != OutcomeOf(j) then Machine(disk, Failed(AuditConflict))
      else Machine(disk.(audit := Some(OutcomeOf(j))), Recovering(CommitAudit, j))
    case CommitAudit =>
      var j' := j.(phase := AuditCommitted, sequence := j.sequence + 1);
      Machine(disk.(journal := Some(j')), Recovering(DropDataTemp, j'))
    case DropDataTemp => Machine(disk.(files := Remove(f, DataTemp)), Recovering(DropSigTemp, j))
    case DropSigTemp =>
      Machine(disk.(files := if j.sigDigest.Some? then Remove(f, SigTemp) else f), Recovering(DropDataRollback, j))
    case DropDataRollback => Machine(disk.(files := Remove(f, DataRollback)), Recovering(DropSigRollback, j))
    case DropSigRollback => Machine(disk.(files := Remove(f, SigRollback)), Recovering(DropJournal, j))
    case DropJournal => Machine(disk.(journal := None), Done)
  }

  // ---------------------------------------------------------------- the write

  function PreparedJournal(g: Job): Journal {
    Journal(g.oldData.Some?, g.oldSig.Some?, g.newData, g.newSig, Prepared, 1)
  }

  function WritingStep(g: Job, disk: Disk, at: WriteStep): Machine {
    var f := disk.files;
    match at
    case WriteJournal => Machine(disk.(journal := Some(PreparedJournal(g))), Writing(MoveDataAside))
    case MoveDataAside =>
      Machine(disk.(files := if g.oldData.Some? then Rename(f, DataFinal, DataRollback) else f), Writing(MoveSigAside))
    case MoveSigAside =>
      Machine(disk.(files := if g.oldSig.Some? then Rename(f, SigFinal, SigRollback) else f), Writing(InstallData))
    case InstallData => Machine(disk.(files := Rename(f, DataTemp, DataFinal)), Writing(InstallSig))
    case InstallSig =>
      Machine(disk.(files := if g.newSig.Some? then Rename(f, SigTemp, SigFinal) else f), Writing(CommitState))
    case CommitState =>
      Machine(disk.(journal := Some(PreparedJournal(g).(phase := StateCommitted, sequence := 2))), Writing(Finalize))
    case Finalize => Machine(disk, BeginRecovery(disk))
  }

  /** The deterministic next step of a running process; a stopped one stays as it is. */
  function Step(g: Job, m: Machine): Machine {
    match m.proc
    case Writing(at) => WritingStep(g, m.disk, at)
    case Recovering(step, j) => RecoveryStep(m.disk, step, j)
    case Idle => m
    case Done => m
    case Failed(_) => m
  }

  /** `n` uninterrupted steps. */
  function Run(g: Job, m: Machine, n: nat): Machine
    decreases n
  {
    if n == 0 then m else Run(g, Step(g, m), n - 1)
  }

  predicate Running(p: Process) { p.Writing? || p.Recovering? }

  lemma RunUnfold(g: Job, m: Machine, n: nat)
    ensures n > 0 ==> Run(g, m, n) == Run(g, Step(g, m), n - 1)
    ensures n == 0 ==> Run(g, m, n) == m
  {
  }

  lemma {:induction false} StoppedStays(g: Job, m: Machine, n: nat)
    requires !Running(m.proc)
    ensures Run(g, m, n) == m
    decreases n
  {
    if n > 0 {
      StoppedStays(g, m, n - 1);
    }
  }

  /** One transition of a schedule: a step, a crash of a running process, or a new recovery. */
  predicate Next(g: Job, m: Machine, m': Machine) {
    || (Running(m.proc) && m' == Step(g, m))
    || (Running(m.proc) && m' == m.(proc := Idle))
    || (!Running(m.proc) && m' == m.(proc := BeginRecovery(m.disk)))
  }

  // ---------------------------------------------------------------- where a backup starts

  function OldFile(s: Slot, bytes: Option<int>): map<Slot, File> {
    if bytes.Some? then map[s := File(Old, bytes.value)] else map[]
  }

  function NewFile(s: Slot, bytes: Option<int>): map<Slot, File> {
    if bytes.Some? then map[s := File(New, bytes.value)] else map[]
  }

  function OldPair(g: Job): map<Slot, File> {
    OldFile(DataFinal, g.oldData) + OldFile(SigFinal, g.oldSig)
  }

  /** The new generation: data, and a signature exactly when the backup is signed. */
  function NewPair(g: Job): map<Slot, File> {
    map[DataFinal := File(New, g.newData)] + NewFile(SigFinal, g.newSig)
  }

  /** The old pair and the finished temporary files, before the journal is written. */
  function InitialDisk(g: Job): Disk {
    Disk(OldPair(g) + map[DataTemp := File(New, g.newData)] + NewFile(SigTemp, g.newSig), None, None)
  }

  function Start(g: Job): Machine { Machine(InitialDisk(g), Writing(WriteJournal)) }

  /** A schedule: the backup starts, and every transition is a step, a crash or a new recovery. */
  ghost predicate IsRun(g: Job, run: seq<Machine>) {
    && run != [] && run[0] == Start(g)
    && forall i :: 0 <= i < |run| - 1 ==> Next(g, run[i], run[i+1])
  }
}
