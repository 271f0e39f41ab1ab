/** The crash-recoverable replacement of a plaintext database by its SQLCipher copy, one file operation a step. */
module MigrationProtocol {
  import opened Wrappers

  /** The logical content of a database: everything a connection would read. */
  type Data = string

  /** What the bytes of one file amount to. `Damaged` is anything unreadable: torn, or under another key. */
  datatype Body = Absent | Empty | Damaged | Plain(data: Data) | Encrypted(data: Data)

  /** A database file; a journal or WAL beside it overrides the content of the main file. */
  datatype File = File(main: Body, sidecar: Option<Data>)
  {
    predicate Exists() { !main.Absent? }

    function Content(): (data: Option<Data>) {
      if !main.Plain? && !main.Encrypted? then None
      else if sidecar.Some? then sidecar
      else Some(main.data)
    }
  }

  datatype Name = Database | Temp | Backup

  datatype Disk = Disk(database: File, temp: File, backup: File)
  {
    function Get(name: Name): (file: File) {
      match name case Database => database case Temp => temp case Backup => backup
    }

    function Set(name: Name, file: File): (after: Disk) {
      match name
      case Database => this.(database := file)
      case Temp => this.(temp := file)
      case Backup => this.(backup := file)
    }
  }

  datatype Op =
    | Look                        // existence, size and header checks
    | RemoveSidecars(name: Name)
    | RemoveMain(name: Name)
    | Verify(name: Name)          // key, integrity and table count through SQLCipher
    | Rename(from: Name, to: Name)
    | Checkpoint                  // fold the WAL into the plaintext database
    | Copy                        // plaintext database to temp, refusing an existing temp
    | Rekey                       // encrypt temp in place
    | CompareCounts
  {
    /** The operation writes the database or its copy, and may be torn. */
    predicate Writes() { Checkpoint? || Copy? || Rekey? }

    predicate Reads() { Look? || Verify? || CompareCounts? }
  }

  /** `Torn` is a failure part way through, which may leave any bytes where the operation writes. */
  datatype Outcome = Good | Failed | Torn(garbage: Data)

  predicate Verifies(file: File) {
    file.main.Encrypted?
  }

  /** Whether an operation can succeed on this disk at all. */
  predicate Possible(op: Op, disk: Disk) {
    match op
    case Verify(name) => Verifies(disk.Get(name))
    case Rename(from, _) => disk.Get(from).Exists()
    case Checkpoint => disk.database.main.Plain?
    case Copy => disk.database.main.Plain? && !disk.temp.Exists()
    case Rekey => disk.temp.main.Plain?
    case _ => true
  }

  function Succeeds(op: Op, disk: Disk, outcome: Outcome): (ok: bool) {
    outcome.Good? && Possible(op, disk)
  }

  function Effect(op: Op, disk: Disk, outcome: Outcome): (after: Disk) {
    if Succeeds(op, disk, outcome) then
      match op
      case RemoveSidecars(name) => disk.Set(name, disk.Get(name).(sidecar := None))
      case RemoveMain(name) => disk.Set(name, disk.Get(name).(main := Absent))
      case Rename(from, to) =>
        disk.Set(to, disk.Get(to).(main := disk.Get(from).main)).Set(from, disk.Get(from).(main := Absent))
      case Checkpoint =>
        var data := if disk.database.sidecar.Some? then disk.database.sidecar.value else disk.database.main.data;
        disk.(database := File(Plain(data), None))
      case Copy => disk.(temp := disk.temp.(main := disk.database.main))
      case Rekey => disk.(temp := File(Encrypted(disk.temp.main.data), None))
      case _ => disk
    else if outcome.Torn? then
      match op
      // A checkpoint writes pages the WAL still holds.
      case Checkpoint =>
        if disk.database.main.Plain? && disk.database.sidecar.Some?
        then disk.(database := disk.database.(main := Plain(outcome.garbage))) else disk
      case Copy => if disk.temp.Exists() then disk else disk.(temp := disk.temp.(main := Damaged))
      case Rekey => disk.(temp := File(Damaged, Some(outcome.garbage)))
      case _ => disk
    else disk
  }

  /** Program points of one run, each standing before one operation. */
  datatype Pc =
    | Idle | Threw | Finished(migrated: bool)
    | Inspect
    | EmptySidecars | EmptyMain                        // an empty target gives way to the artifacts
    | VerifyDatabase
    | StaleTempSidecars | StaleTempMain | StaleBackupSidecars | StaleBackupMain
    | VerifyTemp | PromoteTemp | PromotedSidecars
    | RestoreBackup | RestoredSidecars
    | Recovered
    | FreshTempSidecars | FreshTempMain | FreshBackupSidecars | FreshBackupMain
    | CheckpointSource | CopySource | RekeyCopy | AbandonSidecars | AbandonMain
    | VerifyCopy | CompareTables | SourceSidecars
    | MoveAside | MoveIn | VerifyReplaced
    | RollbackSidecars | RollbackMain | RollbackRename
    | DoneBackupSidecars | DoneBackupMain | DoneTempSidecars
  {
    predicate AtRest() { Idle? || Threw? || Finished? }
  }

  function OpAt(pc: Pc): (op: Op) {
    match pc
    case EmptySidecars | RollbackSidecars | SourceSidecars => RemoveSidecars(Database)
    case EmptyMain | RollbackMain => RemoveMain(Database)
    case StaleTempSidecars | FreshTempSidecars | AbandonSidecars => RemoveSidecars(Temp)
    case PromotedSidecars | DoneTempSidecars => RemoveSidecars(Temp)
    case StaleTempMain | FreshTempMain | AbandonMain => RemoveMain(Temp)
    case StaleBackupSidecars | FreshBackupSidecars | DoneBackupSidecars | RestoredSidecars => RemoveSidecars(Backup)
    case StaleBackupMain | FreshBackupMain | DoneBackupMain => RemoveMain(Backup)
    case VerifyDatabase | VerifyReplaced => Verify(Database)
    case VerifyTemp | VerifyCopy => Verify(Temp)
    case PromoteTemp | MoveIn => Rename(Temp, Database)
    case RestoreBackup | RollbackRename => Rename(Backup, Database)
    case MoveAside => Rename(Database, Backup)
    case CheckpointSource => Checkpoint
    case CopySource => Copy
    case RekeyCopy => Rekey
    case CompareTables => CompareCounts
    case _ => Look
  }

  /** Where recovery goes after looking at the three files. */
  function AfterInspect(disk: Disk): (pc: Pc) {
    if disk.database.Exists() then
      if disk.database.main.Empty? && (disk.temp.Exists() || disk.backup.Exists()) then EmptySidecars
      else if disk.database.main.Plain? then StaleTempSidecars
      else if !disk.temp.Exists() && !disk.backup.Exists() then Recovered
      else VerifyDatabase
    else if disk.temp.Exists() then VerifyTemp
    else if disk.backup.Exists() then RestoreBackup
    else Recovered
  }

  function AfterSuccess(pc: Pc, disk: Disk): (next: Pc) {
    match pc
    case Inspect => AfterInspect(disk)
    case EmptySidecars => EmptyMain
    case EmptyMain => Inspect
    case VerifyDatabase => StaleTempSidecars
    case StaleTempSidecars => StaleTempMain
    case StaleTempMain => StaleBackupSidecars
    case StaleBackupSidecars => StaleBackupMain
    case StaleBackupMain => Recovered
    case VerifyTemp => PromoteTemp
    case PromoteTemp => PromotedSidecars
    case PromotedSidecars => StaleBackupSidecars
    case RestoreBackup => RestoredSidecars
    case RestoredSidecars => Recovered
    case Recovered => if disk.database.main.Plain? then FreshTempSidecars else Finished(false)
    case FreshTempSidecars => FreshTempMain
    case FreshTempMain => FreshBackupSidecars
    case FreshBackupSidecars => FreshBackupMain
    case FreshBackupMain => CheckpointSource
    case CheckpointSource => CopySource
    case CopySource => RekeyCopy
    case RekeyCopy => VerifyCopy
    case AbandonSidecars => AbandonMain
    case AbandonMain => Threw
    case VerifyCopy => CompareTables
    case CompareTables => SourceSidecars
    case SourceSidecars => MoveAside
    case MoveAside => MoveIn
    case MoveIn => VerifyReplaced
    case VerifyReplaced => DoneBackupSidecars
    case RollbackSidecars => RollbackMain
    case RollbackMain => RollbackRename
    case RollbackRename => Threw
    case DoneBackupSidecars => DoneBackupMain
    case DoneBackupMain => DoneTempSidecars
    case DoneTempSidecars => Finished(true)
    case _ => pc
  }

  function AfterFailure(pc: Pc): (next: Pc) {
    match pc
    case CheckpointSource | CopySource | RekeyCopy | CompareTables => AbandonSidecars
    case MoveIn | VerifyReplaced => RollbackSidecars
    case _ => if pc.AtRest() then pc else Threw
  }

  datatype System = System(disk: Disk, pc: Pc)

  function Step(s: System, outcome: Outcome): (after: System) {
    var op := OpAt(s.pc);
    var disk := Effect(op, s.disk, outcome);
    if s.pc.AtRest() then s
    else if Succeeds(op, s.disk, outcome) then System(disk, AfterSuccess(s.pc, disk))
    else System(disk, AfterFailure(s.pc))
  }

  /** What can happen to the files: a step of the running migration, a crash, a new start. */
  datatype Move =
    | Advance(outcome: Outcome)
    | Crash
    | Start
    | TouchDatabase  // something opens a missing database between runs and leaves an empty file

  function Apply(s: System, move: Move): (after: System) {
    match move
    case Advance(outcome) => Step(s, outcome)
    case Crash => s.(pc := Idle)
    case Start => if s.pc.AtRest() then s.(pc := Inspect) else s
    case TouchDatabase =>
      if s.pc.AtRest() && s.disk.database.main.Absent?
      then s.(disk := s.disk.(database := s.disk.database.(main := Empty))) else s
  }

  function Play(s: System, moves: seq<Move>): (after: System)
    decreases |moves|
  {
    if moves == [] then s else Play(Apply(s, moves[0]), moves[1..])
  }

  // ---------------------------------------------------------------------------------------------
  // Crash safety

  predicate DatabaseMissing(disk: Disk) {
    disk.database.main.Absent? || disk.database.main.Empty?
  }

  /** Nothing is lost, and recovery can tell where the content is. */
  predicate Intact(disk: Disk, data: Data) {
    if DatabaseMissing(disk) then
      && disk.database.sidecar.None?
      && (disk.temp == File(Encrypted(data), None)
          || (!disk.temp.Exists() && disk.backup == File(Plain(data), None)))
    else
      disk.database.Content() == Some(data)
  }

  /** The files after a complete run: the content encrypted in place, no temp and no backup. */
  predicate Converged(disk: Disk, data: Data) {
    && disk.database.main.Encrypted? && disk.database.Content() == Some(data)
    && !disk.temp.Exists() && !disk.backup.Exists()
  }

  const Gone := File(Absent, None)

  /** What the program point adds: which of the three files are known to be what. */
  predicate AtPoint(pc: Pc, disk: Disk, data: Data) {
    match pc
    case EmptySidecars | EmptyMain => DatabaseMissing(disk)
    case VerifyDatabase => disk.database.main.Encrypted?
    case VerifyTemp | PromoteTemp => disk.database == Gone && disk.temp == File(Encrypted(data), None)
    case RestoreBackup => disk.database == Gone && !disk.temp.Exists() && disk.backup == File(Plain(data), None)
    case StaleTempSidecars | StaleTempMain => !DatabaseMissing(disk)
    case StaleBackupSidecars | StaleBackupMain | PromotedSidecars => !DatabaseMissing(disk) && !disk.temp.Exists()
    case RestoredSidecars | Recovered => !DatabaseMissing(disk) && !disk.temp.Exists() && !disk.backup.Exists()
    case FreshTempSidecars => disk.database.main.Plain?
    case FreshTempMain => disk.database.main.Plain? && disk.temp.sidecar.None?
    case FreshBackupSidecars => disk.database.main.Plain? && disk.temp == Gone
    case FreshBackupMain => disk.database.main.Plain? && disk.temp == Gone && disk.backup.sidecar.None?
    case CheckpointSource => disk.database.main.Plain? && disk.temp == Gone && disk.backup == Gone
    case CopySource => disk == Disk(File(Plain(data), None), Gone, Gone)
    case RekeyCopy => disk == Disk(File(Plain(data), None), File(Plain(data), None), Gone)
    case AbandonSidecars | AbandonMain => disk.database.main.Plain?
    case VerifyCopy | CompareTables | SourceSidecars | MoveAside =>
      disk == Disk(File(Plain(data), None), File(Encrypted(data), None), Gone)
    case MoveIn => disk == Disk(Gone, File(Encrypted(data), None), File(Plain(data), None))
    case VerifyReplaced => disk == Disk(File(Encrypted(data), None), Gone, File(Plain(data), None))
    case RollbackSidecars | RollbackMain =>
      && disk.database.sidecar.None? && disk.backup == File(Plain(data), None)
      && (disk.temp == Gone || disk.temp == File(Encrypted(data), None))
    case RollbackRename => disk.database == Gone && disk.backup == File(Plain(data), None)
    case DoneBackupSidecars | DoneBackupMain => disk.database == File(Encrypted(data), None) && disk.temp == Gone
    case DoneTempSidecars =>
      disk.database == File(Encrypted(data), None) && disk.temp == Gone && !disk.backup.Exists()
    case Finished(_) => Converged(disk, data)
    case _ => true
  }

  predicate Consistent(s: System, data: Data) {
    Intact(s.disk, data) && AtPoint(s.pc, s.disk, data)
  }

  /** No operation, successful, failed or torn, and no crash can lose the content. */
  lemma MoveKeepsContent(s: System, move: Move, data: Data)
    requires Consistent(s, data)
    ensures Consistent(Apply(s, move), data)
  {
    if move.Advance? && !s.pc.AtRest() {
      if Succeeds(OpAt(s.pc), s.disk, move.outcome) {
        SuccessKeepsContent(s, move.outcome, data);
      } else {
        FailureKeepsContent(s, move.outcome, data);
      }
    }
  }

  predicate Recovering(pc: Pc) {
    match pc
    case Inspect | EmptySidecars | EmptyMain | VerifyDatabase | VerifyTemp | PromoteTemp | PromotedSidecars
       | StaleTempSidecars | StaleTempMain | StaleBackupSidecars | StaleBackupMain | RestoreBackup
       | RestoredSidecars | Recovered => true
    case _ => false
  }

  lemma SuccessKeepsContent(s: System, outcome: Outcome, data: Data)
    requires Consistent(s, data) && !s.pc.AtRest() && Succeeds(OpAt(s.pc), s.disk, outcome)
    ensures Consistent(Step(s, outcome), data)
  {
    if Recovering(s.pc) {
      RecoveryKeepsContent(s, outcome, data);
    } else {
      MigrationKeepsContent(s, outcome, data);
    }
  }

  lemma RecoveryKeepsContent(s: System, outcome: Outcome, data: Data)
    requires Consistent(s, data) && Recovering(s.pc) && Succeeds(OpAt(s.pc), s.disk, outcome)
    ensures Consistent(Step(s, outcome), data)
  {
  }

  lemma MigrationKeepsContent(s: System, outcome: Outcome, data: Data)
    requires Consistent(s, data) && !s.pc.AtRest() && !Recovering(s.pc) && Succeeds(OpAt(s.pc), s.disk, outcome)
    ensures Consistent(Step(s, outcome), data)
  {
    if Copying(s.pc) {
      CopyingKeepsContent(s, outcome, data);
    } else {
      ReplacingKeepsContent(s, outcome, data);
    }
  }

  /** Before the first rename: the database is the plaintext original. */
  predicate Copying(pc: Pc) {
    match pc
    case FreshTempSidecars | FreshTempMain | FreshBackupSidecars | FreshBackupMain
       | CheckpointSource | CopySource | RekeyCopy | AbandonSidecars | AbandonMain | VerifyCopy | CompareTables => true
    case _ => false
  }

  lemma CopyingKeepsContent(s: System, outcome: Outcome, data: Data)
    requires Consistent(s, data) && Copying(s.pc) && Succeeds(OpAt(s.pc), s.disk, outcome)
    ensures Consistent(Step(s, outcome), data)
  {
  }

  lemma ReplacingKeepsContent(s: System, outcome: Outcome, data: Data)
    requires Consistent(s, data) && Succeeds(OpAt(s.pc), s.disk, outcome)
    requires !s.pc.AtRest() && !Recovering(s.pc) && !Copying(s.pc)
    ensures Consistent(Step(s, outcome), data)
  {
  }

  lemma FailureKeepsContent(s: System, outcome: Outcome, data: Data)
    requires Consistent(s, data) && !s.pc.AtRest() && !Succeeds(OpAt(s.pc), s.disk, outcome)
    ensures Consistent(Step(s, outcome), data)
  {
  }

  /** Crash safety: whatever happens, however often, some file holds the whole content. */
  lemma {:induction false} NothingIsEverLost(s: System, moves: seq<Move>, data: Data)
    requires Consistent(s, data)
    ensures Consistent(Play(s, moves), data)
    ensures var disk := Play(s, moves).disk;
            && (disk.database.Content() == Some(data) || disk.temp.Content() == Some(data)
                || disk.backup.Content() == Some(data))
            && (DatabaseMissing(disk) ==> !disk.temp.Exists() || disk.temp == File(Encrypted(data), None))
    decreases |moves|
  {
    if moves != [] {
      MoveKeepsContent(s, moves[0], data);
      NothingIsEverLost(Apply(s, moves[0]), moves[1..], data);
    }
  }

  // ---------------------------------------------------------------------------------------------
  // Convergence

  /** An upper bound on the operations left; a second look at the files comes only after an empty one went. */
  function Rank(s: System): (n: nat) {
    match s.pc
    case Inspect => if s.disk.database.main.Empty? then 50 else 40
    case EmptySidecars => 49
    case EmptyMain => 48
    case VerifyDatabase | VerifyTemp => 39
    case PromoteTemp => 38
    case PromotedSidecars => 37
    case StaleTempSidecars => 38
    case StaleTempMain => 37
    case StaleBackupSidecars => 36
    case StaleBackupMain => 35
    case RestoreBackup => 36
    case RestoredSidecars => 35
    case Recovered => 30
    case FreshTempSidecars => 29
    case FreshTempMain => 28
    case FreshBackupSidecars => 27
    case FreshBackupMain => 26
    case CheckpointSource => 25
    case CopySource => 24
    case RekeyCopy => 23
    case VerifyCopy => 22
    case CompareTables => 21
    case SourceSidecars => 20
    case MoveAside => 19
    case MoveIn => 18
    case VerifyReplaced => 17
    case DoneBackupSidecars => 16
    case DoneBackupMain => 15
    case DoneTempSidecars => 14
    case RollbackSidecars => 13
    case RollbackMain => 12
    case RollbackRename => 11
    case AbandonSidecars => 10
    case AbandonMain => 9
    case _ => 0
  }

  lemma StepMakesProgress(s: System, outcome: Outcome)
    requires !s.pc.AtRest()
    ensures Rank(Step(s, outcome)) < Rank(s)
  {
  }

  /** One uninterrupted run in which every operation that can succeed does. */
  function RunToRest(s: System): (after: System)
    ensures after.pc.AtRest()
    decreases Rank(s)
  {
    if s.pc.AtRest() then s else
      StepMakesProgress(s, Good);
      RunToRest(Step(s, Good))
  }

  predicate OnCourse(pc: Pc) {
    !(pc.AbandonSidecars? || pc.AbandonMain? || pc.RollbackSidecars? || pc.RollbackMain? || pc.RollbackRename?
      || pc.Threw? || pc.Idle?)
  }

  /** A consistent system never reaches a handler when operations succeed where they can. */
  lemma GoodStepAdvances(s: System, data: Data)
    requires Consistent(s, data) && !s.pc.AtRest() && OnCourse(s.pc)
    ensures OnCourse(Step(s, Good).pc)
  {
  }

  /** The original is still plaintext: in place, or as the backup of a replacement that never got its copy. */
  predicate FindsPlaintext(disk: Disk) {
    match disk.database.main
    case Plain(_) => true
    case Absent | Empty => !disk.temp.Exists()
    case _ => false
  }

  /** Whether the run will report that it migrated a plaintext database. */
  predicate WillMigrate(s: System) {
    match s.pc
    case Finished(migrated) => migrated
    case Inspect | EmptySidecars | EmptyMain => FindsPlaintext(s.disk)
    case VerifyDatabase | VerifyTemp | PromoteTemp => false
    case RestoreBackup => true
    case StaleTempSidecars | StaleTempMain | StaleBackupSidecars | StaleBackupMain
       | PromotedSidecars | RestoredSidecars | Recovered => s.disk.database.main.Plain?
    case _ => true
  }

  /** The report is settled by the first look and every step on course keeps it. */
  lemma StepKeepsReport(s: System, outcome: Outcome, data: Data)
    requires Consistent(s, data) && !s.pc.AtRest() && OnCourse(Step(s, outcome).pc)
    ensures OnCourse(s.pc) && WillMigrate(Step(s, outcome)) == WillMigrate(s)
  {
  }

  /** From every consistent point that has not taken a failure path, a complete run converges. */
  lemma {:induction false} RunsConverge(s: System, data: Data)
    requires Consistent(s, data) && OnCourse(s.pc)
    ensures RunToRest(s).pc == Finished(WillMigrate(s)) && Converged(RunToRest(s).disk, data)
    decreases Rank(s)
  {
    if !s.pc.AtRest() {
      StepMakesProgress(s, Good);
      MoveKeepsContent(s, Advance(Good), data);
      GoodStepAdvances(s, data);
      StepKeepsReport(s, Good, data);
      RunsConverge(Step(s, Good), data);
    }
  }

  /**
   * Recovery converges: after any number of crashes, failures and restarts, one undisturbed run ends
   * with the content encrypted in place and both artifacts gone; one more run changes nothing.
   */
  lemma RecoveryConverges(s: System, moves: seq<Move>, data: Data)
    requires Consistent(s, data) && Play(s, moves).pc.AtRest()
    ensures var before := System(Play(s, moves).disk, Inspect);
            var after := RunToRest(before);
            && after.pc == Finished(FindsPlaintext(before.disk)) && Converged(after.disk, data)
            && RunToRest(System(after.disk, Inspect)) == System(after.disk, Finished(false))
  {
    NothingIsEverLost(s, moves, data);
    var before := System(Play(s, moves).disk, Inspect);
    RunsConverge(before, data);
    ConvergedIsStable(RunToRest(before).disk, data);
  }

  lemma ConvergedIsStable(disk: Disk, data: Data)
    requires Converged(disk, data)
    ensures RunToRest(System(disk, Inspect)) == System(disk, Finished(false))
  {
    assert Step(System(disk, Inspect), Good) == System(disk, Recovered);
    assert Step(System(disk, Recovered), Good) == System(disk, Finished(false));
    assert RunToRest(System(disk, Recovered)) == System(disk, Finished(false));
  }

  // ---------------------------------------------------------------------------------------------
  // Undoing a failure

  lemma RestAfterStep(s: System)
    requires !s.pc.AtRest()
    ensures RunToRest(s) == RunToRest(Step(s, Good))
  {
  }

  lemma RestIsRest(s: System)
    requires s.pc.AtRest()
    ensures RunToRest(s) == s
  {
  }

  lemma RollbackSteps(disk: Disk, data: Data)
    requires disk.database.sidecar.None? && disk.backup == File(Plain(data), None)
    ensures Step(System(disk, RollbackSidecars), Good) == System(disk, RollbackMain)
    ensures Step(System(disk, RollbackMain), Good) == System(disk.(database := Gone), RollbackRename)
  {
  }

  lemma RollbackEnds(temp: File, data: Data)
    ensures Step(System(Disk(Gone, temp, File(Plain(data), None)), RollbackRename), Good)
            == System(Disk(File(Plain(data), None), temp, Gone), Threw)
  {
  }

  /** The handler of a failed replacement brings the plaintext original back from its backup. */
  lemma RollbackRestores(s: System, data: Data)
    requires Consistent(s, data) && s.pc.RollbackSidecars?
    ensures RunToRest(s) == System(Disk(File(Plain(data), None), s.disk.temp, Gone), Threw)
  {
    RollbackSteps(s.disk, data);
    RollbackEnds(s.disk.temp, data);
    hide RunToRest, Step, Consistent;
    var second := System(s.disk.(database := Gone), RollbackRename);
    RestAfterStep(s);
    RestAfterStep(System(s.disk, RollbackMain));
    RestAfterStep(second);
    RestIsRest(Step(second, Good));
  }

  /** The handler of a failed encryption removes the copy and nothing else. */
  lemma AbandonRemovesCopy(s: System)
    requires s.pc.AbandonSidecars?
    ensures RunToRest(s) == System(s.disk.(temp := Gone), Threw)
  {
    hide RunToRest;
    var first := Step(s, Good);
    RestAfterStep(s);
    RestAfterStep(first);
    RestIsRest(Step(first, Good));
  }

  /**
   * Wherever the replacement fails, in whatever way, after whatever happened before: when the operations
   * after that succeed, the plaintext original is back in place and there is no backup.
   */
  lemma FailedReplacementIsUndone(s: System, outcome: Outcome, data: Data)
    requires Consistent(s, data) && (s.pc.MoveIn? || s.pc.VerifyReplaced?)
    requires !Succeeds(OpAt(s.pc), s.disk, outcome)
    ensures RunToRest(Step(s, outcome)).pc == Threw
    ensures var disk := RunToRest(Step(s, outcome)).disk;
            disk.database == File(Plain(data), None) && disk.backup == Gone
  {
    MoveKeepsContent(s, Advance(outcome), data);
    RollbackRestores(Step(s, outcome), data);
  }

  /** Wherever the encryption of the copy fails: when its removal succeeds, only the database is left, as it was. */
  lemma FailedEncryptionIsUndone(s: System, outcome: Outcome, data: Data)
    requires Consistent(s, data)
    requires s.pc.CheckpointSource? || s.pc.CopySource? || s.pc.RekeyCopy? || s.pc.CompareTables?
    requires !Succeeds(OpAt(s.pc), s.disk, outcome)
    ensures RunToRest(Step(s, outcome)).pc == Threw
    ensures var disk := RunToRest(Step(s, outcome)).disk;
            && disk.temp == Gone && disk.backup == Gone
            && disk.database.main.Plain? && disk.database.Content() == Some(data)
  {
    MoveKeepsContent(s, Advance(outcome), data);
    AbandonRemovesCopy(Step(s, outcome));
  }

  // ---------------------------------------------------------------------------------------------
  // What is verified before it is trusted

  /** An operation a run performed, and whether it succeeded. */
  datatype Entry = Entry(op: Op, ok: bool)

  /** The operation changes the named file itself. */
  predicate Changes(op: Op, name: Name) {
    match op
    case RemoveMain(n) => n == name
    case Rename(from, to) => from == name || to == name
    case Checkpoint => name == Database
    case Copy | Rekey => name == Temp
    case _ => false
  }

  /** The file opened under the key, and nothing has changed it since. */
  ghost predicate Verified(log: seq<Entry>, name: Name) {
    exists k :: 0 <= k < |log| && log[k] == Entry(Verify(name), true)
                && forall j :: k < j < |log| ==> !Changes(log[j].op, name)
  }

  /** The copy was found to have as many tables as the original, and nothing has changed either since. */
  ghost predicate Compared(log: seq<Entry>) {
    exists k :: 0 <= k < |log| && log[k] == Entry(CompareCounts, true)
                && forall j :: k < j < |log| ==> !Changes(log[j].op, Temp) && !Changes(log[j].op, Database)
  }

  /** The original was renamed to the backup. */
  ghost predicate SetAside(log: seq<Entry>) {
    Entry(Rename(Database, Backup), true) in log
  }

  /**
   * No copy takes the database's place unverified, the original is set aside only for a verified copy with
   * as many tables, and its backup is removed only once the replacement verified in place.
   */
  ghost predicate CarefulAt(log: seq<Entry>, entry: Entry) {
    && (entry == Entry(Rename(Temp, Database), true) ==> Verified(log, Temp))
    && (entry == Entry(Rename(Database, Backup), true) ==> Verified(log, Temp) && Compared(log))
    && (entry == Entry(RemoveMain(Backup), true) && SetAside(log) ==> Verified(log, Database))
  }

  ghost predicate Careful(log: seq<Entry>) {
    forall k :: 0 <= k < |log| ==> CarefulAt(log[..k], log[k])
  }

  /** What the program point relies on. */
  ghost predicate Relies(pc: Pc, log: seq<Entry>) {
    match pc
    case PromoteTemp | CompareTables => Verified(log, Temp) && !SetAside(log)
    case SourceSidecars | MoveAside => Verified(log, Temp) && Compared(log) && !SetAside(log)
    case MoveIn => Verified(log, Temp)
    case DoneBackupSidecars | DoneBackupMain => Verified(log, Database)
    case VerifyReplaced | RollbackSidecars | RollbackMain | RollbackRename | DoneTempSidecars => true
    case _ => pc.AtRest() || !SetAside(log)
  }

  lemma StaysVerified(log: seq<Entry>, entry: Entry, name: Name)
    ensures Verified(log, name) && !Changes(entry.op, name) ==> Verified(log + [entry], name)
    ensures entry == Entry(Verify(name), true) ==> Verified(log + [entry], name)
  {
    if Verified(log, name) && !Changes(entry.op, name) {
      var k :| 0 <= k < |log| && log[k] == Entry(Verify(name), true)
               && forall j :: k < j < |log| ==> !Changes(log[j].op, name);
      assert (log + [entry])[k] == Entry(Verify(name), true);
    }
    assert (log + [entry])[|log|] == entry;
  }

  lemma StaysCompared(log: seq<Entry>, entry: Entry)
    ensures Compared(log) && !Changes(entry.op, Temp) && !Changes(entry.op, Database) ==> Compared(log + [entry])
    ensures entry == Entry(CompareCounts, true) ==> Compared(log + [entry])
  {
    if Compared(log) && !Changes(entry.op, Temp) && !Changes(entry.op, Database) {
      var k :| 0 <= k < |log| && log[k] == Entry(CompareCounts, true)
               && forall j :: k < j < |log| ==> !Changes(log[j].op, Temp) && !Changes(log[j].op, Database);
      assert (log + [entry])[k] == Entry(CompareCounts, true);
    }
    assert (log + [entry])[|log|] == entry;
  }

  lemma StaysCareful(log: seq<Entry>, entry: Entry)
    requires Careful(log) && CarefulAt(log, entry)
    ensures Careful(log + [entry])
  {
    hide CarefulAt;
    forall k | 0 <= k <= |log|
      ensures CarefulAt((log + [entry])[..k], (log + [entry])[k])
    {
      assert (log + [entry])[..k] == log[..k];
      assert log[..|log|] == log;
    }
  }

  /** Every step of a run is careful, whatever comes of it. */
  lemma StepIsCareful(s: System, log: seq<Entry>, outcome: Outcome)
    requires !s.pc.AtRest() && Relies(s.pc, log) && Careful(log)
    ensures var after := log + [Entry(OpAt(s.pc), Succeeds(OpAt(s.pc), s.disk, outcome))];
            Careful(after) && Relies(Step(s, outcome).pc, after)
  {
    var entry := Entry(OpAt(s.pc), Succeeds(OpAt(s.pc), s.disk, outcome));
    hide Verified, Compared, Careful, Effect, Possible;
    StaysVerified(log, entry, Temp);
    StaysVerified(log, entry, Database);
    StaysCompared(log, entry);
    StaysCareful(log, entry);
  }

  /** A database or copy that does not open under the key is never touched, nor is anything beside it. */
  lemma UnreadableFilesAreKept(disk: Disk)
    requires disk.database.main.Damaged? || (disk.database.main.Absent? && disk.temp.main.Damaged?)
    ensures RunToRest(System(disk, Inspect)).disk == disk
    ensures RunToRest(System(disk, Inspect)).pc ==
            if disk.temp.Exists() || disk.backup.Exists() then Threw else Finished(false)
  {
    var first := Step(System(disk, Inspect), Good);
    assert RunToRest(System(disk, Inspect)) == RunToRest(first);
    var second := Step(first, Good);
    assert RunToRest(first) == RunToRest(second) == second;
  }
}
