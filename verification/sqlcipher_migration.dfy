/** `migratePlaintextDatabaseToSqlCipher` as it runs, operation by operation, on the three files. */
module SqlCipherMigration {
  import opened Wrappers
  import opened MigrationProtocol

  /** Making the copy fails here; its handler removes the copy. */
  predicate Encrypting(pc: Pc) {
    pc.CheckpointSource? || pc.CopySource? || pc.RekeyCopy? || pc.CompareTables?
  }

  /** The original is set aside, or its replacement installed, and a failure here must leave it in place. */
  predicate Replacing(pc: Pc) {
    pc.SourceSidecars? || pc.MoveAside? || pc.MoveIn? || pc.VerifyReplaced?
  }

  predicate OnlyOriginal(disk: Disk, data: Data) {
    && disk.database.main.Plain? && disk.database.Content() == Some(data)
    && disk.temp == Gone && disk.backup == Gone
  }

  predicate OriginalInPlace(disk: Disk, data: Data) {
    disk.database == File(Plain(data), None) && disk.backup == Gone
  }

  /** What is left when only the operation at this point failed. */
  predicate UndoneAfter(pc: Pc, disk: Disk, data: Data) {
    (Encrypting(pc) ==> OnlyOriginal(disk, data)) && (Replacing(pc) ==> OriginalInPlace(disk, data))
  }

  predicate FailedOnce(before: seq<Pc>, after: seq<Pc>) {
    before <= after && |after| == |before| + 1
  }

  /** One operation failed, but neither in making the copy nor in the replacement. */
  predicate FailedElsewhere(before: seq<Pc>, after: seq<Pc>) {
    FailedOnce(before, after) && !Encrypting(after[|before|]) && !Replacing(after[|before|])
  }

  /** Some operation failed, and if it was only one, it has been undone. */
  predicate Failing(before: seq<Pc>, after: seq<Pc>, disk: Disk, data: Data) {
    && before <= after && before != after
    && (FailedOnce(before, after) ==> UndoneAfter(after[|before|], disk, data))
  }

  class DatabaseFiles {
    var disk: Disk
    ghost var pc: Pc           // the protocol point the code stands at
    ghost var seen: seq<Disk>  // what a crash after each operation so far would have left
    ghost var failed: seq<Pc>  // the points at which an operation failed
    ghost var log: seq<Entry>  // every operation performed

    ghost function Now(): (s: System)
      reads this
    {
      System(disk, pc)
    }

    /** The code is at a point the protocol allows, and no crash so far could have lost the content. */
    ghost predicate OnProtocol(data: Data)
      reads this
    {
      && Consistent(Now(), data) && (forall k :: 0 <= k < |seen| ==> Intact(seen[k], data))
      && Relies(pc, log) && Careful(log)
    }

    constructor (disk: Disk)
      ensures this.disk == disk && pc == Inspect && seen == [] && failed == [] && log == []
    {
      this.disk, pc, seen, failed, log := disk, Inspect, [], [], [];
    }

    /** One file operation with any outcome its kind allows. */
    method Perform(op: Op, ghost data: Data) returns (ok: bool, ghost outcome: Outcome)
      requires OnProtocol(data) && !pc.AtRest() && op == OpAt(pc)
      modifies this
      ensures OnProtocol(data) && seen == old(seen) + [disk]
      ensures Now() == Step(old(Now()), outcome) && ok == Succeeds(op, old(disk), outcome)
      ensures failed == old(failed) + if ok then [] else [old(pc)]
      ensures log == old(log) + [Entry(op, ok)]
    {
      var result: Outcome := *;
      outcome := result;
      ok := Succeeds(op, disk, result);
      MoveKeepsContent(Now(), Advance(outcome), data);
      StepIsCareful(Now(), log, outcome);
      ghost var after := Step(Now(), outcome);
      disk := Effect(op, disk, result);
      failed, log := failed + if ok then [] else [pc], log + [Entry(op, ok)];
      pc, seen := after.pc, seen + [disk];
    }

    /** An operation outside any handler: a failure ends the run. */
    method Do(op: Op, ghost data: Data) returns (ok: bool)
      requires OnProtocol(data) && !pc.AtRest() && op == OpAt(pc)
      modifies this
      ensures OnProtocol(data) && old(seen) <= seen
      ensures if ok then pc == AfterSuccess(old(pc), disk) else pc == AfterFailure(old(pc))
      ensures ok && OnCourse(old(pc)) ==> OnCourse(pc) && WillMigrate(Now()) == old(WillMigrate(Now()))
      ensures op.Reads() ==> disk == old(disk)
      ensures ok ==> disk == Effect(op, old(disk), Good)
      ensures if op.Writes() then disk.backup == old(disk.backup) else ok || disk == old(disk)
      ensures failed == if ok then old(failed) else old(failed) + [old(pc)]
      ensures !ok && !Encrypting(old(pc)) && !Replacing(old(pc)) ==> FailedElsewhere(old(failed), failed)
    {
      ghost var before := Now();
      ghost var outcome;
      ok, outcome := Perform(op, data);
      if ok && OnCourse(before.pc) {
        GoodStepAdvances(before, data);
        StepKeepsReport(before, outcome, data);
      }
    }

    /** Removes one file after its sidecars. */
    method RemoveDatabaseArtifact(name: Name, ghost data: Data) returns (ok: bool)
      requires OnProtocol(data) && !pc.AtRest() && OpAt(pc) == RemoveSidecars(name)
      requires !AfterSuccess(pc, disk).AtRest() && OpAt(AfterSuccess(pc, disk)) == RemoveMain(name)
      requires AfterFailure(pc) == Threw && AfterFailure(AfterSuccess(pc, disk)) == Threw
      modifies this
      ensures OnProtocol(data)
      ensures pc == if ok then AfterSuccess(AfterSuccess(old(pc), old(disk)), disk) else Threw
      ensures ok && OnCourse(old(pc)) ==> OnCourse(pc) && WillMigrate(Now()) == old(WillMigrate(Now()))
      ensures ok ==> disk == old(disk).Set(name, Gone)
      ensures if ok then failed == old(failed) else old(failed) < failed
      ensures !ok && !Replacing(old(pc)) ==> FailedElsewhere(old(failed), failed)
    {
      ok := Do(RemoveSidecars(name), data);
      if ok {
        ok := Do(RemoveMain(name), data);
      }
    }

    /** Clears temp and backup, stale ones during recovery or leftovers before a fresh copy. */
    method RemoveBothArtifacts(ghost data: Data) returns (ok: bool)
      requires OnProtocol(data) && (pc.StaleTempSidecars? || pc.FreshTempSidecars?)
      modifies this
      ensures OnProtocol(data)
      ensures pc == if ok then (if old(pc).StaleTempSidecars? then Recovered else CheckpointSource) else Threw
      ensures ok ==> WillMigrate(Now()) == old(WillMigrate(Now()))
      ensures if ok then failed == old(failed) else FailedElsewhere(old(failed), failed)
    {
      hide OnProtocol, Effect, Step, WillMigrate, FailedElsewhere;
      ok := RemoveDatabaseArtifact(Temp, data);
      if ok {
        ok := RemoveDatabaseArtifact(Backup, data);
      }
    }

    /** Puts a verified temp in place of the missing database. */
    method PromoteVerifiedTemp(ghost data: Data) returns (ok: bool)
      requires OnProtocol(data) && pc.VerifyTemp?
      modifies this
      ensures OnProtocol(data)
      ensures pc == if ok then Recovered else Threw
      ensures ok ==> WillMigrate(Now()) == old(WillMigrate(Now()))
      ensures if ok then failed == old(failed) else FailedElsewhere(old(failed), failed)
    {
      hide OnProtocol, Effect, Step, WillMigrate, FailedElsewhere;
      ok := Do(Verify(Temp), data);
      if !ok { return; }
      ok := Do(Rename(Temp, Database), data);
      if !ok { return; }
      ok := Do(RemoveSidecars(Temp), data);
      if !ok { return; }
      ok := RemoveDatabaseArtifact(Backup, data);
    }

    method RecoverInterruptedMigration(ghost data: Data) returns (ok: bool)
      requires OnProtocol(data) && pc == Inspect
      modifies this
      ensures OnProtocol(data)
      ensures pc == if ok then Recovered else Threw
      ensures ok ==> WillMigrate(Now()) == old(WillMigrate(Now()))
      ensures if ok then failed == old(failed) else FailedElsewhere(old(failed), failed)
      decreases if disk.database.main.Empty? then 1 else 0
    {
      hide OnProtocol, Effect, Step, WillMigrate, FailedElsewhere;
      ok := Do(Look, data);
      if !ok { return; }
      var databaseExists := disk.database.Exists();
      var tempExists := disk.temp.Exists();
      var backupExists := disk.backup.Exists();
      if databaseExists {
        if disk.database.main.Empty? && (tempExists || backupExists) {
          ok := RemoveDatabaseArtifact(Database, data);
          if !ok { return; }
          ok := RecoverInterruptedMigration(data);
          return;
        }
        if !disk.database.main.Plain? {
          if !tempExists && !backupExists { return; }
          ok := Do(Verify(Database), data);
          if !ok { return; }
        }
        ok := RemoveBothArtifacts(data);
        return;
      }
      if tempExists {
        ok := PromoteVerifiedTemp(data);
        return;
      }
      if backupExists {
        ok := PutBackupBack(data);
      }
    }

    /** Puts the plaintext backup in place of the missing database. */
    method PutBackupBack(ghost data: Data) returns (ok: bool)
      requires OnProtocol(data) && pc.RestoreBackup?
      modifies this
      ensures OnProtocol(data)
      ensures pc == if ok then Recovered else Threw
      ensures ok ==> WillMigrate(Now()) == old(WillMigrate(Now()))
      ensures if ok then failed == old(failed) else FailedElsewhere(old(failed), failed)
    {
      hide OnProtocol, Effect, Step, WillMigrate, FailedElsewhere;
      ok := Do(Rename(Backup, Database), data);
      if !ok { return; }
      ok := Do(RemoveSidecars(Backup), data);
    }

    /** Copies the checkpointed plaintext and encrypts only the copy; a failure leaves the handler to run. */
    method EncryptCopy(ghost data: Data) returns (ok: bool)
      requires OnProtocol(data) && pc == CheckpointSource
      modifies this
      ensures OnProtocol(data)
      ensures pc == if ok then VerifyCopy else AbandonSidecars
      ensures if ok then failed == old(failed)
              else FailedOnce(old(failed), failed) && Encrypting(failed[|old(failed)|])
      ensures disk.backup == old(disk.backup)
    {
      hide OnProtocol, Effect, Step, WillMigrate;
      ok := Do(Checkpoint, data);
      if !ok { return; }
      ok := Do(Copy, data);
      if !ok { return; }
      ok := Do(Rekey, data);
    }

    /** Opens the encrypted copy, then compares its tables with the original's. */
    method CheckCopy(ghost data: Data) returns (opens: bool, matches: bool)
      requires OnProtocol(data) && pc.VerifyCopy?
      modifies this
      ensures OnProtocol(data)
      ensures matches ==> opens
      ensures pc == if !opens then Threw else if matches then SourceSidecars else AbandonSidecars
      ensures failed == old(failed) + if !opens then [VerifyCopy] else if matches then [] else [CompareTables]
      ensures disk == old(disk)
    {
      hide OnProtocol, Effect, Step, WillMigrate;
      matches := false;
      opens := Do(Verify(Temp), data);
      if !opens { return; }
      matches := Do(CompareCounts, data);
    }

    /** The handler of a failed encryption: the copy goes, and the database stays as it was. */
    method AbandonCopy(ghost data: Data)
      requires OnProtocol(data) && pc.AbandonSidecars?
      modifies this
      ensures OnProtocol(data) && pc == Threw && old(failed) <= failed
      ensures failed == old(failed) ==> disk == old(disk).(temp := Gone) && OnlyOriginal(disk.(backup := Gone), data)
    {
      hide Effect, Step, WillMigrate;
      var ok := RemoveDatabaseArtifact(Temp, data);
    }

    /** A verified encrypted copy beside the untouched database, or nothing but the database. */
    method PrepareVerifiedCopy(ghost data: Data) returns (ok: bool)
      requires OnProtocol(data) && pc.FreshTempSidecars?
      modifies this
      ensures OnProtocol(data)
      ensures pc == if ok then SourceSidecars else Threw
      ensures if ok then failed == old(failed) else Failing(old(failed), failed, disk, data)
    {
      hide OnProtocol, Effect, Step, WillMigrate, OnlyOriginal;
      ok := RemoveBothArtifacts(data);
      if !ok { return; }
      NothingBeside(data);
      ok := EncryptCopy(data);
      if ok {
        var opens, matches := CheckCopy(data);
        if !opens || matches { return matches; }
      }
      AbandonCopy(data);
      ok := false;
    }

    lemma NothingBeside(data: Data)
      requires OnProtocol(data) && pc.CheckpointSource?
      ensures disk.temp == Gone && disk.backup == Gone
    {
    }

    lemma Starting(data: Data)
      requires pc == Inspect && Intact(disk, data) && seen == [] && log == []
      ensures OnProtocol(data)
    {
    }

    lemma Finishing(data: Data)
      requires OnProtocol(data)
      ensures Intact(disk, data) && forall k :: 0 <= k < |seen| ==> Intact(seen[k], data)
      ensures pc.Finished? ==> Converged(disk, data)
      ensures Careful(log)
    {
    }

    /**
     * The whole migration. Whatever fails, no crash at any moment loses the content; when it
     * returns, the database is encrypted in place with its full content and the artifacts are gone. It
     * throws exactly when an operation failed, and when that was the only one, a failed encryption or
     * replacement has been undone.
     */
    method Migrate(ghost data: Data) returns (migrated: Result<bool, ()>)
      requires pc == Inspect && Intact(disk, data) && seen == [] && failed == [] && log == []
      modifies this
      ensures Intact(disk, data) && forall k :: 0 <= k < |seen| ==> Intact(seen[k], data)
      ensures migrated.Ok? ==> Converged(disk, data) && migrated.value == old(FindsPlaintext(disk))
      ensures Careful(log)
      ensures migrated.Ok? <==> failed == []
      ensures |failed| == 1 ==> UndoneAfter(failed[0], disk, data)
      ensures pc == (if migrated.Ok? then Finished(migrated.value) else Threw)
    {
      hide OnProtocol, Intact, Converged, Effect, Step, Careful;
      Starting(data);
      var ok := RecoverInterruptedMigration(data);
      if !ok { Finishing(data); return Err(()); }
      ok := Do(Look, data);
      if !ok { Finishing(data); return Err(()); }
      if !disk.database.main.Plain? {
        Finishing(data);
        return Ok(false);
      }
      ok := PrepareVerifiedCopy(data);
      if !ok { Finishing(data); return Err(()); }
      ok := ReplaceDatabase(data);
      Finishing(data);
      migrated := if ok then Ok(true) else Err(());
    }

    /** The handler of a failed replacement: the plaintext original comes back from its backup. */
    method RestoreOriginal(ghost data: Data)
      requires OnProtocol(data) && pc.RollbackSidecars?
      modifies this
      ensures OnProtocol(data) && pc == Threw && old(failed) <= failed
      ensures failed == old(failed) ==> OriginalInPlace(disk, data) && disk.temp == old(disk.temp)
    {
      hide Step, WillMigrate;
      ghost var before := disk;
      var ok := RemoveDatabaseArtifact(Database, data);
      if ok {
        ok := Do(Rename(Backup, Database), data);
      }
    }

    method InstallCopy(ghost data: Data) returns (ok: bool)
      requires OnProtocol(data) && pc.MoveIn?
      modifies this
      ensures OnProtocol(data)
      ensures pc == if ok then DoneBackupSidecars else Threw
      ensures if ok then failed == old(failed) else Failing(old(failed), failed, disk, data)
    {
      hide OnProtocol, Effect, Step, WillMigrate, OriginalInPlace, OnlyOriginal;
      ok := Do(Rename(Temp, Database), data);
      if ok {
        ok := Do(Verify(Database), data);
      }
      if !ok {
        RestoreOriginal(data);
      }
    }

    /** The original, without sidecars, becomes the backup. */
    method SetOriginalAside(ghost data: Data) returns (ok: bool)
      requires OnProtocol(data) && pc == SourceSidecars
      modifies this
      ensures OnProtocol(data)
      ensures if ok then pc.MoveIn? else pc == Threw
      ensures if ok then failed == old(failed) else Failing(old(failed), failed, disk, data)
    {
      hide Effect, Step, WillMigrate;
      ok := Do(RemoveSidecars(Database), data);
      if !ok { return; }
      ok := Do(Rename(Database, Backup), data);
    }

    /** Swaps the verified copy in; the original stays as the backup until the replacement verifies. */
    method ReplaceDatabase(ghost data: Data) returns (ok: bool)
      requires OnProtocol(data) && pc == SourceSidecars
      modifies this
      ensures OnProtocol(data)
      ensures pc == if ok then Finished(true) else Threw
      ensures if ok then failed == old(failed) else Failing(old(failed), failed, disk, data)
    {
      hide OnProtocol, Effect, Step, WillMigrate, OriginalInPlace, OnlyOriginal;
      ok := SetOriginalAside(data);
      if !ok { return; }
      ok := InstallCopy(data);
      if !ok { return; }
      ok := RemoveDatabaseArtifact(Backup, data);
      if !ok { return; }
      ok := Do(RemoveSidecars(Temp), data);
    }
  }
}
