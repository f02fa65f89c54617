/** Replacing the database file by a rewritten copy: encrypting a plaintext database, decrypting it again and
    changing its key. Three names take part: the canonical path, the target beside it and the rollback backup.
    Every operation may fail, and the process or the machine may stop between any two of them. */
module DatabaseSwap {
  import opened Basics

  /** The stored format before and after the change: plaintext and encrypted, encrypted and plaintext, or
      encrypted under the old and the new key. */
  datatype Format = Old | New

  /** `data` is missing while the file is still being written. */
  datatype File<Data> = File(format: Format, data: Option<Data>)

  /** `wal`: the canonical database has committed pages that only its write-ahead log holds. */
  datatype Disk<Data> = Disk(canonical: Option<File<Data>>, wal: bool, target: Option<File<Data>>,
      backup: Option<File<Data>>)

  datatype Outcome = Done | WrongFormat | Ambiguous | Missing | IoError

  /** What holds in every state a crash can leave behind. */
  ghost predicate Recoverable<Data>(d: Disk<Data>, data: Data) {
    || (d.canonical == Some(File(Old, Some(data))) && d.backup.None?)
    || (!d.wal && d.canonical.None? && d.backup == Some(File(Old, Some(data))))
    || (d.canonical == Some(File(New, Some(data))) && d.backup.None?)
    || (!d.wal && d.canonical == Some(File(New, Some(data))) && d.backup == Some(File(Old, Some(data))))
  }

  ghost predicate IsNew<Data>(d: Disk<Data>, data: Data) { d.canonical == Some(File(New, Some(data))) }

  /** One complete database under the canonical name and nothing beside it. */
  ghost predicate Clean<Data>(d: Disk<Data>, data: Data) {
    d.canonical.Some? && d.canonical.value.data == Some(data) && d.backup.None? && d.target.None?
  }

  /** The canonical or the backup path always holds a complete copy of the original content, and a complete
      canonical database in the old format never has a backup beside it. */
  lemma NothingIsLost<Data>(d: Disk<Data>, data: Data)
    requires Recoverable(d, data)
    ensures (d.canonical.Some? && d.canonical.value.data == Some(data))
      || (d.backup == Some(File(Old, Some(data))) && !d.wal)
    ensures d.canonical.Some? && d.canonical.value.format == Old ==> d.backup.None?
  {
  }

  datatype StatResult = Present | Absent | Unknown

  class Directory<Data(==)> {
    var disk: Disk<Data>
    var trace: seq<Disk<Data>>         // every state the disk has been in
    var durable: nat                   // a machine that stops now comes up in one of the states from here on
    var faults: nat                    // how many more operations may fail for no visible reason

    constructor (start: Disk<Data>, mayFail: nat)
      ensures disk == start && trace == [start] && durable == 0 && faults == mayFail
    {
      disk, trace, durable, faults := start, [start], 0, mayFail;
    }

    /** All states so far were recoverable, including the present one. */
    ghost predicate Safe(data: Data)
      reads this
    {
      && Recoverable(disk, data) && durable < |trace| && disk == trace[|trace| - 1]
      && forall k | 0 <= k < |trace| :: Recoverable(trace[k], data)
    }

    /** The complete new file has been under the canonical name since this point of the history. */
    ghost predicate NewSince(from: nat, data: Data)
      reads this
    {
      IsNew(disk, data) && forall k | from <= k < |trace| :: IsNew(trace[k], data)
    }

    /** Nothing waits to become durable. */
    ghost predicate Quiet()
      reads this
    {
      durable == |trace| - 1
    }

    /** Whatever a crash leaves has the new file in place. */
    ghost predicate Settled(data: Data)
      reads this
    {
      forall k | durable <= k < |trace| :: IsNew(trace[k], data)
    }

    /** Whatever a crash leaves has the present canonical file. */
    ghost predicate Steady()
      reads this
    {
      forall k | durable <= k < |trace| :: trace[k].canonical == disk.canonical
    }

    /** Whatever a crash leaves has the present canonical file and no backup. */
    ghost predicate Lasting()
      reads this
    {
      forall k | durable <= k < |trace| :: trace[k].canonical == disk.canonical && trace[k].backup.None?
    }

    method Luck() returns (ok: bool)
      modifies this`faults
      ensures if ok then faults == old(faults) else faults < old(faults)
    {
      ok := *;
      if faults == 0 { ok := true; }
      if !ok { faults := faults - 1; }
    }

    method Stat(f: Option<File<Data>>) returns (r: StatResult)
      modifies this`faults
      ensures faults <= old(faults) && (r == Unknown ==> faults < old(faults))
      ensures r == Unknown || r == (if f.Some? then Present else Absent)
      ensures old(faults) == 0 ==> r != Unknown
    {
      var ok := Luck();
      r := if !ok then Unknown else if f.Some? then Present else Absent;
    }

    /** fsync of the directory: on failure some or all of the last renames may not be durable yet, which
        leaves the disk in one of the states already traced. */
    method Sync() returns (ok: bool)
      requires |trace| > 0
      modifies this`durable, this`faults
      ensures faults <= old(faults) && (!ok ==> faults < old(faults))
      ensures if ok then Quiet() else durable == old(durable)
      ensures old(faults) == 0 ==> ok
    {
      ok := Luck();
      if ok { durable := |trace| - 1; }
    }

    /** os.Rename(path, backup): the log stays under its own name. */
    method StageCanonical() returns (ok: bool)
      requires disk.canonical.Some?
      modifies this`disk, this`trace, this`faults
      ensures faults <= old(faults) && (!ok ==> faults < old(faults))
      ensures ok ==>
        disk == old(disk).(canonical := None, backup := old(disk).canonical) && trace == old(trace) + [disk]
      ensures !ok ==> disk == old(disk) && trace == old(trace)
      ensures old(faults) == 0 ==> ok
    {
      ok := Luck();
      if ok {
        disk := disk.(canonical := None, backup := disk.canonical);
        trace := trace + [disk];
      }
    }

    /** os.Rename(target, path), only when the backup is on disk whatever a crash leaves. */
    method InstallTarget() returns (ok: bool)
      requires forall k | durable <= k < |trace| :: trace[k].backup.Some?
      modifies this`disk, this`trace, this`faults
      ensures faults <= old(faults)
      ensures ok ==>
        && disk == old(disk).(canonical := old(disk).target, target := None) && old(disk).target.Some?
        && trace == old(trace) + [disk]
      ensures !ok ==> disk == old(disk) && trace == old(trace)
      ensures old(faults) == 0 && old(disk).target.Some? ==> ok
      ensures !ok && old(disk).target.Some? ==> faults < old(faults)
    {
      ok := Luck();
      if disk.target.None? { return false; }
      if ok {
        disk := disk.(canonical := disk.target, target := None);
        trace := trace + [disk];
      }
    }

    /** os.Rename(backup, path): replaces whatever is there. */
    method RestoreBackup() returns (ok: bool)
      modifies this`disk, this`trace, this`faults
      ensures faults <= old(faults)
      ensures ok ==>
        && disk == old(disk).(canonical := old(disk).backup, backup := None) && old(disk).backup.Some?
        && trace == old(trace) + [disk]
      ensures !ok ==> disk == old(disk) && trace == old(trace)
      ensures old(faults) == 0 && old(disk).backup.Some? ==> ok
      ensures !ok && old(disk).backup.Some? ==> faults < old(faults)
    {
      ok := Luck();
      if disk.backup.None? { return false; }
      if ok {
        disk := disk.(canonical := disk.backup, backup := None);
        trace := trace + [disk];
      }
    }

    method RemoveCanonical() returns (ok: bool)
      modifies this`disk, this`trace, this`faults
      ensures faults <= old(faults) && (!ok ==> faults < old(faults))
      ensures ok ==> disk == old(disk).(canonical := None) && trace == old(trace) + [disk]
      ensures !ok ==> disk == old(disk) && trace == old(trace)
      ensures old(faults) == 0 ==> ok
    {
      ok := Luck();
      if ok {
        disk := disk.(canonical := None);
        trace := trace + [disk];
      }
    }

    method RemoveBackup() returns (ok: bool)
      modifies this`disk, this`trace, this`faults
      ensures faults <= old(faults) && (!ok ==> faults < old(faults))
      ensures ok ==> disk == old(disk).(backup := None) && trace == old(trace) + [disk]
      ensures !ok ==> disk == old(disk) && trace == old(trace)
      ensures old(faults) == 0 ==> ok
    {
      ok := Luck();
      if ok {
        disk := disk.(backup := None);
        trace := trace + [disk];
      }
    }

    /** cleanupSQLiteFiles(target): errors are ignored. */
    method CleanTarget()
      modifies this`disk, this`trace, this`faults
      ensures faults <= old(faults)
      ensures disk == old(disk) || disk == old(disk).(target := None)
      ensures trace == old(trace) + [disk]
      ensures old(faults) == 0 ==> disk.target.None?
    {
      var ok := Luck();
      if ok { disk := disk.(target := None); }
      trace := trace + [disk];
    }

    /** cleanupSQLiteSidecars(path): removes the log of the canonical database, errors ignored. */
    method CleanSidecars()
      modifies this`disk, this`trace, this`faults
      ensures faults <= old(faults)
      ensures disk == old(disk) || disk == old(disk).(wal := false)
      ensures trace == old(trace) + [disk]
    {
      var ok := Luck();
      if ok { disk := disk.(wal := false); }
      trace := trace + [disk];
    }

    /** PRAGMA wal_checkpoint(TRUNCATE): afterwards the main file alone is complete. */
    method Checkpoint() returns (ok: bool)
      modifies this`disk, this`trace, this`faults
      ensures faults <= old(faults) && (!ok ==> faults < old(faults))
      ensures ok ==> disk == old(disk).(wal := false)
      ensures !ok ==> disk == old(disk)
      ensures trace == old(trace) + [disk] && (old(faults) == 0 ==> ok)
    {
      ok := Luck();
      if ok { disk := disk.(wal := false); }
      trace := trace + [disk];
    }

    /** Creating the target and copying the open source into it page by page. */
    method BuildTarget() returns (ok: bool)
      requires disk.canonical.Some?
      modifies this`disk, this`trace, this`faults
      ensures faults <= old(faults) && (!ok ==> faults < old(faults))
      ensures disk == old(disk).(target := disk.target) && |trace| >= |old(trace)|
      ensures trace[..|old(trace)|] == old(trace)
      ensures forall k | |old(trace)| <= k < |trace| :: trace[k] == old(disk).(target := trace[k].target)
      ensures trace == old(trace) || trace[|trace| - 1] == disk
      ensures trace == old(trace) ==> disk == old(disk)
      ensures ok ==> disk.target == Some(File(New, disk.canonical.value.data))
      ensures old(faults) == 0 ==> ok
    {
      ok := Luck();
      if !ok { return; }
      disk := disk.(target := Some(File(New, None)));
      trace := trace + [disk];
      ok := Luck();
      if !ok { return; }
      disk := disk.(target := Some(File(New, disk.canonical.value.data)));
      trace := trace + [disk];
    }

    /** Opening the canonical database in one format and running its integrity check. */
    method Verify(format: Format) returns (ok: bool)
      modifies this`faults
      ensures faults <= old(faults)
      ensures ok ==> disk.canonical.Some? && disk.canonical.value.format == format && disk.canonical.value.data.Some?
      ensures
        && !ok && disk.canonical.Some? && disk.canonical.value.format == format
        && disk.canonical.value.data.Some? ==>
        faults < old(faults)
    {
      var luck := Luck();
      ok := luck && disk.canonical.Some? && disk.canonical.value.format == format && disk.canonical.value.data.Some?;
    }

    // -------------------------------------------------------------- shared by the three changes

    /** The source was staged and nothing was installed: put it back. */
    method RestoreStaged(ghost data: Data) returns (ok: bool)
      requires Safe(data) && disk.canonical.None?
      modifies this
      ensures faults <= old(faults) && durable >= old(durable)
      ensures Safe(data) && old(trace) <= trace && !IsNew(disk, data)
      ensures ok ==> disk.canonical == Some(File(Old, Some(data))) && Lasting()
      ensures old(faults) == 0 ==> ok && Clean(disk, data)
    {
      ok := RestoreBackup();
      if !ok { return; }
      CleanTarget();
      ok := Sync();
    }

    method RecoverInterruptedSwap(ghost data: Data) returns (ok: bool, backupPresent: bool)
      requires Safe(data)
      modifies this
      ensures faults <= old(faults)
      ensures Safe(data) && old(trace) <= trace
      ensures IsNew(old(disk), data) ==> NewSince(|old(trace)|, data)
      ensures old(faults) == 0 ==> (IsNew(disk, data) <==> IsNew(old(disk), data))
      ensures ok ==> disk.canonical.Some? && (backupPresent <==> disk.backup.Some?)
      ensures durable >= old(durable) && (backupPresent ==> ok)
      ensures ok && !backupPresent && old(Quiet()) ==> Lasting()
      ensures old(faults) == 0 ==> ok && disk.target.None? && (backupPresent || Clean(disk, data))
      ensures old(disk).canonical.Some?
        ==> disk.canonical == old(disk).canonical && disk.backup == old(disk).backup && disk.wal == old(disk).wal
      ensures old(disk).canonical.Some? && old(Steady()) ==> Steady()
    {
      var pathStat := Stat(disk.canonical);
      var backupStat := Stat(disk.backup);
      if pathStat == Absent && backupStat == Present {
        ok := RestoreStaged(data);
        return ok, false;
      }
      if pathStat != Present {
        // with both files missing there would be nothing to recover; that state is never reached
        if pathStat == Absent && backupStat == Absent { assert false; }
        return false, false;
      }
      if backupStat == Unknown { return false, false; }
      CleanTarget();
      return true, backupStat == Present;
    }

    method FinalizeRecovered(ghost data: Data) returns (ok: bool)
      requires Safe(data) && disk.canonical == Some(File(New, Some(data)))
      modifies this
      ensures faults <= old(faults)
      ensures Safe(data) && old(trace) <= trace && disk == old(disk).(backup := disk.backup)
      ensures NewSince(|old(trace)|, data) && durable >= old(durable)
      ensures (ok ==> disk.backup.None? && Lasting()) && (old(faults) == 0 ==> ok)
    {
      ok := Verify(New);
      if !ok { return; }
      ok := RemoveBackup();
      if !ok { return; }
      ok := Sync();
      if !ok { return; }
      ok := Luck();
    }

    /** When it succeeds the original is back for good. */
    method RollbackDurably(ghost data: Data) returns (undone: bool)
      requires Safe(data) && disk.backup.Some?
      modifies this
      ensures faults <= old(faults)
      ensures Safe(data) && old(trace) <= trace && durable >= old(durable)
      ensures undone ==> disk.canonical == old(disk).backup && Lasting()
      ensures old(faults) == 0 ==> undone
    {
      undone := RemoveCanonical();
      if undone {
        CleanSidecars();
        undone := RestoreBackup();
      }
      var synced := Sync();
      undone := undone && synced;
    }

    // -------------------------------------------------------------- plaintext to encrypted

    /** With a key, an uninterrupted recovery ends clean; the ambiguous state is never met. */
    method RecoverEncryption(ghost data: Data, keyed: bool) returns (r: Outcome)
      requires Safe(data)
      modifies this
      ensures faults <= old(faults)
      ensures Safe(data) && old(trace) <= trace && r != Ambiguous && (r == Done && keyed ==> disk.backup.None?)
      ensures IsNew(old(disk), data) ==> NewSince(|old(trace)|, data)
      ensures old(faults) == 0 ==> (IsNew(disk, data) <==> IsNew(old(disk), data))
      ensures old(disk).canonical == Some(File(Old, Some(data))) ==> disk.canonical == old(disk).canonical
      ensures old(faults) == 0 ==> r == Done && (keyed ==> Clean(disk, data))
      ensures old(faults) == 0 && Clean(old(disk), data) ==> disk == old(disk)
      ensures durable >= old(durable) && (r == Done && keyed && old(Quiet()) ==> Lasting())
      ensures old(disk).canonical.Some? ==> disk.canonical.Some?
      ensures old(disk).canonical.Some? && old(Steady()) ==> Steady()
    {
      var ok, backupPresent := RecoverInterruptedSwap(data);
      if !ok { return IoError; }
      if !backupPresent || !keyed { return Done; }
      ok := Luck();
      if !ok { return IoError; }
      if disk.canonical.Some? && disk.canonical.value.format == Old { return Ambiguous; }
      ok := FinalizeRecovered(data);
      return if ok then Done else IoError;
    }

    /** Encrypts a plaintext database in place. Uninterrupted, it ends with the encrypted copy alone. */
    method MigrateToEncrypted(ghost data: Data) returns (r: Outcome)
      requires Safe(data)
      modifies this
      ensures faults <= old(faults)
      ensures Safe(data) && old(trace) <= trace && r != Ambiguous
      ensures IsNew(old(disk), data) ==> NewSince(|old(trace)|, data)
      ensures r == Done ==> disk.canonical == Some(File(New, Some(data))) && disk.backup.None?
      ensures old(faults) == 0 ==> r in {Done, WrongFormat} && Clean(disk, data)
      ensures old(faults) == 0 && old(disk).canonical == Some(File(Old, Some(data))) ==> r == Done
      ensures durable >= old(durable) && (r == Done ==> Lasting())
      ensures old(faults) <= 1 && old(disk).canonical.Some? ==> disk.canonical.Some?
      ensures old(faults) <= 1 && old(disk).canonical.Some? && old(Steady()) ==> Steady()
    {
      r := RecoverEncryption(data, true);
      if r != Done { return; }
      var ok := Luck();
      if !ok || disk.canonical.None? { return IoError; }
      if disk.canonical.value.format != Old { return WrongFormat; }
      CleanTarget();
      r := SwapIn(data, true);
      CleanTarget();
    }

    /** Checkpoint the source and build a verified copy of it beside it. */
    method Prepare(ghost data: Data) returns (ok: bool)
      requires Safe(data)
      modifies this
      ensures faults <= old(faults)
      ensures Safe(data) && old(trace) <= trace
      ensures IsNew(old(disk), data) ==> NewSince(|old(trace)|, data)
      ensures disk.canonical == old(disk).canonical
      ensures ok ==> disk == Disk(Some(File(Old, Some(data))), false, Some(File(New, Some(data))), None)
      ensures old(faults) == 0 && old(disk).canonical == Some(File(Old, Some(data))) ==> ok
      ensures durable == old(durable)
      ensures old(Steady()) ==> Steady()
    {
      ok := Verify(Old);
      if !ok { return; }
      ok := Checkpoint();
      if !ok { return; }
      ok := BuildTarget();
      if !ok { return; }
      ok := Luck();
    }

    /** The undo after a failed step: durably for encryption and rekeying, by plain renames for decryption. */
    method Undo(ghost data: Data, durableRollback: bool, installed: bool) returns (undone: bool)
      requires Safe(data) && disk.backup.Some? && (!installed ==> disk.canonical.None?)
      modifies this
      ensures faults <= old(faults)
      ensures Safe(data) && old(trace) <= trace && durable >= old(durable)
      ensures undone ==> disk.canonical == old(disk).backup && disk.backup.None?
      ensures undone && (durableRollback || installed) ==> Lasting()
      ensures old(faults) == 0 ==> undone
    {
      if durableRollback {
        undone := RollbackDurably(data);
      } else {
        if installed { var removed := RemoveCanonical(); }
        undone := RestoreBackup();
        if installed {
          var synced := Sync();
          undone := undone && synced;
        }
      }
    }

    /** Stage the source under the backup name and install the target under the canonical one. */
    method Replace(ghost data: Data, durableRollback: bool) returns (ok: bool)
      requires Safe(data) && disk == Disk(Some(File(Old, Some(data))), false, Some(File(New, Some(data))), None)
      modifies this
      ensures faults <= old(faults)
      ensures Safe(data) && old(trace) <= trace && durable >= old(durable)
      ensures ok ==> disk.canonical == Some(File(New, Some(data))) && disk.backup.Some? && Settled(data)
      ensures old(faults) == 0 ==> ok
      ensures old(faults) <= 1 ==> disk.canonical.Some?
      ensures durableRollback && old(faults) <= 1 && old(Steady()) ==> Steady()
    {
      var undone: bool;
      ok := StageCanonical();
      if !ok { return; }
      CleanSidecars();
      ok := Sync();
      if !ok {
        undone := Undo(data, durableRollback, false);
        return;
      }
      ok := InstallTarget();
      if !ok {
        undone := Undo(data, durableRollback, false);
        return;
      }
      ok := Sync();
      if !ok && durableRollback { undone := Undo(data, durableRollback, true); }
    }

    /** Verify the installed copy, which is durable, and only then give up the backup. */
    method Confirm(ghost data: Data, durableRollback: bool) returns (ok: bool)
      requires Safe(data) && Settled(data) && disk.backup.Some?
      modifies this
      ensures faults <= old(faults)
      ensures Safe(data) && old(trace) <= trace && durable >= old(durable)
      ensures ok ==> disk.canonical == Some(File(New, Some(data))) && disk.backup.None? && Lasting()
      ensures old(faults) == 0 ==> ok
      ensures old(faults) <= 1 ==> disk.canonical.Some?
      ensures durableRollback && old(faults) <= 1 ==> Steady()
    {
      ok := Verify(New);
      if !ok {
        var undone := Undo(data, durableRollback, true);
        return;
      }
      ok := RemoveBackup();
      if !ok { return; }
      ok := Sync();
      if !ok { return; }
      ok := Luck();
    }

    method SwapIn(ghost data: Data, durableRollback: bool) returns (r: Outcome)
      requires Safe(data)
      modifies this
      ensures faults <= old(faults)
      ensures Safe(data) && old(trace) <= trace && r in {Done, IoError}
      ensures r == Done ==> disk.canonical == Some(File(New, Some(data))) && disk.backup.None?
      ensures IsNew(old(disk), data) ==> NewSince(|old(trace)|, data)
      ensures old(faults) == 0 && old(disk).canonical == Some(File(Old, Some(data))) ==> r == Done
      ensures durable >= old(durable) && (r == Done ==> Lasting())
      ensures old(faults) <= 1 && old(disk).canonical.Some? ==> disk.canonical.Some?
      ensures durableRollback && old(faults) <= 1 && old(Steady()) ==> Steady()
    {
      var ok := Prepare(data);
      if !ok { return IoError; }
      ok := Replace(data, durableRollback);
      if !ok { return IoError; }
      ok := Confirm(data, durableRollback);
      return if ok then Done else IoError;
    }

    // -------------------------------------------------------------- encrypted to plaintext

    /** The plaintext database is in place: verify it and only then give up the backup. */
    method FinalizeDecryption(ghost data: Data) returns (ok: bool)
      requires Safe(data) && disk.canonical == Some(File(New, Some(data)))
      modifies this
      ensures faults <= old(faults)
      ensures Safe(data) && old(trace) <= trace && disk.wal == old(disk).wal && durable >= old(durable)
      ensures NewSince(|old(trace)|, data)
      ensures (ok ==> disk.backup.None? && Lasting()) && (old(faults) == 0 ==> ok && disk.target.None?)
    {
      ok := Verify(New);
      if !ok { return; }
      ok := RemoveBackup();
      if !ok { return; }
      CleanTarget();
      ok := Sync();
    }

    method RecoverDecryption(ghost data: Data) returns (r: Outcome)
      requires Safe(data)
      modifies this
      ensures faults <= old(faults)
      ensures Safe(data) && old(trace) <= trace && r != Ambiguous && (r == Done ==> disk.backup.None?)
      ensures IsNew(old(disk), data) ==> NewSince(|old(trace)|, data)
      ensures old(faults) == 0 ==> (IsNew(disk, data) <==> IsNew(old(disk), data))
      ensures old(faults) == 0 ==> r == Done && Clean(disk, data)
      ensures old(faults) == 0 && Clean(old(disk), data) ==> disk == old(disk)
      ensures durable >= old(durable) && (r == Done && old(Quiet()) ==> Lasting())
      ensures old(disk).canonical.Some? ==> disk.canonical.Some?
      ensures old(disk).canonical.Some? && old(Steady()) ==> Steady()
    {
      var pathStat := Stat(disk.canonical);
      var backupStat := Stat(disk.backup);
      var ok: bool;
      if pathStat == Absent && backupStat == Present {
        ok := RestoreStaged(data);
        return if ok then Done else IoError;
      }
      if pathStat != Present {
        if pathStat == Absent && backupStat == Absent { assert false; }
        return IoError;
      }
      if backupStat == Unknown { return IoError; }
      ok := Luck();
      if !ok { return IoError; }
      if disk.canonical.value.format == New && backupStat == Present {
        ok := FinalizeDecryption(data);
        return if ok then Done else IoError;
      }
      CleanTarget();
      if backupStat == Present { return Ambiguous; }
      return Done;
    }

    method MigrateToPlaintext(ghost data: Data) returns (r: Outcome)
      requires Safe(data)
      modifies this
      ensures faults <= old(faults)
      ensures Safe(data) && old(trace) <= trace && r != Ambiguous
      ensures IsNew(old(disk), data) ==> NewSince(|old(trace)|, data)
      ensures r == Done ==> disk.canonical == Some(File(New, Some(data))) && disk.backup.None?
      ensures old(faults) == 0 ==> r == Done && Clean(disk, data)
      ensures durable >= old(durable) && (r == Done && old(Quiet()) ==> Lasting())
      ensures old(faults) <= 1 && old(disk).canonical.Some? ==> disk.canonical.Some?
    {
      r := RecoverDecryption(data);
      if r != Done { return; }
      var ok := Luck();
      if !ok || disk.canonical.None? { return IoError; }
      if disk.canonical.value.format == New { return Done; }
      CleanTarget();
      r := SwapIn(data, false);
      CleanTarget();
    }

    // -------------------------------------------------------------- old key to new key

    method RecoverRekey(ghost data: Data, keyed: bool) returns (r: Outcome)
      requires Safe(data)
      modifies this
      ensures faults <= old(faults)
      ensures Safe(data) && old(trace) <= trace && r in {Done, IoError} && (r == Done && keyed ==> disk.backup.None?)
      ensures IsNew(old(disk), data) ==> NewSince(|old(trace)|, data)
      ensures old(faults) == 0 ==> (IsNew(disk, data) <==> IsNew(old(disk), data))
      ensures old(faults) == 0 ==> r == Done && (keyed ==> Clean(disk, data))
      ensures old(faults) == 0 && Clean(old(disk), data) ==> disk == old(disk)
      ensures durable >= old(durable) && (r == Done && keyed && old(Quiet()) ==> Lasting())
      ensures old(disk).canonical.Some? ==> disk.canonical.Some?
      ensures old(disk).canonical.Some? && old(Steady()) ==> Steady()
    {
      var ok, backupPresent := RecoverInterruptedSwap(data);
      if !ok { return IoError; }
      if !backupPresent || !keyed { return Done; }
      ok := FinalizeRecovered(data);
      return if ok then Done else IoError;
    }

    method MigrateKey(ghost data: Data) returns (r: Outcome)
      requires Safe(data)
      modifies this
      ensures faults <= old(faults)
      ensures Safe(data) && old(trace) <= trace && r in {Done, IoError}
      ensures r == Done ==> disk.canonical == Some(File(New, Some(data))) && disk.backup.None?
      ensures IsNew(old(disk), data) ==> NewSince(|old(trace)|, data)
      ensures old(faults) == 0 ==> r == Done && Clean(disk, data)
      ensures durable >= old(durable) && (r == Done && old(Quiet()) ==> Lasting())
      ensures old(faults) <= 1 && old(disk).canonical.Some? ==> disk.canonical.Some?
      ensures old(faults) <= 1 && old(disk).canonical.Some? && old(Steady()) ==> Steady()
    {
      r := RecoverRekey(data, true);
      if r != Done { return; }
      var opens := Verify(New);
      if opens { return Done; }
      CleanTarget();
      r := SwapIn(data, true);
      CleanTarget();
    }

    // -------------------------------------------------------------- crashes

    /** The machine stops in the middle of something: the disk comes up in any state it has been in since what is
        known to be durable. */
    method Crash()
      requires durable < |trace|
      modifies this
      ensures trace == old(trace) + [disk] && Quiet()
      ensures exists k | old(durable) <= k < |old(trace)| :: disk == old(trace)[k]
    {
      var k: nat :| durable <= k < |trace|;
      disk := trace[k];
      trace := trace + [disk];
      durable := |trace| - 1;
    }
  }

  datatype Change = Encrypting | Decrypting | Rekeying

  /** The disk after an attempt, whether the new file is in place for good, and whether the machine stopped. */
  datatype Station<Data> = Station(disk: Disk<Data>, settled: bool, crashed: bool)

  /** Once the new file is in place for good, it stays, whatever happens; and once it is in place at all, it stays
      unless the machine stops. */
  ghost predicate NeverBack<Data>(stations: seq<Station<Data>>, data: Data) {
    && (forall i | 0 <= i < |stations| && stations[i].settled :: IsNew(stations[i].disk, data))
    && (forall i, j | 0 <= i <= j < |stations| && stations[i].settled :: stations[j].settled)
    && (forall i, j | 0 <= i <= j < |stations| && IsNew(stations[i].disk, data) && Undisturbed(stations, i, j) ::
          IsNew(stations[j].disk, data))
  }

  ghost predicate Undisturbed<Data>(stations: seq<Station<Data>>, i: nat, j: nat)
    requires i <= j < |stations|
  {
    forall k | i < k <= j :: !stations[k].crashed
  }

  /** Any number of attempts at one change, each migration or recovery cut short by a crash at any point, with
      any operation failing at any time, never loses the original content; and one uninterrupted keyed
      recovery afterwards leaves a single complete database, in the new format exactly when the last attempt left the
      new file in place. `stations`: the start and what every attempt left. */
  method AnyLife<Data(==)>(start: Disk<Data>, change: Change, rounds: nat, ghost data: Data)
      returns (final: Disk<Data>, ghost stations: seq<Station<Data>>)
    requires Recoverable(start, data)
    ensures Clean(final, data)
    ensures |stations| == rounds + 1 && stations[0].disk == start && NeverBack(stations, data)
    ensures IsNew(final, data) <==> IsNew(stations[rounds].disk, data)
  {
    var d := new Directory<Data>(start, 0);
    stations := [Station(start, d.Settled(data), false)];
    var i := 0;
    while i < rounds
      invariant d.Safe(data) && fresh(d)
      invariant 0 <= i <= rounds && |stations| == i + 1 && stations[0].disk == start
      invariant stations[i].disk == d.disk && stations[i].settled == d.Settled(data)
      invariant NeverBack(stations, data)
    {
      var crashed := Round(d, change, data);
      ghost var was := stations;
      stations := stations + [Station(d.disk, d.Settled(data), crashed)];
      StaysNew(was, stations, data);
      i := i + 1;
    }
    final := LastRecovery(d.disk, change, data);
  }

  lemma StaysNew<Data>(was: seq<Station<Data>>, stations: seq<Station<Data>>, data: Data)
    requires NeverBack(was, data) && |stations| == |was| + 1 && was <= stations && was != []
    requires var last, next := was[|was| - 1], stations[|was|];
      && (next.settled ==> IsNew(next.disk, data)) && (last.settled ==> next.settled)
      && (!next.crashed && IsNew(last.disk, data) ==> IsNew(next.disk, data))
    ensures NeverBack(stations, data)
  {
    var n := |was|;
    forall i, j | 0 <= i <= j < |stations| && IsNew(stations[i].disk, data) && Undisturbed(stations, i, j)
      ensures IsNew(stations[j].disk, data) {
      if j == n && i < n {
        assert Undisturbed(was, i, n - 1);
        assert IsNew(was[n - 1].disk, data);
      } else if j < n {
        assert Undisturbed(was, i, j);
      }
    }
  }

  /** One migration or recovery, in which any number of operations may fail. */
  method Try<Data(==)>(d: Directory<Data>, change: Change, ghost data: Data)
    requires d.Safe(data)
    modifies d
    ensures d.Safe(data) && old(d.trace) <= d.trace && d.durable >= old(d.durable)
    ensures IsNew(old(d.disk), data) ==> d.NewSince(|old(d.trace)|, data)
  {
    var migrate, keyed := *, *;
    var r: Outcome;
    d.faults := *;
    match change {
      case Encrypting =>
        if migrate { r := d.MigrateToEncrypted(data); } else { r := d.RecoverEncryption(data, keyed); }
      case Decrypting => if migrate { r := d.MigrateToPlaintext(data); } else { r := d.RecoverDecryption(data); }
      case Rekeying => if migrate { r := d.MigrateKey(data); } else { r := d.RecoverRekey(data, keyed); }
    }
  }

  /** One attempt and perhaps a crash. */
  method Round<Data(==)>(d: Directory<Data>, change: Change, ghost data: Data) returns (crash: bool)
    requires d.Safe(data)
    modifies d
    ensures d.Safe(data) && (old(d.Settled(data)) ==> d.Settled(data)) && (d.Settled(data) ==> IsNew(d.disk, data))
    ensures !crash && IsNew(old(d.disk), data) ==> IsNew(d.disk, data)
  {
    Try(d, change, data);
    crash := *;
    if crash { d.Crash(); }
  }

  method LastRecovery<Data(==)>(start: Disk<Data>, change: Change, ghost data: Data) returns (final: Disk<Data>)
    requires Recoverable(start, data)
    ensures Clean(final, data) && (IsNew(final, data) <==> IsNew(start, data))
  {
    var last := new Directory<Data>(start, 0);
    var r: Outcome;
    match change {
      case Encrypting => r := last.RecoverEncryption(data, true);
      case Decrypting => r := last.RecoverDecryption(data);
      case Rekeying => r := last.RecoverRekey(data, true);
    }
    final := last.disk;
  }
}
