/**
 The server's own code over a shared directory: between any two of its file system calls the
 other processes take any number of steps. Each call is one step of the protocol.
 */
module KeyFileServer {
  import opened Options
  import opened KeyFileProtocol

  class KeyDirectory {
    var lockFile: bool
    var keyFile: Content
    var temps: map<nat, nat>
    var pcs: map<nat, Pc>

    function Snapshot(): System
      reads this
    {
      System(lockFile, keyFile, temps, pcs)
    }

    ghost predicate Agreed()
      reads this
    {
      Inv(Snapshot())
    }

    /** Process `me` is about to make the call `pc`. */
    predicate At(me: nat, pc: Pc)
      reads this
    {
      me in pcs && pcs[me] == pc
    }

    constructor (lockFile: bool, keyFile: Content)
      ensures Agreed() && Initial(Snapshot())
      ensures this.lockFile == lockFile && this.keyFile == keyFile
    {
      this.lockFile, this.keyFile, temps, pcs := lockFile, keyFile, map[], map[];
    }

    /** Any number of steps of the other processes. */
    method Others(me: nat)
      requires Agreed() && me in pcs
      modifies this
      ensures Agreed() && At(me, old(pcs)[me])
      ensures old(keyFile).Valid? ==> keyFile == old(keyFile)
    {
      var steps: nat := *;
      while steps > 0
        invariant Agreed() && At(me, old(pcs)[me])
        invariant old(keyFile).Valid? ==> keyFile == old(keyFile)
      {
        var e: Event := *;
        if Enabled(Snapshot(), e) && (e.RemoveStaleLock? || ((e.Start? || e.Step? || e.Crash?) && e.p != me)) {
          Perform(e);
        }
        steps := steps - 1;
      }
    }

    method Perform(e: Event)
      requires Agreed() && Enabled(Snapshot(), e)
      modifies this
      ensures Agreed() && Snapshot() == Next(old(Snapshot()), e)
      ensures old(keyFile).Valid? ==> keyFile == old(keyFile)
      ensures !e.RemoveStaleLock? ==> forall q <- old(pcs) :: q != e.p ==> At(q, old(pcs)[q])
      ensures e.RemoveStaleLock? ==> pcs == old(pcs)
    {
      StepKeepsInv(Snapshot(), e);
      var t := Next(Snapshot(), e);
      lockFile, keyFile, temps, pcs := t.lockFile, t.keyFile, t.temps, t.pcs;
    }

    /** Outside the lock a read may fail; the caller then goes on as without a key. */
    method ReadKeyPair(me: nat, outcome: Outcome) returns (key: Option<nat>)
      requires Agreed() && me in pcs
      requires var pc := pcs[me]; pc.FirstRead? || pc.ReadBusy? || pc.LastRead? || pc.LateRead?
      modifies `pcs
      ensures Agreed() && Snapshot() == Next(old(Snapshot()), Step(me, outcome, 0))
      ensures key == if outcome.Ok? && keyFile.Valid? then Some(keyFile.key) else None
    {
      StepKeepsInv(Snapshot(), Step(me, outcome, 0));
      key := if outcome.Ok? && keyFile.Valid? then Some(keyFile.key) else None;
      pcs := Next(Snapshot(), Step(me, outcome, 0)).pcs;
    }

    /** Exclusive creation of the lock file. */
    method OpenLockFile(me: nat, outcome: Outcome) returns (created: bool)
      requires Agreed() && me in pcs && (pcs[me].OpenLock? || pcs[me].LastOpen?)
      modifies `pcs, `lockFile
      ensures Agreed() && Snapshot() == Next(old(Snapshot()), Step(me, outcome, 0))
      ensures created <==> outcome.Ok? && !old(lockFile)
    {
      StepKeepsInv(Snapshot(), Step(me, outcome, 0));
      created := outcome.Ok? && !lockFile;
      pcs := Next(Snapshot(), Step(me, outcome, 0)).pcs;
      if created {
        lockFile := true;
      }
    }

    /** The lock, or the key that a competitor published meanwhile, or a throw. */
    method AcquireKeyLock(me: nat) returns (pc: Pc)
      requires Agreed() && At(me, OpenLock(0))
      modifies this
      ensures Agreed() && At(me, pc) && (pc.ReadLocked? || pc.Returned? || pc.Threw?)
      ensures old(keyFile).Valid? ==> keyFile == old(keyFile)
    {
      hide Inv;
      for attempt := 0 to LOCK_ATTEMPTS
        invariant Agreed() && (old(keyFile).Valid? ==> keyFile == old(keyFile))
        invariant At(me, if attempt < LOCK_ATTEMPTS then OpenLock(attempt) else LastRead)
      {
        Others(me);
        var outcome: Outcome := *;
        var created := OpenLockFile(me, outcome);
        if created || !outcome.Ok? {
          return pcs[me];
        }
        Others(me);
        outcome := *;
        var concurrent := ReadKeyPair(me, outcome);
        if concurrent.Some? {
          return Returned(concurrent.value);
        }
      }
      pc := LastAttempt(me);
    }

    /** The last read and the last try for the lock, when the attempts are used up. */
    method LastAttempt(me: nat) returns (pc: Pc)
      requires Agreed() && At(me, LastRead)
      modifies this
      ensures Agreed() && At(me, pc) && (pc.ReadLocked? || pc.Returned? || pc.Threw?)
      ensures old(keyFile).Valid? ==> keyFile == old(keyFile)
    {
      hide Inv;
      Others(me);
      var outcome: Outcome := *;
      var winner := ReadKeyPair(me, outcome);
      if winner.Some? {
        return Returned(winner.value);
      }
      Others(me);
      outcome := *;
      var created := OpenLockFile(me, outcome);
      if created || !outcome.Ok? {
        return pcs[me];
      }
      Others(me);
      outcome := *;
      var lateWinner := ReadKeyPair(me, outcome);
      pc := if lateWinner.Some? then Returned(lateWinner.value) else Threw;
    }

    method WriteAndRename(me: nat, key: nat)
      requires Agreed() && At(me, WriteTemp(key))
      modifies this
      ensures Agreed() && (At(me, RemoveTemp(Some(key))) || At(me, RemoveTemp(None)))
    {
      hide Inv;
      Others(me);
      var outcome: Outcome := *;
      Perform(Step(me, outcome, 0));
      if !outcome.Ok? {
        return;
      }
      Others(me);
      outcome := *;
      Perform(Step(me, outcome, 0));
      if outcome.Ok? {
        RenameKeyFile(me, key);
      }
    }

    /** Writes the temporary file and publishes it by rename, removing it on every way out. */
    method PersistKeyPair(me: nat, key: nat) returns (published: bool)
      requires Agreed() && At(me, WriteTemp(key))
      modifies this
      ensures Agreed() && At(me, Release(if published then Some(key) else None))
      ensures published ==> keyFile == Valid(key)
    {
      hide Inv;
      WriteAndRename(me, key);
      published := pcs[me].selected.Some?;
      Others(me);
      var outcome: Outcome := *;
      Perform(Step(me, outcome, 0));
      if published { SelectedIsOnDisk(Snapshot(), me, key); }
    }

    method RenameKeyFile(me: nat, key: nat)
      requires Agreed() && At(me, RenameTemp(key, 0))
      modifies this
      ensures Agreed() && (At(me, RemoveTemp(Some(key))) || At(me, RemoveTemp(None)))
    {
      hide Inv;
      for attempt := 0 to RENAME_ATTEMPTS
        invariant Agreed() && attempt < RENAME_ATTEMPTS && At(me, RenameTemp(key, attempt))
      {
        Others(me);
        var outcome: Outcome := *;
        Perform(Step(me, outcome, 0));
        if !outcome.Transient? || attempt == RENAME_ATTEMPTS - 1 {
          return;
        }
      }
    }

    /** Releasing the lock ends the call with the selected key, which is then the one on disk. */
    method ReleaseKeyLock(me: nat, selected: Option<nat>)
      requires Agreed() && At(me, Release(selected))
      modifies this
      ensures Agreed()
      ensures At(me, if selected.Some? then Returned(selected.value) else Threw)
      ensures selected.Some? ==> keyFile == Valid(selected.value)
      ensures old(keyFile).Valid? ==> keyFile == old(keyFile)
    {
      hide Inv;
      Others(me);
      var outcome: Outcome := *;
      Perform(Step(me, outcome, 0));
      if selected.Some? { SelectedIsOnDisk(Snapshot(), me, selected.value); }
    }

    /** The second read, under the lock, then the key it finds or a new one; the lock is released. */
    method SelectUnderLock(me: nat, minted: nat) returns (selected: Option<nat>)
      requires Agreed() && At(me, ReadLocked)
      modifies this
      ensures Agreed()
      ensures At(me, if selected.Some? then Returned(selected.value) else Threw)
      ensures selected.Some? ==> keyFile == Valid(selected.value)
      ensures old(keyFile).Valid? ==> selected == Some(old(keyFile).key)
    {
      hide Inv;
      Others(me);
      Perform(Step(me, Ok, minted));
      if pcs[me].Release? {
        selected := pcs[me].selected;
      } else {
        var published := PersistKeyPair(me, minted);
        selected := if published then Some(minted) else None;
      }
      ReleaseKeyLock(me, selected);
    }

    /**
     What the server returns is the key on disk, and it stays there; `None` is a throw. A key that is
     there is returned when the first read succeeds, and no other key ever is.
     */
    method LoadOrCreate(me: nat, minted: nat, firstRead: Outcome) returns (selected: Option<nat>)
      requires Agreed() && me !in pcs
      modifies this
      ensures Agreed()
      ensures At(me, if selected.Some? then Returned(selected.value) else Threw)
      ensures selected.Some? ==> keyFile == Valid(selected.value)
      ensures old(keyFile).Valid? && (firstRead.Ok? || selected.Some?) ==> selected == Some(old(keyFile).key)
    {
      hide Inv;
      Perform(Start(me));
      Others(me);
      var existing := ReadKeyPair(me, firstRead);
      if existing.Some? {
        return existing;
      }
      var acquired := AcquireKeyLock(me);
      if acquired.ReadLocked? {
        selected := SelectUnderLock(me, minted);
      } else {
        if acquired.Returned? { SelectedIsOnDisk(Snapshot(), me, acquired.key); }
        selected := if acquired.Returned? then Some(acquired.key) else None;
      }
    }
  }
}
