/** The preference object itself: its methods update its fields as the step system says. */
module ActiveViewPreferences {
  import opened Options
  import opened ActiveViewSteps
  import opened ActiveViewSafety

  class ActiveViewPreference {
    var activeView: View
    var persistedActiveView: Option<View>
    var writeTimer: bool
    var pendingWrite: Option<nat>
    var pendingFlush: Drain
    var flushSignals: set<nat>
    var unabortableFlushConsumers: nat
    var writeGeneration: nat
    var inFlightTmpFile: Option<nat>
    var quitFlushStarted: bool

    // The event loop and the disk around it.
    var jobs: seq<Job>
    var created: nat
    var reported: nat
    var abortedSignals: set<nat>
    var file: Option<Stamped>
    var temps: map<nat, View>

    function Snapshot(): State
      reads this
    {
      State(activeView, persistedActiveView, writeTimer, pendingWrite, writeGeneration, inFlightTmpFile,
            quitFlushStarted, pendingFlush, flushSignals, unabortableFlushConsumers, abortedSignals,
            jobs, created, reported, file, temps)
    }

    ghost predicate Valid()
      reads this
    {
      Inv(Snapshot())
    }

    constructor (stored: Option<View>, legacyActiveView: Option<View>)
      ensures Valid()
      ensures Snapshot() == Initial(stored, if legacyActiveView.Some? then legacyActiveView.value else Terminal)
    {
      var fallback := if legacyActiveView.Some? then legacyActiveView.value else Terminal;
      activeView := if stored.Some? then stored.value else fallback;
      persistedActiveView := stored;
      writeTimer, pendingWrite, pendingFlush := false, None, Idle;
      flushSignals, unabortableFlushConsumers := {}, 0;
      writeGeneration, inFlightTmpFile, quitFlushStarted := 0, None, false;
      jobs, created, reported, abortedSignals, temps := [], 0, 0, {}, map[];
      file := if stored.Some? then Some(Stamped(stored.value, 0)) else None;
      new;
      InitialInv(stored, fallback);
    }

    /** `None` stands for a value that is not a top-level view. */
    method SetActiveView(value: Option<View>) returns (changed: bool)
      requires Valid()
      modifies this
      ensures Valid() && Snapshot() == SetView(old(Snapshot()), value)
      ensures changed <==> value.Some? && value.value != old(activeView)
    {
      SetKeepsInv(Snapshot(), value);
      if value.None? {
        return false;
      }
      changed := value.value != activeView;
      activeView := value.value;
      if value != persistedActiveView || writeTimer || pendingWrite.Some? {
        ScheduleSave();
      }
    }

    method ScheduleSave()
      modifies `writeGeneration, `writeTimer
      ensures Snapshot() == ActiveViewSteps.ScheduleSave(old(Snapshot()))
    {
      if quitFlushStarted {
        return;
      }
      writeGeneration := writeGeneration + 1;
      writeTimer := true;
    }

    method TimerCallback()
      requires Valid() && writeTimer
      modifies this
      ensures Valid() && Snapshot() == TimerFired(old(Snapshot()))
    {
      TimerKeepsInv(Snapshot());
      writeTimer := false;
      var _ := EnqueueWrite(activeView, writeGeneration);
    }

    method EnqueueWrite(view: View, generation: nat) returns (nextWrite: nat)
      modifies `jobs, `pendingWrite, `created
      ensures Snapshot() == ActiveViewSteps.EnqueueWrite(old(Snapshot()), view, generation)
      ensures nextWrite == old(created)
    {
      nextWrite := created;
      jobs := jobs + [Job(view, generation, nextWrite, pendingWrite, Waiting)];
      pendingWrite := Some(nextWrite);
      created := created + 1;
    }

    /** The write begins once the promise it is chained behind has settled. */
    method BeginWrite(i: nat)
      requires Valid() && Enabled(Snapshot(), StartWrite(i))
      modifies `jobs
      ensures Valid() && Snapshot() == Next(old(Snapshot()), StartWrite(i))
    {
      hide Inv;
      StepKeepsInv(Snapshot(), StartWrite(i));
      jobs := jobs[i := jobs[i].(phase := Writing)];
    }

    method WriteTempFile(i: nat, ok: bool)
      requires Valid() && Enabled(Snapshot(), WriteTemp(i, ok))
      modifies `jobs, `temps
      ensures Valid() && Snapshot() == Next(old(Snapshot()), WriteTemp(i, ok))
    {
      hide Inv;
      StepKeepsInv(Snapshot(), WriteTemp(i, ok));
      if ok {
        temps := temps[jobs[i].gen := jobs[i].view];
        jobs := jobs[i := jobs[i].(phase := Written)];
      } else {
        jobs := jobs[i := jobs[i].(phase := Removing(true))];
      }
    }

    /** The generation guard and the claim of the temporary file, with no await between them. */
    method CheckAndClaim(i: nat)
      requires Valid() && Enabled(Snapshot(), CheckGeneration(i))
      modifies `jobs, `inFlightTmpFile
      ensures Valid() && Snapshot() == Next(old(Snapshot()), CheckGeneration(i))
    {
      hide Inv;
      StepKeepsInv(Snapshot(), CheckGeneration(i));
      if jobs[i].gen != writeGeneration {
        jobs := jobs[i := jobs[i].(phase := Removing(false))];
        return;
      }
      inFlightTmpFile := Some(jobs[i].gen);
      jobs := jobs[i := jobs[i].(phase := Renaming)];
    }

    method RenameTempFile(i: nat, ok: bool)
      requires Valid() && Enabled(Snapshot(), Rename(i, ok))
      modifies `jobs, `file, `temps
      ensures Valid() && Snapshot() == Next(old(Snapshot()), Rename(i, ok))
    {
      hide Inv;
      StepKeepsInv(Snapshot(), Rename(i, ok));
      var gen := jobs[i].gen;
      var outcome := NoEntry;
      if gen in temps {
        if ok {
          file := Some(Stamped(temps[gen], gen));
          temps := temps - {gen};
          outcome := Landed;
        } else {
          outcome := Refused;
        }
      }
      jobs := jobs[i := jobs[i].(phase := Renamed(outcome))];
    }

    method ContinueAfterRename(i: nat)
      requires Valid() && Enabled(Snapshot(), AfterRename(i))
      modifies `jobs, `persistedActiveView, `inFlightTmpFile
      ensures Valid() && Snapshot() == Next(old(Snapshot()), AfterRename(i))
    {
      hide Inv;
      StepKeepsInv(Snapshot(), AfterRename(i));
      var job := jobs[i];
      var thrown := false;
      if job.phase.outcome.Landed? {
        if job.gen == writeGeneration {
          persistedActiveView := Some(job.view);
        }
      } else if !job.phase.outcome.NoEntry? || job.gen == writeGeneration {
        thrown := true;
      }
      if inFlightTmpFile == Some(job.gen) {
        inFlightTmpFile := None;
      }
      var phase := if job.phase.outcome.Landed? then Settling(false) else Removing(thrown);
      jobs := jobs[i := job.(phase := phase)];
    }

    method RemoveTempFile(i: nat, ok: bool)
      requires Valid() && Enabled(Snapshot(), RemoveTemp(i, ok))
      modifies `jobs, `temps
      ensures Valid() && Snapshot() == Next(old(Snapshot()), RemoveTemp(i, ok))
    {
      hide Inv;
      StepKeepsInv(Snapshot(), RemoveTemp(i, ok));
      if ok {
        temps := temps - {jobs[i].gen};
      }
      jobs := jobs[i := jobs[i].(phase := Settling(jobs[i].phase.failed))];
    }

    /** The catch and finally handlers of the queued promise. */
    method SettleWrite(i: nat)
      requires Valid() && Enabled(Snapshot(), Settle(i))
      modifies `jobs, `pendingWrite, `reported
      ensures Valid() && Snapshot() == Next(old(Snapshot()), Settle(i))
    {
      hide Inv;
      StepKeepsInv(Snapshot(), Settle(i));
      if jobs[i].phase.failed {
        reported := reported + 1;
      }
      if pendingWrite == Some(jobs[i].id) {
        pendingWrite := None;
      }
      jobs := jobs[..i] + jobs[i + 1..];
    }

    method FlushOrThrow(unlinkOk: bool, writeOk: bool, renameOk: bool) returns (result: FlushResult)
      requires Valid()
      modifies `writeTimer, `writeGeneration, `persistedActiveView, `inFlightTmpFile, `temps, `file,
               `jobs, `created, `pendingWrite
      ensures Valid()
      ensures (Snapshot(), result) == FlushedOrThrew(old(Snapshot()), unlinkOk, writeOk, renameOk)
    {
      hide Inv, ActiveViewSteps.EnqueueWrite;
      FlushKeepsInv(Snapshot(), unlinkOk, writeOk, renameOk);
      if quitFlushStarted {
        return Threw;
      }
      writeTimer := false;
      var asyncWriteWasInFlight := pendingWrite.Some?;
      writeGeneration := writeGeneration + 1;
      if !asyncWriteWasInFlight && persistedActiveView == Some(activeView) {
        return Unneeded;
      }
      if inFlightTmpFile.Some? && inFlightTmpFile.value in temps {
        if !unlinkOk {
          var _ := EnqueueWrite(activeView, writeGeneration);
          return Threw;
        }
        temps := temps - {inFlightTmpFile.value};
        inFlightTmpFile := None;
      }
      if !writeOk {
        return Threw;
      }
      ghost var before := temps;
      temps := temps[writeGeneration := activeView];
      if !renameOk {
        return Threw;
      }
      file := Some(Stamped(activeView, writeGeneration));
      assert temps - {writeGeneration} == before - {writeGeneration};
      temps := temps - {writeGeneration};
      persistedActiveView := Some(activeView);
      result := Wrote;
    }

    method FlushAsync()
      requires Valid()
      modifies this
      ensures Valid() && Snapshot() == FlushedAsync(old(Snapshot()))
    {
      FlushAsyncKeepsInv(Snapshot());
      if quitFlushStarted {
        return;
      }
      quitFlushStarted := true;
      var _ := FlushPendingAsync(None);
    }

    method FlushPendingAsync(signal: Option<nat>) returns (rejected: bool)
      requires Valid()
      modifies this
      ensures Valid() && Snapshot() == FlushedPending(old(Snapshot()), signal)
      ensures rejected <==> signal.Some? && signal.value in old(abortedSignals)
    {
      hide Inv;
      FlushPendingKeepsInv(Snapshot(), signal);
      if signal.Some? && signal.value in abortedSignals {
        return true;
      }
      if signal.Some? {
        flushSignals := flushSignals + {signal.value};
      } else {
        unabortableFlushConsumers := unabortableFlushConsumers + 1;
      }
      if pendingFlush.Idle? {
        DrainPendingWrites();
      }
      rejected := false;
    }

    /** From the top of the drain's loop to its next await or its end. */
    method DrainPendingWrites()
      modifies `pendingFlush, `writeTimer, `writeGeneration, `jobs, `pendingWrite, `created
      ensures Snapshot() == DrainTurn(old(Snapshot()))
    {
      if AllFlushConsumersAborted() {
        pendingFlush := Settled(true);
        return;
      }
      writeTimer := false;
      if pendingWrite.None? && persistedActiveView == Some(activeView) {
        pendingFlush := Settled(false);
        return;
      }
      writeGeneration := writeGeneration + 1;
      var awaited := EnqueueWrite(activeView, writeGeneration);
      pendingFlush := Awaiting(awaited, writeGeneration);
    }

    /** From the drain's await to its next await or its end. */
    method ResumeDrainAfterWrite()
      requires Valid() && Enabled(Snapshot(), ResumeDrain)
      modifies this
      ensures Valid() && Snapshot() == ResumedDrain(old(Snapshot()))
    {
      ResumeKeepsInv(Snapshot());
      if AllFlushConsumersAborted() {
        pendingFlush := Settled(true);
        return;
      }
      if pendingFlush.gen == writeGeneration {
        pendingFlush := Settled(false);
        return;
      }
      DrainPendingWrites();
    }

    predicate AllFlushConsumersAborted()
      reads this
    {
      unabortableFlushConsumers == 0 && flushSignals != {} && forall signal <- flushSignals :: signal in abortedSignals
    }

    /** The `finally` of the tracked drain. */
    method FinishFlush()
      requires Valid() && Enabled(Snapshot(), FinishDrain)
      modifies this
      ensures Valid() && Snapshot() == FinishedDrain(old(Snapshot()))
    {
      pendingFlush := Idle;
      flushSignals := {};
      unabortableFlushConsumers := 0;
    }
  }
}
