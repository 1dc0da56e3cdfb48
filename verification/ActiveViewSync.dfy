/** Runs without I/O errors: when nothing is pending, memory and disk agree. */
module ActiveViewSync {
  import opened Options
  import opened ActiveViewSteps
  import opened ActiveViewSafety

  /** The event evaluates a flush's exit test, and the test lets it leave without writing. */
  predicate TakesExit(s: State, e: Event) {
    NothingToWrite(s) &&
    match e
    case FlushOrThrow(_, _, _) => !s.quitStarted
    case FlushAsync => !s.quitStarted && s.drain.Idle?
    case FlushPending(signal) => s.drain.Idle? && (signal.Some? ==> signal.value !in s.aborted)
    case ResumeDrain => s.drain.Awaiting? && s.drain.gen != s.generation && !AllConsumersAborted(s)
    case _ => false
  }

  /** No I/O error, no view switch after the quit flush, and no armed timer dropped where memory misses the disk. */
  predicate Clean(s: State, e: Event) {
    && (TakesExit(s, e) && s.timer ==> DiskView(s) == s.persisted)
    && match e
       case Set(_) => !s.quitStarted
       case WriteTemp(_, ok) => ok
       case Rename(_, ok) => ok
       case RemoveTemp(_, ok) => ok
       case FlushOrThrow(u, w, r) => u && w && r
       case _ => true
  }

  predicate CleanRun(s: State, run: seq<Event>)
    decreases |run|
  {
    run == [] || (Enabled(s, run[0]) && Clean(s, run[0]) && CleanRun(Next(s, run[0]), run[1..]))
  }

  lemma {:induction false} CleanRunIsLegal(s: State, run: seq<Event>)
    requires CleanRun(s, run)
    ensures Legal(s, run)
    decreases |run|
  {
    if run != [] { CleanRunIsLegal(Next(s, run[0]), run[1..]); }
  }

  /** A write of the current generation is still to come. */
  predicate Pending(s: State) {
    s.timer ||
    (s.jobs != [] && s.jobs[|s.jobs| - 1].gen == s.generation && !s.jobs[|s.jobs| - 1].phase.Settling?)
  }

  predicate Synced(s: State) {
    DiskView(s) == s.persisted && (s.persisted.Some? ==> s.persisted == Some(s.activeView))
  }

  predicate HeadClean(job: Job, generation: nat) {
    match job.phase
    case Renamed(outcome) => !outcome.Refused?
    case Removing(failed) => !failed && job.gen < generation
    case Settling(failed) => !failed
    case _ => true
  }

  ghost predicate CleanInv(s: State) {
    && (!Pending(s) ==> Synced(s))
    && (!Pending(s) && s.jobs != [] && s.jobs[0].phase.Renaming? ==> s.jobs[0].gen !in s.temps)
    && CurrentOk(s.jobs, s.generation, s.activeView)
    && (s.jobs != [] ==> HeadClean(s.jobs[0], s.generation))
    && s.reported == 0
    && (!s.drain.Idle? && !Pending(s) ==> s.persisted.Some?)
    && (s.drain == Settled(false) ==> s.persisted.Some?)
  }

  /** A step of the first write that leaves file, view and persisted alone. */
  lemma HeadKeepsClean(s: State, t: State, phase: Phase)
    requires Inv(s) && CleanInv(s) && s.jobs != []
    requires t == WithPhase(s, 0, phase).(inFlight := t.inFlight, temps := t.temps)
    requires HeadClean(t.jobs[0], s.generation) && !s.jobs[0].phase.Settling?
    requires phase.Settling? || phase.Removing? ==> s.jobs[0].gen < s.generation
    requires phase.Renaming? ==> s.jobs[0].gen == s.generation
    ensures CleanInv(t)
  {
    hide StampOk, DrainOk, TempsOk;
  }

  lemma WriterKeepsClean(s: State, e: Event)
    requires Inv(s) && CleanInv(s) && Enabled(s, e) && Clean(s, e)
    requires e == StartWrite(0) || e == WriteTemp(0, true) || e == CheckGeneration(0) || e == RemoveTemp(0, true)
    ensures CleanInv(Next(s, e))
  {
    assert s.jobs[0].gen <= s.generation;
    HeadKeepsClean(s, Next(s, e), Next(s, e).jobs[0].phase);
  }

  lemma RenameKeepsClean(s: State)
    requires Inv(s) && CleanInv(s) && Enabled(s, Rename(0, true))
    ensures CleanInv(Next(s, Rename(0, true)))
  {
    hide StampOk, DrainOk, TempsOk;
  }

  /** A landed write of the current generation is the last of the queue, and the one on disk. */
  lemma LandedFacts(s: State)
    requires Inv(s) && s.jobs != [] && s.jobs[0].phase.Renamed?
    ensures s.jobs[0].gen <= s.generation
    ensures s.jobs[0].gen == s.generation ==>
      !s.timer && |s.jobs| == 1 && !s.jobs[0].phase.outcome.NoEntry? &&
      (s.jobs[0].phase.outcome.Landed? ==> s.file == Some(Stamped(s.jobs[0].view, s.jobs[0].gen)))
  {
  }

  lemma AfterRenameKeepsClean(s: State)
    requires Inv(s) && CleanInv(s) && Enabled(s, AfterRename(0))
    ensures CleanInv(Next(s, AfterRename(0)))
  {
    LandedFacts(s);
    if s.jobs[0].gen == s.generation {
      hide Inv;
    } else {
      HeadKeepsClean(s, Next(s, AfterRename(0)), Next(s, AfterRename(0)).jobs[0].phase);
    }
  }

  lemma SettleKeepsPending(s: State)
    requires s.jobs != [] && s.jobs[0].phase.Settling?
    ensures Pending(SettledWrite(s, 0)) == Pending(s)
    ensures CurrentOk(s.jobs, s.generation, s.activeView) ==> CurrentOk(s.jobs[1..], s.generation, s.activeView)
  {
    assert SettledWrite(s, 0).jobs == s.jobs[1..];
  }

  lemma SecondWriteWaits(s: State)
    requires Inv(s)
    ensures 1 < |s.jobs| ==> s.jobs[1].phase.Waiting?
  {
  }

  /** A settled write leaves only the queue and the pending promise changed. */
  lemma SettledFrame(s: State)
    requires s.jobs != [] && s.jobs[0].phase.Settling? && HeadClean(s.jobs[0], s.generation)
    ensures var t := SettledWrite(s, 0);
            && t.jobs == s.jobs[1..] && t.generation == s.generation && t.activeView == s.activeView
            && t.persisted == s.persisted && DiskView(t) == DiskView(s) && t.temps == s.temps
            && t.drain == s.drain && t.reported == s.reported
  {
  }

  lemma SettleKeepsClean(s: State)
    requires Inv(s) && CleanInv(s) && Enabled(s, Settle(0))
    ensures CleanInv(SettledWrite(s, 0))
  {
    hide Inv, Pending, CurrentOk, DiskView, SettledWrite, HasSettled;
    SecondWriteWaits(s);
    SettledFrame(s);
    SettleKeepsPending(s);
  }

  /** With no timer armed, a flush that finds nothing to write is right about the disk. */
  lemma UnarmedExitIsRight(s: State)
    requires Inv(s) && CleanInv(s) && NothingToWrite(s) && !s.timer
    ensures DiskView(s) == s.persisted == Some(s.activeView)
  {
    NoPendingWrite(s);
  }

  lemma FlushKeepsClean(s: State)
    requires Inv(s) && CleanInv(s) && Clean(s, FlushOrThrow(true, true, true))
    ensures CleanInv(FlushedOrThrew(s, true, true, true).0)
  {
    hide StampOk;
  }

  lemma DrainTurnKeepsClean(s: State)
    requires Inv(s) && CleanInv(s)
    requires NothingToWrite(s) && !AllConsumersAborted(s) && s.timer ==> DiskView(s) == s.persisted
    requires s.drain.Idle? ==> !AllConsumersAborted(s)
    ensures CleanInv(DrainTurn(s))
  {
    hide StampOk, TempsOk;
  }

  lemma ConsumersKeepClean(s: State, quit: bool, signals: set<nat>, unabortable: nat)
    requires CleanInv(s)
    ensures CleanInv(s.(quitStarted := quit, signals := signals, unabortable := unabortable))
  {
    hide CurrentOk;
  }

  lemma JoinKeepsClean(s: State, signal: Option<nat>)
    requires CleanInv(s)
    ensures CleanInv(JoinFlush(s, signal))
    ensures NothingToWrite(JoinFlush(s, signal)) == NothingToWrite(s)
    ensures DiskView(JoinFlush(s, signal)) == DiskView(s) && JoinFlush(s, signal).persisted == s.persisted
    ensures JoinFlush(s, signal).drain == s.drain && JoinFlush(s, signal).timer == s.timer
    ensures (signal.Some? ==> signal.value !in s.aborted) ==> !AllConsumersAborted(JoinFlush(s, signal))
  {
    hide CleanInv;
    var t := JoinFlush(s, signal);
    ConsumersKeepClean(s, s.quitStarted, t.signals, t.unabortable);
  }

  lemma FlushPendingKeepsClean(s: State, signal: Option<nat>)
    requires Inv(s) && CleanInv(s) && Clean(s, FlushPending(signal))
    ensures CleanInv(FlushedPending(s, signal))
  {
    hide Inv, CleanInv, DrainTurn, JoinFlush, NothingToWrite, DiskView, AllConsumersAborted;
    if signal.None? || signal.value !in s.aborted {
      JoinKeepsInv(s, signal);
      JoinKeepsClean(s, signal);
      if s.drain.Idle? { DrainTurnKeepsClean(JoinFlush(s, signal)); }
    }
  }

  lemma FlushAsyncKeepsClean(s: State)
    requires Inv(s) && CleanInv(s) && Clean(s, FlushAsync)
    ensures CleanInv(FlushedAsync(s))
  {
    if !s.quitStarted {
      var s1 := s.(quitStarted := true);
      hide Inv;
      ConsumersKeepInv(s, true, s.signals, s.unabortable, s.aborted);
      hide CleanInv;
      ConsumersKeepClean(s, true, s.signals, s.unabortable);
      FlushPendingKeepsClean(s1, None);
    }
  }

  lemma ResumeKeepsClean(s: State)
    requires Inv(s) && CleanInv(s) && Enabled(s, ResumeDrain) && Clean(s, ResumeDrain)
    ensures CleanInv(ResumedDrain(s))
  {
    if AllConsumersAborted(s) {
    } else if s.drain.gen == s.generation {
      LastIsUnsettled(s, s.drain.id);
    } else {
      hide Inv, CleanInv;
      DrainTurnKeepsClean(s);
    }
  }

  lemma SetKeepsClean(s: State, value: Option<View>)
    requires Inv(s) && CleanInv(s) && !s.quitStarted
    ensures CleanInv(SetView(s, value))
  {
    hide StampOk, TempsOk;
  }

  lemma TimerKeepsClean(s: State)
    requires Inv(s) && CleanInv(s) && s.timer
    ensures CleanInv(TimerFired(s))
  {
    hide StampOk, TempsOk;
  }

  lemma StepKeepsClean(s: State, e: Event)
    requires Inv(s) && CleanInv(s) && Enabled(s, e) && Clean(s, e)
    ensures CleanInv(Next(s, e))
  {
    hide Inv;
    if e.Abort? || e.FinishDrain? { return; }
    hide CleanInv;
    match e
    case Set(value) => SetKeepsClean(s, value);
    case TimerFires => TimerKeepsClean(s);
    case AfterRename(i) => OnlyTheFirstWriteIsActive(s, i); AfterRenameKeepsClean(s);
    case Settle(i) => OnlyTheFirstWriteIsActive(s, i); SettleKeepsClean(s);
    case FlushOrThrow(_, _, _) => FlushKeepsClean(s);
    case FlushAsync => FlushAsyncKeepsClean(s);
    case FlushPending(signal) => FlushPendingKeepsClean(s, signal);
    case ResumeDrain => ResumeKeepsClean(s);
    case StartWrite(i) => OnlyTheFirstWriteIsActive(s, i); WriterKeepsClean(s, e);
    case WriteTemp(i, _) => OnlyTheFirstWriteIsActive(s, i); WriterKeepsClean(s, e);
    case CheckGeneration(i) => OnlyTheFirstWriteIsActive(s, i); WriterKeepsClean(s, e);
    case Rename(i, _) => OnlyTheFirstWriteIsActive(s, i); RenameKeepsClean(s);
    case RemoveTemp(i, _) => OnlyTheFirstWriteIsActive(s, i); WriterKeepsClean(s, e);
  }

  lemma {:induction false} RunKeepsClean(s: State, run: seq<Event>)
    requires Inv(s) && CleanInv(s) && CleanRun(s, run)
    ensures Legal(s, run) && Inv(Exec(s, run)) && CleanInv(Exec(s, run))
    decreases |run|
  {
    hide Inv, CleanInv;
    if run != [] {
      StepKeepsInv(s, run[0]);
      StepKeepsClean(s, run[0]);
      RunKeepsClean(Next(s, run[0]), run[1..]);
    }
  }

  /**
   After any run without I/O errors in which no flush dropped an armed timer where memory missed
   the disk: with no timer and no pending write, the file holds what memory believes is stored, which is
   the active view once anything was stored; and no veto was reported as a failed write.
   */
  lemma IdleIsSynced(stored: Option<View>, fallback: View, run: seq<Event>)
    requires CleanRun(Initial(stored, fallback), run)
    ensures Legal(Initial(stored, fallback), run)
    ensures var s := Exec(Initial(stored, fallback), run);
            && s.reported == 0
            && (!s.timer && s.pendingWrite.None? ==>
                  DiskView(s) == s.persisted && (s.persisted.Some? ==> s.persisted == Some(s.activeView)))
  {
    var s0 := Initial(stored, fallback);
    InitialInv(stored, fallback);
    assert CleanInv(s0);
    RunKeepsClean(s0, run);
    NoPendingWrite(Exec(s0, run));
  }

  /**
   And nothing is written in vain: at rest, selecting the view that is on disk only selects it, and if it is
   the active view a flush of either kind leaves the disk and the queue alone.
   */
  lemma NothingIsWrittenInVain(stored: Option<View>, fallback: View, run: seq<Event>, view: View, signal: Option<nat>)
    requires CleanRun(Initial(stored, fallback), run)
    ensures Legal(Initial(stored, fallback), run)
    ensures var s := Exec(Initial(stored, fallback), run);
      !s.timer && s.pendingWrite.None? && DiskView(s) == Some(view) ==>
        && Next(s, Set(Some(view))) == s.(activeView := view)
        && (s.activeView == view ==>
              && KeepsDisk(s, Next(s, FlushOrThrow(true, true, true)))
              && KeepsDisk(s, Next(s, FlushPending(signal)))
              && KeepsDisk(s, Next(s, FlushAsync)))
  {
    IdleIsSynced(stored, fallback, run);
    hide Inv, CleanRun, Legal, Exec;
  }

  predicate KeepsDisk(s: State, t: State) {
    t.file == s.file && t.temps == s.temps && t.jobs == s.jobs && !t.timer
  }

  /** Something was stored, or a write of the current generation is still to come. */
  predicate Saving(s: State) {
    s.persisted.Some? || Pending(s)
  }

  /** A switch arms a write, unless the view selected is the one stored. */
  lemma SwitchStartsSaving(s: State, view: View)
    requires !s.quitStarted
    ensures Saving(SetView(s, Some(view))) && SetView(s, Some(view)).activeView == view
  {
  }

  lemma PhaseKeepsSaving(s: State, phase: Phase)
    requires s.jobs != [] && Saving(s) && (phase.Settling? ==> s.jobs[0].gen != s.generation)
    ensures Saving(WithPhase(s, 0, phase))
  {
  }

  lemma WriterKeepsSaving(s: State, e: Event)
    requires Inv(s) && CleanInv(s) && Saving(s) && Enabled(s, e) && Clean(s, e)
    requires e == StartWrite(0) || e == WriteTemp(0, true) || e == CheckGeneration(0) || e == RemoveTemp(0, true)
             || e == Rename(0, true)
    ensures Saving(Next(s, e))
  {
    assert s.jobs != [] && HeadClean(s.jobs[0], s.generation);
    hide Inv, CleanInv, HasSettled, CurrentOk;
    PhaseKeepsSaving(s, Writing);
    PhaseKeepsSaving(s, Written);
    PhaseKeepsSaving(s, Renaming);
    match e
    case RemoveTemp(_, _) => PhaseKeepsSaving(s, Settling(s.jobs[0].phase.failed));
    case CheckGeneration(_) => PhaseKeepsSaving(s, Removing(false));
    case Rename(_, _) => PhaseKeepsSaving(s, Renamed(if s.jobs[0].gen !in s.temps then NoEntry else Landed));
    case _ =>
  }

  lemma AfterRenameKeepsSaving(s: State)
    requires Inv(s) && Saving(s) && Enabled(s, AfterRename(0))
    ensures Saving(Next(s, AfterRename(0)))
  {
    LandedFacts(s);
    hide Inv, HasSettled;
    if s.jobs[0].gen != s.generation {
      PhaseKeepsSaving(s, Next(s, AfterRename(0)).jobs[0].phase);
    }
  }

  lemma SettleKeepsSaving(s: State)
    requires Saving(s) && Enabled(s, Settle(0))
    ensures Saving(Next(s, Settle(0)))
  {
    SettleKeepsPending(s);
    hide Pending, HasSettled;
  }

  lemma DrainKeepsSaving(s: State)
    requires Saving(s)
    ensures Saving(DrainTurn(s))
  {
    hide AllConsumersAborted;
  }

  lemma OthersKeepSaving(s: State, e: Event)
    requires Saving(s) && Enabled(s, e) && Clean(s, e)
    requires e.TimerFires? || e.FlushOrThrow? || e.FlushAsync? || e.FlushPending? || e.Abort? || e.ResumeDrain? || e.FinishDrain?
    ensures Saving(Next(s, e))
  {
    hide DrainTurn, HasSettled, AllConsumersAborted;
    match e
    case FlushAsync => if !s.quitStarted { DrainKeepsSaving(JoinFlush(s.(quitStarted := true), None)); }
    case FlushPending(signal) => DrainKeepsSaving(JoinFlush(s, signal));
    case ResumeDrain => DrainKeepsSaving(s);
    case _ =>
  }

  lemma StepKeepsSaving(s: State, e: Event)
    requires Inv(s) && CleanInv(s) && Enabled(s, e) && Clean(s, e)
    requires Saving(s) || (e.Set? && e.value.Some?)
    ensures Saving(Next(s, e))
  {
    hide Inv, CleanInv, Saving, HasSettled;
    match e
    case Set(value) =>
      if value.Some? { SwitchStartsSaving(s, value.value); }
    case StartWrite(i) => OnlyTheFirstWriteIsActive(s, i); WriterKeepsSaving(s, e);
    case WriteTemp(i, _) => OnlyTheFirstWriteIsActive(s, i); WriterKeepsSaving(s, e);
    case CheckGeneration(i) => OnlyTheFirstWriteIsActive(s, i); WriterKeepsSaving(s, e);
    case Rename(i, _) => OnlyTheFirstWriteIsActive(s, i); WriterKeepsSaving(s, e);
    case RemoveTemp(i, _) => OnlyTheFirstWriteIsActive(s, i); WriterKeepsSaving(s, e);
    case AfterRename(i) => OnlyTheFirstWriteIsActive(s, i); AfterRenameKeepsSaving(s);
    case Settle(i) => OnlyTheFirstWriteIsActive(s, i); SettleKeepsSaving(s);
    case _ => OthersKeepSaving(s, e);
  }

  /** Somewhere in the run a known view was selected. */
  predicate Switches(run: seq<Event>) {
    run != [] && ((run[0].Set? && run[0].value.Some?) || Switches(run[1..]))
  }

  lemma {:induction false} RunKeepsSaving(s: State, run: seq<Event>)
    requires Inv(s) && CleanInv(s) && CleanRun(s, run) && Legal(s, run)
    requires Saving(s) || Switches(run)
    ensures Saving(Exec(s, run))
    decreases |run|
  {
    hide Inv, CleanInv, Saving, Next, Enabled, Clean;
    if run != [] {
      var e := run[0];
      StepKeepsInv(s, e);
      StepKeepsClean(s, e);
      if Saving(s) || (e.Set? && e.value.Some?) { StepKeepsSaving(s, e); }
      RunKeepsSaving(Next(s, e), run[1..]);
    }
  }

  /**
   After any such run in which a view was selected, whether or not anything had been stored before: with no
   timer and no pending write the file holds the active view.
   */
  lemma SwitchesAreSaved(stored: Option<View>, fallback: View, run: seq<Event>)
    requires CleanRun(Initial(stored, fallback), run) && Legal(Initial(stored, fallback), run) && Switches(run)
    ensures var s := Exec(Initial(stored, fallback), run);
            !s.timer && s.pendingWrite.None? ==> DiskView(s) == Some(s.activeView)
  {
    var s0 := Initial(stored, fallback);
    InitialInv(stored, fallback);
    assert CleanInv(s0);
    RunKeepsClean(s0, run);
    RunKeepsSaving(s0, run);
    NoPendingWrite(Exec(s0, run));
  }

  /** The active view is the one selected last, or the initial one. */
  function LastSelected(run: seq<Event>, view: View): View {
    if run == [] then view
    else LastSelected(run[1..], if run[0].Set? && run[0].value.Some? then run[0].value.value else view)
  }

  lemma DrainKeepsActive(s: State)
    ensures DrainTurn(s).activeView == s.activeView
  {
  }

  lemma WriterKeepsActive(s: State, e: Event)
    requires Enabled(s, e)
    requires e.StartWrite? || e.WriteTemp? || e.CheckGeneration? || e.Rename? || e.AfterRename? || e.RemoveTemp? || e.Settle?
    ensures Next(s, e).activeView == s.activeView
  {
    hide HasSettled;
  }

  lemma ActiveIsSelected(s: State, e: Event)
    requires Enabled(s, e)
    ensures Next(s, e).activeView == if e.Set? && e.value.Some? then e.value.value else s.activeView
  {
    hide HasSettled, DrainTurn, AllConsumersAborted, WithPhase;
    match e
    case FlushAsync => DrainKeepsActive(JoinFlush(s.(quitStarted := true), None));
    case FlushPending(signal) => DrainKeepsActive(JoinFlush(s, signal));
    case ResumeDrain => DrainKeepsActive(s);
    case Set(_) =>
    case TimerFires =>
    case FlushOrThrow(_, _, _) =>
    case Abort(_) =>
    case FinishDrain =>
    case _ => WriterKeepsActive(s, e); hide Next;
  }

  lemma {:induction false} RunActive(s: State, run: seq<Event>)
    requires Legal(s, run)
    ensures Exec(s, run).activeView == LastSelected(run, s.activeView)
    decreases |run|
  {
    hide Next, Enabled;
    if run != [] {
      ActiveIsSelected(s, run[0]);
      RunActive(Next(s, run[0]), run[1..]);
    }
  }

  /** So at rest the file holds the view that was selected last. */
  lemma LastSelectedIsSaved(stored: Option<View>, fallback: View, run: seq<Event>)
    requires CleanRun(Initial(stored, fallback), run) && Legal(Initial(stored, fallback), run) && Switches(run)
    ensures var s := Exec(Initial(stored, fallback), run);
            !s.timer && s.pendingWrite.None? ==> DiskView(s) == Some(LastSelected(run, fallback))
  {
    SwitchesAreSaved(stored, fallback, run);
    RunActive(Initial(stored, fallback), run);
    SelectedWins(run, Initial(stored, fallback).activeView, fallback);
  }

  lemma {:induction false} SelectedWins(run: seq<Event>, a: View, b: View)
    requires Switches(run)
    ensures LastSelected(run, a) == LastSelected(run, b)
  {
    if !(run[0].Set? && run[0].value.Some?) { SelectedWins(run[1..], a, b); }
  }
}
