/** What every run of the active-view writer keeps, and why a synchronous flush is final. */
module ActiveViewSafety {
  import opened Options
  import opened ActiveViewSteps

  function FileGen(s: State): nat {
    if s.file.Some? then s.file.value.gen else 0
  }

  /** The queue: writes in generation order, only the first one active, the tail awaited. */
  ghost predicate QueueOk(jobs: seq<Job>, generation: nat, created: nat, pendingWrite: Option<nat>, timer: bool) {
    && (forall i, j :: 0 <= i < j < |jobs| ==> jobs[i].gen < jobs[j].gen && jobs[i].id < jobs[j].id)
    && (forall i :: 0 <= i < |jobs| ==> jobs[i].gen <= generation && jobs[i].id < created)
    && (forall i :: 0 < i < |jobs| ==> jobs[i].phase.Waiting?)
    && (forall i, j :: 0 <= i < j < |jobs| && j == i + 1 ==> jobs[j].after == Some(jobs[i].id))
    && (jobs != [] && jobs[0].after.Some? ==> jobs[0].after.value < jobs[0].id)
    && pendingWrite == (if jobs == [] then None else Some(jobs[|jobs| - 1].id))
    && (timer && jobs != [] ==> jobs[|jobs| - 1].gen < generation)
  }

  ghost predicate HeadTempOk(job: Job, temps: map<nat, View>, inFlight: Option<nat>, generation: nat, file: Option<Stamped>) {
    match job.phase
    case Waiting => job.gen !in temps
    case Writing => job.gen !in temps
    case Written => job.gen in temps && temps[job.gen] == job.view
    case Renaming =>
      if job.gen in temps then temps[job.gen] == job.view && inFlight == Some(job.gen)
      else job.gen < generation
    case Renamed(Landed) => job.gen == generation ==> file == Some(Stamped(job.view, job.gen))
    case Renamed(NoEntry) => job.gen < generation
    case _ => true
  }

  /** Temporary files: one per generation, never one that a later write is going to create. */
  ghost predicate TempsOk(
    jobs: seq<Job>, temps: map<nat, View>, inFlight: Option<nat>, generation: nat, timer: bool, file: Option<Stamped>)
  {
    && (forall g <- temps :: g <= generation && (timer ==> g < generation))
    && (forall i :: 0 < i < |jobs| ==> jobs[i].gen !in temps)
    && (jobs != [] ==> HeadTempOk(jobs[0], temps, inFlight, generation, file))
    && (inFlight.Some? ==>
          jobs != [] && jobs[0].gen == inFlight.value && (jobs[0].phase.Renaming? || jobs[0].phase.Renamed?))
  }

  /** The write may still change the file. */
  predicate CanLand(job: Job, generation: nat, temps: map<nat, View>) {
    match job.phase
    case Waiting => job.gen == generation
    case Writing => job.gen == generation
    case Written => job.gen == generation
    case Renaming => job.gen in temps
    case _ => false
  }

  ghost predicate StampOk(jobs: seq<Job>, fileGen: nat, generation: nat, timer: bool, temps: map<nat, View>) {
    && fileGen <= generation
    && (timer ==> fileGen < generation)
    && (forall i :: 0 <= i < |jobs| && CanLand(jobs[i], generation, temps) ==> fileGen < jobs[i].gen)
  }

  ghost predicate DrainOk(drain: Drain, jobs: seq<Job>, generation: nat, created: nat, timer: bool) {
    drain.Awaiting? ==>
      && drain.gen <= generation && drain.id < created
      && (drain.gen == generation ==>
            !timer && (jobs != [] ==> jobs[|jobs| - 1].id == drain.id && jobs[|jobs| - 1].gen == generation))
  }

  /** Before the quit flush, a write of the current generation carries the current view. */
  ghost predicate CurrentOk(jobs: seq<Job>, generation: nat, view: View) {
    forall i :: 0 <= i < |jobs| && jobs[i].gen == generation ==> jobs[i].view == view
  }

  ghost predicate Inv(s: State) {
    && QueueOk(s.jobs, s.generation, s.created, s.pendingWrite, s.timer)
    && TempsOk(s.jobs, s.temps, s.inFlight, s.generation, s.timer, s.file)
    && StampOk(s.jobs, FileGen(s), s.generation, s.timer, s.temps)
    && DrainOk(s.drain, s.jobs, s.generation, s.created, s.timer)
    && (s.quitStarted || CurrentOk(s.jobs, s.generation, s.activeView))
  }

  /** Raising the generation supersedes every queued write. */
  lemma BumpKeepsInv(s: State, view: View, timer: bool)
    requires Inv(s)
    ensures Inv(s.(activeView := view, generation := s.generation + 1, timer := timer))
  {
  }

  lemma EnqueueKeepsQueue(jobs: seq<Job>, generation: nat, created: nat, pendingWrite: Option<nat>, view: View)
    requires QueueOk(jobs, generation, created, pendingWrite, false)
    requires jobs != [] ==> jobs[|jobs| - 1].gen < generation
    ensures QueueOk(jobs + [Job(view, generation, created, pendingWrite, Waiting)], generation,
                    created + 1, Some(created), false)
  {
  }

  lemma EnqueueKeepsTemps(
    jobs: seq<Job>, job: Job, temps: map<nat, View>, inFlight: Option<nat>, generation: nat, file: Option<Stamped>)
    requires TempsOk(jobs, temps, inFlight, generation, false, file)
    requires job.gen == generation && generation !in temps && job.phase.Waiting?
    ensures TempsOk(jobs + [job], temps, inFlight, generation, false, file)
  {
  }

  lemma EnqueueKeepsStamp(jobs: seq<Job>, job: Job, fileGen: nat, generation: nat, temps: map<nat, View>)
    requires StampOk(jobs, fileGen, generation, false, temps) && fileGen < generation == job.gen
    ensures StampOk(jobs + [job], fileGen, generation, false, temps)
  {
  }

  lemma EnqueueKeepsInv(s: State, view: View)
    requires Inv(s) && !s.timer
    requires s.jobs != [] ==> s.jobs[|s.jobs| - 1].gen < s.generation
    requires s.generation !in s.temps && FileGen(s) < s.generation
    requires !s.quitStarted ==> view == s.activeView
    requires s.drain.Awaiting? ==> s.drain.gen < s.generation
    ensures Inv(EnqueueWrite(s, view, s.generation))
  {
    hide QueueOk, TempsOk, StampOk;
    var job := Job(view, s.generation, s.created, s.pendingWrite, Waiting);
    EnqueueKeepsQueue(s.jobs, s.generation, s.created, s.pendingWrite, view);
    EnqueueKeepsTemps(s.jobs, job, s.temps, s.inFlight, s.generation, s.file);
    EnqueueKeepsStamp(s.jobs, job, FileGen(s), s.generation, s.temps);
  }

  /** The debounce timer writes the current view under the generation it was armed with. */
  lemma TimerKeepsInv(s: State)
    requires Inv(s) && s.timer
    ensures Inv(TimerFired(s))
  {
    EnqueueKeepsInv(s.(timer := false), s.activeView);
  }

  /** Superseding every queued write and queueing a newer one. */
  lemma SupersedeKeepsInv(s: State)
    requires Inv(s)
    ensures Inv(EnqueueWrite(s.(timer := false, generation := s.generation + 1), s.activeView, s.generation + 1))
  {
    BumpKeepsInv(s, s.activeView, false);
    EnqueueKeepsInv(s.(timer := false, generation := s.generation + 1), s.activeView);
  }

  lemma OnlyTheFirstWriteIsActive(s: State, i: nat)
    requires Inv(s) && i < |s.jobs|
    requires !s.jobs[i].phase.Waiting? || Enabled(s, StartWrite(i))
    ensures i == 0
  {
    var before := if i > 0 then i - 1 else 0;
    assert s.jobs[before] in s.jobs;
  }

  /** Replaces the first write by one of the same generation that may land no more than before. */
  lemma HeadStepKeepsInv(s: State, t: State, phase: Phase)
    requires Inv(s) && s.jobs != []
    requires t == WithPhase(s, 0, phase).(
                    inFlight := t.inFlight, temps := t.temps, file := t.file, persisted := t.persisted)
    requires TempsOk(t.jobs, t.temps, t.inFlight, t.generation, t.timer, t.file)
    requires StampOk(t.jobs, FileGen(t), t.generation, t.timer, t.temps)
    ensures Inv(t)
  {
    hide TempsOk, StampOk;
  }

  lemma StartKeepsInv(s: State)
    requires Inv(s) && Enabled(s, StartWrite(0))
    ensures Inv(Next(s, StartWrite(0)))
  {
    HeadStepKeepsInv(s, Next(s, StartWrite(0)), Writing);
  }

  lemma WriteTempKeepsInv(s: State, ok: bool)
    requires Inv(s) && Enabled(s, WriteTemp(0, ok))
    ensures Inv(Next(s, WriteTemp(0, ok)))
  {
    hide DrainOk, CurrentOk, HasSettled;
    HeadStepKeepsInv(s, Next(s, WriteTemp(0, ok)), if ok then Written else Removing(true));
  }

  lemma CheckKeepsInv(s: State)
    requires Inv(s) && Enabled(s, CheckGeneration(0))
    ensures Inv(Next(s, CheckGeneration(0)))
  {
    hide DrainOk, CurrentOk, HasSettled;
    HeadStepKeepsInv(s, Next(s, CheckGeneration(0)), Next(s, CheckGeneration(0)).jobs[0].phase);
  }

  lemma RenameKeepsInv(s: State, ok: bool)
    requires Inv(s) && Enabled(s, Rename(0, ok))
    ensures Inv(Next(s, Rename(0, ok)))
  {
    var t := Next(s, Rename(0, ok));
    RenameKeepsTemps(s, ok);
    RenameKeepsStamp(s, ok);
    hide Inv, TempsOk, StampOk;
    HeadStepKeepsInv(s, t, t.jobs[0].phase);
  }

  lemma LandKeepsTemps(
    jobs: seq<Job>, temps: map<nat, View>, inFlight: Option<nat>, generation: nat, timer: bool, file: Option<Stamped>)
    requires TempsOk(jobs, temps, inFlight, generation, timer, file)
    requires jobs != [] && jobs[0].phase.Renaming? && jobs[0].gen in temps
    ensures TempsOk(jobs[0 := jobs[0].(phase := Renamed(Landed))], temps - {jobs[0].gen}, inFlight, generation, timer,
                    Some(Stamped(temps[jobs[0].gen], jobs[0].gen)))
  {
  }

  lemma NoLandKeepsTemps(
    jobs: seq<Job>, temps: map<nat, View>, inFlight: Option<nat>, generation: nat, timer: bool, file: Option<Stamped>)
    requires TempsOk(jobs, temps, inFlight, generation, timer, file)
    requires jobs != [] && jobs[0].phase.Renaming?
    ensures TempsOk(jobs[0 := jobs[0].(phase := Renamed(Refused))], temps, inFlight, generation, timer, file)
    ensures jobs[0].gen !in temps ==>
      TempsOk(jobs[0 := jobs[0].(phase := Renamed(NoEntry))], temps, inFlight, generation, timer, file)
  {
  }

  lemma RenameKeepsTemps(s: State, ok: bool)
    requires Inv(s) && Enabled(s, Rename(0, ok))
    ensures var t := Next(s, Rename(0, ok)); TempsOk(t.jobs, t.temps, t.inFlight, t.generation, t.timer, t.file)
  {
    hide TempsOk, StampOk, DrainOk, CurrentOk;
    NoLandKeepsTemps(s.jobs, s.temps, s.inFlight, s.generation, s.timer, s.file);
    if s.jobs[0].gen in s.temps { LandKeepsTemps(s.jobs, s.temps, s.inFlight, s.generation, s.timer, s.file); }
  }

  lemma LandKeepsStamp(
    jobs: seq<Job>, generation: nat, created: nat, pendingWrite: Option<nat>, timer: bool, temps: map<nat, View>)
    requires QueueOk(jobs, generation, created, pendingWrite, timer) && jobs != []
    ensures StampOk(jobs[0 := jobs[0].(phase := Renamed(Landed))], jobs[0].gen, generation, timer, temps - {jobs[0].gen})
  {
  }

  lemma NoLandKeepsStamp(jobs: seq<Job>, outcome: RenameOutcome, fileGen: nat, generation: nat, timer: bool, temps: map<nat, View>)
    requires StampOk(jobs, fileGen, generation, timer, temps) && jobs != []
    ensures StampOk(jobs[0 := jobs[0].(phase := Renamed(outcome))], fileGen, generation, timer, temps)
  {
  }

  lemma RenameKeepsStamp(s: State, ok: bool)
    requires Inv(s) && Enabled(s, Rename(0, ok))
    ensures var t := Next(s, Rename(0, ok)); StampOk(t.jobs, FileGen(t), t.generation, t.timer, t.temps)
  {
    hide QueueOk, TempsOk, StampOk, DrainOk, CurrentOk, HasSettled;
    if ok && s.jobs[0].gen in s.temps {
      LandKeepsStamp(s.jobs, s.generation, s.created, s.pendingWrite, s.timer, s.temps);
    } else {
      NoLandKeepsStamp(s.jobs, NoEntry, FileGen(s), s.generation, s.timer, s.temps);
      NoLandKeepsStamp(s.jobs, Refused, FileGen(s), s.generation, s.timer, s.temps);
    }
  }

  /** A write past its rename can no longer touch the file. */
  lemma PastRenameKeepsInv(s: State, phase: Phase, persisted: Option<View>)
    requires Inv(s) && s.jobs != [] && (phase.Removing? || phase.Settling?)
    ensures Inv(WithPhase(s, 0, phase).(
                  inFlight := if s.inFlight == Some(s.jobs[0].gen) then None else s.inFlight, persisted := persisted))
  {
    assert s.inFlight.Some? ==> s.inFlight == Some(s.jobs[0].gen);
    HeadStepKeepsInv(s, WithPhase(s, 0, phase).(inFlight := None, persisted := persisted), phase);
  }

  lemma AfterRenameKeepsInv(s: State)
    requires Inv(s) && Enabled(s, AfterRename(0))
    ensures Inv(Next(s, AfterRename(0)))
  {
    var t := Next(s, AfterRename(0));
    PastRenameKeepsInv(s, t.jobs[0].phase, t.persisted);
    hide Inv;
  }

  lemma RemoveKeepsInv(s: State, ok: bool)
    requires Inv(s) && Enabled(s, RemoveTemp(0, ok))
    ensures Inv(Next(s, RemoveTemp(0, ok)))
  {
    hide DrainOk, CurrentOk, HasSettled;
    HeadStepKeepsInv(s, Next(s, RemoveTemp(0, ok)), Next(s, RemoveTemp(0, ok)).jobs[0].phase);
  }

  /** What is left of the queue when its first write has settled. */
  lemma SettleKeepsQueue(jobs: seq<Job>, generation: nat, created: nat, pendingWrite: Option<nat>, timer: bool)
    requires QueueOk(jobs, generation, created, pendingWrite, timer) && jobs != []
    ensures QueueOk(jobs[1..], generation, created,
                    if pendingWrite == Some(jobs[0].id) then None else pendingWrite, timer)
  {
  }

  lemma SettleKeepsTemps(
    jobs: seq<Job>, temps: map<nat, View>, inFlight: Option<nat>, generation: nat, timer: bool, file: Option<Stamped>)
    requires TempsOk(jobs, temps, inFlight, generation, timer, file)
    requires jobs != [] && jobs[0].phase.Settling? && (1 < |jobs| ==> jobs[1].phase.Waiting?)
    ensures TempsOk(jobs[1..], temps, inFlight, generation, timer, file)
  {
  }

  lemma SettleKeepsRest(s: State)
    requires Inv(s) && s.jobs != []
    ensures StampOk(s.jobs[1..], FileGen(s), s.generation, s.timer, s.temps)
    ensures DrainOk(s.drain, s.jobs[1..], s.generation, s.created, s.timer)
    ensures CurrentOk(s.jobs, s.generation, s.activeView) ==> CurrentOk(s.jobs[1..], s.generation, s.activeView)
  {
    hide QueueOk, TempsOk;
  }

  lemma SettleKeepsInv(s: State)
    requires Inv(s) && Enabled(s, Settle(0))
    ensures Inv(Next(s, Settle(0)))
  {
    assert 1 < |s.jobs| ==> s.jobs[1].phase.Waiting?;
    SettleKeepsRest(s);
    hide QueueOk, TempsOk, StampOk, DrainOk, CurrentOk;
    assert Next(s, Settle(0)).jobs == s.jobs[1..];
    SettleKeepsQueue(s.jobs, s.generation, s.created, s.pendingWrite, s.timer);
    SettleKeepsTemps(s.jobs, s.temps, s.inFlight, s.generation, s.timer, s.file);
  }

  /** A flush that reaches the disk vetoes a parked rename by removing its temporary file. */
  lemma VetoKeepsInv(s: State)
    requires Inv(s) && s.inFlight.Some?
    ensures Inv(s.(timer := false, generation := s.generation + 1,
                   temps := s.temps - {s.inFlight.value}, inFlight := None))
  {
    BumpKeepsInv(s, s.activeView, false);
    hide QueueOk, DrainOk, CurrentOk;
  }

  /** The write of a flush, under a generation that no queued write has. */
  lemma FlushWriteKeepsInv(s: State)
    requires Inv(s) && !s.timer && FileGen(s) < s.generation
    requires forall i :: 0 <= i < |s.jobs| ==> s.jobs[i].gen < s.generation
    requires s.jobs != [] && s.jobs[0].phase.Renaming? ==> s.jobs[0].gen !in s.temps
    ensures Inv(s.(temps := s.temps[s.generation := s.activeView]))
    ensures Inv(s.(temps := s.temps - {s.generation}, file := Some(Stamped(s.activeView, s.generation)),
                   persisted := Some(s.activeView)))
  {
    assert forall i :: 0 < i < |s.jobs| ==> s.jobs[i].phase.Waiting?;
    hide QueueOk, DrainOk, CurrentOk;
  }

  /** The state in which a flush writes: parked rename vetoed, generation raised. */
  function Vetoed(s: State): State {
    var s1 := s.(timer := false, generation := s.generation + 1);
    if s.inFlight.Some? && s.inFlight.value in s.temps
    then s1.(temps := s.temps - {s.inFlight.value}, inFlight := None) else s1
  }

  lemma VetoedReadyToWrite(s: State)
    requires Inv(s)
    ensures Inv(Vetoed(s))
  {
    hide Inv;
    BumpKeepsInv(s, s.activeView, false);
    if s.inFlight.Some? && s.inFlight.value in s.temps { VetoKeepsInv(s); }
  }

  lemma VetoedFacts(s: State)
    requires Inv(s)
    ensures var t := Vetoed(s);
            && FileGen(t) < t.generation
            && (forall i :: 0 <= i < |t.jobs| ==> t.jobs[i].gen < t.generation)
            && (t.jobs != [] && t.jobs[0].phase.Renaming? ==> t.jobs[0].gen !in t.temps)
  {
  }

  lemma FlushKeepsInv(s: State, u: bool, w: bool, r: bool)
    requires Inv(s)
    ensures Inv(FlushedOrThrew(s, u, w, r).0)
  {
    hide Inv;
    if s.quitStarted { return; }
    BumpKeepsInv(s, s.activeView, false);
    SupersedeKeepsInv(s);
    VetoedReadyToWrite(s);
    VetoedFacts(s);
    FlushWriteKeepsInv(Vetoed(s));
  }

  lemma DrainEndKeepsInv(s: State, timer: bool, aborted: bool)
    requires Inv(s) && (timer ==> s.timer)
    ensures Inv(s.(timer := timer, drain := Settled(aborted)))
  {
  }

  lemma DrainTurnKeepsInv(s: State)
    requires Inv(s)
    ensures Inv(DrainTurn(s))
  {
    hide Inv;
    DrainEndKeepsInv(s, false, false);
    DrainEndKeepsInv(s, s.timer, true);
    SettingDrainKeepsInv(s);
  }

  lemma SettingDrainKeepsInv(s: State)
    requires Inv(s)
    ensures var t := EnqueueWrite(s.(timer := false, generation := s.generation + 1), s.activeView, s.generation + 1);
            Inv(t.(drain := Awaiting(s.created, s.generation + 1)))
  {
    SupersedeKeepsInv(s);
    hide QueueOk, TempsOk, StampOk, CurrentOk;
  }

  /** The invariant does not look at who waits for a flush. */
  lemma ConsumersKeepInv(s: State, quit: bool, signals: set<nat>, unabortable: nat, aborted: set<nat>)
    requires Inv(s) && (s.quitStarted ==> quit)
    ensures Inv(s.(quitStarted := quit, signals := signals, unabortable := unabortable, aborted := aborted))
  {
    hide QueueOk, TempsOk, StampOk, DrainOk, CurrentOk;
  }

  lemma JoinKeepsInv(s: State, signal: Option<nat>)
    requires Inv(s)
    ensures Inv(JoinFlush(s, signal))
  {
    hide Inv;
    var t := JoinFlush(s, signal);
    ConsumersKeepInv(s, s.quitStarted, t.signals, t.unabortable, s.aborted);
  }

  lemma FlushPendingKeepsInv(s: State, signal: Option<nat>)
    requires Inv(s)
    ensures Inv(FlushedPending(s, signal))
  {
    hide Inv;
    JoinKeepsInv(s, signal);
    DrainTurnKeepsInv(JoinFlush(s, signal));
  }

  lemma LastIsUnsettled(s: State, id: nat)
    requires HasSettled(s, id)
    ensures s.jobs != [] ==> s.jobs[|s.jobs| - 1].id != id
  {
    if s.jobs != [] { assert s.jobs[|s.jobs| - 1] in s.jobs; }
  }

  lemma NoPendingWrite(s: State)
    requires Inv(s)
    ensures s.pendingWrite.None? <==> s.jobs == []
  {
  }

  lemma ViewKeepsInv(s: State, view: View)
    requires Inv(s) && (s.quitStarted || s.jobs == [])
    ensures Inv(s.(activeView := view))
  {
    hide QueueOk, TempsOk, StampOk, DrainOk;
  }

  lemma SetKeepsInv(s: State, value: Option<View>)
    requires Inv(s)
    ensures Inv(SetView(s, value))
  {
    hide Inv;
    NoPendingWrite(s);
    if value.Some? {
      BumpKeepsInv(s, value.value, true);
      if s.quitStarted || s.jobs == [] { ViewKeepsInv(s, value.value); }
    }
  }

  lemma FlushAsyncKeepsInv(s: State)
    requires Inv(s)
    ensures Inv(FlushedAsync(s))
  {
    hide Inv;
    ConsumersKeepInv(s, true, s.signals, s.unabortable, s.aborted);
    FlushPendingKeepsInv(s.(quitStarted := true), None);
  }

  lemma ResumeKeepsInv(s: State)
    requires Inv(s) && s.drain.Awaiting?
    ensures Inv(ResumedDrain(s))
  {
    hide Inv;
    DrainEndKeepsInv(s, s.timer, true);
    DrainEndKeepsInv(s, s.timer, false);
    DrainTurnKeepsInv(s);
  }

  lemma FinishKeepsInv(s: State)
    requires Inv(s)
    ensures Inv(FinishedDrain(s))
  {
    hide QueueOk, TempsOk, StampOk, CurrentOk;
  }

  lemma StepKeepsInv(s: State, e: Event)
    requires Inv(s) && Enabled(s, e)
    ensures Inv(Next(s, e))
  {
    hide Inv;
    match e
    case Set(value) => SetKeepsInv(s, value);
    case TimerFires => TimerKeepsInv(s);
    case StartWrite(i) => OnlyTheFirstWriteIsActive(s, i); StartKeepsInv(s);
    case WriteTemp(i, ok) => OnlyTheFirstWriteIsActive(s, i); WriteTempKeepsInv(s, ok);
    case CheckGeneration(i) => OnlyTheFirstWriteIsActive(s, i); CheckKeepsInv(s);
    case Rename(i, ok) => OnlyTheFirstWriteIsActive(s, i); RenameKeepsInv(s, ok);
    case AfterRename(i) => OnlyTheFirstWriteIsActive(s, i); AfterRenameKeepsInv(s);
    case RemoveTemp(i, ok) => OnlyTheFirstWriteIsActive(s, i); RemoveKeepsInv(s, ok);
    case Settle(i) => OnlyTheFirstWriteIsActive(s, i); SettleKeepsInv(s);
    case FlushOrThrow(u, w, r) => FlushKeepsInv(s, u, w, r);
    case FlushAsync => FlushAsyncKeepsInv(s);
    case FlushPending(signal) => FlushPendingKeepsInv(s, signal);
    case Abort(signal) => ConsumersKeepInv(s, s.quitStarted, s.signals, s.unabortable, s.aborted + {signal});
    case ResumeDrain => ResumeKeepsInv(s);
    case FinishDrain => FinishKeepsInv(s);
  }

  lemma {:induction false} RunKeepsInv(s: State, run: seq<Event>)
    requires Inv(s) && Legal(s, run)
    ensures Inv(Exec(s, run))
    decreases |run|
  {
    if run != [] {
      StepKeepsInv(s, run[0]);
      RunKeepsInv(Next(s, run[0]), run[1..]);
    }
  }

  lemma InitialInv(stored: Option<View>, fallback: View)
    ensures Inv(Initial(stored, fallback))
  {
  }

  /** A step replaces the file only by a write of a later generation. */
  lemma RenameRaisesStamp(s: State, i: nat, ok: bool)
    requires Inv(s) && Enabled(s, Rename(i, ok))
    ensures var t := Next(s, Rename(i, ok)); t.file == s.file || FileGen(s) < FileGen(t)
  {
    OnlyTheFirstWriteIsActive(s, i);
    assert s.jobs[0].gen in s.temps ==> FileGen(s) < s.jobs[0].gen;
    hide Inv;
  }

  /** Only a rename and a synchronous flush touch the file. */
  lemma FileFrame(s: State, e: Event)
    requires Enabled(s, e) && !e.Rename? && !e.FlushOrThrow?
    ensures Next(s, e).file == s.file
  {
  }

  lemma StampsRise(s: State, e: Event)
    requires Inv(s) && Enabled(s, e)
    ensures FileGen(s) <= FileGen(Next(s, e))
    ensures Next(s, e).file == s.file || FileGen(s) < FileGen(Next(s, e))
  {
    assert FileGen(s) <= s.generation;
    hide Inv;
    if e.Rename? {
      RenameRaisesStamp(s, e.i, e.ok);
    } else if !e.FlushOrThrow? {
      FileFrame(s, e);
      hide Next;
    }
  }

  lemma {:induction false} RunStampsRise(s: State, run: seq<Event>)
    requires Inv(s) && Legal(s, run)
    ensures FileGen(s) <= FileGen(Exec(s, run))
    ensures Exec(s, run).file == s.file || FileGen(s) < FileGen(Exec(s, run))
    decreases |run|
  {
    if run != [] {
      StampsRise(s, run[0]);
      StepKeepsInv(s, run[0]);
      hide Inv;
      RunStampsRise(Next(s, run[0]), run[1..]);
    }
  }

  /**
   A synchronous flush that returns through its own write leaves the view that was active when
   it was called, and whatever runs afterwards, only a write of a later generation replaces it.
   */
  lemma FlushWriteIsFinal(
    stored: Option<View>, fallback: View, before: seq<Event>, u: bool, w: bool, r: bool, after: seq<Event>)
    requires Legal(Initial(stored, fallback), before)
    requires var s := Exec(Initial(stored, fallback), before);
             FlushedOrThrew(s, u, w, r).1.Wrote? && Legal(FlushedOrThrew(s, u, w, r).0, after)
    ensures var s := Exec(Initial(stored, fallback), before);
            var flushed := FlushedOrThrew(s, u, w, r).0;
            var final := Exec(flushed, after);
            && flushed.file == Some(Stamped(s.activeView, s.generation + 1))
            && (final.file == flushed.file || s.generation + 1 < FileGen(final))
  {
    InitialInv(stored, fallback);
    RunKeepsInv(Initial(stored, fallback), before);
    var s := Exec(Initial(stored, fallback), before);
    FlushKeepsInv(s, u, w, r);
    hide Inv;
    RunStampsRise(FlushedOrThrew(s, u, w, r).0, after);
  }

  function DiskView(s: State): Option<View> {
    if s.file.Some? then Some(s.file.value.view) else None
  }

  lemma {:induction false} ExtendRun(s: State, run: seq<Event>, e: Event)
    requires Legal(s, run) && Enabled(Exec(s, run), e)
    ensures Legal(s, run + [e]) && Exec(s, run + [e]) == Next(Exec(s, run), e)
    decreases |run|
  {
    if run == [] {
      assert run + [e] == [e];
      assert Legal(Next(s, e), [e][1..]);
    } else {
      ExtendRun(Next(s, run[0]), run[1..], e);
      assert (run + [e])[1..] == run[1..] + [e];
    }
  }

  /** Appends to a run the whole of a write by the first queued job, up to its claim. */
  lemma ExtendToClaim(s: State, run: seq<Event>) returns (run': seq<Event>)
    requires Legal(s, run)
    requires var t := Exec(s, run);
             t.jobs != [] && Enabled(t, StartWrite(0)) && t.jobs[0].gen == t.generation
    ensures Legal(s, run')
    ensures var t := Exec(s, run);
            Exec(s, run') == WithPhase(t, 0, Renaming).(
              inFlight := Some(t.generation), temps := t.temps[t.generation := t.jobs[0].view])
  {
    ExtendRun(s, run, StartWrite(0));
    run' := run + [StartWrite(0)];
    ExtendRun(s, run', WriteTemp(0, true));
    run' := run' + [WriteTemp(0, true)];
    ExtendRun(s, run', CheckGeneration(0));
    run' := run' + [CheckGeneration(0)];
  }

  /**
   The run on which a flush returns and the disk holds another view: a switch back to the
   stored view supersedes a write that is already renaming, so `persisted` misses it.
   */
  lemma FlushCanLeaveStaleView() returns (run: seq<Event>)
    ensures Legal(Initial(Some(Terminal), Terminal), run)
    ensures var s := Exec(Initial(Some(Terminal), Terminal), run);
            && FlushedOrThrew(s, true, true, true).1.Unneeded?
            && s.activeView == Terminal && DiskView(FlushedOrThrew(s, true, true, true).0) == Some(Tasks)
  {
    var s := Initial(Some(Terminal), Terminal);
    ExtendRun(s, [], Set(Some(Tasks)));
    ExtendRun(s, [] + [Set(Some(Tasks))], TimerFires);
    run := [] + [Set(Some(Tasks))] + [TimerFires];
    run := ExtendToClaim(s, run);
    ExtendRun(s, run, Set(Some(Terminal)));
    run := run + [Set(Some(Terminal))];
    ExtendRun(s, run, Rename(0, true));
    run := run + [Rename(0, true)];
    ExtendRun(s, run, AfterRename(0));
    run := run + [AfterRename(0)];
    ExtendRun(s, run, Settle(0));
    run := run + [Settle(0)];
  }

  /** At most one queued write is past its start, and no two of them share a temporary file. */
  lemma SingleWriter(stored: Option<View>, fallback: View, run: seq<Event>, i: nat, j: nat)
    requires Legal(Initial(stored, fallback), run)
    requires i < j < |Exec(Initial(stored, fallback), run).jobs|
    ensures var jobs := Exec(Initial(stored, fallback), run).jobs;
            jobs[j].phase.Waiting? && jobs[i].gen < jobs[j].gen
  {
    InitialInv(stored, fallback);
    RunKeepsInv(Initial(stored, fallback), run);
  }

  /** Creating a temporary file never finds one of that name. */
  lemma TempNamesNeverCollide(stored: Option<View>, fallback: View, run: seq<Event>, i: nat)
    requires Legal(Initial(stored, fallback), run)
    ensures var s := Exec(Initial(stored, fallback), run);
            && (Enabled(s, WriteTemp(i, true)) ==> s.jobs[i].gen !in s.temps)
            && s.generation + 1 !in s.temps
  {
    InitialInv(stored, fallback);
    RunKeepsInv(Initial(stored, fallback), run);
    var s := Exec(Initial(stored, fallback), run);
    if Enabled(s, WriteTemp(i, true)) { OnlyTheFirstWriteIsActive(s, i); }
  }

  /** Before the quit flush, a queued write of the current generation carries the current view. */
  lemma CurrentWriteCarriesCurrentView(stored: Option<View>, fallback: View, run: seq<Event>, i: nat)
    requires Legal(Initial(stored, fallback), run)
    requires var s := Exec(Initial(stored, fallback), run);
             !s.quitStarted && i < |s.jobs| && s.jobs[i].gen == s.generation
    ensures var s := Exec(Initial(stored, fallback), run);
            s.jobs[i].view == s.activeView
  {
    InitialInv(stored, fallback);
    RunKeepsInv(Initial(stored, fallback), run);
  }
}
