/** The quit flush: it ends, it is the last write, and what it leaves on disk. */
module ActiveViewQuit {
  import opened Options
  import opened ActiveViewSteps
  import opened ActiveViewSafety
  import opened ActiveViewSync

  /** What holds from the quit flush on. */
  ghost predicate QuitOk(s: State) {
    s.quitStarted &&
    match s.drain
    case Awaiting(_, gen) => gen == s.generation || s.unabortable > 0
    case _ => !s.timer && s.jobs == []
  }

  /** The drain that the quit flush would join is over, and there is still something to write. */
  predicate LeftBehind(s: State) {
    s.drain.Settled? && (s.timer || s.pendingWrite.Some?)
  }

  lemma QuitFlushTakesCharge(s: State)
    requires Inv(s) && !s.quitStarted && !LeftBehind(s)
    ensures QuitOk(FlushedAsync(s))
  {
    NoPendingWrite(s);
  }

  /** The run on which the quit flush leaves work behind: a switch between a drain's end and its `finally`. */
  lemma QuitFlushCanMissAWrite() returns (run: seq<Event>)
    ensures Legal(Initial(Some(Terminal), Terminal), run)
    ensures var s := Exec(Initial(Some(Terminal), Terminal), run);
            && s.quitStarted && s.drain.Idle? && s.timer
            && s.activeView == Tasks && DiskView(s) == Some(Terminal)
  {
    var s := Initial(Some(Terminal), Terminal);
    ExtendRun(s, [], FlushPending(None));
    run := [] + [FlushPending(None)];
    ExtendRun(s, run, Set(Some(Tasks)));
    run := run + [Set(Some(Tasks))];
    ExtendRun(s, run, FlushAsync);
    run := run + [FlushAsync];
    ExtendRun(s, run, FinishDrain);
    run := run + [FinishDrain];
  }

  /** How often the generation may still rise before the drain ends. */
  function Budget(s: State): nat {
    if s.drain.Awaiting? && s.drain.gen != s.generation then 1 else 0
  }

  lemma QuitResume(s: State)
    requires Inv(s) && QuitOk(s) && Enabled(s, ResumeDrain)
    ensures QuitOk(ResumedDrain(s))
    ensures ResumedDrain(s).timer ==> s.timer
    ensures ResumedDrain(s).generation + Budget(ResumedDrain(s)) <= s.generation + Budget(s)
  {
    NoPendingWrite(s);
    if s.drain.gen == s.generation { CurrentDrainIsAlone(s); }
    hide Inv;
  }

  predicate WriterStep(e: Event) {
    e.StartWrite? || e.WriteTemp? || e.CheckGeneration? || e.Rename? || e.AfterRename? || e.RemoveTemp? || e.Settle?
  }

  /** The steps of a queued write leave timer, generation and flush alone. */
  lemma WriterFrame(s: State, e: Event)
    requires Enabled(s, e) && WriterStep(e)
    ensures var t := Next(s, e);
            && t.timer == s.timer && t.generation == s.generation && t.quitStarted == s.quitStarted
            && t.drain == s.drain && t.unabortable == s.unabortable && s.jobs != []
  {
  }

  /** A pending flush that is asked for meanwhile finds a drain to join. */
  predicate Joins(s: State, e: Event) {
    e.FlushPending? ==> !s.drain.Idle?
  }

  predicate OnlyJoins(s: State, run: seq<Event>)
    requires Legal(s, run)
    decreases |run|
  {
    run == [] || (Joins(s, run[0]) && OnlyJoins(Next(s, run[0]), run[1..]))
  }

  lemma QuitStep(s: State, e: Event)
    requires Inv(s) && QuitOk(s) && Enabled(s, e)
    ensures QuitOk(Next(s, e))
    ensures Next(s, e).timer ==> s.timer
    ensures Joins(s, e) ==> Next(s, e).generation + Budget(Next(s, e)) <= s.generation + Budget(s)
  {
    NoPendingWrite(s);
    hide Inv;
    if WriterStep(e) {
      WriterFrame(s, e);
      hide Next;
    } else if e.ResumeDrain? {
      QuitResume(s);
    }
  }

  lemma JoiningBudget(s: State)
    requires Inv(s) && !s.quitStarted
    ensures FlushedAsync(s).generation + Budget(FlushedAsync(s)) <= s.generation + 1
  {
  }

  predicate NoNewFlush(run: seq<Event>) {
    forall e <- run :: !e.FlushPending?
  }

  lemma {:induction false} QuitRun(s: State, run: seq<Event>)
    requires Inv(s) && QuitOk(s) && Legal(s, run) && OnlyJoins(s, run)
    ensures Inv(Exec(s, run)) && QuitOk(Exec(s, run))
    ensures Exec(s, run).timer ==> s.timer
    ensures Exec(s, run).generation + Budget(Exec(s, run)) <= s.generation + Budget(s)
    decreases |run|
  {
    hide Inv, QuitOk;
    if run != [] {
      StepKeepsInv(s, run[0]);
      QuitStep(s, run[0]);
      QuitRun(Next(s, run[0]), run[1..]);
    }
  }

  predicate Quiet(s: State) {
    s.quitStarted && s.drain.Idle? && !s.timer && s.jobs == [] && s.pendingWrite.None?
  }

  lemma {:induction false} QuietRun(s: State, run: seq<Event>)
    requires Quiet(s) && Legal(s, run) && NoNewFlush(run)
    ensures Quiet(Exec(s, run))
    ensures Exec(s, run).file == s.file && Exec(s, run).generation == s.generation
    decreases |run|
  {
    if run != [] { QuietRun(Next(s, run[0]), run[1..]); }
  }

  /**
   The quit flush is the final write: until it resolves the generation rises at most once, whoever
   joins it meanwhile; when it has resolved no timer is armed and no write is pending, and until
   another pending flush is asked for the file never changes again.
   */
  lemma QuitFlushIsFinal(
    stored: Option<View>, fallback: View, before: seq<Event>, during: seq<Event>, after: seq<Event>)
    requires Legal(Initial(stored, fallback), before)
    requires var s := Exec(Initial(stored, fallback), before);
             && !s.quitStarted && !LeftBehind(s)
             && Resolves(s, during)
             && Legal(Exec(FlushedAsync(s), during), after)
    requires NoNewFlush(after)
    ensures var s := Exec(Initial(stored, fallback), before);
            var done := Exec(FlushedAsync(s), during);
            && done.generation <= s.generation + 1
            && !done.timer && done.pendingWrite.None?
            && Exec(done, after).file == done.file
  {
    hide Inv;
    InitialInv(stored, fallback);
    RunKeepsInv(Initial(stored, fallback), before);
    var s := Exec(Initial(stored, fallback), before);
    QuitFlushTakesCharge(s);
    FlushAsyncKeepsInv(s);
    JoiningBudget(s);
    hide FlushedAsync;
    QuitRun(FlushedAsync(s), during);
    var done := Exec(FlushedAsync(s), during);
    NoPendingWrite(done);
    QuietRun(done, after);
  }

  /** A schedule from the quit flush to the end of its drain. */
  predicate Resolves(s: State, during: seq<Event>) {
    Legal(FlushedAsync(s), during) && OnlyJoins(FlushedAsync(s), during) && Exec(FlushedAsync(s), during).drain.Idle?
  }

  predicate AtRest(s: State) {
    !s.timer && s.pendingWrite.None?
  }

  lemma FinishAlone(t: State)
    requires t.drain.Settled?
    ensures Legal(t, [FinishDrain]) && OnlyJoins(t, [FinishDrain]) && Exec(t, [FinishDrain]) == FinishedDrain(t)
  {
    var run := [FinishDrain];
    assert Enabled(t, run[0]) && Joins(t, run[0]);
    assert run[1..] == [];
    assert Legal(Next(t, run[0]), []);
  }

  /**
   However the steps fall, the quit flush resolves with no timer armed and no write pending: exactly
   when it was not asked for between a drain's end and its `finally` with work left.
   */
  lemma QuitFlushFinishesIff(s: State)
    requires Inv(s) && !s.quitStarted
    ensures (forall during | Resolves(s, during) :: AtRest(Exec(FlushedAsync(s), during))) <==> !LeftBehind(s)
  {
    if LeftBehind(s) {
      var t := FlushedAsync(s);
      FinishAlone(t);
      assert Resolves(s, [FinishDrain]) && !AtRest(Exec(t, [FinishDrain]));
    } else {
      QuitFlushTakesCharge(s);
      FlushAsyncKeepsInv(s);
      hide Inv, QuitOk, FlushedAsync, OnlyJoins;
      forall during | Resolves(s, during) ensures AtRest(Exec(FlushedAsync(s), during)) {
        QuitRun(FlushedAsync(s), during);
        IdleQuitIsAtRest(Exec(FlushedAsync(s), during));
      }
    }
  }

  lemma IdleQuitIsAtRest(s: State)
    requires Inv(s) && QuitOk(s) && s.drain.Idle?
    ensures AtRest(s)
  {
    NoPendingWrite(s);
  }

  /** A drain that is over because every consumer had aborted: its promise is about to reject. */
  predicate Rejecting(s: State) {
    s.drain == Settled(true)
  }

  predicate Unfinished(during: seq<Event>) {
    forall e <- during :: !e.FinishDrain?
  }

  predicate Unabortable(s: State) {
    s.unabortable > 0 && !s.drain.Idle? && !Rejecting(s)
  }

  lemma StaysUnabortable(s: State, e: Event)
    requires Unabortable(s) && Enabled(s, e) && !e.FinishDrain?
    ensures Unabortable(Next(s, e))
  {
    hide HasSettled, NothingToWrite;
    if WriterStep(e) {
      WriterFrame(s, e);
      hide Next;
    }
  }

  lemma {:induction false} RunStaysUnabortable(s: State, during: seq<Event>)
    requires Unabortable(s) && Legal(s, during) && Unfinished(during)
    ensures Unabortable(Exec(s, during))
    decreases |during|
  {
    hide Unabortable, Next, Enabled;
    if during != [] {
      StaysUnabortable(s, during[0]);
      RunStaysUnabortable(Next(s, during[0]), during[1..]);
    }
  }

  /**
   The quit flush is meant never to reject. It rejects on some schedule exactly when it joins a drain
   that its consumers' aborts have ended already.
   */
  lemma QuitFlushRejectsIff(s: State)
    requires !s.quitStarted
    ensures (exists during | Legal(FlushedAsync(s), during) && Unfinished(during) :: Rejecting(Exec(FlushedAsync(s), during)))
            <==> Rejecting(s)
  {
    var t := FlushedAsync(s);
    if Rejecting(s) {
      assert Legal(t, []) && Unfinished([]) && Rejecting(Exec(t, []));
    } else {
      JoinIsUnabortable(s);
      forall during | Legal(t, during) && Unfinished(during) ensures !Rejecting(Exec(t, during)) {
        RunStaysUnabortable(t, during);
      }
    }
  }

  /** Appends to a run a first queued write that fails before its rename. */
  lemma ExtendByFailedWrite(s: State, run: seq<Event>) returns (run': seq<Event>)
    requires Legal(s, run)
    requires var t := Exec(s, run); |t.jobs| == 1 && Enabled(t, StartWrite(0))
    ensures Legal(s, run')
    ensures var t, t' := Exec(s, run), Exec(s, run');
      && t'.jobs == [] && t'.drain == t.drain && t'.signals == t.signals && t'.unabortable == t.unabortable
      && t'.quitStarted == t.quitStarted && t'.aborted == t.aborted
  {
    ExtendRun(s, run, StartWrite(0));
    run' := run + [StartWrite(0)];
    ExtendRun(s, run', WriteTemp(0, false));
    run' := run' + [WriteTemp(0, false)];
    ExtendRun(s, run', RemoveTemp(0, true));
    run' := run' + [RemoveTemp(0, true)];
    ExtendRun(s, run', Settle(0));
    run' := run' + [Settle(0)];
  }

  /** The run on which it does: the only consumer aborts while the drain awaits its write. */
  lemma QuitFlushCanReject() returns (run: seq<Event>)
    ensures Legal(Initial(None, Terminal), run)
    ensures var s := Exec(Initial(None, Terminal), run); !s.quitStarted && Rejecting(FlushedAsync(s))
  {
    var s := Initial(None, Terminal);
    ExtendRun(s, [], FlushPending(Some(0)));
    run := ExtendByFailedWrite(s, [] + [FlushPending(Some(0))]);
    ExtendRun(s, run, Abort(0));
    run := run + [Abort(0)];
    ExtendRun(s, run, ResumeDrain);
    run := run + [ResumeDrain];
  }

  lemma JoinIsUnabortable(s: State)
    requires !s.quitStarted && !Rejecting(s)
    ensures Unabortable(FlushedAsync(s))
  {
    hide NothingToWrite;
  }

  /** After the quit flush only the writer itself moves: timer, queued writes and the drain. */
  predicate Internal(e: Event) {
    !(e.Set? || e.FlushOrThrow? || e.FlushAsync? || e.FlushPending? || e.Abort?)
  }

  function PhaseWeight(phase: Phase): nat {
    match phase
    case Waiting => 7
    case Writing => 6
    case Written => 5
    case Renaming => 4
    case Renamed(_) => 3
    case Removing(_) => 2
    case Settling(_) => 1
  }

  function QueueWeight(jobs: seq<Job>): nat {
    if jobs == [] then 0 else PhaseWeight(jobs[0].phase) + QueueWeight(jobs[1..])
  }

  /** Bounds the number of internal steps that are left. */
  function Measure(s: State): nat {
    (if s.timer then 8 else 0) + QueueWeight(s.jobs) +
    (match s.drain
     case Idle => 0
     case Settled(_) => 1
     case Awaiting(_, gen) => if gen == s.generation then 2 else 10)
  }

  lemma {:induction false} QueueWeightAppend(jobs: seq<Job>, job: Job)
    ensures QueueWeight(jobs + [job]) == QueueWeight(jobs) + PhaseWeight(job.phase)
  {
    if jobs == [] {
      assert jobs + [job] == [job];
    } else {
      assert (jobs + [job])[1..] == jobs[1..] + [job];
      QueueWeightAppend(jobs[1..], job);
    }
  }

  lemma HeadMeasure(s: State, t: State)
    requires s.jobs != [] && t.jobs != [] && t.jobs == s.jobs[0 := t.jobs[0]]
    requires PhaseWeight(t.jobs[0].phase) < PhaseWeight(s.jobs[0].phase)
    requires t.timer == s.timer && t.drain == s.drain && t.generation == s.generation
    ensures Measure(t) < Measure(s)
  {
    assert t.jobs[1..] == s.jobs[1..];
  }

  lemma EnqueueMeasure(s: State)
    requires Inv(s) && (s.timer || Enabled(s, ResumeDrain))
    requires s.drain.Awaiting? && s.drain.gen == s.generation ==> s.jobs == [] || s.timer
    ensures s.timer ==> Measure(TimerFired(s)) < Measure(s)
    ensures Enabled(s, ResumeDrain) ==> Measure(ResumedDrain(s)) < Measure(s)
  {
    hide Inv;
    QueueWeightAppend(s.jobs, Job(s.activeView, s.generation, s.created, s.pendingWrite, Waiting));
    QueueWeightAppend(s.jobs, Job(s.activeView, s.generation + 1, s.created, s.pendingWrite, Waiting));
  }

  lemma SettleMeasure(s: State)
    requires s.jobs != [] && s.jobs[0].phase.Settling?
    ensures Measure(SettledWrite(s, 0)) < Measure(s)
  {
    assert SettledWrite(s, 0).jobs == s.jobs[1..];
  }

  lemma WriterMeasure(s: State, e: Event)
    requires Enabled(s, e) && WriterStep(e) && !e.Settle? && e.i == 0
    ensures Measure(Next(s, e)) < Measure(s)
  {
    WriterFrame(s, e);
    WriterAdvances(s, e);
    hide Next;
    HeadMeasure(s, Next(s, e));
  }

  lemma PhaseAdvances(s: State, phase: Phase)
    requires s.jobs != [] && PhaseWeight(phase) < PhaseWeight(s.jobs[0].phase)
    ensures var t := WithPhase(s, 0, phase);
            && t.jobs != [] && t.jobs == s.jobs[0 := t.jobs[0]]
            && PhaseWeight(t.jobs[0].phase) < PhaseWeight(s.jobs[0].phase)
  {
    hide PhaseWeight;
  }

  lemma WriterAdvances(s: State, e: Event)
    requires Enabled(s, e) && WriterStep(e) && !e.Settle? && e.i == 0
    ensures var t := Next(s, e);
            && t.jobs != [] && t.jobs == s.jobs[0 := t.jobs[0]]
            && PhaseWeight(t.jobs[0].phase) < PhaseWeight(s.jobs[0].phase)
  {
    hide WithPhase, HasSettled;
    match e
    case StartWrite(_) => PhaseAdvances(s, Writing);
    case WriteTemp(_, ok) => PhaseAdvances(s, if ok then Written else Removing(true));
    case CheckGeneration(_) => PhaseAdvances(s, if s.jobs[0].gen != s.generation then Removing(false) else Renaming);
    case Rename(_, ok) =>
      PhaseAdvances(s, Renamed(if s.jobs[0].gen !in s.temps then NoEntry else if ok then Landed else Refused));
    case AfterRename(_) =>
      PhaseAdvances(s, if s.jobs[0].phase.outcome.Landed? then Settling(false)
                       else Removing(s.jobs[0].phase.outcome.Refused? || s.jobs[0].gen == s.generation));
    case RemoveTemp(_, _) => PhaseAdvances(s, Settling(s.jobs[0].phase.failed));
  }

  lemma DrainMeasure(s: State, e: Event)
    requires Inv(s) && Enabled(s, e) && (e.TimerFires? || e.ResumeDrain? || e.FinishDrain?)
    ensures Measure(Next(s, e)) < Measure(s)
  {
    if !e.FinishDrain? {
      if s.drain.Awaiting? && s.drain.gen == s.generation { CurrentDrainIsAlone(s); }
      EnqueueMeasure(s);
    }
  }

  lemma QuitMeasure(s: State, e: Event)
    requires Inv(s) && QuitOk(s) && Enabled(s, e) && Joins(s, e)
    ensures if Internal(e) then Measure(Next(s, e)) < Measure(s) else Measure(Next(s, e)) == Measure(s)
  {
    if !Internal(e) { return; }
    hide Inv, Measure;
    if e.TimerFires? || e.ResumeDrain? || e.FinishDrain? {
      DrainMeasure(s, e);
    } else {
      OnlyTheFirstWriteIsActive(s, e.i);
      if e.Settle? { SettleMeasure(s); } else { WriterMeasure(s, e); }
    }
  }

  lemma CurrentDrainIsAlone(s: State)
    requires Inv(s) && s.drain.Awaiting? && s.drain.gen == s.generation
    ensures !s.timer && (HasSettled(s, s.drain.id) ==> s.jobs == [])
  {
    if HasSettled(s, s.drain.id) { LastIsUnsettled(s, s.drain.id); }
  }

  function InternalSteps(run: seq<Event>): nat {
    if run == [] then 0 else (if Internal(run[0]) then 1 else 0) + InternalSteps(run[1..])
  }

  /** The drain ends: no schedule takes more internal steps than the measure allows. */
  lemma {:induction false} QuitTerminates(s: State, run: seq<Event>)
    requires Inv(s) && QuitOk(s) && Legal(s, run) && OnlyJoins(s, run)
    ensures InternalSteps(run) + Measure(Exec(s, run)) <= Measure(s)
    decreases |run|
  {
    hide Inv, QuitOk;
    if run != [] {
      StepKeepsInv(s, run[0]);
      QuitStep(s, run[0]);
      QuitMeasure(s, run[0]);
      hide Measure;
      QuitTerminates(Next(s, run[0]), run[1..]);
    }
  }

  /** The step the writer takes next while a drain is unfinished. */
  function NextInternal(s: State): Event {
    if s.drain.Settled? then FinishDrain
    else if s.jobs == [] then ResumeDrain
    else match s.jobs[0].phase
      case Waiting => StartWrite(0)
      case Writing => WriteTemp(0, true)
      case Written => CheckGeneration(0)
      case Renaming => Rename(0, true)
      case Renamed(_) => AfterRename(0)
      case Removing(_) => RemoveTemp(0, true)
      case Settling(_) => Settle(0)
  }

  /** ... and it never gets stuck on the way there. */
  lemma DrainCanProceed(s: State)
    requires Inv(s) && !s.drain.Idle?
    ensures Internal(NextInternal(s)) && Enabled(s, NextInternal(s))
  {
  }

  lemma QuitKeepsSaved(s: State, e: Event)
    requires Inv(s) && QuitOk(s) && CleanInv(s) && Enabled(s, e) && Clean(s, e)
    requires s.drain.Awaiting? || s.persisted.Some?
    ensures Next(s, e).drain.Awaiting? || Next(s, e).persisted.Some?
  {
    NoPendingWrite(s);
    if e.ResumeDrain? && s.drain.gen == s.generation { CurrentDrainIsAlone(s); }
    hide Inv;
  }

  lemma {:induction false} QuitRunSaves(s: State, run: seq<Event>)
    requires Inv(s) && QuitOk(s) && CleanInv(s) && CleanRun(s, run)
    requires s.drain.Awaiting? || s.persisted.Some?
    ensures Legal(s, run)
    ensures var t := Exec(s, run);
            Inv(t) && QuitOk(t) && CleanInv(t) && (t.drain.Awaiting? || t.persisted.Some?)
    decreases |run|
  {
    hide Inv, QuitOk, CleanInv;
    if run != [] {
      StepKeepsInv(s, run[0]);
      QuitStep(s, run[0]);
      StepKeepsClean(s, run[0]);
      QuitKeepsSaved(s, run[0]);
      QuitRunSaves(Next(s, run[0]), run[1..]);
    }
  }

  /**
   In a run without I/O errors, a quit flush that leaves no work behind has put the active view on
   disk by the time it resolves.
   */
  lemma QuitFlushSavesActiveView(stored: Option<View>, fallback: View, before: seq<Event>, during: seq<Event>)
    requires CleanRun(Initial(stored, fallback), before)
    requires Legal(Initial(stored, fallback), before)
    requires var s := Exec(Initial(stored, fallback), before);
             && !s.quitStarted && !LeftBehind(s) && Clean(s, FlushAsync)
             && CleanRun(FlushedAsync(s), during) && Legal(FlushedAsync(s), during)
             && Exec(FlushedAsync(s), during).drain.Idle?
    ensures var s := Exec(Initial(stored, fallback), before);
            var done := Exec(FlushedAsync(s), during);
            DiskView(done) == Some(done.activeView)
  {
    var s0 := Initial(stored, fallback);
    hide Inv;
    InitialInv(stored, fallback);
    assert CleanInv(s0);
    RunKeepsClean(s0, before);
    var s := Exec(s0, before);
    QuitFlushTakesCharge(s);
    FlushAsyncKeepsInv(s);
    FlushAsyncKeepsClean(s);
    NoPendingWrite(FlushedAsync(s));
    NoPendingWrite(s);
    QuitRunSaves(FlushedAsync(s), during);
  }
}
