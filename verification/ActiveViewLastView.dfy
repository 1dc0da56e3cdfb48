/** Which view the quit flush leaves on disk, with view switches while its drain is running. */
module ActiveViewLastView {
  import opened Options
  import opened ActiveViewSteps
  import opened ActiveViewSafety
  import opened ActiveViewSync
  import opened ActiveViewQuit
  import opened ActiveViewLate

  /** The write that the drain awaits was superseded: the drain will go round again. */
  predicate GoesRound(s: State) {
    s.drain.Awaiting? && s.drain.gen != s.generation
  }

  /** The view of the last queued write, or the one on disk when nothing is queued. */
  function SavedView(s: State): Option<View> {
    if s.jobs != [] then Some(s.jobs[|s.jobs| - 1].view) else DiskView(s)
  }

  /** The view that the drain is going to leave on disk if no other is selected. */
  function WillSave(s: State): Option<View> {
    if GoesRound(s) then Some(s.activeView) else SavedView(s)
  }

  /** What `WillSave` becomes: only a switch while the drain has to go round again changes it. */
  function Switched(s: State, e: Event, w: Option<View>): Option<View> {
    if e.Set? && e.value.Some? && GoesRound(s) then e.value else w
  }

  function LastSaved(s: State, run: seq<Event>, w: Option<View>): Option<View>
    requires Legal(s, run)
    decreases |run|
  {
    if run == [] then w else LastSaved(Next(s, run[0]), run[1..], Switched(s, run[0], w))
  }

  ghost predicate Draining(s: State, target: View) {
    Tracks(s, target) && QuitOk(s)
  }

  /** A last write of the current generation that is about to settle is on disk. */
  lemma SettlesOnDisk(s: State, target: View)
    requires Draining(s, target) && s.drain.Awaiting? && s.drain.gen == s.generation
    requires |s.jobs| == 1 && s.jobs[0].phase.Settling?
    ensures DiskView(s) == Some(s.jobs[0].view)
  {
    hide TempsOk, StampOk;
  }

  lemma SettleKeepsSaved(s: State, target: View)
    requires Draining(s, target) && Enabled(s, Settle(0)) && !GoesRound(s)
    ensures SavedView(SettledWrite(s, 0)) == SavedView(s)
  {
    assert s.drain.Awaiting?;
    if |s.jobs| == 1 {
      SettlesOnDisk(s, target);
    }
    hide Draining, HasSettled;
    assert SettledWrite(s, 0).jobs == s.jobs[1..];
  }

  /** Before it settles, the first write keeps its place and its view. */
  lemma HeadStepKeepsViews(s: State, e: Event)
    requires Enabled(s, e) && WriterStep(e) && !e.Settle? && e.i == 0
    ensures var t := Next(s, e); t.jobs != [] && |t.jobs| == |s.jobs| && SavedView(t) == SavedView(s)
  {
    hide WithPhase, HasSettled, DiskView;
    KeepsViews(s, Writing);
    match e
    case StartWrite(_) => KeepsViews(s, Writing);
    case WriteTemp(_, ok) => KeepsViews(s, if ok then Written else Removing(true));
    case CheckGeneration(_) => KeepsViews(s, if s.jobs[0].gen != s.generation then Removing(false) else Renaming);
    case Rename(_, ok) =>
      KeepsViews(s, Renamed(if s.jobs[0].gen !in s.temps then NoEntry else if ok then Landed else Refused));
    case AfterRename(_) =>
      KeepsViews(s, if s.jobs[0].phase.outcome.Landed? then Settling(false)
                    else Removing(s.jobs[0].phase.outcome.Refused? || s.jobs[0].gen == s.generation));
    case RemoveTemp(_, _) => KeepsViews(s, Settling(s.jobs[0].phase.failed));
  }

  lemma KeepsViews(s: State, phase: Phase)
    requires s.jobs != []
    ensures var t := WithPhase(s, 0, phase);
      t.jobs != [] && |t.jobs| == |s.jobs| && t.jobs[|t.jobs| - 1].view == s.jobs[|s.jobs| - 1].view
  {
  }

  lemma WriterKeepsWill(s: State, target: View, e: Event)
    requires Draining(s, target) && Enabled(s, e) && WriterStep(e)
    ensures WillSave(Next(s, e)) == WillSave(s)
  {
    WriterIsFirst(s, e);
    WriterKeepsGeneration(s, e);
    if !GoesRound(s) {
      if e.Settle? {
        SettleKeepsSaved(s, target);
      } else {
        hide Draining;
        HeadStepKeepsViews(s, e);
      }
    }
    hide Draining, Next;
  }

  lemma WriterIsFirst(s: State, e: Event)
    requires Inv(s) && Enabled(s, e) && WriterStep(e)
    ensures e.i == 0
  {
    hide Inv, HasSettled;
    OnlyTheFirstWriteIsActive(s, e.i);
  }

  lemma WriterKeepsGeneration(s: State, e: Event)
    requires Enabled(s, e) && WriterStep(e)
    ensures var t := Next(s, e); t.drain == s.drain && t.generation == s.generation && t.activeView == s.activeView
  {
    hide HasSettled;
  }

  /** A passed exit test of the drain: the active view is the one on disk. */
  lemma ExitIsRight(s: State, target: View)
    requires Draining(s, target) && NothingToWrite(s) && (s.timer ==> DiskView(s) == s.persisted)
    ensures s.jobs == [] && DiskView(s) == Some(s.activeView)
  {
    NoPendingWrite(s);
    hide TempsOk, StampOk;
  }

  lemma ResumeKeepsWill(s: State, target: View)
    requires Draining(s, target) && Enabled(s, ResumeDrain) && Clean(s, ResumeDrain)
    ensures WillSave(ResumedDrain(s)) == WillSave(s)
  {
    if s.drain.gen == s.generation {
      CurrentDrainIsAlone(s);
    } else {
      if NothingToWrite(s) { ExitIsRight(s, target); }
    }
    hide Draining, HasSettled;
  }

  lemma OthersKeepWill(s: State, target: View, e: Event)
    requires Draining(s, target) && Enabled(s, e) && Joins(s, e)
    requires e.TimerFires? || e.FlushOrThrow? || e.FlushAsync? || e.FlushPending? || e.Abort? || e.FinishDrain?
    ensures WillSave(Next(s, e)) == WillSave(s)
  {
    if s.drain.Awaiting? && s.drain.gen == s.generation { CurrentDrainIsAlone(s); }
    hide Inv, CleanInv, HasSettled, DrainTurn;
  }

  lemma StepKeepsWill(s: State, target: View, e: Event)
    requires Draining(s, target) && Enabled(s, e) && ErrorFree(s, e) && Joins(s, e)
    ensures WillSave(Next(s, e)) == Switched(s, e, WillSave(s))
  {
    hide Draining, Next, Clean, WillSave;
    if e.Set? {
      SetChangesWill(s, e.value);
    } else if WriterStep(e) {
      WriterKeepsWill(s, target, e);
    } else if e.ResumeDrain? {
      ResumeKeepsWill(s, target);
      ResumeIsNext(s);
    } else {
      OthersKeepWill(s, target, e);
    }
    DrainingQuits(s, target);
  }

  lemma DrainingQuits(s: State, target: View)
    requires Draining(s, target)
    ensures s.quitStarted
  {
  }

  lemma ResumeIsNext(s: State)
    requires Enabled(s, ResumeDrain)
    ensures Next(s, ResumeDrain) == ResumedDrain(s)
  {
  }

  lemma SetChangesWill(s: State, value: Option<View>)
    ensures Next(s, Set(value)) == SetView(s, value)
    ensures s.quitStarted ==> WillSave(SetView(s, value)) == Switched(s, Set(value), WillSave(s))
  {
  }

  lemma StepKeepsDraining(s: State, target: View, e: Event) returns (next: View)
    requires Draining(s, target) && Enabled(s, e) && ErrorFree(s, e)
    ensures Draining(Next(s, e), next)
  {
    hide Tracks, QuitOk, Next;
    next := StepTracks(s, target, e);
    TracksMeansInv(s, target);
    QuitStep(s, e);
  }

  lemma TracksMeansInv(s: State, target: View)
    requires Tracks(s, target)
    ensures Inv(s)
  {
  }

  lemma {:induction false} RunKeepsWill(s: State, target: View, run: seq<Event>, w: Option<View>) returns (last: View)
    requires Draining(s, target) && WillSave(s) == w
    requires Legal(s, run) && ErrorFreeRun(s, run) && OnlyJoins(s, run)
    ensures Draining(Exec(s, run), last)
    ensures WillSave(Exec(s, run)) == LastSaved(s, run, w)
    decreases |run|
  {
    hide Draining, Next, Enabled, ErrorFree, WillSave, Switched, Joins;
    last := target;
    if run != [] {
      StepKeepsWill(s, target, run[0]);
      var next := StepKeepsDraining(s, target, run[0]);
      last := RunKeepsWill(Next(s, run[0]), next, run[1..], Switched(s, run[0], w));
    }
  }

  /** When the drain has ended, what it was going to save is on disk. */
  lemma EndedIsOnDisk(s: State, target: View)
    requires Draining(s, target) && s.drain.Idle?
    ensures WillSave(s) == DiskView(s)
  {
    hide Tracks;
  }

  predicate NoSwitch(run: seq<Event>) {
    forall e <- run :: !e.Set?
  }

  lemma {:induction false} WithoutSwitch(s: State, run: seq<Event>, w: Option<View>)
    requires Legal(s, run) && NoSwitch(run)
    ensures LastSaved(s, run, w) == w
    decreases |run|
  {
    hide Next, Enabled;
    if run != [] { WithoutSwitch(Next(s, run[0]), run[1..], w); }
  }

  /**
   A switch after the quit flush reaches the disk exactly when the drain has to go round again, or the
   view is the one being saved anyway: however the rest of the drain falls, with joining flushes and
   without I/O errors or a further switch.
   */
  lemma LateSwitchIsSavedIff(s: State, target: View, view: View, during: seq<Event>)
    requires Draining(s, target)
    requires var t := SetView(s, Some(view));
      && Legal(t, during) && ErrorFreeRun(t, during) && OnlyJoins(t, during) && NoSwitch(during)
      && Exec(t, during).drain.Idle?
    ensures DiskView(Exec(SetView(s, Some(view)), during)) == Some(view) <==> GoesRound(s) || SavedView(s) == Some(view)
  {
    var t := SetView(s, Some(view));
    SetStaysDraining(s, target, view);
    hide Draining, SetView, Exec, OnlyJoins, ErrorFreeRun;
    var last := RunKeepsWill(t, target, during, WillSave(t));
    WithoutSwitch(t, during, WillSave(t));
    EndedIsOnDisk(Exec(t, during), last);
  }

  lemma SetStaysDraining(s: State, target: View, view: View)
    requires Draining(s, target)
    ensures var t := SetView(s, Some(view));
      && Draining(t, target)
      && WillSave(t) == if GoesRound(s) then Some(view) else SavedView(s)
  {
    TargetKeepsInv(s, view);
    hide Inv, CleanInv;
    assert Targeting(SetView(s, Some(view)), target) == Targeting(s, target);
    assert SetView(s, Some(view)) == Targeting(s, view);
  }

  /** A drain awaits its first write, and the view was switched meanwhile. */
  function Interrupted(): State {
    Initial(Some(Terminal), Terminal).(
      activeView := Settings, generation := 3, timer := true,
      jobs := [Job(Tasks, 2, 0, None, Waiting)], pendingWrite := Some(0), created := 1,
      drain := Awaiting(0, 2), unabortable := 1)
  }

  lemma ReachInterrupted() returns (run: seq<Event>)
    ensures Legal(Initial(Some(Terminal), Terminal), run)
    ensures Exec(Initial(Some(Terminal), Terminal), run) == Interrupted()
  {
    var s0 := Initial(Some(Terminal), Terminal);
    ExtendRun(s0, [], Set(Some(Tasks)));
    run := [] + [Set(Some(Tasks))];
    ExtendRun(s0, run, FlushPending(None));
    run := run + [FlushPending(None)];
    ExtendRun(s0, run, Set(Some(Settings)));
    run := run + [Set(Some(Settings))];
  }

  lemma InterruptedIsClean()
    ensures var s := Interrupted(); CleanInv(s) && !LeftBehind(s) && Clean(s, FlushAsync)
  {
  }

  lemma InterruptedGoesRound()
    ensures var t := FlushedAsync(Interrupted());
      GoesRound(t) && t.activeView == Settings && DiskView(t) == Some(Terminal)
  {
  }

  /** A run to a drain that goes round again: a switch between its write and the quit flush that joins it. */
  lemma LateSwitchCanBeSaved() returns (run: seq<Event>)
    ensures Legal(Initial(Some(Terminal), Terminal), run)
    ensures var s := Exec(Initial(Some(Terminal), Terminal), run);
            Draining(s, Settings) && GoesRound(s) && s.activeView == Settings && DiskView(s) == Some(Terminal)
  {
    var s0 := Initial(Some(Terminal), Terminal);
    run := ReachInterrupted();
    InitialInv(Some(Terminal), Terminal);
    RunKeepsInv(s0, run);
    InterruptedIsClean();
    hide Inv, CleanInv, Draining, FlushedAsync, Exec, Legal, Clean;
    QuitStartsDraining(Interrupted());
    InterruptedGoesRound();
    ExtendRun(s0, run, FlushAsync);
    run := run + [FlushAsync];
  }

  /** At the quit flush that leaves no work behind, the active view is the one to be saved. */
  lemma QuitSavesActive(s: State)
    requires Inv(s) && CleanInv(s) && !s.quitStarted && !LeftBehind(s) && Clean(s, FlushAsync)
    ensures WillSave(FlushedAsync(s)) == Some(s.activeView)
  {
    NoPendingWrite(s);
    if s.drain.Awaiting? && s.drain.gen == s.generation { CurrentDrainIsAlone(s); }
    hide TempsOk, StampOk, HasSettled;
  }

  /**
   What a quit flush that leaves no work behind has put on disk when it resolves, in every run without
   I/O errors: the view active when it was asked for, or the last one selected while its drain had to
   go round again.
   */
  lemma QuitFlushSaves(stored: Option<View>, fallback: View, before: seq<Event>, during: seq<Event>)
    requires CleanRun(Initial(stored, fallback), before) && Legal(Initial(stored, fallback), before)
    requires var s := Exec(Initial(stored, fallback), before);
             && !s.quitStarted && !LeftBehind(s) && Clean(s, FlushAsync)
             && Resolves(s, during) && ErrorFreeRun(FlushedAsync(s), during)
    ensures var s := Exec(Initial(stored, fallback), before);
            DiskView(Exec(FlushedAsync(s), during)) == LastSaved(FlushedAsync(s), during, Some(s.activeView))
  {
    var s0 := Initial(stored, fallback);
    InitialInv(stored, fallback);
    assert CleanInv(s0);
    RunKeepsClean(s0, before);
    var s := Exec(s0, before);
    QuitSavesActive(s);
    QuitStartsDraining(s);
    hide Draining, Exec, OnlyJoins, ErrorFreeRun, FlushedAsync, Inv, CleanInv, WillSave;
    var last := RunKeepsWill(FlushedAsync(s), s.activeView, during, Some(s.activeView));
    EndedIsOnDisk(Exec(FlushedAsync(s), during), last);
  }

  lemma QuitStartsDraining(s: State)
    requires Inv(s) && CleanInv(s) && !s.quitStarted && !LeftBehind(s) && Clean(s, FlushAsync)
    ensures Draining(FlushedAsync(s), s.activeView)
  {
    QuitFlushTakesCharge(s);
    FlushAsyncKeepsInv(s);
    FlushAsyncKeepsClean(s);
    KeepsActive(s);
    hide Inv, CleanInv, FlushedAsync;
    assert Targeting(FlushedAsync(s), s.activeView) == FlushedAsync(s);
  }

  lemma KeepsActive(s: State)
    requires !s.quitStarted
    ensures FlushedAsync(s).activeView == s.activeView && FlushedAsync(s).quitStarted
  {
  }
}
