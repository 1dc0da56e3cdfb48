/** View switches after the quit flush are not saved; what memory believes is stored still matches the disk. */
module ActiveViewLate {
  import opened Options
  import opened ActiveViewSteps
  import opened ActiveViewSafety
  import opened ActiveViewSync

  /** No I/O error, and no armed timer dropped where memory misses the disk; views may be switched at any time. */
  predicate ErrorFree(s: State, e: Event) {
    e.Set? || Clean(s, e)
  }

  predicate ErrorFreeRun(s: State, run: seq<Event>)
    decreases |run|
  {
    run == [] || (Enabled(s, run[0]) && ErrorFree(s, run[0]) && ErrorFreeRun(Next(s, run[0]), run[1..]))
  }

  /** The state as it would be if `view`, the one that is being saved, were still active. */
  function Targeting(s: State, view: View): State {
    s.(activeView := view)
  }

  ghost predicate Tracks(s: State, target: View) {
    && Inv(s) && CleanInv(Targeting(s, target))
    && (!s.quitStarted ==> target == s.activeView)
  }

  lemma TargetKeepsInv(s: State, view: View)
    requires Inv(s) && s.quitStarted
    ensures Inv(Targeting(s, view))
  {
  }

  /** An armed timer, or an exit without writing, makes the active view the one to save. */
  lemma Retarget(s: State, target: View)
    requires Inv(s) && CleanInv(Targeting(s, target))
    requires s.timer || NothingToWrite(s)
    ensures CleanInv(s)
  {
    NoPendingWrite(s);
    hide TempsOk, StampOk;
  }

  /** A drain that enqueues saves the view active at that moment. */
  lemma DrainRetargets(s: State, target: View)
    requires Inv(s) && CleanInv(Targeting(s, target)) && !NothingToWrite(s) && !AllConsumersAborted(s)
    ensures CleanInv(DrainTurn(s))
  {
    hide TempsOk, StampOk;
  }

  lemma DrainTracks(s: State, target: View) returns (next: View)
    requires Inv(s) && s.quitStarted && CleanInv(Targeting(s, target))
    requires NothingToWrite(s) && !AllConsumersAborted(s) && s.timer ==> DiskView(s) == s.persisted
    requires s.drain.Idle? ==> !AllConsumersAborted(s)
    ensures CleanInv(Targeting(DrainTurn(s), next))
  {
    next := if AllConsumersAborted(s) then target else s.activeView;
    if AllConsumersAborted(s) {
      TargetKeepsInv(s, target);
      DrainTurnKeepsClean(Targeting(s, target));
    } else {
      if NothingToWrite(s) {
        Retarget(s, target);
        DrainTurnKeepsClean(s);
      } else {
        DrainRetargets(s, target);
      }
      DrainKeepsView(s);
    }
  }

  lemma DrainKeepsView(s: State)
    ensures Targeting(DrainTurn(s), s.activeView) == DrainTurn(s)
  {
  }

  lemma JoinedSame(s: State, signal: Option<nat>)
    ensures var t := JoinFlush(s, signal);
      && NothingToWrite(t) == NothingToWrite(s) && t.timer == s.timer && t.persisted == s.persisted
      && DiskView(t) == DiskView(s) && t.drain == s.drain && t.quitStarted == s.quitStarted
  {
  }

  lemma FlushPendingTracks(s: State, target: View, signal: Option<nat>) returns (next: View)
    requires Inv(s) && s.quitStarted && CleanInv(Targeting(s, target)) && Clean(s, FlushPending(signal))
    ensures CleanInv(Targeting(FlushedPending(s, signal), next))
  {
    hide Inv, CleanInv, DrainTurn;
    next := target;
    if signal.None? || signal.value !in s.aborted {
      var joined := JoinFlush(s, signal);
      JoinKeepsInv(s, signal);
      JoinKeepsClean(Targeting(s, target), signal);
      assert JoinFlush(Targeting(s, target), signal) == Targeting(joined, target);
      assert AllConsumersAborted(joined) == AllConsumersAborted(Targeting(joined, target));
      JoinedSame(s, signal);
      if s.drain.Idle? { next := DrainTracks(joined, target); }
    }
  }

  lemma ResumeTracks(s: State, target: View) returns (next: View)
    requires Inv(s) && s.quitStarted && CleanInv(Targeting(s, target))
    requires Enabled(s, ResumeDrain) && Clean(s, ResumeDrain)
    ensures CleanInv(Targeting(ResumedDrain(s), next))
  {
    hide Inv, CleanInv, DrainTurn;
    next := target;
    if !AllConsumersAborted(s) && s.drain.gen != s.generation {
      next := DrainTracks(s, target);
    } else {
      TargetKeepsInv(s, target);
      ResumeKeepsClean(Targeting(s, target));
      assert ResumedDrain(Targeting(s, target)) == Targeting(ResumedDrain(s), target);
    }
  }

  /** The other steps do not look at the active view. */
  predicate Blind(e: Event) {
    !(e.Set? || e.TimerFires? || e.FlushOrThrow? || e.FlushAsync? || e.FlushPending? || e.ResumeDrain?)
  }

  lemma BlindCondition(s: State, target: View, e: Event)
    requires Enabled(s, e) && Blind(e)
    ensures Enabled(Targeting(s, target), e)
    ensures Clean(s, e) ==> Clean(Targeting(s, target), e)
  {
    hide AllConsumersAborted;
  }

  lemma BlindBeforeRename(s: State, target: View, i: nat, ok: bool)
    requires i < |s.jobs|
    ensures WithPhase(Targeting(s, target), i, Writing) == Targeting(WithPhase(s, i, Writing), target)
    ensures WroteTemp(Targeting(s, target), i, ok) == Targeting(WroteTemp(s, i, ok), target)
    ensures CheckedGeneration(Targeting(s, target), i) == Targeting(CheckedGeneration(s, i), target)
  {
  }

  lemma BlindRename(s: State, target: View, i: nat, ok: bool)
    requires i < |s.jobs|
    ensures RenamedTemp(Targeting(s, target), i, ok) == Targeting(RenamedTemp(s, i, ok), target)
    ensures s.jobs[i].phase.Renamed? ==>
      ContinuedAfterRename(Targeting(s, target), i) == Targeting(ContinuedAfterRename(s, i), target)
  {
  }

  lemma BlindAfterRename(s: State, target: View, i: nat, ok: bool)
    requires i < |s.jobs|
    ensures s.jobs[i].phase.Removing? ==> RemovedTemp(Targeting(s, target), i, ok) == Targeting(RemovedTemp(s, i, ok), target)
    ensures s.jobs[i].phase.Settling? ==> SettledWrite(Targeting(s, target), i) == Targeting(SettledWrite(s, i), target)
  {
  }

  lemma BlindStep(s: State, target: View, e: Event)
    requires Enabled(s, e) && Blind(e) && Enabled(Targeting(s, target), e)
    ensures Next(Targeting(s, target), e) == Targeting(Next(s, e), target)
  {
    hide WithPhase, WroteTemp, CheckedGeneration, RenamedTemp, ContinuedAfterRename, RemovedTemp, SettledWrite, HasSettled;
    match e
    case StartWrite(i) => BlindBeforeRename(s, target, i, true);
    case WriteTemp(i, ok) => BlindBeforeRename(s, target, i, ok);
    case CheckGeneration(i) => BlindBeforeRename(s, target, i, true);
    case Rename(i, ok) => BlindRename(s, target, i, ok);
    case AfterRename(i) => BlindRename(s, target, i, true);
    case RemoveTemp(i, ok) => BlindAfterRename(s, target, i, ok);
    case Settle(i) => BlindAfterRename(s, target, i, true);
    case _ =>
  }

  lemma QuitStays(s: State, e: Event)
    requires s.quitStarted && Enabled(s, e)
    ensures Next(s, e).quitStarted
  {
    hide HasSettled;
  }

  lemma StepTracksLate(s: State, target: View, e: Event) returns (next: View)
    requires Tracks(s, target) && s.quitStarted && Enabled(s, e) && ErrorFree(s, e)
    ensures CleanInv(Targeting(Next(s, e), next)) && Next(s, e).quitStarted
  {
    hide Inv, CleanInv, DrainTurn;
    next := target;
    QuitStays(s, e);
    if e.TimerFires? {
      Retarget(s, target);
      TimerKeepsClean(s);
      next := s.activeView;
      assert Targeting(Next(s, e), next) == Next(s, e);
    } else if e.FlushPending? {
      next := FlushPendingTracks(s, target, e.signal);
    } else if e.ResumeDrain? {
      next := ResumeTracks(s, target);
    } else if Blind(e) {
      BlindCondition(s, target, e);
      BlindStep(s, target, e);
      TargetKeepsInv(s, target);
      StepKeepsClean(Targeting(s, target), e);
    } else {
      assert Targeting(Next(s, e), target) == Targeting(s, target);
    }
  }

  lemma StepTracks(s: State, target: View, e: Event) returns (next: View)
    requires Tracks(s, target) && Enabled(s, e) && ErrorFree(s, e)
    ensures Tracks(Next(s, e), next)
  {
    hide Inv, CleanInv, Next, Clean;
    StepKeepsInv(s, e);
    if s.quitStarted {
      next := StepTracksLate(s, target, e);
    } else {
      next := Next(s, e).activeView;
      assert Targeting(s, target) == s;
      SetIsClean(s, e);
      StepKeepsClean(s, e);
      assert Targeting(Next(s, e), next) == Next(s, e);
    }
  }

  lemma SetIsClean(s: State, e: Event)
    requires !s.quitStarted && ErrorFree(s, e)
    ensures Clean(s, e)
  {
  }

  lemma {:induction false} RunTracks(s: State, target: View, run: seq<Event>) returns (last: View)
    requires Tracks(s, target) && ErrorFreeRun(s, run)
    ensures Legal(s, run) && Tracks(Exec(s, run), last)
    decreases |run|
  {
    hide Tracks, Next, Enabled, ErrorFree;
    last := target;
    if run != [] {
      var next := StepTracks(s, target, run[0]);
      last := RunTracks(Next(s, run[0]), next, run[1..]);
    }
  }

  /**
   In every run without I/O errors in which no flush dropped an armed timer where memory missed the
   disk, at rest the file holds what memory believes is stored; and until the quit flush that is the active view.
   */
  lemma RestingFileIsKnown(stored: Option<View>, fallback: View, run: seq<Event>)
    requires ErrorFreeRun(Initial(stored, fallback), run)
    ensures Legal(Initial(stored, fallback), run)
    ensures var s := Exec(Initial(stored, fallback), run);
            && s.reported == 0
            && (!s.timer && s.pendingWrite.None? ==>
                  && DiskView(s) == s.persisted
                  && (!s.quitStarted && s.persisted.Some? ==> s.persisted == Some(s.activeView)))
  {
    var s0 := Initial(stored, fallback);
    InitialInv(stored, fallback);
    assert CleanInv(s0) && Targeting(s0, s0.activeView) == s0;
    var last := RunTracks(s0, s0.activeView, run);
    NoPendingWrite(Exec(s0, run));
  }

  /** After the quit flush a switch is not saved: the run on which the file keeps the old view at rest. */
  lemma LateSwitchIsNotSaved() returns (run: seq<Event>)
    ensures ErrorFreeRun(Initial(Some(Terminal), Terminal), run)
    ensures Legal(Initial(Some(Terminal), Terminal), run)
    ensures var s := Exec(Initial(Some(Terminal), Terminal), run);
            && !s.timer && s.pendingWrite.None? && s.drain.Idle?
            && s.activeView == Tasks && s.persisted == Some(Terminal) && DiskView(s) == Some(Terminal)
  {
    var s0 := Initial(Some(Terminal), Terminal);
    var s1 := Next(s0, FlushAsync);
    var s2 := Next(s1, FinishDrain);
    run := [FlushAsync, FinishDrain, Set(Some(Tasks))];
    assert run[1..] == [FinishDrain, Set(Some(Tasks))] && run[1..][1..] == [Set(Some(Tasks))];
    assert ErrorFreeRun(s2, [Set(Some(Tasks))]) && Legal(s2, [Set(Some(Tasks))]);
    assert ErrorFreeRun(s1, run[1..]) && Legal(s1, run[1..]);
  }
}
