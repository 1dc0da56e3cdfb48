/** I/O errors of the writer: each is reported once, and a flush that throws loses nothing. */
module ActiveViewErrors {
  import opened Options
  import opened ActiveViewSteps
  import opened ActiveViewSafety
  import opened ActiveViewSync

  /**
   A queued write fails: it could not write its temporary file, its rename was refused, or it found its
   temporary file gone although no later write has superseded it.
   */
  predicate Fails(s: State, e: Event) {
    match e
    case WriteTemp(_, ok) => !ok
    case Rename(i, ok) => !ok && i < |s.jobs| && s.jobs[i].gen in s.temps
    case AfterRename(i) => i < |s.jobs| && s.jobs[i].phase == Renamed(NoEntry) && s.jobs[i].gen == s.generation
    case _ => false
  }

  function Failures(s: State, run: seq<Event>): nat
    requires Legal(s, run)
    decreases |run|
  {
    if run == [] then 0 else (if Fails(s, run[0]) then 1 else 0) + Failures(Next(s, run[0]), run[1..])
  }

  /** A write has failed and its promise has not settled yet. */
  function Unreported(jobs: seq<Job>): nat {
    if jobs != [] && (jobs[0].phase == Renamed(Refused) || jobs[0].phase == Removing(true) || jobs[0].phase == Settling(true))
    then 1 else 0
  }

  function Account(s: State): nat {
    s.reported + Unreported(s.jobs)
  }

  lemma PhaseAccount(s: State, phase: Phase)
    requires s.jobs != []
    ensures var t := WithPhase(s, 0, phase);
      && t.reported == s.reported && t.jobs != [] && t.jobs[0].phase == phase
      && Account(t) == s.reported + if phase == Renamed(Refused) || phase == Removing(true) || phase == Settling(true) then 1 else 0
  {
  }

  lemma SettledOnce(s: State)
    requires s.jobs != [] && s.jobs[0].phase.Settling? && (1 < |s.jobs| ==> s.jobs[1].phase.Waiting?)
    ensures var t := SettledWrite(s, 0);
      && Unreported(t.jobs) == 0 && t.reported == s.reported + if s.jobs[0].phase.failed then 1 else 0
  {
    assert SettledWrite(s, 0).jobs == s.jobs[1..];
  }

  lemma SettleAccount(s: State)
    requires Inv(s) && Enabled(s, Settle(0))
    ensures Account(SettledWrite(s, 0)) == Account(s)
  {
    hide Inv, HasSettled, SettledWrite;
    SecondWriteWaits(s);
    SettledOnce(s);
  }

  lemma WriterAccount(s: State, e: Event)
    requires Enabled(s, e)
    requires (e.StartWrite? || e.WriteTemp? || e.CheckGeneration? || e.Rename? || e.AfterRename? || e.RemoveTemp?) && e.i == 0
    ensures Account(Next(s, e)) == Account(s) + if Fails(s, e) then 1 else 0
  {
    hide HasSettled;
    match e
    case StartWrite(_) => PhaseAccount(s, Writing);
    case WriteTemp(_, ok) => PhaseAccount(s, if ok then Written else Removing(true));
    case CheckGeneration(_) => PhaseAccount(s, if s.jobs[0].gen != s.generation then Removing(false) else Renaming);
    case Rename(_, ok) =>
      PhaseAccount(s, Renamed(if s.jobs[0].gen !in s.temps then NoEntry else if ok then Landed else Refused));
    case AfterRename(_) =>
      PhaseAccount(s, if s.jobs[0].phase.outcome.Landed? then Settling(false)
                      else Removing(s.jobs[0].phase.outcome.Refused? || s.jobs[0].gen == s.generation));
    case RemoveTemp(_, _) => PhaseAccount(s, Settling(s.jobs[0].phase.failed));
  }

  lemma EnqueueAccount(s: State, view: View, gen: nat)
    ensures Account(EnqueueWrite(s, view, gen)) == Account(s)
  {
  }

  lemma DrainAccount(s: State)
    ensures Account(DrainTurn(s)) == Account(s)
  {
    hide EnqueueWrite, AllConsumersAborted;
    EnqueueAccount(s.(timer := false, generation := s.generation + 1), s.activeView, s.generation + 1);
  }

  lemma OtherAccount(s: State, e: Event)
    requires Enabled(s, e)
    requires e.Set? || e.TimerFires? || e.FlushAsync? || e.FlushPending? || e.Abort? || e.ResumeDrain? || e.FinishDrain?
    ensures Account(Next(s, e)) == Account(s)
  {
    hide DrainTurn, EnqueueWrite, HasSettled, AllConsumersAborted;
    match e
    case TimerFires => EnqueueAccount(s.(timer := false), s.activeView, s.generation);
    case FlushAsync => DrainAccount(JoinFlush(s.(quitStarted := true), None));
    case FlushPending(signal) => DrainAccount(JoinFlush(s, signal));
    case ResumeDrain => DrainAccount(s);
    case _ =>
  }

  lemma FlushAccount(s: State, u: bool, w: bool, r: bool)
    ensures Account(FlushedOrThrew(s, u, w, r).0) == Account(s)
  {
    hide EnqueueWrite;
    EnqueueAccount(s.(timer := false, generation := s.generation + 1), s.activeView, s.generation + 1);
  }

  lemma StepAccount(s: State, e: Event)
    requires Inv(s) && Enabled(s, e)
    ensures Account(Next(s, e)) == Account(s) + if Fails(s, e) then 1 else 0
  {
    hide Inv, Account, HasSettled;
    match e
    case StartWrite(i) => OnlyTheFirstWriteIsActive(s, i); WriterAccount(s, e);
    case WriteTemp(i, _) => OnlyTheFirstWriteIsActive(s, i); WriterAccount(s, e);
    case CheckGeneration(i) => OnlyTheFirstWriteIsActive(s, i); WriterAccount(s, e);
    case Rename(i, _) => OnlyTheFirstWriteIsActive(s, i); WriterAccount(s, e);
    case AfterRename(i) => OnlyTheFirstWriteIsActive(s, i); WriterAccount(s, e);
    case RemoveTemp(i, _) => OnlyTheFirstWriteIsActive(s, i); WriterAccount(s, e);
    case Settle(i) => OnlyTheFirstWriteIsActive(s, i); SettleAccount(s);
    case FlushOrThrow(u, w, r) => FlushAccount(s, u, w, r);
    case _ => OtherAccount(s, e);
  }

  lemma {:induction false} RunAccount(s: State, run: seq<Event>)
    requires Inv(s) && Legal(s, run)
    ensures Account(Exec(s, run)) == Account(s) + Failures(s, run)
    decreases |run|
  {
    hide Inv, Account, Next, Enabled, Fails;
    if run != [] {
      StepKeepsInv(s, run[0]);
      StepAccount(s, run[0]);
      RunAccount(Next(s, run[0]), run[1..]);
    }
  }

  /** In every run each failed write is reported exactly once, when it settles, and nothing else is reported. */
  lemma FailuresAreReported(stored: Option<View>, fallback: View, run: seq<Event>)
    requires Legal(Initial(stored, fallback), run)
    ensures var s := Exec(Initial(stored, fallback), run);
      && s.reported + Unreported(s.jobs) == Failures(Initial(stored, fallback), run)
      && (s.pendingWrite.None? ==> s.reported == Failures(Initial(stored, fallback), run))
  {
    InitialInv(stored, fallback);
    RunKeepsInv(Initial(stored, fallback), run);
    RunAccount(Initial(stored, fallback), run);
    NoPendingWrite(Exec(Initial(stored, fallback), run));
  }

  /**
   A flush that throws leaves file and memory as they were; after the quit flush it changes nothing at all,
   and when it could not veto a parked rename it queues the active view behind it, under a later generation.
   */
  lemma ThrownFlushLosesNothing(s: State, u: bool, w: bool, r: bool)
    requires FlushedOrThrew(s, u, w, r).1.Threw?
    ensures var t := FlushedOrThrew(s, u, w, r).0;
      && t.file == s.file && t.persisted == s.persisted && t.activeView == s.activeView
      && (s.quitStarted ==> t == s)
      && (!s.quitStarted && s.inFlight.Some? && s.inFlight.value in s.temps && !u ==>
            && t.temps == s.temps && |t.jobs| == |s.jobs| + 1 && t.jobs[..|s.jobs|] == s.jobs
            && t.jobs[|s.jobs|].view == s.activeView && t.jobs[|s.jobs|].gen == t.generation > s.generation
            && t.pendingWrite == Some(t.jobs[|s.jobs|].id))
  {
  }

  /** A flush is refused after the quit flush, and otherwise fails only when a file operation does. */
  lemma FlushThrowsOnlyOnErrors(s: State, u: bool, w: bool, r: bool)
    ensures s.quitStarted ==> FlushedOrThrew(s, u, w, r).1.Threw?
    ensures !s.quitStarted && u && w && r ==> !FlushedOrThrew(s, u, w, r).1.Threw?
    ensures !s.quitStarted && !(s.pendingWrite.None? && s.persisted == Some(s.activeView)) && (!w || !r) ==>
      FlushedOrThrew(s, u, w, r).1.Threw?
    ensures FlushedOrThrew(s, u, w, r).1.Wrote? ==> !FlushedOrThrew(s, u, w, r).0.timer
  {
  }
}
