/** The early exits of a flush: the history that decides whether the disk holds the active view. */
module ActiveViewExits {
  import opened Options
  import opened ActiveViewSteps
  import opened ActiveViewSafety
  import opened ActiveViewSync

  /**
   `known` is the generation of the write that `persisted` was last set for; `overwritten` is the view
   of the last rename that landed after it without setting `persisted`, because it was superseded.
   */
  datatype History = History(known: nat, overwritten: Option<View>)

  const NOTHING := History(0, None)

  function Observe(s: State, h: History, e: Event): History
    requires Enabled(s, e)
  {
    match e
    case AfterRename(i) =>
      var job := s.jobs[i];
      if !job.phase.outcome.Landed? then h
      else if job.gen == s.generation then History(job.gen, None)
      else if job.gen > h.known then h.(overwritten := Some(job.view))
      else h
    case FlushOrThrow(u, w, r) =>
      if FlushedOrThrew(s, u, w, r).1.Wrote? then History(s.generation + 1, None) else h
    case _ => h
  }

  function Observed(s: State, run: seq<Event>, h: History): History
    requires Legal(s, run)
    decreases |run|
  {
    if run == [] then h else Observed(Next(s, run[0]), run[1..], Observe(s, h, run[0]))
  }

  /** A superseded rename has put a view on disk that is not the active one, and `persisted` missed it. */
  predicate Overwritten(s: State, h: History) {
    h.overwritten.Some? && h.overwritten.value != s.activeView
  }

  predicate HasLanded(jobs: seq<Job>) {
    jobs != [] && jobs[0].phase == Renamed(Landed)
  }

  /** What the history says of the disk, but for a rename that has landed and not been continued yet. */
  predicate Recorded(file: Option<Stamped>, persisted: Option<View>, jobs: seq<Job>, h: History) {
    var fileGen := if file.Some? then file.value.gen else 0;
    && h.known <= fileGen
    && (HasLanded(jobs) ==> jobs[0].gen != h.known)
    && if HasLanded(jobs) && jobs[0].gen > h.known then file == Some(Stamped(jobs[0].view, jobs[0].gen))
       else if h.overwritten.Some? then h.known < fileGen && file.Some? && file.value.view == h.overwritten.value
       else h.known == fileGen && persisted == if file.Some? then Some(file.value.view) else None
  }

  predicate Tracked(s: State, h: History) {
    Recorded(s.file, s.persisted, s.jobs, h)
  }

  /** A rename that lands carries its own view, and a later generation than the disk. */
  lemma LandsAbove(s: State, ok: bool)
    requires Inv(s) && Enabled(s, Rename(0, ok))
    ensures s.jobs[0].gen in s.temps ==> s.temps[s.jobs[0].gen] == s.jobs[0].view && FileGen(s) < s.jobs[0].gen
  {
    hide QueueOk, DrainOk, CurrentOk, HasSettled;
  }

  lemma RenameTracked(s: State, h: History, ok: bool)
    requires Inv(s) && Tracked(s, h) && Enabled(s, Rename(0, ok))
    ensures Tracked(Next(s, Rename(0, ok)), h)
  {
    LandsAbove(s, ok);
    hide Inv, HasSettled;
  }

  lemma SettledLooksAlike(s: State)
    requires s.jobs != [] && s.jobs[0].phase.Settling? && (1 < |s.jobs| ==> s.jobs[1].phase.Waiting?)
    ensures var t := SettledWrite(s, 0);
      && t.file == s.file && t.persisted == s.persisted && !HasLanded(s.jobs) && !HasLanded(t.jobs)
  {
    assert SettledWrite(s, 0).jobs == s.jobs[1..];
  }

  lemma SettleTracked(s: State, h: History)
    requires Inv(s) && Tracked(s, h) && Enabled(s, Settle(0))
    ensures Tracked(Next(s, Settle(0)), h)
  {
    hide Inv, HasSettled, HasLanded, SettledWrite;
    SecondWriteWaits(s);
    SettledLooksAlike(s);
  }

  lemma AfterRenameTracked(s: State, h: History)
    requires Inv(s) && Tracked(s, h) && Enabled(s, AfterRename(0))
    ensures Tracked(Next(s, AfterRename(0)), Observe(s, h, AfterRename(0)))
  {
    NoneIsNewer(s);
    hide Inv, HasSettled;
  }

  lemma FlushTracked(s: State, h: History, u: bool, w: bool, r: bool)
    requires Inv(s) && Tracked(s, h)
    ensures Tracked(FlushedOrThrew(s, u, w, r).0, Observe(s, h, FlushOrThrow(u, w, r)))
  {
    NoneIsNewer(s);
    hide Inv;
  }

  lemma NoneIsNewer(s: State)
    requires Inv(s)
    ensures s.jobs != [] ==> s.jobs[0].gen <= s.generation
    ensures FileGen(s) <= s.generation
  {
  }

  /** The step leaves file and `persisted` alone, and the first write landed or not as before. */
  predicate Framed(s: State, t: State) {
    && t.file == s.file && t.persisted == s.persisted
    && HasLanded(t.jobs) == HasLanded(s.jobs) && (HasLanded(s.jobs) ==> t.jobs[0] == s.jobs[0])
  }

  lemma PhaseFrame(s: State, phase: Phase)
    requires s.jobs != [] && !HasLanded(s.jobs) && phase != Renamed(Landed)
    ensures Framed(s, WithPhase(s, 0, phase))
  {
  }

  lemma WriterStepFrame(s: State, e: Event)
    requires Enabled(s, e)
    requires e == StartWrite(0) || e == CheckGeneration(0)
             || ((e.WriteTemp? || e.RemoveTemp?) && e.i == 0)
    ensures Framed(s, Next(s, e))
  {
    hide WithPhase, HasSettled;
    match e
    case StartWrite(_) => PhaseFrame(s, Writing);
    case WriteTemp(_, ok) => PhaseFrame(s, if ok then Written else Removing(true));
    case CheckGeneration(_) => PhaseFrame(s, if s.jobs[0].gen != s.generation then Removing(false) else Renaming);
    case RemoveTemp(_, _) => PhaseFrame(s, Settling(s.jobs[0].phase.failed));
  }

  lemma EnqueueFrame(s: State, view: View, gen: nat)
    ensures Framed(s, EnqueueWrite(s, view, gen))
  {
  }

  lemma DrainFrame(s: State)
    ensures Framed(s, DrainTurn(s))
  {
    hide EnqueueWrite, AllConsumersAborted;
    EnqueueFrame(s.(timer := false, generation := s.generation + 1), s.activeView, s.generation + 1);
  }

  lemma OtherFrame(s: State, e: Event)
    requires Enabled(s, e)
    requires e.Set? || e.TimerFires? || e.FlushAsync? || e.FlushPending? || e.Abort? || e.ResumeDrain? || e.FinishDrain?
    ensures Framed(s, Next(s, e))
  {
    hide DrainTurn, EnqueueWrite, HasSettled, AllConsumersAborted;
    match e
    case TimerFires => EnqueueFrame(s.(timer := false), s.activeView, s.generation);
    case FlushAsync => DrainFrame(JoinFlush(s.(quitStarted := true), None));
    case FlushPending(signal) => DrainFrame(JoinFlush(s, signal));
    case ResumeDrain => DrainFrame(s);
    case _ =>
  }

  lemma StepTracked(s: State, h: History, e: Event)
    requires Inv(s) && Tracked(s, h) && Enabled(s, e)
    ensures Tracked(Next(s, e), Observe(s, h, e))
  {
    hide Inv, Next, Recorded, HasSettled;
    FirstOnly(s, e);
    match e
    case Rename(_, ok) => RenameTracked(s, h, ok);
    case AfterRename(_) => AfterRenameTracked(s, h);
    case Settle(_) => SettleTracked(s, h);
    case FlushOrThrow(u, w, r) => FlushTracked(s, h, u, w, r); FlushIsNext(s, u, w, r);
    case _ =>
      if e.StartWrite? || e.WriteTemp? || e.CheckGeneration? || e.RemoveTemp? {
        WriterStepFrame(s, e);
      } else {
        OtherFrame(s, e);
      }
      SameTracked(s, Next(s, e), h);
  }

  lemma FlushIsNext(s: State, u: bool, w: bool, r: bool)
    ensures Next(s, FlushOrThrow(u, w, r)) == FlushedOrThrew(s, u, w, r).0
  {
  }

  lemma SameTracked(s: State, t: State, h: History)
    requires Tracked(s, h) && Framed(s, t)
    ensures Tracked(t, h)
  {
  }

  lemma FirstOnly(s: State, e: Event)
    requires Inv(s) && Enabled(s, e)
    ensures e.StartWrite? || e.WriteTemp? || e.CheckGeneration? || e.Rename? || e.AfterRename? || e.RemoveTemp? || e.Settle?
            ==> e.i == 0
  {
    hide Inv, HasSettled;
    match e
    case StartWrite(i) => OnlyTheFirstWriteIsActive(s, i);
    case WriteTemp(i, _) => OnlyTheFirstWriteIsActive(s, i);
    case CheckGeneration(i) => OnlyTheFirstWriteIsActive(s, i);
    case Rename(i, _) => OnlyTheFirstWriteIsActive(s, i);
    case AfterRename(i) => OnlyTheFirstWriteIsActive(s, i);
    case RemoveTemp(i, _) => OnlyTheFirstWriteIsActive(s, i);
    case Settle(i) => OnlyTheFirstWriteIsActive(s, i);
    case _ =>
  }

  lemma {:induction false} RunTracked(s: State, run: seq<Event>, h: History)
    requires Inv(s) && Tracked(s, h) && Legal(s, run)
    ensures Inv(Exec(s, run)) && Tracked(Exec(s, run), Observed(s, run, h))
    decreases |run|
  {
    hide Inv, Tracked, Next, Enabled, Observe;
    if run != [] {
      StepKeepsInv(s, run[0]);
      StepTracked(s, h, run[0]);
      RunTracked(Next(s, run[0]), run[1..], Observe(s, h, run[0]));
    }
  }

  /**
   In every run, I/O errors and earlier stale exits included: where a flush may leave without writing,
   the disk misses the active view exactly when a superseded rename landed after the write that
   `persisted` speaks of, and its view is not the active one.
   */
  lemma EarlyExitIsStaleIff(stored: Option<View>, fallback: View, run: seq<Event>)
    requires Legal(Initial(stored, fallback), run)
    requires NothingToWrite(Exec(Initial(stored, fallback), run))
    ensures var s := Exec(Initial(stored, fallback), run);
            DiskView(s) != Some(s.activeView) <==> Overwritten(s, Observed(Initial(stored, fallback), run, NOTHING))
  {
    InitialInv(stored, fallback);
    RunTracked(Initial(stored, fallback), run, NOTHING);
    NoPendingWrite(Exec(Initial(stored, fallback), run));
  }

  /** What a flush that returned normally leaves on disk: the active view, but for an exit after such a rename. */
  lemma FlushLeavesActiveViewIff(stored: Option<View>, fallback: View, run: seq<Event>, u: bool, w: bool, r: bool)
    requires Legal(Initial(stored, fallback), run)
    requires !FlushedOrThrew(Exec(Initial(stored, fallback), run), u, w, r).1.Threw?
    ensures var s := Exec(Initial(stored, fallback), run);
            DiskView(FlushedOrThrew(s, u, w, r).0) == Some(s.activeView)
            <==> (s.pendingWrite.Some? || s.persisted != Some(s.activeView)
                  || !Overwritten(s, Observed(Initial(stored, fallback), run, NOTHING)))
  {
    var s := Exec(Initial(stored, fallback), run);
    if NothingToWrite(s) {
      EarlyExitIsStaleIff(stored, fallback, run);
    }
  }

  /**
   In a run without I/O errors the first stale exit is one that drops an armed timer: up to it, an exit
   is stale exactly when such a rename landed and the timer is armed.
   */
  lemma FirstStaleExitIff(stored: Option<View>, fallback: View, run: seq<Event>)
    requires CleanRun(Initial(stored, fallback), run) && Legal(Initial(stored, fallback), run)
    requires NothingToWrite(Exec(Initial(stored, fallback), run))
    ensures var s := Exec(Initial(stored, fallback), run);
            DiskView(s) != Some(s.activeView)
            <==> s.timer && Overwritten(s, Observed(Initial(stored, fallback), run, NOTHING))
  {
    InitialInv(stored, fallback);
    assert CleanInv(Initial(stored, fallback));
    RunKeepsClean(Initial(stored, fallback), run);
    EarlyExitIsStaleIff(stored, fallback, run);
    var s := Exec(Initial(stored, fallback), run);
    if !s.timer {
      UnarmedExitIsRight(s);
    }
  }
}
