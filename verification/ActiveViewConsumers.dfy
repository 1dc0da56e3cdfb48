/** Who waits for a flush: a drain is given up exactly when everybody who joined it has aborted. */
module ActiveViewConsumers {
  import opened Options
  import opened ActiveViewSteps
  import opened ActiveViewSafety

  /**
   What the callers have done: the consumers of the current drain in the order in which they joined, each
   with its signal if it gave one, the signals aborted so far, and whether the quit flush was asked for.
   */
  datatype Callers = Callers(joined: seq<Option<nat>>, aborted: set<nat>, quit: bool)

  const NOBODY := Callers([], {}, false)

  /** A caller whose signal was aborted beforehand is turned away; any other joins. `drain` ends with `FinishDrain`. */
  function Note(c: Callers, e: Event): Callers {
    match e
    case Abort(signal) => c.(aborted := c.aborted + {signal})
    case FlushPending(signal) =>
      if signal.Some? && signal.value in c.aborted then c else c.(joined := c.joined + [signal])
    case FlushAsync => if c.quit then c else c.(joined := c.joined + [None], quit := true)
    case FinishDrain => c.(joined := [])
    case _ => c
  }

  function Noted(run: seq<Event>, c: Callers): Callers {
    if run == [] then c else Noted(run[1..], Note(c, run[0]))
  }

  /** Everybody who joined gave a signal, and it is aborted. */
  predicate AllGone(c: Callers) {
    c.joined != [] && forall k :: 0 <= k < |c.joined| ==> c.joined[k].Some? && c.joined[k].value in c.aborted
  }

  function Unabortable(joined: seq<Option<nat>>): nat {
    if joined == [] then 0 else Unabortable(joined[..|joined| - 1]) + if joined[|joined| - 1].None? then 1 else 0
  }

  /** The writer's own account of its consumers. */
  ghost predicate Counted(signals: set<nat>, unabortable: nat, aborted: set<nat>, c: Callers) {
    && (forall signal :: signal in signals <==> Some(signal) in c.joined)
    && unabortable == Unabortable(c.joined)
    && aborted == c.aborted
  }

  ghost predicate Known(s: State, c: Callers) {
    Counted(s.signals, s.unabortable, s.aborted, c) && s.quitStarted == c.quit && (s.drain.Idle? <==> c.joined == [])
  }

  lemma {:induction false} NobodyUnabortable(joined: seq<Option<nat>>)
    ensures Unabortable(joined) == 0 <==> forall k :: 0 <= k < |joined| ==> joined[k].Some?
    decreases |joined|
  {
    if joined != [] { NobodyUnabortable(joined[..|joined| - 1]); }
  }

  lemma CountsAllGone(s: State, c: Callers)
    requires Known(s, c)
    ensures AllConsumersAborted(s) <==> AllGone(c)
  {
    NobodyUnabortable(c.joined);
    if AllGone(c) {
      assert Some(c.joined[0].value) in c.joined && c.joined[0].value in s.signals;
    }
    if AllConsumersAborted(s) {
      forall k | 0 <= k < |c.joined| ensures c.joined[k].Some? && c.joined[k].value in c.aborted {
        assert c.joined[k] in c.joined && Some(c.joined[k].value) == c.joined[k];
      }
    }
  }

  lemma JoinCounts(s: State, c: Callers, signal: Option<nat>)
    requires Counted(s.signals, s.unabortable, s.aborted, c)
    ensures var t := JoinFlush(s, signal);
      Counted(t.signals, t.unabortable, t.aborted, c.(joined := c.joined + [signal]))
  {
    assert (c.joined + [signal])[..|c.joined|] == c.joined;
    assert forall x :: x in c.joined + [signal] <==> x in c.joined || x == signal;
  }

  lemma AbortCounts(s: State, c: Callers, signal: nat)
    requires Counted(s.signals, s.unabortable, s.aborted, c)
    ensures Counted(s.signals, s.unabortable, s.aborted + {signal}, c.(aborted := c.aborted + {signal}))
  {
  }

  predicate SameConsumers(s: State, t: State) {
    && t.signals == s.signals && t.unabortable == s.unabortable && t.aborted == s.aborted
    && t.quitStarted == s.quitStarted && t.drain == s.drain
  }

  lemma BeforeRenameFrame(s: State, i: nat, ok: bool)
    requires i < |s.jobs|
    ensures SameConsumers(s, WithPhase(s, i, Writing)) && SameConsumers(s, WroteTemp(s, i, ok))
    ensures SameConsumers(s, CheckedGeneration(s, i)) && SameConsumers(s, RenamedTemp(s, i, ok))
  {
  }

  lemma AfterRenameFrame(s: State, i: nat, ok: bool)
    requires i < |s.jobs|
    ensures s.jobs[i].phase.Renamed? ==> SameConsumers(s, ContinuedAfterRename(s, i))
    ensures s.jobs[i].phase.Removing? ==> SameConsumers(s, RemovedTemp(s, i, ok))
    ensures s.jobs[i].phase.Settling? ==> SameConsumers(s, SettledWrite(s, i))
  {
  }

  lemma WriterKeepsConsumers(s: State, e: Event)
    requires Enabled(s, e)
    requires e.StartWrite? || e.WriteTemp? || e.CheckGeneration? || e.Rename? || e.AfterRename? || e.RemoveTemp? || e.Settle?
    ensures SameConsumers(s, Next(s, e))
  {
    hide HasSettled, WithPhase, WroteTemp, CheckedGeneration, RenamedTemp, ContinuedAfterRename, RemovedTemp, SettledWrite,
         SameConsumers;
    match e
    case WriteTemp(i, ok) => BeforeRenameFrame(s, i, ok);
    case Rename(i, ok) => BeforeRenameFrame(s, i, ok);
    case RemoveTemp(i, ok) => AfterRenameFrame(s, i, ok);
    case StartWrite(i) => BeforeRenameFrame(s, i, true);
    case CheckGeneration(i) => BeforeRenameFrame(s, i, true);
    case AfterRename(i) => AfterRenameFrame(s, i, true);
    case Settle(i) => AfterRenameFrame(s, i, true);
  }

  /** A step that does not touch the consumers. */
  lemma OthersFrame(s: State, e: Event)
    requires Enabled(s, e) && !(e.FlushAsync? || e.FlushPending? || e.Abort? || e.FinishDrain? || e.ResumeDrain?)
    ensures var t := Next(s, e);
      && t.signals == s.signals && t.unabortable == s.unabortable && t.aborted == s.aborted
      && t.quitStarted == s.quitStarted && t.drain == s.drain
  {
    hide HasSettled, NothingToWrite;
    match e
    case Set(_) =>
    case TimerFires =>
    case FlushOrThrow(_, _, _) =>
    case _ => WriterKeepsConsumers(s, e); hide Next;
  }

  lemma DrainFrame(s: State)
    ensures var t := DrainTurn(s);
      && t.signals == s.signals && t.unabortable == s.unabortable && t.aborted == s.aborted
      && t.quitStarted == s.quitStarted && !t.drain.Idle?
      && (t.drain == Settled(true) <==> AllConsumersAborted(s))
  {
  }

  /** A first caller has not aborted, so its drain is not given up at once. */
  lemma NewcomerStays(c: Callers, signal: Option<nat>)
    requires signal.Some? ==> signal.value !in c.aborted
    ensures !AllGone(c.(joined := c.joined + [signal]))
  {
    var joined := c.joined + [signal];
    assert joined[|joined| - 1] == signal;
  }

  lemma JoinStep(s: State, c: Callers, signal: Option<nat>, quit: bool)
    requires Known(s, c) && (signal.Some? ==> signal.value !in c.aborted)
    requires quit == s.quitStarted || signal.None?
    ensures var t := FlushedPending(s.(quitStarted := quit), signal);
      var d := c.(joined := c.joined + [signal], quit := quit);
      && Known(t, d)
      && (s.drain != Settled(true) ==> t.drain != Settled(true))
  {
    hide DrainTurn, AllConsumersAborted, AllGone, Counted, Unabortable;
    var s1 := s.(quitStarted := quit);
    var d := c.(joined := c.joined + [signal], quit := quit);
    SameAccount(s, s1, c);
    JoinCounts(s1, c, signal);
    var joined := JoinFlush(s1, signal);
    SameCallers(joined, c.(joined := c.joined + [signal]), d);
    AbortedAre(s, c);
    if s.drain.Idle? {
      DrainFrame(joined);
      NewcomerStays(c.(quit := quit), signal);
      CountsAll(joined, d);
    }
  }

  lemma SameAccount(s: State, t: State, c: Callers)
    requires Counted(s.signals, s.unabortable, s.aborted, c)
    requires t.signals == s.signals && t.unabortable == s.unabortable && t.aborted == s.aborted
    ensures Counted(t.signals, t.unabortable, t.aborted, c)
  {
  }

  lemma SameCallers(s: State, c: Callers, d: Callers)
    requires Counted(s.signals, s.unabortable, s.aborted, c) && d.joined == c.joined && d.aborted == c.aborted
    ensures Counted(s.signals, s.unabortable, s.aborted, d)
  {
  }

  lemma AbortedAre(s: State, c: Callers)
    requires Known(s, c)
    ensures s.aborted == c.aborted
  {
  }

  lemma CountsAll(s: State, c: Callers)
    requires Counted(s.signals, s.unabortable, s.aborted, c)
    ensures AllConsumersAborted(s) <==> AllGone(c)
  {
    var t := s.(quitStarted := c.quit, drain := if c.joined == [] then Idle else Settled(false));
    CountsAllGone(t, c);
  }

  lemma FinishCounts(c: Callers)
    ensures Counted({}, 0, c.aborted, c.(joined := []))
  {
  }

  /** One step: the account stays right, and only a resumed drain that everybody has left is given up. */
  lemma StepKnown(s: State, c: Callers, e: Event)
    requires Known(s, c) && Enabled(s, e)
    ensures Known(Next(s, e), Note(c, e))
    ensures s.drain != Settled(true) ==>
      (Next(s, e).drain == Settled(true) <==> e.ResumeDrain? && AllGone(c))
  {
    hide DrainTurn, AllConsumersAborted, AllGone, Unabortable, HasSettled;
    match e
    case FlushAsync =>
      if !s.quitStarted { JoinStep(s, c, None, true); }
    case FlushPending(signal) =>
      if !(signal.Some? && signal.value in s.aborted) {
        JoinStep(s, c, signal, s.quitStarted);
        assert s.(quitStarted := s.quitStarted) == s;
      }
    case Abort(signal) => AbortCounts(s, c, signal);
    case ResumeDrain =>
      CountsAllGone(s, c);
      DrainFrame(s);
    case FinishDrain => FinishCounts(c);
    case _ =>
      OthersFrame(s, e);
      hide Next;
  }

  lemma {:induction false} RunKnown(s: State, c: Callers, run: seq<Event>)
    requires Known(s, c) && Legal(s, run)
    ensures Known(Exec(s, run), Noted(run, c))
    decreases |run|
  {
    hide Known, Next, Enabled, Note;
    if run != [] {
      StepKnown(s, c, run[0]);
      RunKnown(Next(s, run[0]), Note(c, run[0]), run[1..]);
    }
  }

  /**
   In every run, whoever joins and aborts when: a drain is given up at a step if and only if it is resumed
   there and each consumer that joined it gave a signal and has aborted it.
   */
  lemma GivenUpIff(stored: Option<View>, fallback: View, run: seq<Event>, e: Event)
    requires Legal(Initial(stored, fallback), run) && Enabled(Exec(Initial(stored, fallback), run), e)
    requires Exec(Initial(stored, fallback), run).drain != Settled(true)
    ensures Next(Exec(Initial(stored, fallback), run), e).drain == Settled(true)
       <==> e.ResumeDrain? && AllGone(Noted(run, NOBODY))
  {
    assert Known(Initial(stored, fallback), NOBODY);
    RunKnown(Initial(stored, fallback), NOBODY, run);
    StepKnown(Exec(Initial(stored, fallback), run), Noted(run, NOBODY), e);
  }

  /** A drain runs exactly while somebody waits for it, and a caller that had aborted before changes nothing. */
  lemma DrainServesCallers(stored: Option<View>, fallback: View, run: seq<Event>, signal: nat)
    requires Legal(Initial(stored, fallback), run)
    ensures var s, c := Exec(Initial(stored, fallback), run), Noted(run, NOBODY);
      && (s.drain.Idle? <==> c.joined == [])
      && (signal in c.aborted ==> Next(s, FlushPending(Some(signal))) == s)
  {
    assert Known(Initial(stored, fallback), NOBODY);
    RunKnown(Initial(stored, fallback), NOBODY, run);
  }
}
