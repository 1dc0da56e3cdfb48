/**
 The active-view writer as a step system: the writer's fields, the promises it has queued,
 and the disk it writes to. Every step is one turn of the JavaScript thread between two
 awaits, or one operation of the file system.
 */
module ActiveViewSteps {
  import opened Options

  datatype View =
    Terminal | Settings | Tasks | Activity | Automations | Space | Skills | Artifacts | Mobile

  /** Content of the preference file and the generation of the write that put it there. */
  datatype Stamped = Stamped(view: View, gen: nat)

  datatype RenameOutcome = Landed | NoEntry | Refused

  /** Where one queued write stands. `failed` says that its promise is going to reject. */
  datatype Phase =
    | Waiting
    | Writing
    | Written
    | Renaming
    | Renamed(outcome: RenameOutcome)
    | Removing(failed: bool)
    | Settling(failed: bool)

  /** A queued write: promise `id`, chained behind promise `after` when there was one. */
  datatype Job = Job(view: View, gen: nat, id: nat, after: Option<nat>, phase: Phase)

  /** The coalesced flush. `Settled` is the gap between the drain's end and its `finally`. */
  datatype Drain = Idle | Awaiting(id: nat, gen: nat) | Settled(aborted: bool)

  datatype State = State(
    activeView: View,
    persisted: Option<View>,
    timer: bool,
    pendingWrite: Option<nat>,
    generation: nat,
    inFlight: Option<nat>,
    quitStarted: bool,
    drain: Drain,
    signals: set<nat>,
    unabortable: nat,
    aborted: set<nat>,
    jobs: seq<Job>,
    created: nat,
    reported: nat,
    file: Option<Stamped>,
    temps: map<nat, View>)

  datatype Event =
    | Set(value: Option<View>)
    | TimerFires
    | StartWrite(i: nat)
    | WriteTemp(i: nat, ok: bool)
    | CheckGeneration(i: nat)
    | Rename(i: nat, ok: bool)
    | AfterRename(i: nat)
    | RemoveTemp(i: nat, ok: bool)
    | Settle(i: nat)
    | FlushOrThrow(unlinkOk: bool, writeOk: bool, renameOk: bool)
    | FlushAsync
    | FlushPending(signal: Option<nat>)
    | Abort(controller: nat)
    | ResumeDrain
    | FinishDrain

  datatype FlushResult = Unneeded | Wrote | Threw

  function Initial(stored: Option<View>, fallback: View): State {
    State(
      if stored.Some? then stored.value else fallback,
      stored, false, None, 0, None, false, Idle, {}, 0, {}, [], 0, 0,
      if stored.Some? then Some(Stamped(stored.value, 0)) else None,
      map[])
  }

  function ScheduleSave(s: State): State {
    if s.quitStarted then s else s.(generation := s.generation + 1, timer := true)
  }

  function SetView(s: State, value: Option<View>): State {
    if value.None? then s
    else
      var s1 := s.(activeView := value.value);
      if value != s.persisted || s.timer || s.pendingWrite.Some? then ScheduleSave(s1) else s1
  }

  function EnqueueWrite(s: State, view: View, gen: nat): State {
    s.(jobs := s.jobs + [Job(view, gen, s.created, s.pendingWrite, Waiting)],
       pendingWrite := Some(s.created),
       created := s.created + 1)
  }

  function TimerFired(s: State): State {
    EnqueueWrite(s.(timer := false), s.activeView, s.generation)
  }

  /** A promise has settled when no queued write still owns it. */
  predicate HasSettled(s: State, id: nat) {
    forall j <- s.jobs :: j.id != id
  }

  function WithPhase(s: State, i: nat, phase: Phase): State
    requires i < |s.jobs|
  {
    s.(jobs := s.jobs[i := s.jobs[i].(phase := phase)])
  }

  function WroteTemp(s: State, i: nat, ok: bool): State
    requires i < |s.jobs|
  {
    if ok
    then WithPhase(s, i, Written).(temps := s.temps[s.jobs[i].gen := s.jobs[i].view])
    else WithPhase(s, i, Removing(true))
  }

  function CheckedGeneration(s: State, i: nat): State
    requires i < |s.jobs|
  {
    if s.jobs[i].gen != s.generation
    then WithPhase(s, i, Removing(false))
    else WithPhase(s, i, Renaming).(inFlight := Some(s.jobs[i].gen))
  }

  function RenamedTemp(s: State, i: nat, ok: bool): State
    requires i < |s.jobs|
  {
    var gen := s.jobs[i].gen;
    if gen !in s.temps then WithPhase(s, i, Renamed(NoEntry))
    else if !ok then WithPhase(s, i, Renamed(Refused))
    else WithPhase(s, i, Renamed(Landed)).(file := Some(Stamped(s.temps[gen], gen)), temps := s.temps - {gen})
  }

  function ContinuedAfterRename(s: State, i: nat): State
    requires i < |s.jobs| && s.jobs[i].phase.Renamed?
  {
    var job := s.jobs[i];
    var current := job.gen == s.generation;
    var phase := match job.phase.outcome
      case Landed => Settling(false)
      case NoEntry => Removing(current)
      case Refused => Removing(true);
    WithPhase(s, i, phase).(
      inFlight := if s.inFlight == Some(job.gen) then None else s.inFlight,
      persisted := if job.phase.outcome.Landed? && current then Some(job.view) else s.persisted)
  }

  function RemovedTemp(s: State, i: nat, ok: bool): State
    requires i < |s.jobs| && s.jobs[i].phase.Removing?
  {
    var s1 := WithPhase(s, i, Settling(s.jobs[i].phase.failed));
    if ok then s1.(temps := s.temps - {s.jobs[i].gen}) else s1
  }

  function SettledWrite(s: State, i: nat): State
    requires i < |s.jobs| && s.jobs[i].phase.Settling?
  {
    s.(jobs := s.jobs[..i] + s.jobs[i + 1..],
       pendingWrite := if s.pendingWrite == Some(s.jobs[i].id) then None else s.pendingWrite,
       reported := s.reported + if s.jobs[i].phase.failed then 1 else 0)
  }

  /** The test by which a flush decides that there is nothing to write. */
  predicate NothingToWrite(s: State) {
    s.pendingWrite.None? && s.persisted == Some(s.activeView)
  }

  function FlushedOrThrew(s: State, unlinkOk: bool, writeOk: bool, renameOk: bool): (State, FlushResult) {
    if s.quitStarted then (s, Threw)
    else
      var gen := s.generation + 1;
      var s1 := s.(timer := false, generation := gen);
      if NothingToWrite(s) then (s1, Unneeded)
      else if s.inFlight.Some? && s.inFlight.value in s.temps && !unlinkOk then
        (EnqueueWrite(s1, s.activeView, gen), Threw)
      else
        var s2 := if s.inFlight.Some? && s.inFlight.value in s.temps
                  then s1.(temps := s.temps - {s.inFlight.value}, inFlight := None)
                  else s1;
        if !writeOk then (s2, Threw)
        else if !renameOk then (s2.(temps := s2.temps[gen := s.activeView]), Threw)
        else (s2.(temps := s2.temps - {gen},
                  file := Some(Stamped(s.activeView, gen)),
                  persisted := Some(s.activeView)), Wrote)
  }

  predicate AllConsumersAborted(s: State) {
    s.unabortable == 0 && s.signals != {} && s.signals <= s.aborted
  }

  /** The drain from the top of its loop to its next await or its end. */
  function DrainTurn(s: State): State {
    if AllConsumersAborted(s) then s.(drain := Settled(true))
    else
      var s1 := s.(timer := false);
      if NothingToWrite(s) then s1.(drain := Settled(false))
      else
        var gen := s.generation + 1;
        EnqueueWrite(s1.(generation := gen), s.activeView, gen).(drain := Awaiting(s.created, gen))
  }

  function ResumedDrain(s: State): State
    requires s.drain.Awaiting?
  {
    if AllConsumersAborted(s) then s.(drain := Settled(true))
    else if s.drain.gen == s.generation then s.(drain := Settled(false))
    else DrainTurn(s)
  }

  function FinishedDrain(s: State): State {
    s.(drain := Idle, signals := {}, unabortable := 0)
  }

  /** One more consumer of the flush: with a signal it can be aborted, without it cannot. */
  function JoinFlush(s: State, signal: Option<nat>): State {
    if signal.Some? then s.(signals := s.signals + {signal.value})
    else s.(unabortable := s.unabortable + 1)
  }

  function FlushedPending(s: State, signal: Option<nat>): State {
    if signal.Some? && signal.value in s.aborted then s
    else if !s.drain.Idle? then JoinFlush(s, signal)
    else DrainTurn(JoinFlush(s, signal))
  }

  function FlushedAsync(s: State): State {
    if s.quitStarted then s else FlushedPending(s.(quitStarted := true), None)
  }

  predicate Enabled(s: State, e: Event) {
    match e
    case TimerFires => s.timer
    case StartWrite(i) =>
      i < |s.jobs| && s.jobs[i].phase.Waiting? &&
      (s.jobs[i].after.Some? ==> HasSettled(s, s.jobs[i].after.value))
    case WriteTemp(i, _) => i < |s.jobs| && s.jobs[i].phase.Writing?
    case CheckGeneration(i) => i < |s.jobs| && s.jobs[i].phase.Written?
    case Rename(i, _) => i < |s.jobs| && s.jobs[i].phase.Renaming?
    case AfterRename(i) => i < |s.jobs| && s.jobs[i].phase.Renamed?
    case RemoveTemp(i, _) => i < |s.jobs| && s.jobs[i].phase.Removing?
    case Settle(i) => i < |s.jobs| && s.jobs[i].phase.Settling?
    case ResumeDrain => s.drain.Awaiting? && HasSettled(s, s.drain.id)
    case FinishDrain => s.drain.Settled?
    case _ => true
  }

  function Next(s: State, e: Event): State
    requires Enabled(s, e)
  {
    match e
    case Set(value) => SetView(s, value)
    case TimerFires => TimerFired(s)
    case StartWrite(i) => WithPhase(s, i, Writing)
    case WriteTemp(i, ok) => WroteTemp(s, i, ok)
    case CheckGeneration(i) => CheckedGeneration(s, i)
    case Rename(i, ok) => RenamedTemp(s, i, ok)
    case AfterRename(i) => ContinuedAfterRename(s, i)
    case RemoveTemp(i, ok) => RemovedTemp(s, i, ok)
    case Settle(i) => SettledWrite(s, i)
    case FlushOrThrow(u, w, r) => FlushedOrThrew(s, u, w, r).0
    case FlushAsync => FlushedAsync(s)
    case FlushPending(signal) => FlushedPending(s, signal)
    case Abort(signal) => s.(aborted := s.aborted + {signal})
    case ResumeDrain => ResumedDrain(s)
    case FinishDrain => FinishedDrain(s)
  }

  /** A run: each event is possible when its turn comes. */
  predicate Legal(s: State, run: seq<Event>)
    decreases |run|
  {
    run == [] || (Enabled(s, run[0]) && Legal(Next(s, run[0]), run[1..]))
  }

  function Exec(s: State, run: seq<Event>): State
    requires Legal(s, run)
    decreases |run|
  {
    if run == [] then s else Exec(Next(s, run[0]), run[1..])
  }
}
