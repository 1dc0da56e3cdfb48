/**
 Creation of the mock server's key file by any number of competing processes: an exclusive
 lock file, a second read under the lock, and publication by rename. One step is one file
 system call of one process; a process may crash between any two of them.
 */
module KeyFileProtocol {
  import opened Options

  const LOCK_ATTEMPTS := 50
  const RENAME_ATTEMPTS := 5

  /** What reading the key file yields: nothing usable, or a secret key. */
  datatype Content = Missing | Invalid | Valid(key: nat)

  /** The next call of a process, or how it ended. `selected` is `None` when it is throwing. */
  datatype Pc =
    | FirstRead
    | OpenLock(attempt: nat)
    | ReadBusy(attempt: nat)
    | LastRead
    | LastOpen
    | LateRead
    | ReadLocked
    | WriteTemp(key: nat)
    | Chmod(key: nat)
    | RenameTemp(key: nat, attempt: nat)
    | RemoveTemp(selected: Option<nat>)
    | Release(selected: Option<nat>)
    | Returned(key: nat)
    | Threw
    | Crashed

  datatype System = System(lockFile: bool, keyFile: Content, temps: map<nat, nat>, pcs: map<nat, Pc>)

  /** `Transient` is an error that the rename loop retries. */
  datatype Outcome = Ok | Transient | Fatal

  datatype Event =
    | Start(p: nat)
    | Step(p: nat, outcome: Outcome, minted: nat)
    | Crash(p: nat)
    | RemoveStaleLock

  predicate Ended(pc: Pc) {
    pc.Returned? || pc.Threw? || pc.Crashed?
  }

  /** The process has created the lock file and not yet removed it. */
  predicate Holds(pc: Pc) {
    pc.ReadLocked? || pc.WriteTemp? || pc.Chmod? || pc.RenameTemp? || pc.RemoveTemp? || pc.Release?
  }

  /** What may happen when any call may fail. */
  predicate Possible(s: System, e: Event) {
    match e
    case Start(p) => p !in s.pcs
    case Step(p, _, _) => p in s.pcs && !Ended(s.pcs[p])
    case Crash(p) => p in s.pcs && !Ended(s.pcs[p])
    case RemoveStaleLock => forall p <- s.pcs :: !Holds(s.pcs[p])
  }

  /** The read under the lock fails although there is a valid key: the one failure that the protocol rules out. */
  predicate MissesKey(s: System, e: Event) {
    e.Step? && !e.outcome.Ok? && e.p in s.pcs && s.pcs[e.p].ReadLocked? && s.keyFile.Valid?
  }

  predicate Enabled(s: System, e: Event) {
    Possible(s, e) && !MissesKey(s, e)
  }

  function Goto(s: System, p: nat, pc: Pc): System {
    s.(pcs := s.pcs[p := pc])
  }

  /** A read returns the key when there is one and it can be read, and otherwise goes on. */
  function AfterRead(keyFile: Content, outcome: Outcome, otherwise: Pc): Pc {
    if outcome.Ok? && keyFile.Valid? then Returned(keyFile.key) else otherwise
  }

  function AfterOpen(lockFile: bool, outcome: Outcome, busy: Pc): Pc {
    if !outcome.Ok? then Threw else if lockFile then busy else ReadLocked
  }

  function NextPc(s: System, p: nat, outcome: Outcome, minted: nat): Pc
    requires p in s.pcs
  {
    match s.pcs[p]
    case FirstRead => AfterRead(s.keyFile, outcome, OpenLock(0))
    case OpenLock(a) => AfterOpen(s.lockFile, outcome, ReadBusy(a))
    case ReadBusy(a) => AfterRead(s.keyFile, outcome, if a + 1 < LOCK_ATTEMPTS then OpenLock(a + 1) else LastRead)
    case LastRead => AfterRead(s.keyFile, outcome, LastOpen)
    case LastOpen => AfterOpen(s.lockFile, outcome, LateRead)
    case LateRead => AfterRead(s.keyFile, outcome, Threw)
    case ReadLocked => if outcome.Ok? && s.keyFile.Valid? then Release(Some(s.keyFile.key)) else WriteTemp(minted)
    case WriteTemp(key) => if outcome.Ok? then Chmod(key) else RemoveTemp(None)
    case Chmod(key) => if outcome.Ok? then RenameTemp(key, 0) else RemoveTemp(None)
    case RenameTemp(key, a) =>
      if outcome.Ok? && p in s.temps then RemoveTemp(Some(key))
      else if outcome.Transient? && a + 1 < RENAME_ATTEMPTS then RenameTemp(key, a + 1)
      else RemoveTemp(None)
    case RemoveTemp(selected) => Release(selected)
    case Release(selected) => if selected.Some? then Returned(selected.value) else Threw
    case ended => ended
  }

  /** The process moves on, and its call takes effect on the directory. */
  function ProcessStep(s: System, p: nat, outcome: Outcome, minted: nat): System
    requires p in s.pcs
  {
    var t := Goto(s, p, NextPc(s, p, outcome, minted));
    if !outcome.Ok? then t
    else match s.pcs[p]
      case OpenLock(_) => t.(lockFile := true)
      case LastOpen => t.(lockFile := true)
      case WriteTemp(key) => t.(temps := s.temps[p := key])
      case RenameTemp(_, _) =>
        if p in s.temps then t.(keyFile := Valid(s.temps[p]), temps := s.temps - {p}) else t
      case RemoveTemp(_) => t.(temps := s.temps - {p})
      case Release(_) => t.(lockFile := false)
      case _ => t
  }

  function Next(s: System, e: Event): System
    requires Possible(s, e)
  {
    match e
    case Start(p) => Goto(s, p, FirstRead)
    case Step(p, outcome, minted) => ProcessStep(s, p, outcome, minted)
    case Crash(p) => Goto(s, p, Crashed)
    case RemoveStaleLock => s.(lockFile := false)
  }

  predicate Legal(s: System, run: seq<Event>)
    decreases |run|
  {
    run == [] || (Enabled(s, run[0]) && Legal(Next(s, run[0]), run[1..]))
  }

  function Exec(s: System, run: seq<Event>): System
    requires Legal(s, run)
    decreases |run|
  {
    if run == [] then s else Exec(Next(s, run[0]), run[1..])
  }

  /** Nobody is running; a lock file may have been left behind. */
  predicate Initial(s: System) {
    s.pcs == map[]
  }

  ghost predicate ProcessOk(p: nat, pc: Pc, lockFile: bool, keyFile: Content, temps: map<nat, nat>) {
    && (Holds(pc) ==> lockFile)
    && match pc
       case WriteTemp(_) => !keyFile.Valid?
       case Chmod(key) => !keyFile.Valid? && p in temps && temps[p] == key
       case RenameTemp(key, _) => !keyFile.Valid? && p in temps && temps[p] == key
       case RemoveTemp(selected) => selected.Some? ==> keyFile == Valid(selected.value)
       case Release(selected) => selected.Some? ==> keyFile == Valid(selected.value)
       case Returned(key) => keyFile == Valid(key)
       case _ => true
  }

  ghost predicate Inv(s: System) {
    && (forall p <- s.pcs :: ProcessOk(p, s.pcs[p], s.lockFile, s.keyFile, s.temps))
    && (forall p <- s.pcs, q <- s.pcs :: Holds(s.pcs[p]) && Holds(s.pcs[q]) ==> p == q)
  }

  lemma OthersStayOk(s: System, e: Event, q: nat)
    requires Inv(s) && Enabled(s, e) && e.Step? && q in s.pcs && q != e.p
    ensures var t := Next(s, e); q in t.pcs && t.pcs[q] == s.pcs[q] && ProcessOk(q, t.pcs[q], t.lockFile, t.keyFile, t.temps)
  {
    assert ProcessOk(e.p, s.pcs[e.p], s.lockFile, s.keyFile, s.temps);
  }

  lemma SelfStaysOk(s: System, e: Event)
    requires Inv(s) && Enabled(s, e) && e.Step?
    ensures var t := Next(s, e);
            && ProcessOk(e.p, t.pcs[e.p], t.lockFile, t.keyFile, t.temps)
            && (s.keyFile.Valid? ==> t.keyFile == s.keyFile)
            && (Holds(t.pcs[e.p]) ==> Holds(s.pcs[e.p]) || !s.lockFile)
  {
    assert ProcessOk(e.p, s.pcs[e.p], s.lockFile, s.keyFile, s.temps);
  }

  lemma StepFrame(s: System, e: Event)
    requires Enabled(s, e) && e.Step?
    ensures Next(s, e).pcs == s.pcs[e.p := NextPc(s, e.p, e.outcome, e.minted)]
  {
  }

  lemma StepKeepsInv(s: System, e: Event)
    requires Inv(s) && Enabled(s, e)
    ensures Inv(Next(s, e))
    ensures s.keyFile.Valid? ==> Next(s, e).keyFile == s.keyFile
  {
    if e.Step? {
      SelfStaysOk(s, e);
      StepFrame(s, e);
      forall q <- s.pcs | q != e.p { OthersStayOk(s, e, q); }
    }
  }

  lemma {:induction false} RunKeepsInv(s: System, run: seq<Event>)
    requires Inv(s) && Legal(s, run)
    ensures Inv(Exec(s, run))
    ensures s.keyFile.Valid? ==> Exec(s, run).keyFile == s.keyFile
    decreases |run|
  {
    if run != [] {
      StepKeepsInv(s, run[0]);
      RunKeepsInv(Next(s, run[0]), run[1..]);
    }
  }

  /** In every run at most one live process holds the lock. */
  lemma MutualExclusion(s: System, run: seq<Event>, p: nat, q: nat)
    requires Initial(s) && Legal(s, run)
    requires var t := Exec(s, run); p in t.pcs && q in t.pcs && Holds(t.pcs[p]) && Holds(t.pcs[q])
    ensures p == q && Exec(s, run).lockFile
  {
    RunKeepsInv(s, run);
  }

  /** A valid key file is never replaced, whatever runs, fails or crashes. */
  lemma ValidKeyIsForever(s: System, before: seq<Event>, after: seq<Event>)
    requires Initial(s) && Legal(s, before) && Legal(Exec(s, before), after)
    ensures var t := Exec(s, before);
            t.keyFile.Valid? ==> Exec(t, after).keyFile == t.keyFile
  {
    RunKeepsInv(s, before);
    RunKeepsInv(Exec(s, before), after);
  }

  /** All processes that return a key pair return the same one, and it is the one on disk. */
  lemma Agreement(s: System, run: seq<Event>, p: nat, q: nat)
    requires Initial(s) && Legal(s, run)
    requires var t := Exec(s, run); p in t.pcs && q in t.pcs && t.pcs[p].Returned? && t.pcs[q].Returned?
    ensures var t := Exec(s, run); t.pcs[p] == t.pcs[q] && t.keyFile == Valid(t.pcs[p].key)
  {
    RunKeepsInv(s, run);
  }

  /** What a process has selected is already the key on disk. */
  lemma SelectedIsOnDisk(s: System, p: nat, key: nat)
    requires Inv(s) && p in s.pcs
    requires s.pcs[p] == Returned(key) || s.pcs[p] == Release(Some(key)) || s.pcs[p] == RemoveTemp(Some(key))
    ensures s.keyFile == Valid(key)
  {
  }

  // When the read under the lock may fail as well.

  predicate Runs(s: System, run: seq<Event>)
    decreases |run|
  {
    run == [] || (Possible(s, run[0]) && Runs(Next(s, run[0]), run[1..]))
  }

  function After(s: System, run: seq<Event>): System
    requires Runs(s, run)
    decreases |run|
  {
    if run == [] then s else After(Next(s, run[0]), run[1..])
  }

  /** Of all the steps with failures, exactly a failed read of a valid key under the lock breaks the invariant. */
  lemma StepKeepsInvIff(s: System, e: Event)
    requires Inv(s) && Possible(s, e)
    ensures Inv(Next(s, e)) <==> !MissesKey(s, e)
  {
    if MissesKey(s, e) {
      var t := Next(s, e);
      assert t.pcs[e.p] == WriteTemp(e.minted) && t.keyFile.Valid?;
      assert !ProcessOk(e.p, t.pcs[e.p], t.lockFile, t.keyFile, t.temps);
    } else {
      StepKeepsInv(s, e);
    }
  }

  lemma {:induction false} RunsThen(s: System, a: seq<Event>, b: seq<Event>)
    requires Runs(s, a) && Runs(After(s, a), b)
    ensures Runs(s, a + b) && After(s, a + b) == After(After(s, a), b)
    decreases |a|
  {
    if a == [] {
      assert a + b == b;
    } else {
      assert (a + b)[1..] == a[1..] + b;
      RunsThen(Next(s, a[0]), a[1..], b);
    }
  }

  lemma ThenStep(s: System, run: seq<Event>, e: Event)
    requires Runs(s, run) && Possible(After(s, run), e)
    ensures Runs(s, run + [e]) && After(s, run + [e]) == Next(After(s, run), e)
  {
    assert [e][1..] == [];
    RunsThen(s, run, [e]);
  }

  /** From the locked read on, a process that saw no key writes its own to a temporary file. */
  lemma WritesKey(s: System, run: seq<Event>, p: nat, minted: nat, read: Outcome) returns (run': seq<Event>)
    requires Runs(s, run)
    requires var t := After(s, run); p in t.pcs && t.pcs[p].ReadLocked? && (read.Ok? ==> !t.keyFile.Valid?)
    ensures Runs(s, run')
    ensures var t, t' := After(s, run), After(s, run');
      t' == t.(temps := t.temps[p := minted], pcs := t.pcs[p := RenameTemp(minted, 0)])
  {
    var t := After(s, run);
    ThenStep(s, run, Step(p, read, minted));
    run' := run + [Step(p, read, minted)];
    ThenStep(s, run', Step(p, Ok, 0));
    run' := run' + [Step(p, Ok, 0)];
    ThenStep(s, run', Step(p, Ok, 0));
    run' := run' + [Step(p, Ok, 0)];
    assert After(s, run').pcs == t.pcs[p := RenameTemp(minted, 0)];
  }

  /** ... and publishes it. */
  lemma PublishesKey(s: System, run: seq<Event>, p: nat, minted: nat) returns (run': seq<Event>)
    requires Runs(s, run)
    requires var t := After(s, run);
      p in t.pcs && t.pcs[p] == RenameTemp(minted, 0) && p in t.temps && t.temps[p] == minted
    ensures Runs(s, run')
    ensures var t, t' := After(s, run), After(s, run');
      t' == t.(keyFile := Valid(minted), lockFile := false, temps := t.temps - {p}, pcs := t.pcs[p := Returned(minted)])
  {
    var t := After(s, run);
    ThenStep(s, run, Step(p, Ok, 0));
    run' := run + [Step(p, Ok, 0)];
    ThenStep(s, run', Step(p, Ok, 0));
    run' := run' + [Step(p, Ok, 0)];
    ThenStep(s, run', Step(p, Ok, 0));
    run' := run' + [Step(p, Ok, 0)];
    assert After(s, run').pcs == t.pcs[p := Returned(minted)];
    assert After(s, run').temps == t.temps - {p};
  }

  /** A process that starts, sees no key, and takes the lock. */
  lemma TakesLock(s: System, run: seq<Event>, p: nat, read: Outcome) returns (run': seq<Event>)
    requires Runs(s, run)
    requires var t := After(s, run); p !in t.pcs && !t.lockFile && (read.Ok? ==> !t.keyFile.Valid?)
    ensures Runs(s, run')
    ensures var t, t' := After(s, run), After(s, run');
      t' == t.(lockFile := true, pcs := t.pcs[p := ReadLocked])
  {
    var t := After(s, run);
    ThenStep(s, run, Start(p));
    run' := run + [Start(p)];
    ThenStep(s, run', Step(p, read, 0));
    run' := run' + [Step(p, read, 0)];
    ThenStep(s, run', Step(p, Ok, 0));
    run' := run' + [Step(p, Ok, 0)];
    assert After(s, run').pcs == t.pcs[p := ReadLocked];
  }

  /**
   The run on which two processes return different keys: in an empty directory one publishes its key,
   and both reads of the other fail, the second one under the lock.
   */
  lemma FailedLockedReadBreaksAgreement() returns (run: seq<Event>)
    ensures var s := System(false, Missing, map[], map[]);
      && Initial(s) && Runs(s, run)
      && var t := After(s, run);
      && 1 in t.pcs && 2 in t.pcs && t.pcs[1] == Returned(7) && t.pcs[2] == Returned(8) && t.keyFile == Valid(8)
  {
    hide Next, Possible;
    var s := System(false, Missing, map[], map[]);
    run := TakesLock(s, [], 1, Ok);
    run := WritesKey(s, run, 1, 7, Ok);
    run := PublishesKey(s, run, 1, 7);
    run := TakesLock(s, run, 2, Fatal);
    run := WritesKey(s, run, 2, 8, Fatal);
    run := PublishesKey(s, run, 2, 8);
  }

  /** Bounds the calls that a process still makes. */
  function Remaining(pc: Pc): nat {
    match pc
    case FirstRead => 2 * LOCK_ATTEMPTS + 15
    case OpenLock(a) => if a < LOCK_ATTEMPTS then 2 * (LOCK_ATTEMPTS - a) + 14 else 14
    case ReadBusy(a) => if a < LOCK_ATTEMPTS then 2 * (LOCK_ATTEMPTS - a) + 13 else 13
    case LastRead => 13
    case LastOpen => 12
    case LateRead => 11
    case ReadLocked => 10
    case WriteTemp(_) => 9
    case Chmod(_) => 8
    case RenameTemp(_, a) => if a < RENAME_ATTEMPTS then 2 + RENAME_ATTEMPTS - a else 3
    case RemoveTemp(_) => 2
    case Release(_) => 1
    case _ => 0
  }

  /** Attempt counters stay below their bounds. */
  predicate Counting(pc: Pc) {
    (pc.OpenLock? || pc.ReadBusy? ==> pc.attempt < LOCK_ATTEMPTS) &&
    (pc.RenameTemp? ==> pc.attempt < RENAME_ATTEMPTS)
  }

  predicate AllCounting(s: System) {
    forall p <- s.pcs :: Counting(s.pcs[p])
  }

  /** The calls that a run makes on behalf of a process. */
  function CallsOf(run: seq<Event>, p: nat): nat {
    if run == [] then 0
    else (if run[0].Step? && run[0].p == p then 1 else 0) + CallsOf(run[1..], p)
  }

  lemma OwnStepCounts(s: System, p: nat, outcome: Outcome, minted: nat)
    requires p in s.pcs && !Ended(s.pcs[p]) && Counting(s.pcs[p])
    ensures Counting(NextPc(s, p, outcome, minted))
    ensures Remaining(NextPc(s, p, outcome, minted)) < Remaining(s.pcs[p])
  {
  }

  lemma StepCounts(s: System, e: Event, p: nat)
    requires AllCounting(s) && Enabled(s, e) && p in s.pcs
    ensures AllCounting(Next(s, e)) && p in Next(s, e).pcs
    ensures Remaining(Next(s, e).pcs[p]) + (if e.Step? && e.p == p then 1 else 0) <= Remaining(s.pcs[p])
  {
    if e.Step? {
      OwnStepCounts(s, e.p, e.outcome, e.minted);
      StepFrame(s, e);
      hide Next, NextPc, Counting, Remaining;
    }
  }

  /** No process waits for ever: from its start it makes at most 115 calls, whatever the others do. */
  lemma {:induction false} CallsAreBounded(s: System, run: seq<Event>, p: nat)
    requires AllCounting(s) && Legal(s, run) && p in s.pcs
    ensures p in Exec(s, run).pcs
    ensures CallsOf(run, p) + Remaining(Exec(s, run).pcs[p]) <= Remaining(s.pcs[p])
    ensures CallsOf(run, p) <= 115
    decreases |run|
  {
    if run != [] {
      StepCounts(s, run[0], p);
      CallsAreBounded(Next(s, run[0]), run[1..], p);
    }
  }

  /** No call fails and no process crashes. */
  predicate FaultFree(run: seq<Event>) {
    forall e <- run :: !e.Crash? && (e.Step? ==> e.outcome.Ok?)
  }

  /** The process has not tried the lock yet. */
  predicate Untouched(pc: Pc) {
    pc.FirstRead? || pc == OpenLock(0)
  }

  /** Once the lock was contended for, somebody holds it or the key is there. */
  ghost predicate Underway(s: System) {
    && (s.lockFile ==> exists p <- s.pcs :: Holds(s.pcs[p]))
    && (forall p <- s.pcs :: s.pcs[p] != RemoveTemp(None) && s.pcs[p] != Release(None))
    && ((exists p <- s.pcs :: !Untouched(s.pcs[p])) ==>
          s.keyFile.Valid? || exists p <- s.pcs :: Holds(s.pcs[p]))
  }

  /** What a call without fault does to the process that makes it. */
  lemma OwnStepUnderway(s: System, p: nat, minted: nat)
    requires Inv(s) && Enabled(s, Step(p, Ok, minted))
    requires s.pcs[p] != RemoveTemp(None) && s.pcs[p] != Release(None)
    ensures var t := Next(s, Step(p, Ok, minted));
            && t.pcs == s.pcs[p := t.pcs[p]]
            && t.pcs[p] != RemoveTemp(None) && t.pcs[p] != Release(None)
            && (t.lockFile ==> s.lockFile || Holds(t.pcs[p]))
            && (Holds(s.pcs[p]) && !Holds(t.pcs[p]) ==> t.keyFile.Valid? && !t.lockFile)
            && (!Untouched(t.pcs[p]) && !Holds(t.pcs[p]) ==> t.keyFile.Valid? || s.lockFile || !Untouched(s.pcs[p]))
            && (s.keyFile.Valid? ==> t.keyFile.Valid?)
  {
    assert ProcessOk(p, s.pcs[p], s.lockFile, s.keyFile, s.temps);
  }

  lemma StepKeepsUnderway(s: System, e: Event)
    requires Inv(s) && Underway(s) && Enabled(s, e)
    requires !e.Crash? && (e.Step? ==> e.outcome.Ok?)
    ensures Underway(Next(s, e))
  {
    var t := Next(s, e);
    match e
    case RemoveStaleLock =>
    case Start(p) =>
      assert forall q <- s.pcs :: q in t.pcs && t.pcs[q] == s.pcs[q];
    case Step(p, outcome, minted) =>
      OwnStepUnderway(s, p, minted);
      hide Next, Inv;
      assert forall q <- s.pcs :: q in t.pcs && (q != p ==> t.pcs[q] == s.pcs[q]);
  }

  lemma {:induction false} RunKeepsUnderway(s: System, run: seq<Event>)
    requires Inv(s) && Underway(s) && Legal(s, run) && FaultFree(run)
    ensures Inv(Exec(s, run)) && Underway(Exec(s, run))
    decreases |run|
  {
    if run != [] {
      StepKeepsInv(s, run[0]);
      StepKeepsUnderway(s, run[0]);
      RunKeepsUnderway(Next(s, run[0]), run[1..]);
    }
  }

  /**
   Without faults and without an old lock file, contention always produces a key: when every
   process has ended and there was one, the key file is valid and the lock is gone.
   */
  lemma FaultFreeRunsProduceAKey(s: System, run: seq<Event>)
    requires Initial(s) && !s.lockFile && Legal(s, run) && FaultFree(run)
    requires Exec(s, run).pcs != map[] && forall p <- Exec(s, run).pcs :: Ended(Exec(s, run).pcs[p])
    ensures Exec(s, run).keyFile.Valid? && !Exec(s, run).lockFile
  {
    RunKeepsUnderway(s, run);
    var t := Exec(s, run);
    var p :| p in t.pcs;
    assert !Untouched(t.pcs[p]);
  }

  // How patient a process is.

  /** The calls of a process that found the lock taken. */
  function BusyOpens(s: System, run: seq<Event>, p: nat): nat
    requires Legal(s, run)
    decreases |run|
  {
    if run == [] then 0
    else
      var e := run[0];
      var busy := e.Step? && e.p == p && (s.pcs[p].OpenLock? || s.pcs[p].LastOpen?) && s.lockFile;
      (if busy then 1 else 0) + BusyOpens(Next(s, e), run[1..], p)
  }

  /** The process has not got the lock, and no call of its own has failed. */
  predicate Waits(pc: Pc) {
    pc.FirstRead? || pc.OpenLock? || pc.ReadBusy? || pc.LastRead? || pc.LastOpen? || pc.LateRead? || pc.Threw?
  }

  /** How often such a process has found the lock taken. */
  function Tried(pc: Pc): nat {
    match pc
    case OpenLock(a) => a
    case ReadBusy(a) => a + 1
    case LastRead => 50
    case LastOpen => 50
    case LateRead => 51
    case Threw => 51
    case _ => 0
  }

  /** How many calls it has made: every open that finds the lock taken is followed by a read. */
  function Made(pc: Pc): nat {
    match pc
    case OpenLock(a) => 1 + 2 * a
    case ReadBusy(a) => 2 + 2 * a
    case LastRead => 101
    case LastOpen => 102
    case LateRead => 103
    case Threw => 104
    case _ => 0
  }

  predicate Counts(s: System, p: nat) {
    p in s.pcs ==> Counting(s.pcs[p]) && s.pcs[p] != RemoveTemp(None) && s.pcs[p] != Release(None)
  }

  /** The process's own call. */
  lemma OwnCallTries(s: System, p: nat, minted: nat)
    requires Inv(s) && Enabled(s, Step(p, Ok, minted)) && Counts(s, p)
    ensures var pc := NextPc(s, p, Ok, minted);
      && Counting(pc) && pc != RemoveTemp(None) && pc != Release(None)
      && (Waits(pc) ==>
            && Waits(s.pcs[p])
            && Tried(pc) == Tried(s.pcs[p]) + (if (s.pcs[p].OpenLock? || s.pcs[p].LastOpen?) && s.lockFile then 1 else 0)
            && Made(pc) == Made(s.pcs[p]) + 1)
  {
    assert ProcessOk(p, s.pcs[p], s.lockFile, s.keyFile, s.temps);
    hide Inv;
  }

  lemma BusyOnce(s: System, e: Event, p: nat)
    requires Enabled(s, e)
    ensures Legal(s, [e])
    ensures BusyOpens(s, [e], p)
         == if e.Step? && e.p == p && (s.pcs[p].OpenLock? || s.pcs[p].LastOpen?) && s.lockFile then 1 else 0
  {
    hide Next;
    assert [e][1..] == [];
    assert BusyOpens(Next(s, e), [], p) == 0;
  }

  lemma StepTries(s: System, e: Event, p: nat)
    requires Inv(s) && Enabled(s, e) && Counts(s, p) && !e.Crash? && (e.Step? ==> e.outcome.Ok?)
    ensures Legal(s, [e])
    ensures var t := Next(s, e);
      && Counts(t, p) && (p in s.pcs ==> p in t.pcs)
      && (p in t.pcs && Waits(t.pcs[p]) ==>
            && (p in s.pcs ==> Waits(s.pcs[p]))
            && Tried(t.pcs[p]) == (if p in s.pcs then Tried(s.pcs[p]) else 0) + BusyOpens(s, [e], p)
            && Made(t.pcs[p]) == (if p in s.pcs then Made(s.pcs[p]) else 0) + if e.Step? && e.p == p then 1 else 0)
  {
    hide Inv, NextPc, BusyOpens;
    BusyOnce(s, e, p);
    if e.Step? {
      StepFrame(s, e);
      if e.p == p { OwnCallTries(s, p, e.minted); }
      hide Next;
    }
  }

  lemma {:induction false} RunTries(s: System, run: seq<Event>, p: nat)
    requires Inv(s) && Legal(s, run) && FaultFree(run) && Counts(s, p)
    ensures var t := Exec(s, run);
      && (p in s.pcs ==> p in t.pcs)
      && (p in t.pcs && Waits(t.pcs[p]) ==>
            && (p in s.pcs ==> Waits(s.pcs[p]))
            && Tried(t.pcs[p]) == (if p in s.pcs then Tried(s.pcs[p]) else 0) + BusyOpens(s, run, p)
            && Made(t.pcs[p]) == (if p in s.pcs then Made(s.pcs[p]) else 0) + CallsOf(run, p))
    decreases |run|
  {
    hide Inv, Next, Counts, Waits, Tried, Made;
    if run != [] {
      assert run[0] in run;
      StepTries(s, run[0], p);
      StepKeepsInv(s, run[0]);
      assert [run[0]][1..] == [];
      RunTries(Next(s, run[0]), run[1..], p);
    }
  }

  /**
   * Without faults a process throws only after it has found the lock taken fifty-one times; its other
   * fifty-three calls are reads of the key file, one before the first open and two before the last.
   */
  lemma ThrowsAfterFiftyOneBusyOpens(s: System, run: seq<Event>, p: nat)
    requires Initial(s) && Legal(s, run) && FaultFree(run)
    ensures p in Exec(s, run).pcs && Exec(s, run).pcs[p].Threw? ==>
      BusyOpens(s, run, p) == 51 && CallsOf(run, p) == 51 + 53
  {
    RunTries(s, run, p);
  }

  /** Wherever a process reads without failure and there is a valid key, it ends up with that key. */
  lemma ReadKeyIsReturned(s: System, p: nat, minted: nat)
    requires p in s.pcs && s.keyFile.Valid?
    ensures s.pcs[p].FirstRead? || s.pcs[p].ReadBusy? || s.pcs[p].LastRead? || s.pcs[p].LateRead? ==>
      NextPc(s, p, Ok, minted) == Returned(s.keyFile.key)
    ensures s.pcs[p].ReadLocked? ==> NextPc(s, p, Ok, minted) == Release(Some(s.keyFile.key))
  {
  }

  /** A process whose renames fail for a while, and then one succeeds. */
  function Renames(p: nat, failures: nat): seq<Event> {
    if failures == 0 then [Step(p, Ok, 0)] else [Step(p, Transient, 0)] + Renames(p, failures - 1)
  }

  /** Up to four transient failures of the rename are overcome. */
  lemma {:induction false} TransientRenamesAreOvercome(s: System, p: nat, key: nat, attempt: nat, failures: nat)
    requires p in s.pcs && s.pcs[p] == RenameTemp(key, attempt) && p in s.temps && s.temps[p] == key
    requires attempt + failures <= 4
    ensures Legal(s, Renames(p, failures))
    ensures Exec(s, Renames(p, failures)).keyFile == Valid(key)
    decreases failures
  {
    var e := Renames(p, failures)[0];
    if failures == 0 {
      assert Renames(p, failures)[1..] == [];
    } else {
      assert Renames(p, failures)[1..] == Renames(p, failures - 1);
      TransientRenamesAreOvercome(Next(s, e), p, key, attempt + 1, failures - 1);
    }
  }

  /** The fifth failure ends the attempts, without a key of its own. */
  lemma FifthFailureGivesUp(s: System, p: nat, key: nat)
    requires p in s.pcs && s.pcs[p] == RenameTemp(key, 4)
    ensures NextPc(s, p, Transient, 0) == RemoveTemp(None) && NextPc(s, p, Fatal, 0) == RemoveTemp(None)
  {
  }

  // What a failed call leads to.

  /** The process is on its way to throwing. */
  predicate GivesUp(pc: Pc) {
    pc == RemoveTemp(None) || pc == Release(None) || pc == Threw || pc == Crashed
  }

  lemma {:induction false} GivenUpStays(s: System, run: seq<Event>, p: nat)
    requires Legal(s, run) && p in s.pcs && GivesUp(s.pcs[p])
    ensures var t := Exec(s, run); p in t.pcs && GivesUp(t.pcs[p]) && (Ended(t.pcs[p]) ==> t.pcs[p].Threw? || t.pcs[p].Crashed?)
    decreases |run|
  {
    if run != [] {
      GivenUpStays(Next(s, run[0]), run[1..], p);
    }
  }

  /**
   * A process that cannot create the lock for another reason than its being taken, that cannot write its
   * temporary file, or that cannot restrict it to its owner never returns a key, and publishes none.
   */
  lemma FailedCallThrows(s: System, e: Event, run: seq<Event>)
    requires Enabled(s, e) && e.Step? && !e.outcome.Ok? && Legal(Next(s, e), run)
    requires s.pcs[e.p].OpenLock? || s.pcs[e.p].LastOpen? || s.pcs[e.p].WriteTemp? || s.pcs[e.p].Chmod?
    ensures var t := Exec(Next(s, e), run);
      && Next(s, e).keyFile == s.keyFile && e.p in t.pcs
      && GivesUp(t.pcs[e.p]) && (Ended(t.pcs[e.p]) ==> t.pcs[e.p].Threw? || t.pcs[e.p].Crashed?)
  {
    GivenUpStays(Next(s, e), run, e.p);
  }
}
