/** Terminal streams: supersession by resubscribing, interval ticks, and deliveries that may be late. */
module TerminalStreams {
  import opened Options

  datatype Key = Key(socket: nat, terminal: string)
  datatype Frame = Scrollback | Chunk(index: nat)
  datatype Delivery = Delivery(stream: nat, frame: Frame)

  /** `live` is a running interval; `chunkIndex` is the counter its callback closes over. */
  datatype Stream = Stream(key: Key, live: bool, chunkIndex: nat)

  /**
   * A stream is identified by its position in `streams`. `registered` is the map of current streams;
   * `sockets` counts the sockets ever connected. With a response delay every response waits in `queue`,
   * which timers of one length empty in order for each stream.
   */
  datatype State = State(
    delayed: bool,
    sockets: nat,
    open: set<nat>,
    streams: seq<Stream>,
    registered: map<Key, nat>,
    queue: seq<Delivery>,
    sent: seq<Delivery>)

  datatype Event =
    | Connect
    | Close(socket: nat)
    | Subscribe(key: Key)
    | Unsubscribe(key: Key)
    | Tick(stream: nat)
    | Deliver(position: nat)

  /** How many chunks a stream has to send. */
  const STREAMING_CHUNKS: nat := 5

  function Initial(delayed: bool): State {
    State(delayed, 0, {}, [], map[], [], [])
  }

  predicate IsCurrent(s: State, id: nat) {
    && id < |s.streams|
    && s.streams[id].key in s.registered && s.registered[s.streams[id].key] == id
    && s.streams[id].key.socket in s.open
  }

  function StopInterval(streams: seq<Stream>, id: nat): (r: seq<Stream>)
    ensures |r| == |streams|
  {
    if id < |streams| then streams[id := streams[id].(live := false)] else streams
  }

  function Clear(s: State, key: Key): State {
    if key in s.registered
    then s.(streams := StopInterval(s.streams, s.registered[key]), registered := s.registered - {key})
    else s
  }

  /** A guarded response: the guard is evaluated when it is delivered, not when it is made. */
  function Respond(s: State, d: Delivery): State {
    if s.delayed then s.(queue := s.queue + [d])
    else if IsCurrent(s, d.stream) then s.(sent := s.sent + [d])
    else s
  }

  function Open(s: State, key: Key): State {
    var cleared := Clear(s, key);
    cleared.(streams := cleared.streams + [Stream(key, false, 0)], registered := cleared.registered[key := |s.streams|])
  }

  function StartInterval(streams: seq<Stream>, id: nat): (r: seq<Stream>)
    ensures |r| == |streams|
  {
    if id < |streams| then streams[id := streams[id].(live := true)] else streams
  }

  function Begin(s: State, key: Key): State {
    var id := |s.streams|;
    var answered := Respond(Open(s, key), Delivery(id, Scrollback));
    answered.(streams := StartInterval(answered.streams, id))
  }

  function TickStream(s: State, id: nat): State
    requires id < |s.streams|
  {
    var k := s.streams[id].chunkIndex;
    if !IsCurrent(s, id) || k >= STREAMING_CHUNKS then s.(streams := StopInterval(s.streams, id))
    else
      var answered := Respond(s, Delivery(id, Chunk(k)));
      answered.(streams := s.streams[id := s.streams[id].(chunkIndex := k + 1)])
  }

  function DeliverAt(s: State, p: nat): State
    requires p < |s.queue|
  {
    var waiting := s.(queue := s.queue[..p] + s.queue[p + 1..]);
    if IsCurrent(s, s.queue[p].stream) then waiting.(sent := s.sent + [s.queue[p]]) else waiting
  }

  predicate Enabled(s: State, e: Event) {
    match e
    case Connect => true
    case Close(socket) => socket in s.open
    case Subscribe(key) => key.socket < s.sockets
    case Unsubscribe(key) => key.socket < s.sockets
    case Tick(id) => id < |s.streams| && s.streams[id].live
    case Deliver(p) => p < |s.queue| && FramesOf(s.queue[..p], s.queue[p].stream) == []
  }

  function Next(s: State, e: Event): State
    requires Enabled(s, e)
  {
    match e
    case Connect => s.(sockets := s.sockets + 1, open := s.open + {s.sockets})
    case Close(socket) => s.(open := s.open - {socket})
    case Subscribe(key) => Begin(s, key)
    case Unsubscribe(key) => Clear(s, key)
    case Tick(id) => TickStream(s, id)
    case Deliver(p) => DeliverAt(s, p)
  }

  /** The frames of one stream among some deliveries, in order. */
  function FramesOf(ds: seq<Delivery>, id: nat): seq<Frame> {
    if ds == [] then []
    else FramesOf(ds[..|ds| - 1], id)
         + if ds[|ds| - 1].stream == id then [ds[|ds| - 1].frame] else []
  }

  /** Scrollback, then the chunks 0 to `chunks - 1`. */
  function Script(chunks: nat): (r: seq<Frame>)
    ensures |r| == chunks + 1
  {
    [Scrollback] + seq(chunks, (k: nat) => Chunk(k))
  }

  predicate Legal(s: State, events: seq<Event>)
    decreases |events|
  {
    events == [] || (Enabled(s, events[0]) && Legal(Next(s, events[0]), events[1..]))
  }

  function Exec(s: State, events: seq<Event>): State
    requires Legal(s, events)
    decreases |events|
  {
    if events == [] then s else Exec(Next(s, events[0]), events[1..])
  }

  // ---------------------------------------------------------------------------------------------
  // Invariant
  // ---------------------------------------------------------------------------------------------

  ghost predicate Registry(streams: seq<Stream>, registered: map<Key, nat>) {
    && (forall key <- registered :: registered[key] < |streams| && streams[registered[key]].key == key)
    && (forall id :: 0 <= id < |streams| && streams[id].live ==>
          streams[id].key in registered && registered[streams[id].key] == id)
  }

  ghost predicate Counters(streams: seq<Stream>) {
    forall id :: 0 <= id < |streams| ==> streams[id].chunkIndex <= STREAMING_CHUNKS
  }

  ghost predicate Known(streams: seq<Stream>, sockets: nat, open: set<nat>, queue: seq<Delivery>) {
    && (forall socket <- open :: socket < sockets)
    && (forall id :: 0 <= id < |streams| ==> streams[id].key.socket < sockets)
    && (forall p :: 0 <= p < |queue| ==> queue[p].stream < |streams|)
  }

  /** What a stream has sent is a prefix of its script, and while it is current the queue holds the rest. */
  ghost predicate Accounted(s: State, id: nat)
    requires id < |s.streams|
  {
    var script := Script(s.streams[id].chunkIndex);
    && FramesOf(s.sent, id) <= script
    && (IsCurrent(s, id) ==> FramesOf(s.sent, id) + FramesOf(s.queue, id) == script)
  }

  ghost predicate Inv(s: State) {
    && Registry(s.streams, s.registered)
    && Counters(s.streams)
    && Known(s.streams, s.sockets, s.open, s.queue)
    && (forall p :: 0 <= p < |s.sent| ==> s.sent[p].stream < |s.streams|)
    && (forall id :: 0 <= id < |s.streams| ==> Accounted(s, id))
  }

  lemma InitialInv(delayed: bool)
    ensures Inv(Initial(delayed))
  {
  }

  lemma Appended(ds: seq<Delivery>, d: Delivery, id: nat)
    ensures FramesOf(ds + [d], id) == FramesOf(ds, id) + if d.stream == id then [d.frame] else []
  {
    assert (ds + [d])[..|ds|] == ds;
  }

  lemma {:induction false} Joined(a: seq<Delivery>, b: seq<Delivery>, id: nat)
    ensures FramesOf(a + b, id) == FramesOf(a, id) + FramesOf(b, id)
  {
    if b == [] {
      assert a + b == a;
    } else {
      assert (a + b)[..|a + b| - 1] == a + b[..|b| - 1];
      Joined(a, b[..|b| - 1], id);
    }
  }

  /** Taking the first entry of a stream out of the queue leaves every other stream's frames alone. */
  lemma TakenOut(q: seq<Delivery>, p: nat, id: nat)
    requires p < |q|
    requires q[p].stream == id ==> FramesOf(q[..p], id) == []
    ensures FramesOf(q, id)
         == (if q[p].stream == id then [q[p].frame] else []) + FramesOf(q[..p] + q[p + 1..], id)
  {
    assert q == (q[..p] + [q[p]]) + q[p + 1..];
    Joined(q[..p] + [q[p]], q[p + 1..], id);
    Appended(q[..p], q[p], id);
    Joined(q[..p], q[p + 1..], id);
  }

  lemma {:induction false} NoneOf(ds: seq<Delivery>, id: nat)
    requires forall p :: 0 <= p < |ds| ==> ds[p].stream != id
    ensures FramesOf(ds, id) == []
  {
    if ds != [] {
      NoneOf(ds[..|ds| - 1], id);
    }
  }

  lemma ScriptGrows(k: nat)
    ensures Script(k + 1) == Script(k) + [Chunk(k)]
  {
  }

  /** Whatever else happens, a stream that is no longer current and sends nothing stays accounted for. */
  lemma StaysAccounted(s: State, t: State, id: nat)
    requires id < |s.streams| && id < |t.streams| && Accounted(s, id)
    requires t.streams[id].chunkIndex == s.streams[id].chunkIndex
    requires FramesOf(t.sent, id) == FramesOf(s.sent, id)
    requires IsCurrent(t, id) ==> IsCurrent(s, id) && FramesOf(t.queue, id) == FramesOf(s.queue, id)
    ensures Accounted(t, id)
  {
  }

  lemma ClearKeepsInv(s: State, key: Key)
    requires Inv(s)
    ensures Inv(Clear(s, key))
  {
    hide FramesOf, Script, Accounted;
    forall id | 0 <= id < |s.streams| ensures Accounted(Clear(s, key), id) {
      StaysAccounted(s, Clear(s, key), id);
    }
  }

  lemma OpenKeepsRest(s: State, key: Key)
    requires Inv(s) && key.socket < s.sockets
    ensures var t, n := Open(s, key), |s.streams|;
      && t.streams[n] == Stream(key, false, 0) && |t.streams| == n + 1 && t.registered[key] == n
      && Registry(t.streams, t.registered) && Counters(t.streams)
      && Known(t.streams, t.sockets, t.open, t.queue)
      && (forall id :: 0 <= id < n ==> Accounted(t, id))
  {
    hide FramesOf, Script, Accounted;
    ClearKeepsInv(s, key);
    var c, t := Clear(s, key), Open(s, key);
    forall id | 0 <= id < |s.streams| ensures Accounted(t, id) {
      StaysAccounted(c, t, id);
    }
  }

  /** The frames that a response adds: to the queue, or to what is sent when its stream is current. */
  lemma RespondAdds(s: State, d: Delivery, id: nat)
    ensures var t := Respond(s, d);
      && FramesOf(t.queue, id) == FramesOf(s.queue, id) + (if s.delayed && d.stream == id then [d.frame] else [])
      && FramesOf(t.sent, id) == FramesOf(s.sent, id)
           + (if !s.delayed && IsCurrent(s, d.stream) && d.stream == id then [d.frame] else [])
  {
    Appended(s.queue, d, id);
    Appended(s.sent, d, id);
  }

  lemma BeginKeepsInv(s: State, key: Key)
    requires Inv(s) && key.socket < s.sockets && (!s.delayed ==> s.queue == [])
    ensures Inv(Begin(s, key))
  {
    hide FramesOf, Script, Accounted;
    OpenKeepsRest(s, key);
    var begun, n, t := Open(s, key), |s.streams|, Begin(s, key);
    var d := Delivery(n, Scrollback);
    forall id | 0 <= id < n ensures Accounted(t, id) {
      RespondAdds(begun, d, id);
      StaysAccounted(begun, t, id);
    }
    FirstFrame(s, key);
  }

  /** The new stream's only frame is its scrollback, sent or still queued. */
  lemma FirstFrame(s: State, key: Key)
    requires Inv(s)
    requires !s.delayed ==> s.queue == []
    ensures Accounted(Begin(s, key), |s.streams|)
  {
    hide Counters, Accounted;
    var begun, n := Open(s, key), |s.streams|;
    NoneOf(s.queue, n);
    NoneOf(s.sent, n);
    RespondAdds(begun, Delivery(n, Scrollback), n);
    AccountedUnfolded(Begin(s, key), n);
  }

  lemma AccountedUnfolded(s: State, id: nat)
    requires id < |s.streams|
    ensures var script := Script(s.streams[id].chunkIndex);
      Accounted(s, id) <==>
        (FramesOf(s.sent, id) <= script && (IsCurrent(s, id) ==> FramesOf(s.sent, id) + FramesOf(s.queue, id) == script))
  {
  }

  lemma NextFrame(s: State, id: nat)
    requires id < |s.streams| && Accounted(s, id) && IsCurrent(s, id) && s.streams[id].chunkIndex < STREAMING_CHUNKS
    requires !s.delayed ==> s.queue == []
    ensures Accounted(TickStream(s, id), id)
  {
    var k := s.streams[id].chunkIndex;
    RespondAdds(s, Delivery(id, Chunk(k)), id);
    ScriptGrows(k);
  }

  lemma TickKeepsInv(s: State, id: nat)
    requires Inv(s) && id < |s.streams|
    requires !s.delayed ==> s.queue == []
    ensures Inv(TickStream(s, id))
  {
    hide FramesOf, Script, Accounted;
    var t := TickStream(s, id);
    var sends := IsCurrent(s, id) && s.streams[id].chunkIndex < STREAMING_CHUNKS;
    forall j | 0 <= j < |s.streams| && !(sends && j == id) ensures Accounted(t, j) {
      RespondAdds(s, Delivery(id, Chunk(s.streams[id].chunkIndex)), j);
      StaysAccounted(s, t, j);
    }
    if sends {
      NextFrame(s, id);
    }
  }

  lemma DeliveredFrames(s: State, p: nat, id: nat)
    requires p < |s.queue| && FramesOf(s.queue[..p], s.queue[p].stream) == []
    ensures var t := DeliverAt(s, p);
      var one := if s.queue[p].stream == id then [s.queue[p].frame] else [];
      && FramesOf(s.queue, id) == one + FramesOf(t.queue, id)
      && FramesOf(t.sent, id) == FramesOf(s.sent, id) + if IsCurrent(s, s.queue[p].stream) then one else []
  {
    TakenOut(s.queue, p, id);
    Appended(s.sent, s.queue[p], id);
  }

  lemma DeliverKeepsAccounts(s: State, p: nat, id: nat)
    requires p < |s.queue| && FramesOf(s.queue[..p], s.queue[p].stream) == []
    requires id < |s.streams| && Accounted(s, id)
    ensures Accounted(DeliverAt(s, p), id)
  {
    hide FramesOf, Script;
    DeliveredFrames(s, p, id);
  }

  lemma DeliverKeepsInv(s: State, p: nat)
    requires Inv(s) && Enabled(s, Deliver(p))
    ensures Inv(DeliverAt(s, p))
  {
    hide FramesOf, Script, Accounted;
    forall id | 0 <= id < |s.streams| ensures Accounted(DeliverAt(s, p), id) {
      DeliverKeepsAccounts(s, p, id);
    }
  }

  lemma SocketsKeepInv(s: State, e: Event)
    requires Inv(s) && Enabled(s, e) && (e.Connect? || e.Close?)
    ensures Inv(Next(s, e))
  {
    hide FramesOf, Script, Accounted;
    forall id | 0 <= id < |s.streams| ensures Accounted(Next(s, e), id) {
      StaysAccounted(s, Next(s, e), id);
    }
  }

  ghost predicate Safe(s: State) {
    Inv(s) && (!s.delayed ==> s.queue == [])
  }

  lemma StepKeepsInv(s: State, e: Event)
    requires Safe(s) && Enabled(s, e)
    ensures Safe(Next(s, e))
  {
    hide Inv, FramesOf;
    match e
    case Connect => SocketsKeepInv(s, e);
    case Close(_) => SocketsKeepInv(s, e);
    case Subscribe(key) => BeginKeepsInv(s, key);
    case Unsubscribe(key) => ClearKeepsInv(s, key);
    case Tick(id) => TickKeepsInv(s, id);
    case Deliver(p) => DeliverKeepsInv(s, p);
  }

  lemma {:induction false} RunKeepsInv(s: State, events: seq<Event>)
    requires Safe(s) && Legal(s, events)
    ensures Safe(Exec(s, events))
    decreases |events|
  {
    hide Safe, Next, Enabled;
    if events != [] {
      StepKeepsInv(s, events[0]);
      RunKeepsInv(Next(s, events[0]), events[1..]);
    }
  }

  // ---------------------------------------------------------------------------------------------
  // Results over whole runs
  // ---------------------------------------------------------------------------------------------

  ghost function LiveFor(s: State, key: Key): set<nat> {
    set id | 0 <= id < |s.streams| && s.streams[id].live && s.streams[id].key == key
  }

  /** For each socket and terminal at most one interval runs, and it is that of the registered stream. */
  lemma AtMostOneInterval(delayed: bool, events: seq<Event>, key: Key)
    requires Legal(Initial(delayed), events)
    ensures var s := Exec(Initial(delayed), events);
      LiveFor(s, key) <= (if key in s.registered then {s.registered[key]} else {})
      && |LiveFor(s, key)| <= 1
  {
    InitialInv(delayed);
    RunKeepsInv(Initial(delayed), events);
    var s := Exec(Initial(delayed), events);
    if key in s.registered {
      if s.registered[key] in LiveFor(s, key) {
        assert LiveFor(s, key) == {s.registered[key]};
      } else {
        assert LiveFor(s, key) == {};
      }
    } else {
      assert LiveFor(s, key) == {};
    }
  }

  /** A stream that was replaced, unsubscribed or disconnected sends nothing more, queued or not. */
  lemma StepIsSilent(s: State, e: Event, id: nat)
    requires Safe(s) && Enabled(s, e) && id < |s.streams| && !IsCurrent(s, id)
    ensures var t := Next(s, e);
      id < |t.streams| && !IsCurrent(t, id) && FramesOf(t.sent, id) == FramesOf(s.sent, id)
  {
    hide FramesOf, Script, Accounted;
    match e
    case Subscribe(key) => RespondAdds(Open(s, key), Delivery(|s.streams|, Scrollback), id);
    case Tick(j) => RespondAdds(s, Delivery(j, Chunk(s.streams[j].chunkIndex)), id);
    case Deliver(p) => DeliveredFrames(s, p, id);
    case _ =>
  }

  lemma {:induction false} SupersededIsSilent(s: State, events: seq<Event>, id: nat)
    requires Safe(s) && Legal(s, events) && id < |s.streams| && !IsCurrent(s, id)
    ensures var t := Exec(s, events);
      id < |t.streams| && !IsCurrent(t, id) && FramesOf(t.sent, id) == FramesOf(s.sent, id)
    decreases |events|
  {
    hide Safe, Next, Enabled, IsCurrent, FramesOf;
    if events != [] {
      StepIsSilent(s, events[0], id);
      StepKeepsInv(s, events[0]);
      SupersededIsSilent(Next(s, events[0]), events[1..], id);
    }
  }

  /** The three ways a stream ends: a new subscription, an unsubscription, a closed socket. */
  lemma EndsStream(s: State, e: Event, id: nat)
    requires Safe(s) && Enabled(s, e) && id < |s.streams|
    requires || e == Subscribe(s.streams[id].key)
             || e == Unsubscribe(s.streams[id].key)
             || e == Close(s.streams[id].key.socket)
    ensures var t := Next(s, e);
      id < |t.streams| && !IsCurrent(t, id) && FramesOf(t.sent, id) == FramesOf(s.sent, id)
  {
    hide FramesOf, Script, Accounted;
    if e.Subscribe? {
      RespondAdds(Open(s, e.key), Delivery(|s.streams|, Scrollback), id);
    }
  }

  /** From any reachable state, nothing of a stream is sent at or after its end, whatever was queued for it. */
  lemma NothingAfterTheEnd(delayed: bool, before: seq<Event>, e: Event, later: seq<Event>, id: nat)
    requires Legal(Initial(delayed), before)
    requires var s := Exec(Initial(delayed), before);
      && id < |s.streams| && Enabled(s, e) && Legal(Next(s, e), later)
      && (|| e == Subscribe(s.streams[id].key)
          || e == Unsubscribe(s.streams[id].key)
          || e == Close(s.streams[id].key.socket))
    ensures var s := Exec(Initial(delayed), before);
      FramesOf(Exec(Next(s, e), later).sent, id) == FramesOf(s.sent, id)
  {
    InitialInv(delayed);
    RunKeepsInv(Initial(delayed), before);
    var s := Exec(Initial(delayed), before);
    hide *;
    EndsStream(s, e, id);
    StepKeepsInv(s, e);
    SupersededIsSilent(Next(s, e), later, id);
  }

  /**
   * What a client sees of one stream is its scrollback and then the chunks from the first on, in order
   * and without a gap; all that the stream made is sent once it is current and its queue is empty.
   */
  lemma DeliveredInOrder(delayed: bool, events: seq<Event>, id: nat)
    requires Legal(Initial(delayed), events)
    ensures var s := Exec(Initial(delayed), events);
      id < |s.streams| ==>
        && FramesOf(s.sent, id) <= Script(s.streams[id].chunkIndex)
        && FramesOf(s.sent, id) <= Script(STREAMING_CHUNKS)
        && (IsCurrent(s, id) && FramesOf(s.queue, id) == [] ==>
              FramesOf(s.sent, id) == Script(s.streams[id].chunkIndex))
  {
    InitialInv(delayed);
    RunKeepsInv(Initial(delayed), events);
    var s := Exec(Initial(delayed), events);
    if id < |s.streams| {
      assert Accounted(s, id);
      var k := s.streams[id].chunkIndex;
      assert k <= STREAMING_CHUNKS;
      assert Script(k) <= Script(STREAMING_CHUNKS);
    }
  }

  /** The callbacks a running interval can still make before it is stopped. */
  function TicksLeft(s: Stream): nat {
    if s.live then 1 + if s.chunkIndex < STREAMING_CHUNKS then STREAMING_CHUNKS - s.chunkIndex else 0 else 0
  }

  /** No interval runs forever: every callback lowers the count and nothing but a new stream raises one. */
  lemma IntervalsEnd(s: State, e: Event, id: nat)
    requires Safe(s) && Enabled(s, e) && id < |s.streams|
    ensures id < |Next(s, e).streams|
    ensures TicksLeft(Next(s, e).streams[id]) <= TicksLeft(s.streams[id])
    ensures e == Tick(id) ==> TicksLeft(Next(s, e).streams[id]) < TicksLeft(s.streams[id])
  {
    hide FramesOf, Script, Accounted;
  }

  /** The callbacks of one stream's interval in a run. */
  function TicksOf(events: seq<Event>, id: nat): nat {
    if events == [] then 0 else (if events[0] == Tick(id) then 1 else 0) + TicksOf(events[1..], id)
  }

  /** A stream that has not been opened yet has all its callbacks before it. */
  function Allowance(s: State, id: nat): nat {
    if id < |s.streams| then TicksLeft(s.streams[id]) else STREAMING_CHUNKS + 1
  }

  lemma AllowanceFalls(s: State, e: Event, id: nat)
    requires Safe(s) && Enabled(s, e)
    ensures Allowance(Next(s, e), id) + (if e == Tick(id) then 1 else 0) <= Allowance(s, id)
  {
    if id < |s.streams| {
      IntervalsEnd(s, e, id);
    }
    hide FramesOf, Safe;
  }

  lemma {:induction false} RunTicks(s: State, events: seq<Event>, id: nat)
    requires Safe(s) && Legal(s, events)
    ensures TicksOf(events, id) + Allowance(Exec(s, events), id) <= Allowance(s, id)
    decreases |events|
  {
    hide Safe, Next, Enabled, Allowance;
    if events != [] {
      StepKeepsInv(s, events[0]);
      AllowanceFalls(s, events[0], id);
      RunTicks(Next(s, events[0]), events[1..], id);
    }
  }

  /** In no run does the interval of a stream call back more than once per chunk and once to stop. */
  lemma TicksAreBounded(delayed: bool, events: seq<Event>, id: nat)
    requires Legal(Initial(delayed), events)
    ensures TicksOf(events, id) <= STREAMING_CHUNKS + 1
  {
    InitialInv(delayed);
    RunTicks(Initial(delayed), events, id);
  }

  // What a stream does from its subscription on, while nothing supersedes it.

  /** A subscription on an open socket makes a new stream the current one, with a running interval. */
  lemma SubscribeStartsStream(s: State, key: Key)
    requires Safe(s) && Enabled(s, Subscribe(key)) && key.socket in s.open
    ensures var t, id := Next(s, Subscribe(key)), |s.streams|;
      && |t.streams| == id + 1 && t.streams[id] == Stream(key, true, 0) && IsCurrent(t, id)
      && FramesOf(t.sent, id) + FramesOf(t.queue, id) == [Scrollback]
  {
    hide FramesOf, Script, Accounted;
    NoneOf(s.queue, |s.streams|);
    NoneOf(s.sent, |s.streams|);
    RespondAdds(Open(s, key), Delivery(|s.streams|, Scrollback), |s.streams|);
  }

  function Min(a: nat, b: nat): nat {
    if a < b then a else b
  }

  /** After so many callbacks: the next chunk is the one of that number, and the sixth ends the interval. */
  ghost predicate HasTicked(s: State, id: nat, ticks: nat) {
    && id < |s.streams|
    && s.streams[id].chunkIndex == Min(ticks, 5)
    && (s.streams[id].live <==> ticks <= 5)
    && ticks <= 6
  }

  lemma StepTicks(s: State, e: Event, id: nat, ticks: nat)
    requires Safe(s) && Enabled(s, e) && HasTicked(s, id, ticks) && IsCurrent(Next(s, e), id)
    ensures HasTicked(Next(s, e), id, ticks + if e == Tick(id) then 1 else 0)
  {
    hide FramesOf, Script, Accounted;
    if !IsCurrent(s, id) {
      StepIsSilent(s, e, id);
    }
  }

  lemma {:induction false} RunTicksOn(s: State, events: seq<Event>, id: nat, ticks: nat)
    requires Safe(s) && Legal(s, events) && HasTicked(s, id, ticks) && IsCurrent(Exec(s, events), id)
    ensures HasTicked(Exec(s, events), id, ticks + TicksOf(events, id))
    decreases |events|
  {
    hide Safe, Next, Enabled, HasTicked, IsCurrent, FramesOf;
    if events != [] {
      var t := Next(s, events[0]);
      StepKeepsInv(s, events[0]);
      StepIds(s, events[0], id, ticks);
      if !IsCurrent(t, id) {
        SupersededIsSilent(t, events[1..], id);
      }
      StepTicks(s, events[0], id, ticks);
      RunTicksOn(t, events[1..], id, ticks + if events[0] == Tick(id) then 1 else 0);
    }
  }

  lemma StepIds(s: State, e: Event, id: nat, ticks: nat)
    requires Safe(s) && Enabled(s, e) && HasTicked(s, id, ticks)
    ensures id < |Next(s, e).streams|
  {
    hide FramesOf, Script, Accounted, Inv;
  }

  /** Scrollback and then the chunks from the first on, as many as the interval has called back, up to five. */
  ghost predicate AreFirstFrames(frames: seq<Frame>, ticks: nat) {
    && |frames| == 1 + Min(ticks, 5)
    && frames[0] == Scrollback
    && forall k :: 0 < k < |frames| ==> frames[k] == Chunk(k - 1)
  }

  lemma ScriptIsFirstFrames(ticks: nat)
    ensures AreFirstFrames(Script(Min(ticks, 5)), ticks)
  {
  }

  lemma TickedFrames(s: State, id: nat, ticks: nat)
    requires Safe(s) && HasTicked(s, id, ticks) && IsCurrent(s, id)
    ensures AreFirstFrames(FramesOf(s.sent, id) + FramesOf(s.queue, id), ticks)
    ensures !s.delayed ==> FramesOf(s.queue, id) == []
  {
    hide FramesOf, Script, AreFirstFrames;
    assert Accounted(s, id);
    ScriptIsFirstFrames(ticks);
    NoneOf([], id);
  }

  /**
   * From any reachable state: a stream that is still current has sent or queued its scrollback and one chunk
   * for each callback since its subscription, up to the five there are; without a delay all of it is sent,
   * and its interval runs until the sixth callback.
   */
  lemma CurrentStreamSendsAll(delayed: bool, before: seq<Event>, key: Key, later: seq<Event>)
    requires Legal(Initial(delayed), before)
    requires var s := Exec(Initial(delayed), before);
      && Enabled(s, Subscribe(key)) && key.socket in s.open
      && Legal(Next(s, Subscribe(key)), later)
      && IsCurrent(Exec(Next(s, Subscribe(key)), later), |s.streams|)
    ensures var s := Exec(Initial(delayed), before);
      var t, id, ticks := Exec(Next(s, Subscribe(key)), later), |s.streams|, TicksOf(later, |s.streams|);
      && id < |t.streams| && (t.streams[id].live <==> ticks <= 5)
      && AreFirstFrames(FramesOf(t.sent, id) + FramesOf(t.queue, id), ticks)
      && (!t.delayed ==> FramesOf(t.queue, id) == [])
  {
    hide *;
    ReachableIsSafe(delayed, before);
    SubscribedSendsAll(Exec(Initial(delayed), before), key, later);
  }

  lemma ReachableIsSafe(delayed: bool, events: seq<Event>)
    requires Legal(Initial(delayed), events)
    ensures Safe(Exec(Initial(delayed), events))
  {
    hide Legal, Exec, Next, Enabled;
    InitialInv(delayed);
    RunKeepsInv(Initial(delayed), events);
  }

  lemma SubscribedSendsAll(s: State, key: Key, later: seq<Event>)
    requires Safe(s) && Enabled(s, Subscribe(key)) && key.socket in s.open
    requires Legal(Next(s, Subscribe(key)), later) && IsCurrent(Exec(Next(s, Subscribe(key)), later), |s.streams|)
    ensures var t, id, ticks := Exec(Next(s, Subscribe(key)), later), |s.streams|, TicksOf(later, |s.streams|);
      && id < |t.streams| && (t.streams[id].live <==> ticks <= 5)
      && AreFirstFrames(FramesOf(t.sent, id) + FramesOf(t.queue, id), ticks)
      && (!t.delayed ==> FramesOf(t.queue, id) == [])
  {
    hide *;
    var id, u := |s.streams|, Next(s, Subscribe(key));
    SubscribeStartsStream(s, key);
    StepKeepsInv(s, Subscribe(key));
    FreshHasNotTicked(u, id, key);
    RunTicksOn(u, later, id, 0);
    RunKeepsInv(u, later);
    TickedFrames(Exec(u, later), id, TicksOf(later, id));
    TickedMeans(Exec(u, later), id, TicksOf(later, id));
  }

  lemma FreshHasNotTicked(s: State, id: nat, key: Key)
    requires id < |s.streams| && s.streams[id] == Stream(key, true, 0)
    ensures HasTicked(s, id, 0)
  {
  }

  lemma TickedMeans(s: State, id: nat, ticks: nat)
    requires HasTicked(s, id, ticks)
    ensures id < |s.streams| && (s.streams[id].live <==> ticks <= 5)
  {
  }

  // ---------------------------------------------------------------------------------------------
  // The mutable backend
  // ---------------------------------------------------------------------------------------------

  class TerminalBackend {
    const delayed: bool
    var sockets: nat
    var openSockets: set<nat>
    var streams: seq<Stream>
    var terminalStreams: map<Key, nat>
    var queue: seq<Delivery>
    var sent: seq<Delivery>

    function Snapshot(): State
      reads this
    {
      State(delayed, sockets, openSockets, streams, terminalStreams, queue, sent)
    }

    ghost predicate Valid()
      reads this
    {
      Safe(Snapshot())
    }

    constructor (delayed: bool)
      ensures Valid() && Snapshot() == Initial(delayed)
    {
      this.delayed := delayed;
      sockets, openSockets, streams, terminalStreams, queue, sent := 0, {}, [], map[], [], [];
      new;
      InitialInv(delayed);
    }

    method StopTerminalStreamInterval(id: nat)
      modifies `streams
      ensures streams == StopInterval(old(streams), id)
    {
      if id < |streams| && streams[id].live {
        streams := streams[id := streams[id].(live := false)];
      }
    }

    method ClearTerminalStream(key: Key)
      modifies `streams, `terminalStreams
      ensures Snapshot() == Clear(old(Snapshot()), key)
    {
      if key in terminalStreams {
        StopTerminalStreamInterval(terminalStreams[key]);
        terminalStreams := terminalStreams - {key};
      }
    }

    method BeginTerminalStream(key: Key) returns (id: nat)
      modifies `streams, `terminalStreams
      ensures Snapshot() == Open(old(Snapshot()), key) && id == |old(streams)|
    {
      ClearTerminalStream(key);
      id := |streams|;
      streams := streams + [Stream(key, false, 0)];
      terminalStreams := terminalStreams[key := id];
    }

    method RespondGuarded(d: Delivery)
      modifies `queue, `sent
      ensures Snapshot() == Respond(old(Snapshot()), d)
    {
      if delayed {
        queue := queue + [d];
        return;
      }
      if IsCurrent(Snapshot(), d.stream) {
        sent := sent + [d];
      }
    }

    method SubscribeTerminal(key: Key)
      requires Valid() && key.socket < sockets
      modifies `streams, `terminalStreams, `queue, `sent
      ensures Valid() && Snapshot() == Next(old(Snapshot()), Subscribe(key))
    {
      hide Safe, FramesOf;
      StepKeepsInv(Snapshot(), Subscribe(key));
      var id := BeginTerminalStream(key);
      RespondGuarded(Delivery(id, Scrollback));
      streams := streams[id := streams[id].(live := true)];
    }

    method UnsubscribeTerminal(key: Key)
      requires Valid() && key.socket < sockets
      modifies `streams, `terminalStreams
      ensures Valid() && Snapshot() == Next(old(Snapshot()), Unsubscribe(key))
    {
      hide Safe, FramesOf;
      StepKeepsInv(Snapshot(), Unsubscribe(key));
      ClearTerminalStream(key);
    }

    method IntervalCallback(id: nat)
      requires Valid() && id < |streams| && streams[id].live
      modifies `streams, `queue, `sent
      ensures Valid() && Snapshot() == Next(old(Snapshot()), Tick(id))
    {
      hide Safe, FramesOf;
      StepKeepsInv(Snapshot(), Tick(id));
      if !IsCurrent(Snapshot(), id) {
        StopTerminalStreamInterval(id);
        return;
      }
      var chunkIndex := streams[id].chunkIndex;
      if chunkIndex >= STREAMING_CHUNKS {
        StopTerminalStreamInterval(id);
        return;
      }
      RespondGuarded(Delivery(id, Chunk(chunkIndex)));
      streams := streams[id := streams[id].(chunkIndex := chunkIndex + 1)];
    }

    /** A delayed response comes due. */
    method DeliverQueued(p: nat)
      requires Valid() && Enabled(Snapshot(), Deliver(p))
      modifies `queue, `sent
      ensures Valid() && Snapshot() == Next(old(Snapshot()), Deliver(p))
    {
      StepKeepsInv(Snapshot(), Deliver(p));
      var d := queue[p];
      queue := queue[..p] + queue[p + 1..];
      if IsCurrent(Snapshot(), d.stream) {
        sent := sent + [d];
      }
    }
  }
}
