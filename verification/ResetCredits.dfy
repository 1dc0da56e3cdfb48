/** Redeeming a usage-reset credit once: offers, idempotency keys and the account that is active. */
module ResetCredits {
  import opened Options

  const PERSONAL := "codex-personal"
  const TEAM := "codex-team"
  const MAX_SAFE_INTEGER: int := 0x1F_FFFF_FFFF_FFFF

  /** A request field of unknown shape. */
  datatype Field = Null | Text(text: string) | Other

  datatype Usage = Usage(availableResetCredits: nat, sessionUsedPercent: nat, updatedAt: int, nextExpiresAt: int)

  /** A scope as its serialization distinguishes it; `Foreign` is any other object a client may send. */
  datatype Scope =
    | Offer(accountId: string, accountRevision: nat, startedAt: int, usage: Usage)
    | Foreign(json: string)

  datatype Outcome = Reset | NoCredit
  datatype Operation = Operation(scope: Scope, outcome: Outcome)

  datatype Reply =
    | Redeemed(outcome: Outcome, scope: Scope)
    | OfferChanged(scope: Scope)
    | Threw(message: string)

  datatype State = State(
    fixtureStartedAt: int,
    activeCodexAccountId: Option<string>,
    codexUsageByAccount: map<string, Usage>,
    resetOperations: map<string, Operation>,
    resetOfferOwners: map<Scope, string>)

  datatype Event = Select(accountId: Field) | Consume(idempotencyKey: Field, expectedScope: Option<Scope>)

  predicate IsAccount(id: string) {
    id == PERSONAL || id == TEAM
  }

  predicate IsHex(c: char) {
    '0' <= c <= '9' || 'a' <= c <= 'f' || 'A' <= c <= 'F'
  }

  predicate IsUuidChar(k: nat, c: char) {
    if k == 8 || k == 13 || k == 18 || k == 23 then c == '-'
    else if k == 14 then '1' <= c <= '8'
    else if k == 19 then c in "89abAB"
    else IsHex(c)
  }

  predicate IsUuid(s: string) {
    |s| == 36 && forall k :: 0 <= k < |s| ==> IsUuidChar(k, s[k])
  }

  function InitialUsage(now: int, offset: nat): Usage {
    Usage(1, 100, now + offset, now + (5 + offset) * 24 * 60 * 60 * 1000)
  }

  function Initial(now: int): State {
    State(now, Some(PERSONAL), map[PERSONAL := InitialUsage(now, 0), TEAM := InitialUsage(now, 1)], map[], map[])
  }

  function AccountRevision(id: string): nat {
    if id == PERSONAL then 1 else 2
  }

  /** The scope offered for the active account; none without an account, a credit, or a usable date. */
  function CurrentScope(s: State): Option<Scope> {
    if s.activeCodexAccountId.None? || !IsAccount(s.activeCodexAccountId.value) then None
    else
      var id := s.activeCodexAccountId.value;
      if id !in s.codexUsageByAccount then None
      else
        var usage := s.codexUsageByAccount[id];
        if usage.availableResetCredits <= 0 || !(0 <= usage.updatedAt <= MAX_SAFE_INTEGER) then None
        else Some(Offer(id, AccountRevision(id), s.fixtureStartedAt, usage))
  }

  function SelectAccount(s: State, accountId: Field): State {
    if accountId.Null? then s.(activeCodexAccountId := None)
    else if accountId.Text? && IsAccount(accountId.text) then s.(activeCodexAccountId := Some(accountId.text))
    else s
  }

  function Spent(usage: Usage): Usage {
    usage.(availableResetCredits := 0, sessionUsedPercent := 0, updatedAt := usage.updatedAt + 1)
  }

  /** The state after an offer was taken up for the first time. */
  function Redeem(s: State, key: string, scope: Scope): State
    requires CurrentScope(s) == Some(scope)
  {
    s.(resetOfferOwners := s.resetOfferOwners[scope := key],
       resetOperations := s.resetOperations[key := Operation(scope, Reset)],
       codexUsageByAccount := s.codexUsageByAccount[scope.accountId := Spent(scope.usage)])
  }

  predicate ValidRequest(key: Field, scope: Option<Scope>) {
    key.Text? && IsUuid(key.text) && scope.Some?
  }

  /** The key is new and the scope is the one on offer right now. */
  predicate TakesOffer(s: State, key: Field, scope: Option<Scope>) {
    && ValidRequest(key, scope)
    && key.text !in s.resetOperations
    && CurrentScope(s) == scope
    && (scope.value in s.resetOfferOwners ==> s.resetOfferOwners[scope.value] == key.text)
  }

  function Next(s: State, e: Event): State {
    match e
    case Select(accountId) => SelectAccount(s, accountId)
    case Consume(key, scope) => if TakesOffer(s, key, scope) then Redeem(s, key.text, scope.value) else s
  }

  function Exec(s: State, events: seq<Event>): State {
    if events == [] then s else Next(Exec(s, events[..|events| - 1]), events[|events| - 1])
  }

  function ReplyTo(s: State, key: Field, scope: Option<Scope>): Reply {
    if !key.Text? || !IsUuid(key.text) then Threw("Invalid idempotencyKey")
    else if scope.None? then Threw("Missing expectedScope")
    else if key.text in s.resetOperations then
      var previous := s.resetOperations[key.text];
      if previous.scope != scope.value then Threw("The reset operation belongs to a different account scope")
      else Redeemed(previous.outcome, scope.value)
    else if CurrentScope(s) != scope then OfferChanged(scope.value)
    else if !TakesOffer(s, key, scope) then Threw("That reset offer is already being redeemed")
    else Redeemed(Reset, scope.value)
  }

  // ---------------------------------------------------------------------------------------------
  // What every run keeps
  // ---------------------------------------------------------------------------------------------

  /** The keys whose operation reset this account. */
  ghost function ResetsOf(operations: map<string, Operation>, id: string): set<string> {
    set key | key in operations && operations[key].outcome == Reset
              && operations[key].scope.Offer? && operations[key].scope.accountId == id
  }

  ghost predicate Conserved(s: State, id: string) {
    id in s.codexUsageByAccount
    && s.codexUsageByAccount[id].availableResetCredits + |ResetsOf(s.resetOperations, id)| == 1
  }

  /** Every operation owns its offer, and every owned offer is that of its owner's operation. */
  ghost predicate Paired(operations: map<string, Operation>, owners: map<Scope, string>) {
    && (forall key <- operations :: operations[key].scope in owners && owners[operations[key].scope] == key)
    && (forall scope <- owners :: owners[scope] in operations && operations[owners[scope]].scope == scope)
  }

  ghost predicate OffersOnly(operations: map<string, Operation>) {
    forall key <- operations ::
      operations[key].outcome == Reset && operations[key].scope.Offer? && IsAccount(operations[key].scope.accountId)
  }

  ghost predicate Inv(s: State) {
    && s.codexUsageByAccount.Keys == {PERSONAL, TEAM}
    && Conserved(s, PERSONAL) && Conserved(s, TEAM)
    && Paired(s.resetOperations, s.resetOfferOwners)
    && OffersOnly(s.resetOperations)
    && (s.activeCodexAccountId.Some? ==> IsAccount(s.activeCodexAccountId.value))
  }

  lemma InitialInv(now: int)
    ensures Inv(Initial(now))
  {
    assert ResetsOf(map[], PERSONAL) == {} && ResetsOf(map[], TEAM) == {};
  }

  /** An owned offer's account has no credit left. */
  lemma OwnedIsSpent(s: State, scope: Scope)
    requires Inv(s) && scope in s.resetOfferOwners
    ensures scope.Offer? && scope.accountId in s.codexUsageByAccount
    ensures s.codexUsageByAccount[scope.accountId].availableResetCredits == 0
  {
    assert Conserved(s, scope.accountId);
    assert s.resetOfferOwners[scope] in ResetsOf(s.resetOperations, scope.accountId);
  }

  /** An offer that has an owner is never on offer again, so no redemption is refused for being under way. */
  lemma OnOfferIsUnowned(s: State)
    requires Inv(s)
    ensures CurrentScope(s).Some? ==> CurrentScope(s).value !in s.resetOfferOwners
  {
    forall scope <- s.resetOfferOwners ensures CurrentScope(s) != Some(scope) {
      OwnedIsSpent(s, scope);
    }
  }

  lemma AddedReset(operations: map<string, Operation>, key: string, scope: Scope, id: string)
    requires key !in operations && scope.Offer?
    ensures var before, after := ResetsOf(operations, id), ResetsOf(operations[key := Operation(scope, Reset)], id);
      |after| == |before| + if scope.accountId == id then 1 else 0
  {
    var before, after := ResetsOf(operations, id), ResetsOf(operations[key := Operation(scope, Reset)], id);
    assert after == if scope.accountId == id then before + {key} else before;
  }

  lemma AddedPair(operations: map<string, Operation>, owners: map<Scope, string>, key: string, scope: Scope)
    requires Paired(operations, owners) && key !in operations && scope !in owners
    ensures Paired(operations[key := Operation(scope, Reset)], owners[scope := key])
  {
  }

  lemma RedeemConserves(s: State, key: string, scope: Scope, id: string)
    requires CurrentScope(s) == Some(scope) && key !in s.resetOperations
    requires Conserved(s, id) && s.codexUsageByAccount[id].availableResetCredits <= 1
    ensures Conserved(Redeem(s, key, scope), id)
  {
    hide ResetsOf;
    AddedReset(s.resetOperations, key, scope, id);
  }

  lemma RedeemKeepsInv(s: State, key: string, scope: Scope)
    requires Inv(s) && CurrentScope(s) == Some(scope) && key !in s.resetOperations
    ensures Inv(Redeem(s, key, scope))
  {
    hide ResetsOf, Paired;
    OnOfferIsUnowned(s);
    AddedPair(s.resetOperations, s.resetOfferOwners, key, scope);
    RedeemConserves(s, key, scope, PERSONAL);
    RedeemConserves(s, key, scope, TEAM);
  }

  lemma StepKeepsInv(s: State, e: Event)
    requires Inv(s)
    ensures Inv(Next(s, e))
  {
    if e.Consume? && TakesOffer(s, e.idempotencyKey, e.expectedScope) {
      RedeemKeepsInv(s, e.idempotencyKey.text, e.expectedScope.value);
    }
  }

  lemma {:induction false} RunKeepsInv(s: State, events: seq<Event>)
    requires Inv(s)
    ensures Inv(Exec(s, events))
  {
    if events != [] {
      RunKeepsInv(s, events[..|events| - 1]);
      StepKeepsInv(Exec(s, events[..|events| - 1]), events[|events| - 1]);
    }
  }

  /** Credits left plus resets recorded stay one for each account, whatever was selected and sent. */
  lemma CreditsAreConserved(now: int, events: seq<Event>, id: string)
    requires IsAccount(id)
    ensures var s := Exec(Initial(now), events);
      id in s.codexUsageByAccount
      && s.codexUsageByAccount[id].availableResetCredits + |ResetsOf(s.resetOperations, id)| == 1
  {
    InitialInv(now);
    RunKeepsInv(Initial(now), events);
    assert Conserved(Exec(Initial(now), events), id);
  }

  /** Keys and offers are in bijection: the owner map is the inverse of the operations' scopes. */
  lemma {:induction false} OwnersInvertOperations(now: int, events: seq<Event>, key: string, scope: Scope)
    ensures var s := Exec(Initial(now), events);
      (key in s.resetOperations && s.resetOperations[key].scope == scope)
      <==> (scope in s.resetOfferOwners && s.resetOfferOwners[scope] == key)
  {
    InitialInv(now);
    RunKeepsInv(Initial(now), events);
  }

  // ---------------------------------------------------------------------------------------------
  // Retries
  // ---------------------------------------------------------------------------------------------

  lemma {:induction false} OperationsAreForever(s: State, events: seq<Event>, key: string)
    requires key in s.resetOperations
    ensures key in Exec(s, events).resetOperations
    ensures Exec(s, events).resetOperations[key] == s.resetOperations[key]
  {
    if events != [] {
      OperationsAreForever(s, events[..|events| - 1], key);
    }
  }

  /**
   * Once a key was answered with an outcome, the same key and scope get that answer again after any
   * later calls, whichever account is then active, and the retry changes nothing.
   */
  lemma {:induction false} RetryRepeatsAnswer(s: State, key: Field, scope: Option<Scope>, later: seq<Event>)
    requires ReplyTo(s, key, scope).Redeemed?
    ensures var s' := Exec(Next(s, Consume(key, scope)), later);
      ReplyTo(s', key, scope) == ReplyTo(s, key, scope) && Next(s', Consume(key, scope)) == s'
  {
    OperationsAreForever(Next(s, Consume(key, scope)), later, key.text);
  }

  /** The same key with any other scope is refused forever, and changes nothing. */
  lemma {:induction false} KeyIsBoundToItsScope(s: State, key: Field, scope: Option<Scope>, later: seq<Event>, other: Scope)
    requires ReplyTo(s, key, scope).Redeemed? && Some(other) != scope
    ensures var s' := Exec(Next(s, Consume(key, scope)), later);
      ReplyTo(s', key, Some(other)) == Threw("The reset operation belongs to a different account scope")
      && Next(s', Consume(key, Some(other))) == s'
  {
    OperationsAreForever(Next(s, Consume(key, scope)), later, key.text);
  }

  /** After an offer was taken up, the same offer under any other key is answered as changed. */
  lemma OfferIsTakenOnce(now: int, before: seq<Event>, key: Field, scope: Option<Scope>, later: seq<Event>, other: Field)
    requires ReplyTo(Exec(Initial(now), before), key, scope).Redeemed?
    requires other.Text? && IsUuid(other.text)
    requires var s' := Exec(Next(Exec(Initial(now), before), Consume(key, scope)), later);
      other.text !in s'.resetOperations
    ensures var s' := Exec(Next(Exec(Initial(now), before), Consume(key, scope)), later);
      ReplyTo(s', other, scope) == OfferChanged(scope.value)
  {
    var s := Next(Exec(Initial(now), before), Consume(key, scope));
    InitialInv(now);
    RunKeepsInv(Initial(now), before);
    StepKeepsInv(Exec(Initial(now), before), Consume(key, scope));
    RunKeepsInv(s, later);
    OperationsAreForever(s, later, key.text);
    OnOfferIsUnowned(Exec(s, later));
  }

  /** In a reachable state a well-formed request under a new key succeeds exactly when its scope is on offer. */
  lemma RedeemsIff(now: int, events: seq<Event>, key: string, scope: Scope)
    requires IsUuid(key)
    ensures var s := Exec(Initial(now), events);
      key !in s.resetOperations ==>
        (ReplyTo(s, Text(key), Some(scope)) == if CurrentScope(s) == Some(scope) then Redeemed(Reset, scope)
                                                else OfferChanged(scope))
  {
    InitialInv(now);
    RunKeepsInv(Initial(now), events);
    OnOfferIsUnowned(Exec(Initial(now), events));
  }

  // ---------------------------------------------------------------------------------------------
  // What the runs do to accounts and offers
  // ---------------------------------------------------------------------------------------------

  /** The account that the calls of a run leave selected; unknown ids and other requests select nothing. */
  function Selected(events: seq<Event>): Option<string> {
    if events == [] then Some("codex-personal")
    else
      match events[|events| - 1]
      case Select(Null) => None
      case Select(Text(id)) =>
        if id == "codex-personal" || id == "codex-team" then Some(id) else Selected(events[..|events| - 1])
      case _ => Selected(events[..|events| - 1])
  }

  /** When an account's offer was made, counted from the start of the fixture. */
  function Offset(id: string): nat {
    if id == "codex-personal" then 0 else 1
  }

  /** Days in milliseconds. */
  function Days(n: nat): nat {
    n * 86_400_000
  }

  /** The usage of an account while its credit is unspent, and once it is spent. */
  function UsageOf(now: int, id: string, spent: bool): Usage {
    var made, expires := now + Offset(id), now + Days(5 + Offset(id));
    if spent then Usage(0, 0, made + 1, expires) else Usage(1, 100, made, expires)
  }

  ghost predicate Tracks(s: State, now: int, events: seq<Event>) {
    && s.fixtureStartedAt == now
    && s.activeCodexAccountId == Selected(events)
    && s.codexUsageByAccount.Keys == {"codex-personal", "codex-team"}
    && forall id <- s.codexUsageByAccount ::
         s.codexUsageByAccount[id] == UsageOf(now, id, ResetsOf(s.resetOperations, id) != {})
  }

  lemma InitialTracks(now: int)
    ensures Tracks(Initial(now), now, [])
  {
    assert forall id :: ResetsOf(map[], id) == {};
  }

  /** While there is a credit nothing was reset, and the other way round. */
  lemma UnspentIsUnreset(s: State, id: string)
    requires Inv(s) && IsAccount(id)
    ensures id in s.codexUsageByAccount
    ensures s.codexUsageByAccount[id].availableResetCredits == (if ResetsOf(s.resetOperations, id) == {} then 1 else 0)
  {
    assert Conserved(s, id);
    if ResetsOf(s.resetOperations, id) != {} {
      assert |ResetsOf(s.resetOperations, id)| > 0;
    }
  }

  lemma ResetsAfter(operations: map<string, Operation>, key: string, scope: Scope, id: string)
    requires key !in operations && scope.Offer?
    ensures var before, after := ResetsOf(operations, id), ResetsOf(operations[key := Operation(scope, Reset)], id);
      after == if scope.accountId == id then before + {key} else before
  {
  }

  lemma RedeemTracks(s: State, now: int, events: seq<Event>, key: string, scope: Scope, e: Event)
    requires Inv(s) && Tracks(s, now, events) && CurrentScope(s) == Some(scope) && key !in s.resetOperations
    requires e.Consume?
    ensures Tracks(Redeem(s, key, scope), now, events + [e])
  {
    hide ResetsOf, Conserved, Paired, OffersOnly, IsUuid;
    assert (events + [e])[..|events|] == events;
    UnspentIsUnreset(s, scope.accountId);
    var t := Redeem(s, key, scope);
    forall id <- t.codexUsageByAccount
      ensures t.codexUsageByAccount[id] == UsageOf(now, id, ResetsOf(t.resetOperations, id) != {})
    {
      ResetsAfter(s.resetOperations, key, scope, id);
    }
  }

  lemma StepTracks(s: State, now: int, events: seq<Event>, e: Event)
    requires Inv(s) && Tracks(s, now, events)
    ensures Tracks(Next(s, e), now, events + [e])
  {
    hide ResetsOf, Conserved, Paired, OffersOnly, IsUuid, Redeem;
    if e.Consume? && TakesOffer(s, e.idempotencyKey, e.expectedScope) {
      RedeemTracks(s, now, events, e.idempotencyKey.text, e.expectedScope.value, e);
    } else {
      assert (events + [e])[..|events|] == events;
    }
  }

  lemma {:induction false} RunTracks(now: int, events: seq<Event>)
    ensures Inv(Exec(Initial(now), events)) && Tracks(Exec(Initial(now), events), now, events)
  {
    hide Inv, Tracks, Next;
    InitialInv(now);
    RunKeepsInv(Initial(now), events);
    if events == [] {
      InitialTracks(now);
    } else {
      var before := events[..|events| - 1];
      RunTracks(now, before);
      StepTracks(Exec(Initial(now), before), now, before, events[|events| - 1]);
      assert before + [events[|events| - 1]] == events;
    }
  }

  /** Over every run an account has its first usage until one reset is recorded for it, and then its second. */
  lemma UsageFollowsResets(now: int, events: seq<Event>, id: string)
    requires id == "codex-personal" || id == "codex-team"
    ensures var s := Exec(Initial(now), events);
      id in s.codexUsageByAccount
      && s.codexUsageByAccount[id] == UsageOf(now, id, exists key :: key in ResetsOf(s.resetOperations, id))
  {
    RunTracks(now, events);
    var s := Exec(Initial(now), events);
    hide *;
    TracksUsage(s, now, events, id);
    SomeElement(ResetsOf(s.resetOperations, id));
  }

  lemma TracksUsage(s: State, now: int, events: seq<Event>, id: string)
    requires Tracks(s, now, events) && (id == "codex-personal" || id == "codex-team")
    ensures id in s.codexUsageByAccount
    ensures s.codexUsageByAccount[id] == UsageOf(now, id, ResetsOf(s.resetOperations, id) != {})
  {
    hide ResetsOf;
  }

  lemma SomeElement(keys: set<string>)
    ensures keys != {} <==> exists key :: key in keys
  {
  }

  /**
   * A scope is on offer exactly for the account selected last, until a reset is recorded for it, and while
   * its date can be written as a safe integer; and this is the scope.
   */
  lemma OfferedIff(now: int, events: seq<Event>, scope: Scope)
    ensures var s := Exec(Initial(now), events);
      CurrentScope(s) == Some(scope) <==>
        && Selected(events).Some?
        && var id := Selected(events).value;
           && ResetsOf(s.resetOperations, id) == {}
           && 0 <= now + Offset(id) <= 9_007_199_254_740_991
           && scope == Offer(id, 1 + Offset(id), now, UsageOf(now, id, false))
  {
    RunTracks(now, events);
    hide ResetsOf, Conserved, Paired, OffersOnly, Exec;
    SelectedIsAccount(events);
  }

  lemma {:induction false} SelectedIsAccount(events: seq<Event>)
    ensures Selected(events).Some? ==> Selected(events).value in {"codex-personal", "codex-team"}
  {
    if events != [] {
      SelectedIsAccount(events[..|events| - 1]);
    }
  }

  // ---------------------------------------------------------------------------------------------
  // The mutable mock
  // ---------------------------------------------------------------------------------------------

  class MockAccounts {
    var fixtureStartedAt: int
    var activeCodexAccountId: Option<string>
    var codexUsageByAccount: map<string, Usage>
    var resetOperations: map<string, Operation>
    var resetOfferOwners: map<Scope, string>

    function Snapshot(): State
      reads this
    {
      State(fixtureStartedAt, activeCodexAccountId, codexUsageByAccount, resetOperations, resetOfferOwners)
    }

    ghost predicate Valid()
      reads this
    {
      Inv(Snapshot())
    }

    constructor (now: int)
      ensures Valid() && Snapshot() == Initial(now)
    {
      InitialInv(now);
      fixtureStartedAt := now;
      activeCodexAccountId := Some(PERSONAL);
      codexUsageByAccount := map[PERSONAL := InitialUsage(now, 0), TEAM := InitialUsage(now, 1)];
      resetOperations, resetOfferOwners := map[], map[];
    }

    method ResetMockAccountState(now: int)
      modifies this
      ensures Valid() && Snapshot() == Initial(now)
    {
      InitialInv(now);
      fixtureStartedAt := now;
      activeCodexAccountId := Some(PERSONAL);
      codexUsageByAccount := map[PERSONAL := InitialUsage(now, 0), TEAM := InitialUsage(now, 1)];
      resetOperations, resetOfferOwners := map[], map[];
    }

    method SelectMockCodexAccount(accountId: Field) returns (known: bool)
      requires Valid()
      modifies `activeCodexAccountId
      ensures Valid() && Snapshot() == Next(old(Snapshot()), Select(accountId))
      ensures known <==> accountId.Null? || accountId == Text(PERSONAL) || accountId == Text(TEAM)
    {
      StepKeepsInv(Snapshot(), Select(accountId));
      if accountId.Null? {
        activeCodexAccountId := None;
        return true;
      }
      if !accountId.Text? || !IsAccount(accountId.text) {
        return false;
      }
      activeCodexAccountId := Some(accountId.text);
      known := true;
    }

    method GetMockCodexResetScope() returns (scope: Option<Scope>)
      requires Valid()
      ensures scope == CurrentScope(Snapshot())
      ensures scope.Some? <==>
        (&& activeCodexAccountId.Some?
         && codexUsageByAccount[activeCodexAccountId.value].availableResetCredits == 1
         && 0 <= codexUsageByAccount[activeCodexAccountId.value].updatedAt <= MAX_SAFE_INTEGER)
    {
      if activeCodexAccountId.None? {
        return None;
      }
      var id := activeCodexAccountId.value;
      assert Conserved(Snapshot(), id);
      var usage := codexUsageByAccount[id];
      if usage.availableResetCredits <= 0 || usage.updatedAt < 0 || usage.updatedAt > MAX_SAFE_INTEGER {
        return None;
      }
      scope := Some(Offer(id, AccountRevision(id), fixtureStartedAt, usage));
    }

    method ConsumeMockCodexResetCredit(idempotencyKey: Field, expectedScope: Option<Scope>) returns (reply: Reply)
      requires Valid()
      modifies `codexUsageByAccount, `resetOperations, `resetOfferOwners
      ensures Valid() && Snapshot() == Next(old(Snapshot()), Consume(idempotencyKey, expectedScope))
      ensures reply == ReplyTo(old(Snapshot()), idempotencyKey, expectedScope)
    {
      hide ResetsOf, Conserved, Paired, OffersOnly, IsUuid;
      StepKeepsInv(Snapshot(), Consume(idempotencyKey, expectedScope));
      if !idempotencyKey.Text? || !IsUuid(idempotencyKey.text) {
        return Threw("Invalid idempotencyKey");
      }
      if expectedScope.None? {
        return Threw("Missing expectedScope");
      }
      var key, supplied := idempotencyKey.text, expectedScope.value;
      if key in resetOperations {
        var previous := resetOperations[key];
        if previous.scope != supplied {
          return Threw("The reset operation belongs to a different account scope");
        }
        return Redeemed(previous.outcome, supplied);
      }
      var currentScope := GetMockCodexResetScope();
      if currentScope != Some(supplied) {
        return OfferChanged(supplied);
      }
      if supplied in resetOfferOwners && resetOfferOwners[supplied] != key {
        return Threw("That reset offer is already being redeemed");
      }
      resetOfferOwners := resetOfferOwners[supplied := key];
      var usage := codexUsageByAccount[supplied.accountId];
      var outcome := if usage.availableResetCredits > 0 then Reset else NoCredit;
      resetOperations := resetOperations[key := Operation(supplied, outcome)];
      if outcome == Reset {
        codexUsageByAccount := codexUsageByAccount[supplied.accountId := Spent(usage)];
      }
      reply := Redeemed(outcome, supplied);
    }
  }
}
