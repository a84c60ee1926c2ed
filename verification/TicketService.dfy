/**
 * The ticket service of `crates/qingyin-security/src/ticket/service.rs`.
 *
 * `Stage` says where a service call stands between its store operations, `NextCall` which operation it
 * performs next and `Resume` what it makes of the reply, so that other threads can run in between. The class
 * is the same service as straight-line code over its store; its methods are proved to be the stages run
 * without anybody in between.
 */
module TicketService {
  import opened Wrappers
  import opened StateModel
  import opened TtlStore
  import opened TtlHistory
  import opened Base64Url
  import opened TicketModel

  const MAX_GENERATION_ATTEMPTS: nat := 4
  const TICKET_NAMESPACE := "session_ticket"

  /** The JSON form of a stored ticket, as an arbitrary writer and reader. */
  datatype TicketFormat = TicketFormat(write: StoredTicket -> TtlValue, read: TtlValue -> Option<StoredTicket>) {
    ghost predicate RoundTrips() {
      forall ticket :: read(write(ticket)) == Some(ticket)
    }
  }

  /** What a service is made with; `hmac` is keyed by the deployment pepper. */
  datatype Config = Config(format: TicketFormat, hmac: string -> Digest, ttl: Duration, lenient: bool)

  function DecodeStored(config: Config, value: TtlValue): Result<StoredTicket, SecurityError> {
    match config.format.read(value)
    case None => Err(EncodingFailure)
    case Some(ticket) => if ticket.version != STORED_TICKET_VERSION then Err(EncodingFailure) else Ok(ticket)
  }

  function KeyFor(scope: TenantScope, digest: Digest): TtlKey {
    TtlKey(scope, TICKET_NAMESPACE, Encode(digest))
  }

  function KeyOf(config: Config, scope: TenantScope, secret: TicketSecret): TtlKey {
    KeyFor(scope, config.hmac(secret.text))
  }

  function MapStateError(error: StateError): SecurityError {
    if error.InvalidArgument? then EncodingFailure else StateUnavailable
  }

  /** A draw of entropy: 32 bytes, or the source's failure. */
  type Draw = Result<Digest, SecurityError>

  datatype Goal =
    | Issue(binding: TicketBinding, draws: seq<Draw>)
    | Consume(secret: TicketSecret, expected: TicketBinding)
    | Revoke(scope: TenantScope, digest: Digest)
    | RawCall(call: TtlCall)

  datatype IssuedTicket = IssuedTicket(
    secret: TicketSecret,
    digest: Digest,
    ttl: Duration,
    issuedAt: U64,
    expiresAt: U64)

  datatype ConsumedTicket = ConsumedTicket(binding: TicketBinding, expiresAt: U64)

  datatype Outcome =
    | Issued(issued: IssuedTicket)
    | Redeemed(consumed: ConsumedTicket)
    | Revoked(wasLive: bool)
    | Answered(reply: TtlReply)
    | Denied(error: SecurityError)

  datatype Stage =
    | Trying(attempt: nat, secret: TicketSecret)
    | Checking(secret: TicketSecret, revision: U64)
    | Looking
    | Claiming(entry: TtlEntry)
    | Asking
    | Finished(outcome: Outcome)

  /** The start of attempt `n`: draw a secret and encode the binding, or give up. */
  function Attempt(config: Config, goal: Goal, n: nat): Stage
    requires goal.Issue?
  {
    if n >= MAX_GENERATION_ATTEMPTS then
      Finished(Denied(TicketCollision))
    else if n >= |goal.draws| then
      Finished(Denied(EntropyUnavailable))
    else
      match goal.draws[n]
      case Err(error) => Finished(Denied(error))
      case Ok(bytes) =>
        match FromEntropy(bytes, config.lenient)
        case Err(error) => Finished(Denied(error))
        case Ok(secret) =>
          if IsStorable(config.format.write(FromBinding(goal.binding))) then Trying(n, secret)
          else Finished(Denied(EncodingFailure))
  }

  function Start(config: Config, goal: Goal): Stage {
    match goal
    case Issue(_, _) => Attempt(config, goal, 0)
    case Consume(_, _) => Looking
    case _ => Asking
  }

  function NextCall(config: Config, goal: Goal, stage: Stage): Option<TtlCall> {
    match (goal, stage)
    case (Issue(binding, _), Trying(_, secret)) =>
      Some(Put(KeyOf(config, binding.tenantScope, secret), config.format.write(FromBinding(binding)), config.ttl))
    case (Issue(binding, _), Checking(secret, _)) =>
      Some(Get(KeyOf(config, binding.tenantScope, secret)))
    case (Consume(secret, expected), Looking) =>
      Some(Get(KeyOf(config, expected.tenantScope, secret)))
    case (Consume(secret, expected), Claiming(entry)) =>
      Some(Take(KeyOf(config, expected.tenantScope, secret), entry.revision))
    case (Revoke(scope, digest), Asking) =>
      Some(Remove(KeyFor(scope, digest)))
    case (RawCall(call), Asking) =>
      Some(call)
    case _ => None
  }

  /** What `issue` returns once the inserted entry has been read back. */
  function IssuedFrom(config: Config, secret: TicketSecret, revision: U64, entry: TtlEntry): Outcome {
    var millis := AsMillis(config.ttl);
    if entry.revision != revision then
      Denied(StateUnavailable)
    else if millis > U64_MAX then
      Denied(InvalidSecurityArgument("ticket_ttl"))
    else if entry.expiresAt < millis then
      Denied(StateUnavailable)
    else
      Issued(IssuedTicket(secret, config.hmac(secret.text), config.ttl, entry.expiresAt - millis, entry.expiresAt))
  }

  /** Decoding and matching, which `consume` does on the value it found and again on the value it took. */
  function CheckStored(config: Config, value: TtlValue, expected: TicketBinding): Result<(), SecurityError> {
    match DecodeStored(config, value)
    case Err(error) => Err(error)
    case Ok(stored) => if stored.Matches(expected, config.lenient) then Ok(()) else Err(TicketRejected)
  }

  function Resume(config: Config, goal: Goal, stage: Stage, reply: TtlReply): Stage {
    match (goal, stage)
    case (Issue(_, _), Trying(attempt, secret)) =>
      (match reply
       case Inserted(revision) => Checking(secret, revision)
       case Existing(_) => Attempt(config, goal, attempt + 1)
       case Refused(error) => Finished(Denied(MapStateError(error)))
       case _ => Finished(Denied(StateUnavailable)))
    case (Issue(_, _), Checking(secret, revision)) =>
      (match reply
       case Found(entry) => Finished(IssuedFrom(config, secret, revision, entry))
       case _ => Finished(Denied(StateUnavailable)))
    case (Consume(_, expected), Looking) =>
      (match reply
       case Found(entry) =>
         (match CheckStored(config, entry.value, expected)
          case Err(error) => Finished(Denied(error))
          case Ok(_) => Claiming(entry))
       case _ => Finished(Denied(TicketRejected)))
    case (Consume(_, expected), Claiming(entry)) =>
      (match reply
       case Taken(value) =>
         (match CheckStored(config, value, expected)
          case Err(error) => Finished(Denied(error))
          case Ok(_) => Finished(Redeemed(ConsumedTicket(expected, entry.expiresAt))))
       case _ => Finished(Denied(TicketRejected)))
    case (Revoke(_, _), _) => Finished(Revoked(reply == Removed(Applied)))
    case _ => Finished(Answered(reply))
  }

  function Rank(stage: Stage): nat {
    match stage
    case Trying(attempt, _) => if attempt < MAX_GENERATION_ATTEMPTS then 6 - attempt else 2
    case Checking(_, _) => 1
    case Looking => 2
    case Claiming(_) => 1
    case Asking => 1
    case Finished(_) => 0
  }

  /** A service call with nobody else at the store and the clock standing still. */
  function RunAlone(config: Config, goal: Goal, stage: Stage, data: TtlData, now: U64): (TtlData, Stage)
    decreases Rank(stage)
  {
    match NextCall(config, goal, stage)
    case None => (data, stage)
    case Some(call) =>
      var (after, reply) := Execute(data, call, now);
      RunAlone(config, goal, Resume(config, goal, stage, reply), after, now)
  }

  /** One operation of `RunAlone`. */
  lemma RunStep(
      config: Config, goal: Goal, stage: Stage, data: TtlData, now: U64, after: TtlData, reply: TtlReply)
    requires NextCall(config, goal, stage).Some?
    requires Execute(data, NextCall(config, goal, stage).value, now) == (after, reply)
    ensures RunAlone(config, goal, stage, data, now)
         == RunAlone(config, goal, Resume(config, goal, stage, reply), after, now)
  {
  }

  // ----- issue on its own -----

  function DrawnKey(config: Config, binding: TicketBinding, draw: Digest): TtlKey {
    KeyOf(config, binding.tenantScope, TicketSecret(Encode(draw)))
  }

  /** The first `n` draws are secrets whose keys hold live entries. */
  ghost predicate AreTaken(
      config: Config, was: TtlData, now: U64, binding: TicketBinding, draws: seq<Draw>, n: nat)
  {
    && n <= |draws|
    && forall m: nat :: m < n ==> draws[m].Ok? && IsLive(was, DrawnKey(config, binding, draws[m].value), now)
  }

  /** The ticket is of the first draw whose key held nothing, stored from now on for as long as a ticket lives. */
  ghost predicate IsIssued(
      config: Config, was: TtlData, now: U64, binding: TicketBinding, draws: seq<Draw>,
      issued: IssuedTicket, after: TtlData)
  {
    exists n: nat ::
      && AreTaken(config, was, now, binding, draws, n)
      && n < MAX_GENERATION_ATTEMPTS && n < |draws| && draws[n].Ok?
      && IsStored(config, was, now, binding, draws[n].value, issued, after)
  }

  ghost predicate IsStored(
      config: Config, was: TtlData, now: U64, binding: TicketBinding, draw: Digest, issued: IssuedTicket,
      after: TtlData)
  {
    var key, expiresAt := DrawnKey(config, binding, draw), now + AsMillis(config.ttl);
    && !IsLive(was, key, now) && was.nextRevision < U64_MAX && expiresAt <= U64_MAX
    && var entry := TtlEntry(config.format.write(FromBinding(binding)), was.nextRevision + 1, expiresAt);
    && after == TtlData(was.nextRevision + 1, was.entries[key := entry])
    && issued
       == IssuedTicket(TicketSecret(Encode(draw)), config.hmac(Encode(draw)), config.ttl, now, expiresAt)
  }

  /** Why no ticket was issued, after `n` secrets that were taken. */
  ghost predicate IsRefused(
      config: Config, was: TtlData, now: U64, binding: TicketBinding, draws: seq<Draw>, error: SecurityError)
  {
    exists n: nat :: AreTaken(config, was, now, binding, draws, n) && n <= MAX_GENERATION_ATTEMPTS &&
      if n == MAX_GENERATION_ATTEMPTS then
        error == TicketCollision
      else if n == |draws| then
        error == EntropyUnavailable
      else if draws[n].Err? then
        error == draws[n].error
      else if !IsStorable(config.format.write(FromBinding(binding))) || ExpiryOf(now, config.ttl).Err? then
        error == EncodingFailure
      else
        && !IsLive(was, DrawnKey(config, binding, draws[n].value), now)
        && was.nextRevision == U64_MAX && error == StateUnavailable
  }

  /** Nothing new, and nothing live lost. */
  ghost predicate KeepsLive(was: TtlData, now: U64, after: TtlData) {
    && after.nextRevision == was.nextRevision && after.entries.Keys <= was.entries.Keys
    && forall key :: IsLive(was, key, now) ==> key in after.entries && after.entries[key] == was.entries[key]
  }

  ghost predicate IsDecided(config: Config, goal: Goal, was: TtlData, now: U64, end: (TtlData, Stage))
    requires goal.Issue?
  {
    end.1.Finished? &&
    match end.1.outcome
    case Issued(issued) => IsIssued(config, was, now, goal.binding, goal.draws, issued, end.0)
    case Denied(error) =>
      IsRefused(config, was, now, goal.binding, goal.draws, error) && KeepsLive(was, now, end.0)
    case _ => false
  }

  /** Reading back what was just inserted succeeds. */
  lemma InsertedIsReadBack(config: Config, goal: Goal, n: nat, was: TtlData, data: TtlData, now: U64)
    requires goal.Issue? && AreTaken(config, was, now, goal.binding, goal.draws, n)
    requires n < MAX_GENERATION_ATTEMPTS && n < |goal.draws| && goal.draws[n].Ok?
    requires ExpiryOf(now, config.ttl).Ok? && was.nextRevision < U64_MAX
    requires var key := DrawnKey(config, goal.binding, goal.draws[n].value);
      && !IsLive(was, key, now)
      && data == TtlData(
           was.nextRevision + 1,
           was.entries[key := TtlEntry(
             config.format.write(FromBinding(goal.binding)), was.nextRevision + 1, ExpiryOf(now, config.ttl).value)])
    ensures var stage := Checking(TicketSecret(Encode(goal.draws[n].value)), was.nextRevision + 1);
      IsDecided(config, goal, was, now, RunAlone(config, goal, stage, data, now))
  {
    var draw := goal.draws[n].value;
    var key, secret := DrawnKey(config, goal.binding, draw), TicketSecret(Encode(draw));
    var stage := Checking(secret, was.nextRevision + 1);
    ExecuteByLiveness(data, Get(key), now);
    RunStep(config, goal, stage, data, now, data, Found(data.entries[key]));
    var end := IssuedFrom(config, secret, was.nextRevision + 1, data.entries[key]);
    assert IsStored(config, was, now, goal.binding, draw, end.issued, data);
  }

  lemma RefusedAlone(config: Config, goal: Goal, n: nat, was: TtlData, now: U64, error: StateError)
    requires goal.Issue? && AreTaken(config, was, now, goal.binding, goal.draws, n)
    requires n < MAX_GENERATION_ATTEMPTS && n < |goal.draws| && goal.draws[n].Ok?
    requires if ExpiryOf(now, config.ttl).Err? then error == ExpiryOf(now, config.ttl).error
      else
        && IsStorable(config.format.write(FromBinding(goal.binding)))
        && !IsLive(was, DrawnKey(config, goal.binding, goal.draws[n].value), now)
        && was.nextRevision == U64_MAX && error == Conflict(TtlValueEntity)
    ensures IsRefused(config, was, now, goal.binding, goal.draws, MapStateError(error))
  {
  }

  lemma AttemptFails(config: Config, goal: Goal, n: nat, data: TtlData, now: U64)
    requires goal.Issue? && n <= MAX_GENERATION_ATTEMPTS && !Attempt(config, goal, n).Trying?
    requires AreTaken(config, data, now, goal.binding, goal.draws, n)
    ensures IsDecided(config, goal, data, now, (data, Attempt(config, goal, n)))
  {
    if n < MAX_GENERATION_ATTEMPTS && n < |goal.draws| && goal.draws[n].Ok? {
      TransportIsExact(Encode(goal.draws[n].value), config.lenient);
    }
  }

  lemma AttemptTries(config: Config, goal: Goal, n: nat)
    requires goal.Issue? && n <= MAX_GENERATION_ATTEMPTS && Attempt(config, goal, n).Trying?
    ensures n < MAX_GENERATION_ATTEMPTS && n < |goal.draws| && goal.draws[n].Ok?
    ensures Attempt(config, goal, n) == Trying(n, TicketSecret(Encode(goal.draws[n].value)))
    ensures IsStorable(config.format.write(FromBinding(goal.binding)))
  {
    TransportIsExact(Encode(goal.draws[n].value), config.lenient);
  }

  /** What an attempt leads to, when all the attempts before it found their keys taken. */
  lemma {:induction false} IssueAlone(config: Config, goal: Goal, n: nat, data: TtlData, now: U64)
    requires goal.Issue? && n <= MAX_GENERATION_ATTEMPTS
    requires AreTaken(config, data, now, goal.binding, goal.draws, n)
    ensures IsDecided(config, goal, data, now, RunAlone(config, goal, Attempt(config, goal, n), data, now))
    decreases MAX_GENERATION_ATTEMPTS - n
  {
    var stage := Attempt(config, goal, n);
    if !stage.Trying? {
      AttemptFails(config, goal, n, data, now);
    } else {
      AttemptTries(config, goal, n);
      var put := NextCall(config, goal, stage).value;
      ExecuteByLiveness(data, put, now);
      var (after, reply) := Execute(data, put, now);
      RunStep(config, goal, stage, data, now, after, reply);
      match reply
      case Existing(_) => IssueAlone(config, goal, n + 1, data, now);
      case Inserted(_) => InsertedIsReadBack(config, goal, n, data, after, now);
      case Refused(error) =>
        RefusedAlone(config, goal, n, data, now, error);
        assert KeepsLive(data, now, after);
    }
  }

  class Service {
    const store: InMemoryTtlStore
    const config: Config

    constructor (store: InMemoryTtlStore, config: Config)
      ensures this.store == store && this.config == config
    {
      this.store := store;
      this.config := config;
    }

    /** The result of a method as the stage a service call ends in. */
    function End<T>(r: Result<T, SecurityError>, wrap: T -> Outcome): Stage {
      Finished(match r case Ok(value) => wrap(value) case Err(error) => Denied(error))
    }

    /** The rest of `issue` once the put has gone in: read the entry back and take its expiry as the ticket's. */
    method ReadBack(binding: TicketBinding, secret: TicketSecret, revision: U64, ghost draws: seq<Draw>)
      returns (r: Result<IssuedTicket, SecurityError>)
      modifies store
      ensures (store.View(), End(r, t => Issued(t)))
        == RunAlone(config, Issue(binding, draws), Checking(secret, revision), old(store.View()), store.clock.time)
    {
      ghost var goal, stage := Issue(binding, draws), Checking(secret, revision);
      var entry := store.GetEntry(KeyOf(config, binding.tenantScope, secret));
      RunStep(config, goal, stage, old(store.View()), store.clock.time, store.View(), FoundReply(entry));
      if entry.None? || entry.value.revision != revision {
        return Err(StateUnavailable);
      }
      var millis := AsMillis(config.ttl);
      if millis > U64_MAX {
        return Err(InvalidSecurityArgument("ticket_ttl"));
      }
      if entry.value.expiresAt < millis {
        return Err(StateUnavailable);
      }
      var digest := config.hmac(secret.text);
      r := Ok(IssuedTicket(secret, digest, config.ttl, entry.value.expiresAt - millis, entry.value.expiresAt));
    }

    method IssueTicket(binding: TicketBinding, draws: seq<Draw>) returns (r: Result<IssuedTicket, SecurityError>)
      modifies store
      ensures var goal := Issue(binding, draws);
        (store.View(), End(r, t => Issued(t)))
        == RunAlone(config, goal, Start(config, goal), old(store.View()), store.clock.time)
    {
      ghost var goal := Issue(binding, draws);
      var encoded := config.format.write(FromBinding(binding));
      for n := 0 to MAX_GENERATION_ATTEMPTS
        invariant RunAlone(config, goal, Attempt(config, goal, n), store.View(), store.clock.time)
               == RunAlone(config, goal, Start(config, goal), old(store.View()), store.clock.time)
      {
        if n >= |draws| {
          return Err(EntropyUnavailable);
        }
        var bytes :- draws[n];
        var secret :- FromEntropy(bytes, config.lenient);
        if !IsStorable(encoded) {
          return Err(EncodingFailure);
        }
        ghost var before := store.View();
        var put := store.PutIfAbsent(KeyOf(config, binding.tenantScope, secret), encoded, config.ttl);
        RunStep(config, goal, Trying(n, secret), before, store.clock.time, store.View(),
          Answer(put, (p: PutResult) => p.AsReply()));
        if put.Err? {
          return Err(MapStateError(put.error));
        }
        if put.value.PutInserted? {
          r := ReadBack(binding, secret, put.value.revision, draws);
          return;
        }
      }
      r := Err(TicketCollision);
    }

    method ConsumeTicket(secret: TicketSecret, expected: TicketBinding)
      returns (r: Result<ConsumedTicket, SecurityError>)
      modifies store
      ensures var goal := Consume(secret, expected);
        (store.View(), End(r, t => Redeemed(t)))
        == RunAlone(config, goal, Start(config, goal), old(store.View()), store.clock.time)
      ensures var was, key := old(store.View()), KeyOf(config, expected.tenantScope, secret);
        if !IsLive(was, key, store.clock.time) then
          r == Err(TicketRejected) && store.View() == Without(was, key)
        else match CheckStored(config, was.entries[key].value, expected)
          case Err(error) => r == Err(error) && store.View() == was
          case Ok(_) =>
            r == Ok(ConsumedTicket(expected, was.entries[key].expiresAt)) && store.View() == Without(was, key)
    {
      var key := KeyOf(config, expected.tenantScope, secret);
      var found := store.GetEntry(key);
      if found.None? {
        return Err(TicketRejected);
      }
      var stored :- DecodeStored(config, found.value.value);
      if !stored.Matches(expected, config.lenient) {
        return Err(TicketRejected);
      }
      var taken := store.CompareAndTake(key, found.value.revision);
      if !taken.WasTaken? {
        return Err(TicketRejected);
      }
      r := match DecodeStored(config, taken.value)
        case Err(error) => Err(error)
        case Ok(consumed) =>
          if consumed.Matches(expected, config.lenient) then Ok(ConsumedTicket(expected, found.value.expiresAt))
          else Err(TicketRejected);
    }

    method RevokeTicket(scope: TenantScope, digest: Digest) returns (wasLive: bool)
      modifies store
      ensures var goal := Revoke(scope, digest);
        (store.View(), Finished(Revoked(wasLive)))
        == RunAlone(config, goal, Start(config, goal), old(store.View()), store.clock.time)
      ensures var was, key := old(store.View()), KeyFor(scope, digest);
        (wasLive <==> IsLive(was, key, store.clock.time)) && store.View() == Without(was, key)
    {
      var outcome := store.RemoveEntry(KeyFor(scope, digest));
      wasLive := outcome == Applied;
    }
  }
}
