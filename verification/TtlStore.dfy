/**
 * The lazy-expiry TTL store of `crates/qingyin-testkit/src/ttl.rs` and the clock it samples.
 *
 * `Execute` is the section that runs under the lock; the clock sample `now` is an argument because the
 * program takes it before it takes the lock.
 */
module TtlStore {
  import opened Wrappers
  import opened StateModel

  const NANOS_PER_MILLI: nat := 1_000_000
  const NANOS_PER_SECOND: nat := 1_000_000_000

  /** A `Duration` as its number of nanoseconds. */
  type Duration = nat

  function AsMillis(duration: Duration): (millis: nat)
    ensures millis * 1_000_000 <= duration < (millis + 1) * 1_000_000
  {
    duration / NANOS_PER_MILLI
  }

  /** `MonotonicTime::checked_add`: whole milliseconds, no wrap-around, and no silent loss of a tiny duration. */
  function AddDuration(time: U64, duration: Duration): Result<U64, StateError> {
    var millis := AsMillis(duration);
    if duration != 0 && millis == 0 then
      Err(InvalidArgument("duration"))
    else if millis > U64_MAX then
      Err(InvalidArgument("duration"))
    else
      match CheckedAdd(time, millis)
      case None => Err(InvalidArgument("duration"))
      case Some(sum) => Ok(sum)
  }

  const MAX_STORED_VALUE_BYTES: nat := 64 * 1024

  type TtlValue = seq<Byte>

  /** `TtlValue::new`: non-empty and bounded. */
  predicate IsStorable(value: TtlValue) {
    0 < |value| <= MAX_STORED_VALUE_BYTES
  }

  datatype TtlKey = TtlKey(scope: TenantScope, namespace: string, key: string)

  datatype TtlEntry = TtlEntry(value: TtlValue, revision: U64, expiresAt: U64)

  datatype TtlData = TtlData(nextRevision: U64, entries: map<TtlKey, TtlEntry>)

  datatype TtlCall =
    | Put(key: TtlKey, value: TtlValue, ttl: Duration)
    | Get(key: TtlKey)
    | Extend(key: TtlKey, expected: U64, ttl: Duration)
    | Take(key: TtlKey, expected: U64)
    | Remove(key: TtlKey)

  datatype TtlReply =
    | Inserted(revision: U64)
    | Existing(revision: U64)
    | Found(entry: TtlEntry)
    | Extended(revision: U64, expiresAt: U64)
    | Taken(value: TtlValue)
    | Missing
    | RevisionMismatch(current: U64)
    | Removed(outcome: MutationOutcome)
    | Refused(error: StateError)

  function Without(data: TtlData, key: TtlKey): TtlData {
    data.(entries := data.entries - {key})
  }

  predicate ExpiredIn(data: TtlData, key: TtlKey, now: U64) {
    key in data.entries && now >= data.entries[key].expiresAt
  }

  /** The key holds an entry that the sample finds unexpired. */
  predicate IsLive(data: TtlData, key: TtlKey, now: U64) {
    key in data.entries && now < data.entries[key].expiresAt
  }

  function PurgeIfExpired(data: TtlData, key: TtlKey, now: U64): TtlData {
    if ExpiredIn(data, key, now) then Without(data, key) else data
  }

  /** Stores an entry under the next revision, unless the revision counter is exhausted. */
  function Store(
      data: TtlData, key: TtlKey, value: TtlValue, expiresAt: U64, wrap: U64 -> TtlReply):
      (TtlData, TtlReply)
  {
    match CheckedAdd(data.nextRevision, 1)
    case None => (data, Refused(Conflict(TtlValueEntity)))
    case Some(revision) =>
      (TtlData(revision, data.entries[key := TtlEntry(value, revision, expiresAt)]), wrap(revision))
  }

  function ExpiryOf(now: U64, ttl: Duration): Result<U64, StateError> {
    if ttl == 0 then Err(InvalidArgument("ttl")) else AddDuration(now, ttl)
  }

  function Execute(data: TtlData, call: TtlCall, now: U64): (TtlData, TtlReply) {
    var live := PurgeIfExpired(data, call.key, now);
    match call
    case Put(key, value, ttl) =>
      (match ExpiryOf(now, ttl)
       case Err(error) => (data, Refused(error))
       case Ok(expiresAt) =>
         if key in live.entries then (live, Existing(live.entries[key].revision))
         else Store(live, key, value, expiresAt, (r: U64) => Inserted(r)))
    case Get(key) =>
      (live, if key in live.entries then Found(live.entries[key]) else Missing)
    case Extend(key, expected, ttl) =>
      (match ExpiryOf(now, ttl)
       case Err(error) => (data, Refused(error))
       case Ok(expiresAt) =>
         if key !in live.entries then (live, Missing)
         else if live.entries[key].revision != expected then (live, RevisionMismatch(live.entries[key].revision))
         else Store(live, key, live.entries[key].value, expiresAt, (r: U64) => Extended(r, expiresAt)))
    case Take(key, expected) =>
      if key !in live.entries then (live, Missing)
      else if live.entries[key].revision != expected then (live, RevisionMismatch(live.entries[key].revision))
      else (Without(live, key), Taken(live.entries[key].value))
    case Remove(key) =>
      (Without(live, key), Removed(if key in live.entries then Applied else Unchanged))
  }

  /** The reply of a store method in the vocabulary of `Execute`. */
  function Answer<R>(result: Result<R, StateError>, wrap: R -> TtlReply): TtlReply {
    match result
    case Ok(value) => wrap(value)
    case Err(error) => Refused(error)
  }

  datatype PutResult = PutInserted(revision: U64) | PutExisting(revision: U64) {
    function AsReply(): TtlReply {
      match this
      case PutInserted(revision) => Inserted(revision)
      case PutExisting(revision) => Existing(revision)
    }
  }

  datatype ExtendResult =
    | WasExtended(revision: U64, expiresAt: U64)
    | ExtendMissing
    | ExtendMismatch(current: U64)
  {
    function AsReply(): TtlReply {
      match this
      case WasExtended(revision, expiresAt) => Extended(revision, expiresAt)
      case ExtendMissing => Missing
      case ExtendMismatch(current) => RevisionMismatch(current)
    }
  }

  datatype TakeResult = WasTaken(value: TtlValue) | TakeMissing | TakeMismatch(current: U64) {
    function AsReply(): TtlReply {
      match this
      case WasTaken(value) => Taken(value)
      case TakeMissing => Missing
      case TakeMismatch(current) => RevisionMismatch(current)
    }
  }

  function FoundReply(entry: Option<TtlEntry>): TtlReply {
    match entry
    case None => Missing
    case Some(found) => Found(found)
  }

  class VirtualClock {
    var time: U64

    constructor (start: U64)
      ensures time == start
    {
      time := start;
    }

    method Now() returns (now: U64)
      ensures now == time
    {
      now := time;
    }

    method Advance(duration: Duration) returns (r: Result<U64, StateError>)
      modifies this
      ensures r == AddDuration(old(time), duration)
      ensures var millis := AsMillis(duration);
        if (millis > 0 || duration == 0) && old(time) + millis <= U64_MAX then
          r == Ok(old(time) + millis) && time == old(time) + millis
        else
          r == Err(InvalidArgument("duration")) && time == old(time)
    {
      var advanced :- AddDuration(time, duration);
      time := advanced;
      r := Ok(time);
    }
  }

  class InMemoryTtlStore {
    const clock: VirtualClock
    var nextRevision: U64
    var entries: map<TtlKey, TtlEntry>

    function View(): TtlData
      reads this
    {
      TtlData(nextRevision, entries)
    }

    constructor (clock: VirtualClock)
      ensures this.clock == clock && View() == TtlData(0, map[])
    {
      this.clock := clock;
      nextRevision := 0;
      entries := map[];
    }

    method Purge(key: TtlKey, now: U64)
      modifies this
      ensures View() == PurgeIfExpired(old(View()), key, now)
      ensures IsLive(old(View()), key, now) ==> View() == old(View())
      ensures !IsLive(old(View()), key, now) ==> View() == Without(old(View()), key)
    {
      if key in entries && now >= entries[key].expiresAt {
        entries := entries - {key};
      }
    }

    method NextRevision() returns (r: Result<U64, StateError>)
      modifies this`nextRevision
      ensures match CheckedAdd(old(nextRevision), 1)
        case None => r == Err(Conflict(TtlValueEntity)) && nextRevision == old(nextRevision)
        case Some(bumped) => r == Ok(bumped) && nextRevision == bumped
    {
      if nextRevision == U64_MAX {
        return Err(Conflict(TtlValueEntity));
      }
      nextRevision := nextRevision + 1;
      r := Ok(nextRevision);
    }

    method PutIfAbsent(key: TtlKey, value: TtlValue, ttl: Duration) returns (r: Result<PutResult, StateError>)
      modifies this
      ensures (View(), Answer(r, (p: PutResult) => p.AsReply()))
           == Execute(old(View()), Put(key, value, ttl), clock.time)
      ensures var was, now, millis := old(View()), clock.time, AsMillis(ttl);
        if ttl == 0 then
          r == Err(InvalidArgument("ttl")) && View() == was
        else if millis == 0 || now + millis > U64_MAX then
          r == Err(InvalidArgument("duration")) && View() == was
        else if IsLive(was, key, now) then
          r == Ok(PutExisting(was.entries[key].revision)) && View() == was
        else if was.nextRevision == U64_MAX then
          r == Err(Conflict(TtlValueEntity)) && View() == Without(was, key)
        else
          var revision := was.nextRevision + 1;
          && r == Ok(PutInserted(revision))
          && View() == TtlData(revision, was.entries[key := TtlEntry(value, revision, now + millis)])
    {
      if ttl == 0 {
        return Err(InvalidArgument("ttl"));
      }
      var now := clock.Now();
      var expiresAt :- AddDuration(now, ttl);
      Purge(key, now);
      if key in entries {
        return Ok(PutExisting(entries[key].revision));
      }
      var revision :- NextRevision();
      entries := entries[key := TtlEntry(value, revision, expiresAt)];
      r := Ok(PutInserted(revision));
    }

    method GetEntry(key: TtlKey) returns (entry: Option<TtlEntry>)
      modifies this
      ensures (View(), FoundReply(entry)) == Execute(old(View()), Get(key), clock.time)
      ensures var was := old(View());
        if IsLive(was, key, clock.time) then entry == Some(was.entries[key]) && View() == was
        else entry == None && View() == Without(was, key)
    {
      var now := clock.Now();
      Purge(key, now);
      entry := if key in entries then Some(entries[key]) else None;
    }

    method CompareAndExtend(key: TtlKey, expected: U64, ttl: Duration) returns (r: Result<ExtendResult, StateError>)
      modifies this
      ensures (View(), Answer(r, (e: ExtendResult) => e.AsReply()))
           == Execute(old(View()), Extend(key, expected, ttl), clock.time)
      ensures var was, now, millis := old(View()), clock.time, AsMillis(ttl);
        if ttl == 0 then
          r == Err(InvalidArgument("ttl")) && View() == was
        else if millis == 0 || now + millis > U64_MAX then
          r == Err(InvalidArgument("duration")) && View() == was
        else if !IsLive(was, key, now) then
          r == Ok(ExtendMissing) && View() == Without(was, key)
        else if was.entries[key].revision != expected then
          r == Ok(ExtendMismatch(was.entries[key].revision)) && View() == was
        else if was.nextRevision == U64_MAX then
          r == Err(Conflict(TtlValueEntity)) && View() == was
        else
          var revision := was.nextRevision + 1;
          var entry := TtlEntry(was.entries[key].value, revision, now + millis);
          && r == Ok(WasExtended(revision, now + millis))
          && View() == TtlData(revision, was.entries[key := entry])
    {
      if ttl == 0 {
        return Err(InvalidArgument("ttl"));
      }
      var now := clock.Now();
      var expiresAt :- AddDuration(now, ttl);
      Purge(key, now);
      if key !in entries {
        return Ok(ExtendMissing);
      }
      var entry := entries[key];
      if entry.revision != expected {
        return Ok(ExtendMismatch(entry.revision));
      }
      var revision :- NextRevision();
      entries := entries[key := TtlEntry(entry.value, revision, expiresAt)];
      r := Ok(WasExtended(revision, expiresAt));
    }

    method CompareAndTake(key: TtlKey, expected: U64) returns (r: TakeResult)
      modifies this
      ensures (View(), r.AsReply()) == Execute(old(View()), Take(key, expected), clock.time)
      ensures var was := old(View());
        if !IsLive(was, key, clock.time) then
          r == TakeMissing && View() == Without(was, key)
        else if was.entries[key].revision != expected then
          r == TakeMismatch(was.entries[key].revision) && View() == was
        else
          r == WasTaken(was.entries[key].value) && View() == Without(was, key)
    {
      var now := clock.Now();
      Purge(key, now);
      if key !in entries {
        return TakeMissing;
      }
      var entry := entries[key];
      if entry.revision != expected {
        return TakeMismatch(entry.revision);
      }
      entries := entries - {key};
      r := WasTaken(entry.value);
    }

    method RemoveEntry(key: TtlKey) returns (outcome: MutationOutcome)
      modifies this
      ensures (View(), Removed(outcome)) == Execute(old(View()), Remove(key), clock.time)
      ensures View() == Without(old(View()), key)
      ensures outcome == if IsLive(old(View()), key, clock.time) then Applied else Unchanged
    {
      var now := clock.Now();
      Purge(key, now);
      outcome := if key in entries then Applied else Unchanged;
      entries := entries - {key};
    }
  }
}
