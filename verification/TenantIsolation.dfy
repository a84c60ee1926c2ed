/** Tenant noninterference: no tenant's operation shows in another tenant's replies or data. */
module TenantIsolation {
  import opened Wrappers
  import opened SessionLifecycle
  import opened StateModel
  import opened DurableStore

  /** Everything of a snapshot that belongs to one tenant. */
  datatype TenantView = TenantView(
    sessions: map<ScopedId, SessionRecord>,
    reservations: map<ScopedId, ReservationRecord>,
    outbox: map<ScopedId, OutboxEntry>,
    outboxOrder: seq<ScopedId>)

  function OwnKeys(order: seq<ScopedId>, scope: TenantScope): seq<ScopedId> {
    if order == [] then [] else (if order[0].scope == scope then [order[0]] else []) + OwnKeys(order[1..], scope)
  }

  function OwnPart<V>(table: map<ScopedId, V>, scope: TenantScope): map<ScopedId, V> {
    map k | k in table && k.scope == scope :: table[k]
  }

  function ViewOf(data: StoreData, scope: TenantScope): TenantView {
    TenantView(
      OwnPart(data.sessions, scope),
      OwnPart(data.reservations, scope),
      OwnPart(data.outbox, scope),
      OwnKeys(data.outboxOrder, scope))
  }

  /** Writing a key changes its tenant's part at that key, and no other tenant's part. */
  lemma OwnPut<V>(table: map<ScopedId, V>, key: ScopedId, value: V, scope: TenantScope)
    ensures OwnPart(table[key := value], scope)
         == if key.scope == scope then OwnPart(table, scope)[key := value] else OwnPart(table, scope)
  {
    var after := OwnPart(table[key := value], scope);
    if key.scope == scope {
      assert after == OwnPart(table, scope)[key := value];
    } else {
      assert after == OwnPart(table, scope);
    }
  }

  /** A run of one transaction's operations, with what each one replied. */
  function RunOn(data: StoreData, ops: seq<Operation>): (StoreData, seq<(Operation, Reply)>)
    decreases |ops|
  {
    if ops == [] then
      (data, [])
    else
      var effect := Perform(data, ops[0]);
      var (end, replies) := RunOn(effect.data, ops[1..]);
      (end, [(ops[0], effect.reply)] + replies)
  }

  function OwnOperations(ops: seq<Operation>, scope: TenantScope): seq<Operation> {
    if ops == [] then [] else (if ops[0].Tenant() == scope then [ops[0]] else []) + OwnOperations(ops[1..], scope)
  }

  function OwnReplies(replies: seq<(Operation, Reply)>, scope: TenantScope): seq<(Operation, Reply)> {
    if replies == [] then
      []
    else
      (if replies[0].0.Tenant() == scope then [replies[0]] else []) + OwnReplies(replies[1..], scope)
  }

  lemma {:induction false} OwnKeysAppend(order: seq<ScopedId>, key: ScopedId, scope: TenantScope)
    ensures OwnKeys(order + [key], scope) == OwnKeys(order, scope) + (if key.scope == scope then [key] else [])
  {
    if order != [] {
      assert (order + [key])[1..] == order[1..] + [key];
      OwnKeysAppend(order[1..], key, scope);
    }
  }

  /** A tenant's pending entries can be read off its own view. */
  lemma {:induction false} PendingFromView(data: StoreData, scope: TenantScope, order: seq<ScopedId>)
    ensures PendingEntries(data, scope, order) == PendingEntries(data, scope, OwnKeys(order, scope))
  {
    if order != [] {
      PendingFromView(data, scope, order[1..]);
      var own := OwnKeys(order, scope);
      if order[0].scope == scope {
        assert own[0] == order[0] && own[1..] == OwnKeys(order[1..], scope);
      } else {
        assert own == OwnKeys(order[1..], scope);
      }
    }
  }

  lemma {:induction false} PendingSameView(a: StoreData, b: StoreData, scope: TenantScope, order: seq<ScopedId>)
    requires ViewOf(a, scope).outbox == ViewOf(b, scope).outbox
    ensures PendingEntries(a, scope, order) == PendingEntries(b, scope, order)
  {
    if order != [] {
      PendingSameView(a, b, scope, order[1..]);
      assert IsPendingIn(a, scope, order[0]) ==>
        order[0] in ViewOf(a, scope).outbox && ViewOf(b, scope).outbox[order[0]] == a.outbox[order[0]];
      assert IsPendingIn(b, scope, order[0]) ==>
        order[0] in ViewOf(b, scope).outbox && ViewOf(a, scope).outbox[order[0]] == b.outbox[order[0]];
    }
  }

  /** An operation of another tenant is invisible. */
  lemma OthersAreInvisible(data: StoreData, op: Operation, scope: TenantScope)
    requires op.Tenant() != scope
    ensures ViewOf(Perform(data, op).data, scope) == ViewOf(data, scope)
  {
    match op
    case InsertSession(session) => OwnPut(data.sessions, SessionKey(session), session, scope);
    case InsertReservation(reservation) =>
      OwnPut(data.reservations, ReservationKey(reservation), reservation, scope);
    case AppendOutbox(record) =>
      OwnKeysAppend(data.outboxOrder, OutboxKey(record), scope);
      OwnPut(data.outbox, OutboxKey(record), OutboxEntry(record, None), scope);
    case TransitionSession(own, id, expectedRevision, next, atMs) =>
      OtherTransition(data, ScopedId(own, id), expectedRevision, next, atMs, scope);
    case AcknowledgeOutbox(own, id, atMs) => OtherAcknowledge(data, ScopedId(own, id), atMs, scope);
    case _ =>
  }

  lemma OtherTransition(
      data: StoreData, key: ScopedId, expectedRevision: U64, next: SessionState, atMs: U64, scope: TenantScope)
    requires key.scope != scope
    ensures ViewOf(PerformTransition(data, key, expectedRevision, next, atMs).data, scope) == ViewOf(data, scope)
  {
    if key in data.sessions && data.sessions[key].Transitioned(next, atMs).Ok? {
      OwnPut(data.sessions, key, data.sessions[key].Transitioned(next, atMs).value, scope);
    }
  }

  lemma OtherAcknowledge(data: StoreData, key: ScopedId, atMs: U64, scope: TenantScope)
    requires key.scope != scope
    ensures ViewOf(PerformAcknowledge(data, key, atMs).data, scope) == ViewOf(data, scope)
  {
    if key in data.outbox && data.outbox[key].Acknowledged(atMs).Ok? {
      OwnPut(data.outbox, key, data.outbox[key].Acknowledged(atMs).value.0, scope);
    }
  }

  /** An operation's reply and its effect on its own tenant depend only on that tenant's view. */
  lemma OwnViewDecides(a: StoreData, b: StoreData, op: Operation)
    requires ViewOf(a, op.Tenant()) == ViewOf(b, op.Tenant())
    ensures Perform(a, op).reply == Perform(b, op).reply
    ensures ViewOf(Perform(a, op).data, op.Tenant()) == ViewOf(Perform(b, op).data, op.Tenant())
  {
    var scope := op.Tenant();
    SameLookups(a, b, scope);
    if op.PendingOutbox? {
      PendingFromView(a, scope, a.outboxOrder);
      PendingFromView(b, scope, b.outboxOrder);
      PendingSameView(a, b, scope, OwnKeys(a.outboxOrder, scope));
    } else {
      SameWrites(a, b, op);
    }
  }

  /** Both stores make the same change, or neither changes. */
  ghost predicate SameEffect(a: Effect, b: Effect, scope: TenantScope) {
    a.reply == b.reply && ViewOf(a.data, scope) == ViewOf(b.data, scope)
  }

  lemma SameWrites(a: StoreData, b: StoreData, op: Operation)
    requires ViewOf(a, op.Tenant()) == ViewOf(b, op.Tenant()) && SameOwn(a, b, op.Tenant()) && !op.PendingOutbox?
    ensures SameEffect(Perform(a, op), Perform(b, op), op.Tenant())
  {
    match op
    case InsertSession(session) => SameInsertSession(a, b, session);
    case TransitionSession(scope, id, expectedRevision, next, atMs) =>
      SameTransition(a, b, ScopedId(scope, id), expectedRevision, next, atMs);
    case InsertReservation(reservation) => SameInsertReservation(a, b, reservation);
    case AppendOutbox(record) => SameAppend(a, b, record);
    case AcknowledgeOutbox(scope, id, atMs) => SameAcknowledge(a, b, ScopedId(scope, id), atMs);
    case ReadSession(scope, id) => OwnLookups(a, b, ScopedId(scope, id));
    case ReadReservation(scope, id) => OwnLookups(a, b, ScopedId(scope, id));
    case ReadOutbox(scope, id) => OwnLookups(a, b, ScopedId(scope, id));
  }

  lemma OwnLookups(a: StoreData, b: StoreData, key: ScopedId)
    requires SameOwn(a, b, key.scope)
    ensures Lookup(a.sessions, key) == Lookup(b.sessions, key)
    ensures Lookup(a.reservations, key) == Lookup(b.reservations, key)
    ensures Lookup(a.outbox, key) == Lookup(b.outbox, key)
  {
  }

  lemma SameInsertSession(a: StoreData, b: StoreData, session: SessionRecord)
    requires ViewOf(a, session.scope) == ViewOf(b, session.scope) && SameOwn(a, b, session.scope)
    ensures SameEffect(Perform(a, InsertSession(session)), Perform(b, InsertSession(session)), session.scope)
  {
    OwnLookups(a, b, SessionKey(session));
    OwnPut(a.sessions, SessionKey(session), session, session.scope);
    OwnPut(b.sessions, SessionKey(session), session, session.scope);
  }

  lemma SameTransition(
      a: StoreData, b: StoreData, key: ScopedId, expectedRevision: U64, next: SessionState, atMs: U64)
    requires ViewOf(a, key.scope) == ViewOf(b, key.scope) && SameOwn(a, b, key.scope)
    ensures SameEffect(PerformTransition(a, key, expectedRevision, next, atMs),
                       PerformTransition(b, key, expectedRevision, next, atMs),
                       key.scope)
  {
    OwnLookups(a, b, key);
    if key in a.sessions && a.sessions[key].Transitioned(next, atMs).Ok? {
      var session := a.sessions[key].Transitioned(next, atMs).value;
      OwnPut(a.sessions, key, session, key.scope);
      OwnPut(b.sessions, key, session, key.scope);
    }
  }

  lemma SameInsertReservation(a: StoreData, b: StoreData, reservation: ReservationRecord)
    requires ViewOf(a, reservation.scope) == ViewOf(b, reservation.scope) && SameOwn(a, b, reservation.scope)
    ensures SameEffect(Perform(a, InsertReservation(reservation)),
                       Perform(b, InsertReservation(reservation)),
                       reservation.scope)
  {
    var key := ReservationKey(reservation);
    OwnLookups(a, b, key);
    OwnPut(a.reservations, key, reservation, key.scope);
    OwnPut(b.reservations, key, reservation, key.scope);
  }

  lemma SameAppend(a: StoreData, b: StoreData, record: OutboxRecord)
    requires ViewOf(a, record.scope) == ViewOf(b, record.scope) && SameOwn(a, b, record.scope)
    ensures SameEffect(Perform(a, AppendOutbox(record)), Perform(b, AppendOutbox(record)), record.scope)
  {
    OwnLookups(a, b, OutboxKey(record));
    OwnKeysAppend(a.outboxOrder, OutboxKey(record), record.scope);
    OwnKeysAppend(b.outboxOrder, OutboxKey(record), record.scope);
    OwnPut(a.outbox, OutboxKey(record), OutboxEntry(record, None), record.scope);
    OwnPut(b.outbox, OutboxKey(record), OutboxEntry(record, None), record.scope);
  }

  lemma SameAcknowledge(a: StoreData, b: StoreData, key: ScopedId, atMs: U64)
    requires ViewOf(a, key.scope) == ViewOf(b, key.scope) && SameOwn(a, b, key.scope)
    ensures SameEffect(PerformAcknowledge(a, key, atMs), PerformAcknowledge(b, key, atMs), key.scope)
  {
    OwnLookups(a, b, key);
    if key in a.outbox && a.outbox[key].Acknowledged(atMs).Ok? {
      var entry := a.outbox[key].Acknowledged(atMs).value.0;
      OwnPut(a.outbox, key, entry, key.scope);
      OwnPut(b.outbox, key, entry, key.scope);
    }
  }

  ghost predicate SameOwn(a: StoreData, b: StoreData, scope: TenantScope) {
    forall k: ScopedId :: k.scope == scope ==>
      && Lookup(a.sessions, k) == Lookup(b.sessions, k)
      && Lookup(a.reservations, k) == Lookup(b.reservations, k)
      && Lookup(a.outbox, k) == Lookup(b.outbox, k)
  }

  lemma SameLookups(a: StoreData, b: StoreData, scope: TenantScope)
    requires ViewOf(a, scope) == ViewOf(b, scope)
    ensures SameOwn(a, b, scope)
  {
    forall k: ScopedId | k.scope == scope
      ensures Lookup(a.sessions, k) == Lookup(b.sessions, k)
      ensures Lookup(a.reservations, k) == Lookup(b.reservations, k)
      ensures Lookup(a.outbox, k) == Lookup(b.outbox, k)
    {
      OwnLookup(a, k);
      OwnLookup(b, k);
    }
  }

  /** A key's tenant finds it in its view exactly as in the store. */
  lemma OwnLookup(data: StoreData, k: ScopedId)
    ensures Lookup(data.sessions, k) == Lookup(ViewOf(data, k.scope).sessions, k)
    ensures Lookup(data.reservations, k) == Lookup(ViewOf(data, k.scope).reservations, k)
    ensures Lookup(data.outbox, k) == Lookup(ViewOf(data, k.scope).outbox, k)
  {
  }

  /**
   * Deleting every other tenant's operations from any operation sequence changes neither what this tenant's
   * operations reply nor what the tenant's part of the data ends up as.
   */
  lemma {:induction false} Noninterference(data: StoreData, ops: seq<Operation>, scope: TenantScope)
    ensures OwnReplies(RunOn(data, ops).1, scope) == RunOn(data, OwnOperations(ops, scope)).1
    ensures ViewOf(RunOn(data, ops).0, scope) == ViewOf(RunOn(data, OwnOperations(ops, scope)).0, scope)
  {
    NoninterferenceFrom(data, data, ops, scope);
  }

  lemma {:induction false} NoninterferenceFrom(
      a: StoreData, b: StoreData, ops: seq<Operation>, scope: TenantScope)
    requires ViewOf(a, scope) == ViewOf(b, scope)
    ensures OwnReplies(RunOn(a, ops).1, scope) == RunOn(b, OwnOperations(ops, scope)).1
    ensures ViewOf(RunOn(a, ops).0, scope) == ViewOf(RunOn(b, OwnOperations(ops, scope)).0, scope)
    decreases |ops|
  {
    if ops != [] {
      var first, rest := ops[0], ops[1..];
      var next := Perform(a, first).data;
      var own := OwnOperations(rest, scope);
      if first.Tenant() == scope {
        OwnViewDecides(a, b, first);
        NoninterferenceFrom(next, Perform(b, first).data, rest, scope);
        assert OwnOperations(ops, scope)[0] == first && OwnOperations(ops, scope)[1..] == own;
      } else {
        OthersAreInvisible(a, first, scope);
        NoninterferenceFrom(next, b, rest, scope);
        assert OwnOperations(ops, scope) == own;
      }
      FirstReply(a, ops, scope);
    }
  }

  lemma FirstReply(data: StoreData, ops: seq<Operation>, scope: TenantScope)
    requires ops != []
    ensures var effect := Perform(data, ops[0]);
      && RunOn(data, ops).0 == RunOn(effect.data, ops[1..]).0
      && OwnReplies(RunOn(data, ops).1, scope)
         == (if ops[0].Tenant() == scope then [(ops[0], effect.reply)] else [])
            + OwnReplies(RunOn(effect.data, ops[1..]).1, scope)
  {
    var effect := Perform(data, ops[0]);
    var replies := RunOn(data, ops).1;
    assert replies[0] == (ops[0], effect.reply);
    assert replies[1..] == RunOn(effect.data, ops[1..]).1;
  }
}
