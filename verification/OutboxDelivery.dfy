/** Append-once, first-acknowledgement-wins delivery from the transactional outbox. */
module OutboxDelivery {
  import opened Wrappers
  import opened StateModel
  import opened DurableStore
  import opened SerialEquivalence
  import opened StoreHistory

  /** All of a tenant's unacknowledged entries. */
  function Pending(data: StoreData, scope: TenantScope): seq<OutboxEntry> {
    PendingEntries(data, scope, data.outboxOrder)
  }

  lemma {:induction false} PendingByPosition(data: StoreData, scope: TenantScope, order: seq<ScopedId>)
    returns (at: seq<nat>)
    ensures TakenInOrder(data, scope, order, at, PendingEntries(data, scope, order))
    decreases |order|
  {
    at := [];
    if order != [] {
      var init, key := DropLast(order), Last(order);
      assert order == init + [key];
      at := PendingByPosition(data, scope, init);
      PendingConcat(data, scope, init, [key]);
      assert [key][1..] == [];
      if IsPendingIn(data, scope, key) {
        at := at + [|init|];
        assert at[|at| - 1] == |init|;
      }
    }
  }

  lemma {:induction false} OtherKeysStayPending(
      data: StoreData, scope: TenantScope, order: seq<ScopedId>, key: ScopedId, entry: OutboxEntry)
    requires key !in order
    ensures PendingEntries(data.(outbox := data.outbox[key := entry]), scope, order)
         == PendingEntries(data, scope, order)
  {
    if order != [] {
      OtherKeysStayPending(data, scope, order[1..], key, entry);
    }
  }

  lemma {:induction false} AcknowledgedHeadLeaves(
      data: StoreData, scope: TenantScope, order: seq<ScopedId>, key: ScopedId, entry: OutboxEntry)
    requires WellFormed(data) && NoDuplicates(order) && key in order
    requires IsPendingIn(data, scope, key) && !entry.IsPending()
    requires PendingEntries(data, scope, order) != [] && PendingEntries(data, scope, order)[0] == data.outbox[key]
    ensures PendingEntries(data.(outbox := data.outbox[key := entry]), scope, order)
         == PendingEntries(data, scope, order)[1..]
  {
    if IsPendingIn(data, scope, order[0]) {
      assert OutboxKey(data.outbox[order[0]].record) == order[0];
      OtherKeysStayPending(data, scope, order[1..], key, entry);
    } else {
      AcknowledgedHeadLeaves(data, scope, order[1..], key, entry);
    }
  }

  lemma {:induction false} PendingHeadIsListed(data: StoreData, scope: TenantScope, order: seq<ScopedId>)
    requires WellFormed(data) && PendingEntries(data, scope, order) != []
    ensures var key := OutboxKey(PendingEntries(data, scope, order)[0].record);
      key in order && IsPendingIn(data, scope, key) && data.outbox[key] == PendingEntries(data, scope, order)[0]
  {
    if !IsPendingIn(data, scope, order[0]) {
      PendingHeadIsListed(data, scope, order[1..]);
    }
  }

  /** Acknowledging the oldest pending entry, not before it occurred, is applied and removes just that entry. */
  lemma AcknowledgeOldest(data: StoreData, scope: TenantScope, atMs: U64)
    requires WellFormed(data) && Pending(data, scope) != []
    requires Pending(data, scope)[0].record.occurredAtMs <= atMs
    ensures var effect := Perform(data, AcknowledgeOutbox(scope, Pending(data, scope)[0].record.outboxId, atMs));
      && effect.reply == Mutated(Applied)
      && WellFormed(effect.data)
      && Pending(effect.data, scope) == Pending(data, scope)[1..]
  {
    PendingHeadIsListed(data, scope, data.outboxOrder);
    var key := OutboxKey(Pending(data, scope)[0].record);
    PerformEvolves(data, AcknowledgeOutbox(scope, key.id, atMs));
    AcknowledgedHeadLeaves(data, scope, data.outboxOrder, key, data.outbox[key].Acknowledged(atMs).value.0);
  }

  /** The store after a consumer has acknowledged each of the entries, at the times it chose. */
  function AcknowledgeAll(
      data: StoreData, scope: TenantScope, entries: seq<OutboxEntry>, at: OutboxRecord -> U64): StoreData
    decreases |entries|
  {
    if entries == [] then
      data
    else
      var first := entries[0].record;
      var acknowledged := Perform(data, AcknowledgeOutbox(scope, first.outboxId, at(first))).data;
      AcknowledgeAll(acknowledged, scope, entries[1..], at)
  }

  lemma {:induction false} AcknowledgeBatch(data: StoreData, scope: TenantScope, n: nat, at: OutboxRecord -> U64)
    requires WellFormed(data) && n <= |Pending(data, scope)|
    requires forall record: OutboxRecord :: record.occurredAtMs <= at(record)
    ensures var after := AcknowledgeAll(data, scope, Pending(data, scope)[..n], at);
      WellFormed(after) && Pending(after, scope) == Pending(data, scope)[n..]
    decreases n
  {
    if n > 0 {
      var all := Pending(data, scope);
      var first := all[0].record;
      AcknowledgeOldest(data, scope, at(first));
      var next := Perform(data, AcknowledgeOutbox(scope, first.outboxId, at(first))).data;
      AcknowledgeBatch(next, scope, n - 1, at);
      assert all[..n][1..] == all[1..][..n - 1];
      assert all[1..][n - 1..] == all[n..];
    }
  }

  /** What `pending_outbox` hands out is the first `limit` pending entries. */
  lemma BatchIsPrefix(data: StoreData, scope: TenantScope, limit: nat)
    requires limit > 0
    ensures Perform(data, PendingOutbox(scope, limit)).reply.Entries?
    ensures var batch := Perform(data, PendingOutbox(scope, limit)).reply.entries;
      && batch <= Pending(data, scope)
      && |batch| == (if |Pending(data, scope)| <= limit then |Pending(data, scope)| else limit)
  {
  }

  /** The batches are the successive answers of `pending_outbox`, each acknowledged before the next request. */
  ghost predicate IsDrain(
      data: StoreData, scope: TenantScope, limit: nat, at: OutboxRecord -> U64,
      batches: seq<seq<OutboxEntry>>, drained: StoreData)
    decreases |batches|
  {
    var reply := Perform(data, PendingOutbox(scope, limit)).reply;
    if batches == [] then
      reply == Entries([]) && drained == data
    else
      && reply == Entries(batches[0])
      && IsDrain(AcknowledgeAll(data, scope, batches[0], at), scope, limit, at, batches[1..], drained)
  }

  function Concatenated<T>(parts: seq<seq<T>>): seq<T> {
    if parts == [] then [] else parts[0] + Concatenated(parts[1..])
  }

  /** One round: a batch that is not empty is what the pending entries start with, and acknowledging it removes it. */
  lemma DrainRound(data: StoreData, scope: TenantScope, limit: nat, at: OutboxRecord -> U64)
    returns (batch: seq<OutboxEntry>, next: StoreData)
    requires WellFormed(data) && limit > 0
    requires forall record: OutboxRecord :: record.occurredAtMs <= at(record)
    ensures Perform(data, PendingOutbox(scope, limit)).reply == Entries(batch)
    ensures next == AcknowledgeAll(data, scope, batch, at) && WellFormed(next)
    ensures Pending(data, scope) == batch + Pending(next, scope)
    ensures batch == [] ==> Pending(data, scope) == [] && next == data
  {
    BatchIsPrefix(data, scope, limit);
    batch := Perform(data, PendingOutbox(scope, limit)).reply.entries;
    AcknowledgeBatch(data, scope, |batch|, at);
    assert batch == Pending(data, scope)[..|batch|];
    next := AcknowledgeAll(data, scope, batch, at);
  }

  /**
   * A consumer that keeps asking for a batch and acknowledging all of it stops, and the batches it saw, put
   * end to end, are the pending entries: each one once, in append order.
   */
  lemma {:induction false} Drain(data: StoreData, scope: TenantScope, limit: nat, at: OutboxRecord -> U64)
    returns (batches: seq<seq<OutboxEntry>>, drained: StoreData)
    requires WellFormed(data) && limit > 0
    requires forall record: OutboxRecord :: record.occurredAtMs <= at(record)
    ensures IsDrain(data, scope, limit, at, batches, drained)
    ensures Concatenated(batches) == Pending(data, scope)
    ensures Pending(drained, scope) == []
    decreases |Pending(data, scope)|
  {
    var batch, next := DrainRound(data, scope, limit, at);
    if batch == [] {
      return [], data;
    }
    var rest, end := Drain(next, scope, limit, at);
    batches, drained := [batch] + rest, end;
    DrainCons(data, scope, limit, at, batch, rest, end);
  }

  lemma DrainCons(
      data: StoreData, scope: TenantScope, limit: nat, at: OutboxRecord -> U64,
      batch: seq<OutboxEntry>, rest: seq<seq<OutboxEntry>>, drained: StoreData)
    requires Perform(data, PendingOutbox(scope, limit)).reply == Entries(batch)
    requires IsDrain(AcknowledgeAll(data, scope, batch, at), scope, limit, at, rest, drained)
    ensures IsDrain(data, scope, limit, at, [batch] + rest, drained)
    ensures Concatenated([batch] + rest) == batch + Concatenated(rest)
  {
    assert ([batch] + rest)[1..] == rest;
  }

  /** Appending a record again is Unchanged, and appending another one under its key conflicts. */
  lemma AppendedOnce(data: StoreData, record: OutboxRecord, later: StoreData, again: OutboxRecord)
    requires Perform(data, AppendOutbox(record)).reply.Mutated?
    requires Evolves(Perform(data, AppendOutbox(record)).data, later)
    requires OutboxKey(again) == OutboxKey(record)
    ensures var effect := Perform(later, AppendOutbox(again));
      && effect.data == later && !effect.wrote
      && effect.reply == (if again == record then Mutated(Unchanged) else Rejected(Conflict(OutboxEntity)))
  {
    var key := OutboxKey(record);
    assert EntryEvolves(Perform(data, AppendOutbox(record)).data.outbox[key], later.outbox[key]);
  }

  /** The first acknowledgement is the only one that counts, in every later state. */
  lemma AcknowledgedOnce(data: StoreData, key: ScopedId, later: StoreData, atMs: U64)
    requires key in data.outbox && !data.outbox[key].IsPending() && Evolves(data, later)
    ensures Perform(later, AcknowledgeOutbox(key.scope, key.id, atMs)) == Effect(later, Mutated(Unchanged), false)
    ensures later.outbox[key].acknowledgedAtMs == data.outbox[key].acknowledgedAtMs
  {
    assert EntryEvolves(data.outbox[key], later.outbox[key]);
    assert later.outbox[key := later.outbox[key]] == later.outbox;
    assert key == ScopedId(key.scope, key.id);
  }

  /**
   * Conservation over every run: in the shared data the append order lists each outbox key once and no other,
   * each key is its record's own, and a longer run only appends to it.
   */
  lemma OutboxConserved(run: seq<Action>, more: seq<Action>)
    ensures var shared := After(run).shared;
      && NoDuplicates(shared.outboxOrder)
      && (set k | k in shared.outboxOrder) == shared.outbox.Keys
      && (forall k :: k in shared.outbox ==> OutboxKey(shared.outbox[k].record) == k)
      && shared.outboxOrder <= After(run + more).shared.outboxOrder
  {
    SharedEvolves(run, more);
  }

  /** A shared outbox record is appended once: later transactions get Unchanged for it and a conflict for others. */
  lemma AppendStays(run: seq<Action>, more: seq<Action>, id: TxnId, key: ScopedId, again: OutboxRecord)
    requires key in After(run).shared.outbox && OutboxKey(again) == key && BegunSince(run, more, id)
    ensures var txn := After(run + more).txns[id];
      CallTxn(txn, AppendOutbox(again)) == (
        txn,
        if again == After(run).shared.outbox[key].record then Mutated(Unchanged)
        else Rejected(Conflict(OutboxEntity)))
  {
    LaterWorkEvolves(run, more, id);
    assert EntryEvolves(After(run).shared.outbox[key], After(run + more).txns[id].working.outbox[key]);
  }

  /** A shared acknowledgement keeps its time: later transactions find it and cannot move it. */
  lemma AcknowledgementStays(run: seq<Action>, more: seq<Action>, id: TxnId, key: ScopedId, atMs: U64)
    requires key in After(run).shared.outbox && !After(run).shared.outbox[key].IsPending()
    requires BegunSince(run, more, id)
    ensures var txn := After(run + more).txns[id];
      && CallTxn(txn, ReadOutbox(key.scope, key.id)) == (txn, OutboxFound(Some(After(run).shared.outbox[key])))
      && CallTxn(txn, AcknowledgeOutbox(key.scope, key.id, atMs)) == (txn, Mutated(Unchanged))
  {
    LaterWorkEvolves(run, more, id);
    var working := After(run + more).txns[id].working;
    assert EntryEvolves(After(run).shared.outbox[key], working.outbox[key]);
    assert working.outbox[key := working.outbox[key]] == working.outbox;
    assert key == ScopedId(key.scope, key.id);
  }
}
