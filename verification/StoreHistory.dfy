/** What every operation, every transaction and every run keeps about sessions, reservations and the outbox. */
module StoreHistory {
  import opened SessionLifecycle
  import opened StateModel
  import opened DurableStore
  import opened SerialEquivalence

  /** One allowed state change: the revision goes up by one, the update time not down, and nothing else moves. */
  predicate IsStep(a: SessionRecord, b: SessionRecord) {
    && a.state.CanTransitionTo(b.state)
    && b.revision == a.revision + 1
    && a.updatedAtMs <= b.updatedAtMs
    && a.SameIdentity(b)
  }

  /** Successive records of one session, each one state change after the one before. */
  ghost predicate IsTrace(trace: seq<SessionRecord>) {
    trace != [] && forall i :: 0 <= i < |trace| - 1 ==> IsStep(trace[i], trace[i + 1])
  }

  function States(trace: seq<SessionRecord>): seq<SessionState> {
    seq(|trace|, i requires 0 <= i < |trace| => trace[i].state)
  }

  ghost predicate Descends(a: SessionRecord, b: SessionRecord) {
    exists trace :: IsTrace(trace) && trace[0] == a && Last(trace) == b
  }

  /** The record never changes, and the first acknowledgement time is permanent. */
  predicate EntryEvolves(a: OutboxEntry, b: OutboxEntry) {
    a.record == b.record && (a.acknowledgedAtMs.Some? ==> a == b)
  }

  ghost predicate Evolves(a: StoreData, b: StoreData) {
    && (forall k :: k in a.sessions ==> k in b.sessions && Descends(a.sessions[k], b.sessions[k]))
    && (forall k :: k in a.reservations ==> k in b.reservations && b.reservations[k] == a.reservations[k])
    && (forall k :: k in a.outbox ==> k in b.outbox && EntryEvolves(a.outbox[k], b.outbox[k]))
    && a.outboxOrder <= b.outboxOrder
  }

  /** Some key is new, or some revision is higher. */
  ghost predicate SessionsDiffer(a: StoreData, b: StoreData) {
    exists k :: k in b.sessions && (k in a.sessions ==> a.sessions[k].revision < b.sessions[k].revision)
  }

  /** Some key is new, or some entry has become acknowledged. */
  ghost predicate OutboxDiffers(a: StoreData, b: StoreData) {
    exists k :: k in b.outbox && (k in a.outbox ==> a.outbox[k].IsPending() && !b.outbox[k].IsPending())
  }

  ghost predicate Differs(a: StoreData, b: StoreData) {
    || SessionsDiffer(a, b)
    || OutboxDiffers(a, b)
    || (exists k :: k in b.reservations && k !in a.reservations)
  }

  ghost predicate NoDuplicates<T(!new)>(s: seq<T>) {
    forall i, j :: 0 <= i < j < |s| ==> s[i] != s[j]
  }

  /** Every record sits under its own key, and the append order lists every outbox key exactly once. */
  ghost predicate WellFormed(data: StoreData) {
    && (forall k :: k in data.sessions ==> SessionKey(data.sessions[k]) == k)
    && (forall k :: k in data.reservations ==> ReservationKey(data.reservations[k]) == k)
    && (forall k :: k in data.outbox ==> OutboxKey(data.outbox[k].record) == k)
    && (forall k :: k in data.outboxOrder <==> k in data.outbox)
    && NoDuplicates(data.outboxOrder)
  }

  /** Along a trace the states are a path, the revision counts the changes, and identity and times are kept. */
  lemma {:induction false} TraceCounts(trace: seq<SessionRecord>)
    requires IsTrace(trace)
    ensures IsPath(States(trace))
    ensures Last(trace).revision == trace[0].revision + |trace| - 1
    ensures trace[0].updatedAtMs <= Last(trace).updatedAtMs && trace[0].SameIdentity(Last(trace))
  {
    if |trace| > 1 {
      var init := DropLast(trace);
      assert IsStep(Last(init), Last(trace));
      TraceCounts(init);
      forall i | 0 <= i < |trace| - 1
        ensures States(trace)[i].CanTransitionTo(States(trace)[i + 1])
      {
        assert IsStep(trace[i], trace[i + 1]);
      }
    }
  }

  lemma TracesJoin(p: seq<SessionRecord>, q: seq<SessionRecord>)
    requires IsTrace(p) && IsTrace(q) && Last(p) == q[0]
    ensures IsTrace(p + q[1..]) && Last(p + q[1..]) == Last(q)
  {
    var joined := p + q[1..];
    forall i | 0 <= i < |joined| - 1
      ensures IsStep(joined[i], joined[i + 1])
    {
      if i >= |p| - 1 {
        assert joined[i] == q[i - |p| + 1] && joined[i + 1] == q[i - |p| + 2];
      }
    }
  }

  lemma DescendsReflexive(a: SessionRecord)
    ensures Descends(a, a)
  {
    assert IsTrace([a]);
  }

  lemma DescendsTransitive(a: SessionRecord, b: SessionRecord, c: SessionRecord)
    requires Descends(a, b) && Descends(b, c)
    ensures Descends(a, c)
  {
    var p :| IsTrace(p) && p[0] == a && Last(p) == b;
    var q :| IsTrace(q) && q[0] == b && Last(q) == c;
    TracesJoin(p, q);
  }

  /** A descendant is the record itself or has a higher revision, and keeps identity and order of times. */
  lemma DescendantIsLater(a: SessionRecord, b: SessionRecord)
    requires Descends(a, b)
    ensures a.revision <= b.revision && (a.revision == b.revision ==> a == b)
    ensures a.updatedAtMs <= b.updatedAtMs && a.SameIdentity(b)
  {
    var trace :| IsTrace(trace) && trace[0] == a && Last(trace) == b;
    TraceCounts(trace);
  }

  lemma EvolvesReflexive(a: StoreData)
    ensures Evolves(a, a)
  {
    forall k | k in a.sessions
      ensures Descends(a.sessions[k], a.sessions[k])
    {
      DescendsReflexive(a.sessions[k]);
    }
  }

  lemma SessionDifferenceStays(a: StoreData, b: StoreData, c: StoreData)
    requires Evolves(a, b) && Evolves(b, c)
    requires SessionsDiffer(a, b) || SessionsDiffer(b, c)
    ensures SessionsDiffer(a, c)
  {
    var k :|
      && k in c.sessions
      && (|| k !in a.sessions
          || (k in b.sessions && a.sessions[k].revision < b.sessions[k].revision)
          || (k in b.sessions && b.sessions[k].revision < c.sessions[k].revision));
    if k in a.sessions {
      DescendantIsLater(a.sessions[k], b.sessions[k]);
      DescendantIsLater(b.sessions[k], c.sessions[k]);
    }
  }

  lemma OutboxDifferenceStays(a: StoreData, b: StoreData, c: StoreData)
    requires Evolves(a, b) && Evolves(b, c)
    requires OutboxDiffers(a, b) || OutboxDiffers(b, c)
    ensures OutboxDiffers(a, c)
  {
    var k :|
      && k in c.outbox
      && (|| k !in a.outbox
          || (k in b.outbox && a.outbox[k].IsPending() && !b.outbox[k].IsPending())
          || (k in b.outbox && b.outbox[k].IsPending() && !c.outbox[k].IsPending()));
    if k in a.outbox {
      assert EntryEvolves(a.outbox[k], b.outbox[k]) && EntryEvolves(b.outbox[k], c.outbox[k]);
    }
  }

  lemma DifferenceStays(a: StoreData, b: StoreData, c: StoreData)
    requires Evolves(a, b) && Evolves(b, c)
    requires Differs(a, b) || Differs(b, c)
    ensures Differs(a, c)
  {
    if SessionsDiffer(a, b) || SessionsDiffer(b, c) {
      SessionDifferenceStays(a, b, c);
    } else if OutboxDiffers(a, b) || OutboxDiffers(b, c) {
      OutboxDifferenceStays(a, b, c);
    } else {
      var k :| k in c.reservations && k !in a.reservations;
    }
  }

  lemma EvolvesTransitive(a: StoreData, b: StoreData, c: StoreData)
    requires Evolves(a, b) && Evolves(b, c)
    ensures Evolves(a, c)
  {
    forall k | k in a.sessions
      ensures k in c.sessions && Descends(a.sessions[k], c.sessions[k])
    {
      DescendsTransitive(a.sessions[k], b.sessions[k], c.sessions[k]);
    }
  }

  /** A terminal record is never rewritten, whatever happens to the store. */
  lemma TerminalIsFinal(a: SessionRecord, b: SessionRecord)
    requires Descends(a, b) && a.state.IsTerminal()
    ensures b == a
  {
    var trace :| IsTrace(trace) && trace[0] == a && Last(trace) == b;
    assert |trace| > 1 ==> IsStep(trace[0], trace[1]);
  }

  /** A transition to another state is exactly one step, to the state and time it names; otherwise it is none. */
  lemma TransitionLineage(a: SessionRecord, next: SessionState, atMs: U64)
    requires a.Transitioned(next, atMs).Ok?
    ensures var moved := a.Transitioned(next, atMs).value;
      && Descends(a, moved)
      && if a.state == next then moved == a
         else IsStep(a, moved) && moved.state == next && moved.updatedAtMs == atMs
  {
    DescendsReflexive(a);
    if a.state != next {
      assert IsTrace([a, a.Transitioned(next, atMs).value]);
    }
  }

  /** What `PerformEvolves` shows of every operation. */
  ghost predicate GoodEffect(data: StoreData, effect: Effect) {
    && WellFormed(effect.data)
    && Evolves(data, effect.data)
    && (if effect.wrote then Differs(data, effect.data) else effect.data == data)
  }

  /** One operation keeps the store well formed, only moves it forward, and writes exactly when it says so. */
  lemma PerformEvolves(data: StoreData, op: Operation)
    requires WellFormed(data)
    ensures GoodEffect(data, Perform(data, op))
  {
    match op
    case TransitionSession(scope, id, expectedRevision, next, atMs) =>
      TransitionEvolves(data, ScopedId(scope, id), expectedRevision, next, atMs);
    case InsertSession(session) => InsertEvolves(data, op);
    case InsertReservation(reservation) => InsertEvolves(data, op);
    case AppendOutbox(record) => AppendEvolves(data, record);
    case AcknowledgeOutbox(scope, id, atMs) => AcknowledgeEvolves(data, ScopedId(scope, id), atMs);
    case _ => EvolvesReflexive(data);
  }

  lemma InsertEvolves(data: StoreData, op: Operation)
    requires WellFormed(data) && (op.InsertSession? || op.InsertReservation?)
    ensures GoodEffect(data, Perform(data, op))
  {
    EvolvesReflexive(data);
    if Perform(data, op).wrote {
      if op.InsertSession? {
        assert SessionKey(op.session) in Perform(data, op).data.sessions;
      } else {
        assert ReservationKey(op.reservation) in Perform(data, op).data.reservations;
      }
    }
  }

  lemma TransitionEvolves(data: StoreData, key: ScopedId, expectedRevision: U64, next: SessionState, atMs: U64)
    requires WellFormed(data)
    ensures GoodEffect(data, PerformTransition(data, key, expectedRevision, next, atMs))
  {
    EvolvesReflexive(data);
    var effect := PerformTransition(data, key, expectedRevision, next, atMs);
    if effect.wrote {
      TransitionLineage(data.sessions[key], next, atMs);
      assert key in effect.data.sessions;
    }
  }

  lemma AppendEvolves(data: StoreData, record: OutboxRecord)
    requires WellFormed(data)
    ensures GoodEffect(data, Perform(data, AppendOutbox(record)))
  {
    EvolvesReflexive(data);
    var effect := Perform(data, AppendOutbox(record));
    if effect.wrote {
      assert OutboxKey(record) in effect.data.outbox;
    }
  }

  lemma AcknowledgeEvolves(data: StoreData, key: ScopedId, atMs: U64)
    requires WellFormed(data)
    ensures GoodEffect(data, PerformAcknowledge(data, key, atMs))
  {
    EvolvesReflexive(data);
    var effect := PerformAcknowledge(data, key, atMs);
    if effect.wrote {
      assert key in effect.data.outbox && data.outbox[key].IsPending() && !effect.data.outbox[key].IsPending();
    } else if key in data.outbox {
      assert data.outbox[key := data.outbox[key]] == data.outbox;
    }
  }

  /** A transaction's working copy only moves forward, and it is dirty exactly when it differs from its snapshot. */
  lemma {:induction false} RunCallsEvolves(shared: StoreData, ops: seq<Operation>)
    requires WellFormed(shared)
    ensures var txn := RunCalls(BeginTxn(shared), ops).0;
      && WellFormed(txn.working) && Evolves(shared, txn.working) && !txn.finalized
      && txn.baseGeneration == txn.working.generation == shared.generation
      && (if txn.dirty then Differs(shared, txn.working) else txn.working == shared)
  {
    if ops == [] {
      EvolvesReflexive(shared);
    } else {
      RunCallsEvolves(shared, DropLast(ops));
      var before := RunCalls(BeginTxn(shared), DropLast(ops)).0.working;
      PerformEvolves(before, Last(ops));
      PerformKeepsGeneration(before, Last(ops));
      EvolvesTransitive(shared, before, Perform(before, Last(ops)).data);
      if RunCalls(BeginTxn(shared), ops).0.dirty {
        DifferenceStays(shared, before, Perform(before, Last(ops)).data);
      }
    }
  }

  lemma PerformKeepsGeneration(data: StoreData, op: Operation)
    ensures Perform(data, op).data.generation == data.generation
  {
  }

  lemma DirtyMeansDifferent(shared: StoreData, ops: seq<Operation>)
    requires WellFormed(shared)
    ensures var txn := RunCalls(BeginTxn(shared), ops).0; txn.dirty <==> txn.working != shared
  {
    RunCallsEvolves(shared, ops);
  }

  lemma {:induction false} SerialStoreEvolves(programs: seq<seq<Operation>>, n: nat)
    requires n <= |programs|
    ensures WellFormed(SerialStore(programs)) && Evolves(SerialStore(programs[..n]), SerialStore(programs))
  {
    if programs == [] {
      EvolvesReflexive(EMPTY_STORE);
    } else {
      var init := DropLast(programs);
      SerialStoreEvolves(init, if n < |programs| then n else n - 1);
      RunCallsEvolves(SerialStore(init), Last(programs));
      CommitEvolves(SerialStore(init), Last(programs));
      if n < |programs| {
        assert init[..n] == programs[..n];
        EvolvesTransitive(SerialStore(programs[..n]), SerialStore(init), SerialStore(programs));
      } else {
        assert programs[..n] == programs;
        EvolvesReflexive(SerialStore(programs));
      }
    }
  }

  lemma CommitEvolves(shared: StoreData, ops: seq<Operation>)
    requires WellFormed(shared)
    ensures var after := CommitTxn(shared, RunCalls(BeginTxn(shared), ops).0).0;
      WellFormed(after) && Evolves(shared, after)
  {
    RunCallsEvolves(shared, ops);
    EvolvesReflexive(shared);
  }

  /** The serial history of a run is a prefix of the serial history of any longer run. */
  lemma {:induction false} HistoryGrows(run: seq<Action>, more: seq<Action>)
    ensures Programs(run, CommitOrder(run)) <= Programs(run + more, CommitOrder(run + more))
    decreases |more|
  {
    if more == [] {
      assert run + more == run;
    } else {
      var longer := run + more;
      assert DropLast(longer) == run + DropLast(more);
      HistoryGrows(run, DropLast(more));
      EveryRunIsSerial(DropLast(longer));
      var n := |CommitOrder(DropLast(longer))|;
      SamePrograms(longer, n);
      assert CommitOrder(DropLast(longer))[..n] == CommitOrder(DropLast(longer));
      assert Programs(longer, CommitOrder(longer)[..n]) <= Programs(longer, CommitOrder(longer));
    }
  }

  /**
   * Along every run the shared data only moves forward: sessions follow the state machine with one revision
   * per state change, reservations and outbox records are immutable, a first acknowledgement is permanent,
   * and the committed append order grows by suffix only.
   */
  lemma SharedEvolves(run: seq<Action>, more: seq<Action>)
    ensures WellFormed(After(run).shared)
    ensures Evolves(After(run).shared, After(run + more).shared)
  {
    EveryRunIsSerial(run);
    EveryRunIsSerial(run + more);
    HistoryGrows(run, more);
    var earlier := Programs(run, CommitOrder(run));
    var programs := Programs(run + more, CommitOrder(run + more));
    assert programs[..|earlier|] == earlier;
    SerialStoreEvolves(earlier, 0);
    SerialStoreEvolves(programs, |earlier|);
  }

  /** Every active transaction's working copy is well formed, continues its snapshot, and is dirty iff changed. */
  lemma WorkingEvolves(run: seq<Action>, id: TxnId)
    requires id in After(run).txns && !After(run).txns[id].finalized
    ensures var txn := After(run).txns[id];
      && txn.baseGeneration <= |CommitOrder(run)|
      && var snapshot := SerialStore(Programs(run, CommitOrder(run)[..txn.baseGeneration]));
      && WellFormed(txn.working) && Evolves(snapshot, txn.working)
      && (txn.dirty <==> txn.working != snapshot)
  {
    EveryRunIsSerial(run);
    assert TxnIsSerial(run, id);
    var programs := Programs(run, CommitOrder(run)[..After(run).txns[id].baseGeneration]);
    SerialStoreEvolves(programs, 0);
    RunCallsEvolves(SerialStore(programs), Operations(Script(run, id)));
  }

  /** The transaction is open in the longer run and began after the shorter one. */
  ghost predicate BegunSince(run: seq<Action>, more: seq<Action>, id: TxnId) {
    id !in After(run).txns && id in After(run + more).txns && !After(run + more).txns[id].finalized
  }

  /** A transaction that begins after a run starts from that run's generation or a later one. */
  lemma {:induction false} BeginsLater(run: seq<Action>, more: seq<Action>, id: TxnId)
    requires id !in After(run).txns && id in After(run + more).txns
    ensures After(run + more).txns[id].baseGeneration >= |CommitOrder(run)|
    decreases |more|
  {
    assert more == [] ==> run + more == run;
    var longer := run + more;
    assert DropLast(longer) == run + DropLast(more);
    if id in After(DropLast(longer)).txns {
      BeginsLater(run, DropLast(more), id);
    } else {
      EveryRunIsSerial(DropLast(longer));
      CommitOrderGrows(run, DropLast(more));
    }
  }

  /** What was shared at the end of a run evolves into the snapshot of every generation from then on. */
  lemma SnapshotEvolves(run: seq<Action>, more: seq<Action>, base: nat)
    requires |CommitOrder(run)| <= base <= |CommitOrder(run + more)|
    ensures Evolves(After(run).shared, SerialStore(Programs(run + more, CommitOrder(run + more)[..base])))
  {
    EveryRunIsSerial(run);
    HistoryGrows(run, more);
    var earlier, order := Programs(run, CommitOrder(run)), CommitOrder(run + more);
    var programs := Programs(run + more, order[..base]);
    assert programs == Programs(run + more, order)[..base];
    assert programs[..|earlier|] == earlier;
    SerialStoreEvolves(programs, |earlier|);
  }

  /** An open transaction begun since a run works on data that continues what was shared at the end of the run. */
  lemma LaterWorkEvolves(run: seq<Action>, more: seq<Action>, id: TxnId)
    requires BegunSince(run, more, id)
    ensures var working := After(run + more).txns[id].working;
      WellFormed(working) && Evolves(After(run).shared, working)
  {
    var longer := run + more;
    var base := After(longer).txns[id].baseGeneration;
    BeginsLater(run, more, id);
    WorkingEvolves(longer, id);
    SnapshotEvolves(run, more, base);
    var snapshot := SerialStore(Programs(longer, CommitOrder(longer)[..base]));
    EvolvesTransitive(After(run).shared, snapshot, After(longer).txns[id].working);
  }
}
