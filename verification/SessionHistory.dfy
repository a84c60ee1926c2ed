/** Where a stored session comes from, and what a completed one must have gone through. */
module SessionHistory {
  import opened Wrappers
  import opened SessionLifecycle
  import opened StateModel
  import opened DurableStore
  import opened SerialEquivalence
  import opened StoreHistory

  /** One of the programs holds the operation. */
  ghost predicate Asked(programs: seq<seq<Operation>>, op: Operation) {
    exists i :: 0 <= i < |programs| && op in programs[i]
  }

  // ----- the records a key has held -----

  /** The trace with what is found under the key now, unless that is what it ends in already. */
  function Seen(trace: seq<SessionRecord>, found: Option<SessionRecord>): seq<SessionRecord> {
    if found.None? || (trace != [] && Last(trace) == found.value) then trace else trace + [found.value]
  }

  /** The records found under a key after each operation of one transaction, after those seen before it. */
  function CallTrace(
      earlier: seq<SessionRecord>, shared: StoreData, ops: seq<Operation>, key: ScopedId): seq<SessionRecord>
  {
    if ops == [] then
      earlier
    else
      Seen(
        CallTrace(earlier, shared, DropLast(ops), key),
        Lookup(RunCalls(BeginTxn(shared), ops).0.working.sessions, key))
  }

  /** The records a key holds, one after another, as the programs are replayed operation by operation. */
  function ProgramTrace(programs: seq<seq<Operation>>, key: ScopedId): seq<SessionRecord> {
    if programs == [] then
      []
    else
      var before := DropLast(programs);
      CallTrace(ProgramTrace(before, key), SerialStore(before), Last(programs), key)
  }

  /** The records a key has held in the committed transactions of a run. */
  function TraceOf(run: seq<Action>, key: ScopedId): seq<SessionRecord> {
    ProgramTrace(Programs(run, CommitOrder(run)), key)
  }

  // ----- what they are -----

  /** The call that makes the step from `a` to `b`. */
  function StepCall(key: ScopedId, a: SessionRecord, b: SessionRecord): Operation {
    TransitionSession(key.scope, key.id, a.revision, b.state, b.updatedAtMs)
  }

  /** The first record was inserted, and every other one is one step that a call of the programs asked for. */
  ghost predicate IsExplained(programs: seq<seq<Operation>>, trace: seq<SessionRecord>, key: ScopedId) {
    && (trace != [] ==> SessionKey(trace[0]) == key && Asked(programs, InsertSession(trace[0])))
    && forall i :: 0 <= i < |trace| - 1 ==>
         IsStep(trace[i], trace[i + 1]) && Asked(programs, StepCall(key, trace[i], trace[i + 1]))
  }

  predicate EndsAt(trace: seq<SessionRecord>, found: Option<SessionRecord>) {
    if trace == [] then found.None? else found == Some(Last(trace))
  }

  /** One operation leaves a session alone, inserts it, or makes the one step it asks for. */
  lemma PerformStep(data: StoreData, op: Operation, key: ScopedId)
    requires WellFormed(data)
    ensures var before, after := Lookup(data.sessions, key), Lookup(Perform(data, op).data.sessions, key);
      || after == before
      || (after.Some? && before.None? && op == InsertSession(after.value) && SessionKey(after.value) == key)
      || (&& after.Some? && before.Some?
          && IsStep(before.value, after.value) && op == StepCall(key, before.value, after.value))
  {
    if op.TransitionSession? {
      var at := ScopedId(op.scope, op.id);
      if at in data.sessions && data.sessions[at].Transitioned(op.next, op.atMs).Ok? {
        TransitionLineage(data.sessions[at], op.next, op.atMs);
      }
    }
  }

  lemma AskedInLonger(programs: seq<seq<Operation>>, ops: seq<Operation>, op: Operation, asked: Operation)
    requires Asked(programs + [ops], asked)
    ensures Asked(programs + [ops + [op]], asked)
  {
    var shorter, longer := programs + [ops], programs + [ops + [op]];
    var i :| 0 <= i < |shorter| && asked in shorter[i];
    assert asked in longer[i];
  }

  lemma ExplainedInLonger(
      programs: seq<seq<Operation>>, ops: seq<Operation>, op: Operation, trace: seq<SessionRecord>, key: ScopedId)
    requires IsExplained(programs + [ops], trace, key)
    ensures IsExplained(programs + [ops + [op]], trace, key)
  {
    if trace != [] {
      AskedInLonger(programs, ops, op, InsertSession(trace[0]));
    }
    forall i | 0 <= i < |trace| - 1
      ensures Asked(programs + [ops + [op]], StepCall(key, trace[i], trace[i + 1]))
    {
      AskedInLonger(programs, ops, op, StepCall(key, trace[i], trace[i + 1]));
    }
  }

  /** What one more operation makes of a trace. */
  lemma SeenIsExplained(
      programs: seq<seq<Operation>>, ops: seq<Operation>, op: Operation,
      trace: seq<SessionRecord>, key: ScopedId, data: StoreData)
    requires WellFormed(data) && IsExplained(programs + [ops], trace, key)
    requires EndsAt(trace, Lookup(data.sessions, key))
    ensures var found := Lookup(Perform(data, op).data.sessions, key);
      && IsExplained(programs + [ops + [op]], Seen(trace, found), key)
      && EndsAt(Seen(trace, found), found)
  {
    var longer := programs + [ops + [op]];
    ExplainedInLonger(programs, ops, op, trace, key);
    PerformStep(data, op, key);
    assert longer[|programs|] == ops + [op] && op in longer[|programs|];
    assert Asked(longer, op);
  }

  lemma LastCall(shared: StoreData, ops: seq<Operation>)
    requires WellFormed(shared) && ops != []
    ensures var before := RunCalls(BeginTxn(shared), DropLast(ops)).0.working;
      && WellFormed(before)
      && RunCalls(BeginTxn(shared), ops).0.working == Perform(before, Last(ops)).data
  {
    RunCallsEvolves(shared, DropLast(ops));
  }

  lemma {:induction false} CallTraceIsExplained(
      programs: seq<seq<Operation>>, earlier: seq<SessionRecord>, shared: StoreData, ops: seq<Operation>,
      key: ScopedId)
    requires WellFormed(shared)
    requires IsExplained(programs, earlier, key) && EndsAt(earlier, Lookup(shared.sessions, key))
    ensures var trace := CallTrace(earlier, shared, ops, key);
      && IsExplained(programs + [ops], trace, key)
      && EndsAt(trace, Lookup(RunCalls(BeginTxn(shared), ops).0.working.sessions, key))
    decreases |ops|
  {
    if ops == [] {
      StillExplained(programs, earlier, key);
    } else {
      var init := DropLast(ops);
      CallTraceIsExplained(programs, earlier, shared, init, key);
      LastCall(shared, ops);
      var trace := CallTrace(earlier, shared, init, key);
      SeenIsExplained(programs, init, Last(ops), trace, key, RunCalls(BeginTxn(shared), init).0.working);
      assert init + [Last(ops)] == ops;
    }
  }

  lemma StillExplained(programs: seq<seq<Operation>>, trace: seq<SessionRecord>, key: ScopedId)
    requires IsExplained(programs, trace, key)
    ensures IsExplained(programs + [[]], trace, key)
  {
    var longer := programs + [[]];
    forall op | Asked(programs, op)
      ensures Asked(longer, op)
    {
      var i :| 0 <= i < |programs| && op in programs[i];
      assert op in longer[i];
    }
  }

  /** Fewer programs than generations: every dirty one commits. */
  lemma {:induction false} SerialSessions(programs: seq<seq<Operation>>)
    requires |programs| <= U64_MAX
    ensures SerialStore(programs).generation <= |programs|
    ensures programs != [] ==>
      SerialStore(programs).sessions
      == RunCalls(BeginTxn(SerialStore(DropLast(programs))), Last(programs)).0.working.sessions
  {
    if programs != [] {
      SerialSessions(DropLast(programs));
      SerialStoreEvolves(DropLast(programs), 0);
      RunCallsEvolves(SerialStore(DropLast(programs)), Last(programs));
    }
  }

  lemma {:induction false} ProgramTraceIsExplained(programs: seq<seq<Operation>>, key: ScopedId)
    requires |programs| <= U64_MAX
    ensures IsExplained(programs, ProgramTrace(programs, key), key)
    ensures EndsAt(ProgramTrace(programs, key), Lookup(SerialStore(programs).sessions, key))
  {
    if programs != [] {
      var init := DropLast(programs);
      ProgramTraceIsExplained(init, key);
      SerialStoreEvolves(init, 0);
      SerialSessions(programs);
      CallTraceIsExplained(init, ProgramTrace(init, key), SerialStore(init), Last(programs), key);
      assert init + [Last(programs)] == programs;
    }
  }

  lemma {:induction false} TraceOrder(trace: seq<SessionRecord>, i: nat, j: nat)
    requires IsTrace(trace) && i <= j < |trace|
    ensures trace[i].updatedAtMs <= trace[j].updatedAtMs && trace[i].SameIdentity(trace[j])
    ensures trace[j].revision == trace[i].revision + (j - i)
    decreases j
  {
    if i < j {
      TraceOrder(trace, i, j - 1);
      assert IsStep(trace[j - 1], trace[j]);
    }
  }

  /** The records are a path of states that ends in `record`, with identity kept and revision and time in order. */
  ghost predicate IsLineage(trace: seq<SessionRecord>, record: SessionRecord) {
    && IsTrace(trace) && Last(trace) == record
    && IsPath(States(trace))
    && record.revision == trace[0].revision + |trace| - 1
    && forall i: nat, j: nat :: i <= j < |trace| ==>
         trace[i].updatedAtMs <= trace[j].updatedAtMs && trace[i].SameIdentity(trace[j])
  }

  lemma ExplainedIsLineage(
      programs: seq<seq<Operation>>, trace: seq<SessionRecord>, key: ScopedId, record: SessionRecord)
    requires IsExplained(programs, trace, key) && EndsAt(trace, Some(record))
    ensures IsLineage(trace, record)
  {
    TraceCounts(trace);
    forall i: nat, j: nat | i <= j < |trace|
      ensures trace[i].updatedAtMs <= trace[j].updatedAtMs && trace[i].SameIdentity(trace[j])
    {
      TraceOrder(trace, i, j);
    }
  }

  /**
   * The session law of every run: the records a key has held are one inserted by a committed transaction and
   * then, one by one, what its transition calls made of the record before; the shared data holds the last of
   * them. So the states are a path, the revision counts the changes since the insert, identity never changes
   * and the update time never goes back.
   */
  lemma EverySessionHasALineage(run: seq<Action>, key: ScopedId)
    ensures IsExplained(Programs(run, CommitOrder(run)), TraceOf(run, key), key)
    ensures EndsAt(TraceOf(run, key), Lookup(After(run).shared.sessions, key))
    ensures key in After(run).shared.sessions ==> IsLineage(TraceOf(run, key), After(run).shared.sessions[key])
  {
    EveryRunIsSerial(run);
    var programs := Programs(run, CommitOrder(run));
    ProgramTraceIsExplained(programs, key);
    if key in After(run).shared.sessions {
      ExplainedIsLineage(programs, TraceOf(run, key), key, After(run).shared.sessions[key]);
    }
  }

  /** The same in a transaction still open: what it has seen of a key since its begin continues the committed trace. */
  lemma EveryWorkingSessionHasALineage(run: seq<Action>, id: TxnId, key: ScopedId)
    requires id in After(run).txns && !After(run).txns[id].finalized
    ensures var txn := After(run).txns[id];
      && txn.baseGeneration <= |CommitOrder(run)|
      && var programs := Programs(run, CommitOrder(run)[..txn.baseGeneration]);
         var ops := Operations(Script(run, id));
         var trace := CallTrace(ProgramTrace(programs, key), SerialStore(programs), ops, key);
      && IsExplained(programs + [ops], trace, key)
      && EndsAt(trace, Lookup(txn.working.sessions, key))
  {
    EveryRunIsSerial(run);
    assert TxnIsSerial(run, id);
    var programs := Programs(run, CommitOrder(run)[..After(run).txns[id].baseGeneration]);
    ProgramTraceIsExplained(programs, key);
    SerialStoreEvolves(programs, 0);
    CallTraceIsExplained(
      programs, ProgramTrace(programs, key), SerialStore(programs), Operations(Script(run, id)), key);
  }

  // ----- traces only grow -----

  lemma {:induction false} CallTraceGrows(
      earlier: seq<SessionRecord>, shared: StoreData, ops: seq<Operation>, key: ScopedId)
    ensures earlier <= CallTrace(earlier, shared, ops, key)
    decreases |ops|
  {
    if ops != [] {
      CallTraceGrows(earlier, shared, DropLast(ops), key);
    }
  }

  lemma {:induction false} ProgramTraceGrows(programs: seq<seq<Operation>>, n: nat, key: ScopedId)
    requires n <= |programs|
    ensures ProgramTrace(programs[..n], key) <= ProgramTrace(programs, key)
    decreases |programs|
  {
    if n == |programs| {
      assert programs[..n] == programs;
    } else {
      var init := DropLast(programs);
      assert init[..n] == programs[..n];
      ProgramTraceGrows(init, n, key);
      CallTraceGrows(ProgramTrace(init, key), SerialStore(init), Last(programs), key);
    }
  }

  /** A continuation of a run only adds to what a key has held. */
  lemma TraceGrows(run: seq<Action>, more: seq<Action>, key: ScopedId)
    ensures TraceOf(run, key) <= TraceOf(run + more, key)
  {
    HistoryGrows(run, more);
    var earlier, programs := Programs(run, CommitOrder(run)), Programs(run + more, CommitOrder(run + more));
    assert programs[..|earlier|] == earlier;
    ProgramTraceGrows(programs, |earlier|, key);
  }

  // ----- completed sessions -----

  /**
   * A session inserted as Created at revision 0 and Completed after the steps of its trace went through
   * Authorized, Routing, Leased, Connecting, Active and Draining in that order, with as many excursions from
   * Active as its trace has Retrying records, and its revision is 7 plus two for each of them.
   */
  lemma CompletedSession(trace: seq<SessionRecord>)
    requires IsTrace(trace)
    requires trace[0].state.Created? && trace[0].revision == 0 && Last(trace).state.Completed?
    ensures States(trace) == CompletionPath(CountRetrying(States(trace)))
    ensures Last(trace).revision == 7 + 2 * CountRetrying(States(trace))
  {
    TraceCounts(trace);
    CreatedToCompleted(States(trace));
  }

  /** The same, for a session of any run whose inserted record is Created at 0. */
  lemma CompletedSessionOfRun(run: seq<Action>, key: ScopedId)
    requires key in After(run).shared.sessions && After(run).shared.sessions[key].state.Completed?
    requires TraceOf(run, key) != [] ==> TraceOf(run, key)[0].state.Created? && TraceOf(run, key)[0].revision == 0
    ensures var states := States(TraceOf(run, key));
      && states == CompletionPath(CountRetrying(states))
      && After(run).shared.sessions[key].revision == 7 + 2 * CountRetrying(states)
  {
    EverySessionHasALineage(run, key);
    CompletedSession(TraceOf(run, key));
  }

  /** And whatever has become of it, such a session has kept to one of the courses of the state machine. */
  lemma SessionOfRunIsOnCourse(run: seq<Action>, key: ScopedId)
    requires key in After(run).shared.sessions
    requires TraceOf(run, key) != [] ==> TraceOf(run, key)[0].state.Created?
    ensures exists n, ending :: IsCourse(States(TraceOf(run, key)), n, ending)
  {
    EverySessionHasALineage(run, key);
    TraceCounts(TraceOf(run, key));
    PathsFromCreated(States(TraceOf(run, key)));
  }

  /** Once a shared session is terminal, no later point of the run holds anything else under its key. */
  lemma TerminalForever(run: seq<Action>, more: seq<Action>, key: ScopedId)
    requires key in After(run).shared.sessions && After(run).shared.sessions[key].state.IsTerminal()
    ensures key in After(run + more).shared.sessions
    ensures After(run + more).shared.sessions[key] == After(run).shared.sessions[key]
  {
    SharedEvolves(run, more);
    TerminalIsFinal(After(run).shared.sessions[key], After(run + more).shared.sessions[key]);
  }

  /**
   * Optimistic revisions: once a transition that expected revision `r` has changed a session, no later call
   * expecting `r` changes it again; it is answered with the record when it asks for the state reached, which
   * makes a retry idempotent, and with a conflict otherwise.
   */
  lemma RevisionIsSpentOnce(
      data: StoreData, key: ScopedId, r: U64, next: SessionState, atMs: U64,
      later: StoreData, retry: SessionState, retryAtMs: U64)
    requires PerformTransition(data, key, r, next, atMs).wrote
    requires Evolves(PerformTransition(data, key, r, next, atMs).data, later)
    ensures key in later.sessions && later.sessions[key].revision > r
    ensures PerformTransition(later, key, r, retry, retryAtMs)
         == Effect(
              later,
              if later.sessions[key].state == retry then SessionIs(later.sessions[key])
              else Rejected(Conflict(SessionEntity)),
              false)
  {
    DescendantIsLater(PerformTransition(data, key, r, next, atMs).data.sessions[key], later.sessions[key]);
  }

  /**
   * Inserting is once per key: in every later store the session is there and descends from the one inserted, and
   * inserting under its key again changes nothing, being Unchanged exactly for the record stored then.
   */
  lemma InsertedOnce(data: StoreData, session: SessionRecord, later: StoreData, again: SessionRecord)
    requires Perform(data, InsertSession(session)).reply.Mutated?
    requires Evolves(Perform(data, InsertSession(session)).data, later)
    requires SessionKey(again) == SessionKey(session)
    ensures var key := SessionKey(session);
      && key in later.sessions && Descends(session, later.sessions[key])
      && Perform(later, ReadSession(key.scope, key.id)).reply == SessionFound(Some(later.sessions[key]))
      && Perform(later, InsertSession(again)) == Effect(
           later,
           if again == later.sessions[key] then Mutated(Unchanged) else Rejected(Conflict(SessionEntity)),
           false)
  {
    var key := SessionKey(session);
    assert Descends(Perform(data, InsertSession(session)).data.sessions[key], later.sessions[key]);
  }

  /** A reservation is never changed: later stores return it, and refuse any other one under its key. */
  lemma ReservedOnce(data: StoreData, reservation: ReservationRecord, later: StoreData, again: ReservationRecord)
    requires Perform(data, InsertReservation(reservation)).reply.Mutated?
    requires Evolves(Perform(data, InsertReservation(reservation)).data, later)
    requires ReservationKey(again) == ReservationKey(reservation)
    ensures var key := ReservationKey(reservation);
      && Perform(later, ReadReservation(key.scope, key.id)).reply == ReservationFound(Some(reservation))
      && Perform(later, InsertReservation(again)) == Effect(
           later,
           if again == reservation then Mutated(Unchanged) else Rejected(Conflict(ReservationEntity)),
           false)
  {
    var key := ReservationKey(reservation);
    assert key in Perform(data, InsertReservation(reservation)).data.reservations;
  }

  // ----- in every later transaction of a run -----

  /** A shared session's past revisions are spent for every transaction that begins later. */
  lemma RevisionStaysSpent(
      run: seq<Action>, more: seq<Action>, id: TxnId, key: ScopedId, r: U64, retry: SessionState, atMs: U64)
    requires key in After(run).shared.sessions && r < After(run).shared.sessions[key].revision
    requires BegunSince(run, more, id)
    ensures var txn := After(run + more).txns[id];
      && key in txn.working.sessions
      && CallTxn(txn, TransitionSession(key.scope, key.id, r, retry, atMs)) == (
           txn,
           if txn.working.sessions[key].state == retry then SessionIs(txn.working.sessions[key])
           else Rejected(Conflict(SessionEntity)))
  {
    LaterWorkEvolves(run, more, id);
    DescendantIsLater(After(run).shared.sessions[key], After(run + more).txns[id].working.sessions[key]);
    assert key == ScopedId(key.scope, key.id);
  }

  /** A shared session is there for every transaction that begins later, as a descendant that no insert replaces. */
  lemma SessionStaysInserted(
      run: seq<Action>, more: seq<Action>, id: TxnId, key: ScopedId, again: SessionRecord)
    requires key in After(run).shared.sessions && SessionKey(again) == key && BegunSince(run, more, id)
    ensures var txn := After(run + more).txns[id];
      && key in txn.working.sessions
      && Descends(After(run).shared.sessions[key], txn.working.sessions[key])
      && CallTxn(txn, ReadSession(key.scope, key.id)) == (txn, SessionFound(Some(txn.working.sessions[key])))
      && CallTxn(txn, InsertSession(again)) == (
           txn,
           if again == txn.working.sessions[key] then Mutated(Unchanged) else Rejected(Conflict(SessionEntity)))
  {
    LaterWorkEvolves(run, more, id);
    assert key == ScopedId(key.scope, key.id);
  }

  /** A shared reservation is found as it is by every transaction that begins later, and no insert replaces it. */
  lemma ReservationStays(
      run: seq<Action>, more: seq<Action>, id: TxnId, key: ScopedId, again: ReservationRecord)
    requires key in After(run).shared.reservations && ReservationKey(again) == key && BegunSince(run, more, id)
    ensures var txn, stored := After(run + more).txns[id], After(run).shared.reservations[key];
      && CallTxn(txn, ReadReservation(key.scope, key.id)) == (txn, ReservationFound(Some(stored)))
      && CallTxn(txn, InsertReservation(again)) == (
           txn, if again == stored then Mutated(Unchanged) else Rejected(Conflict(ReservationEntity)))
  {
    LaterWorkEvolves(run, more, id);
    assert key == ScopedId(key.scope, key.id);
  }
}
