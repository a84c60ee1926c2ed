/**
 * Any number of transactions over one shared store, interleaved arbitrarily, and the proof that every run
 * is equivalent to running the committed transactions one after another.
 */
module SerialEquivalence {
  import opened DurableStore

  type TxnId = nat

  datatype Action =
    | Begin(id: TxnId)
    | Call(id: TxnId, op: Operation)
    | Commit(id: TxnId)
    | Rollback(id: TxnId)

  datatype System = System(shared: StoreData, txns: map<TxnId, Txn>)

  /** A handle exists from its begin on; actions that name no handle, or begin one twice, are skipped. */
  predicate Enabled(sys: System, action: Action) {
    if action.Begin? then action.id !in sys.txns else action.id in sys.txns
  }

  function Step(sys: System, action: Action): (System, Reply)
    requires Enabled(sys, action)
  {
    match action
    case Begin(id) =>
      (sys.(txns := sys.txns[id := BeginTxn(sys.shared)]), Finished)
    case Call(id, op) =>
      var (txn, reply) := CallTxn(sys.txns[id], op);
      (sys.(txns := sys.txns[id := txn]), reply)
    case Commit(id) =>
      var (shared, txn, reply) := CommitTxn(sys.shared, sys.txns[id]);
      (System(shared, sys.txns[id := txn]), reply)
    case Rollback(id) =>
      var (txn, reply) := RollbackTxn(sys.txns[id]);
      (sys.(txns := sys.txns[id := txn]), reply)
  }

  function Last<T>(s: seq<T>): T
    requires s != []
  {
    s[|s| - 1]
  }

  function DropLast<T>(s: seq<T>): seq<T>
    requires s != []
  {
    s[..|s| - 1]
  }

  function After(run: seq<Action>): System {
    if run == [] then
      System(EMPTY_STORE, map[])
    else
      var sys := After(DropLast(run));
      if Enabled(sys, Last(run)) then Step(sys, Last(run)).0 else sys
  }

  datatype Answered = Answered(op: Operation, reply: Reply)

  /** The operations transaction `id` got answered while it was active, with the replies of this run. */
  function Script(run: seq<Action>, id: TxnId): seq<Answered> {
    if run == [] then
      []
    else
      var sys := After(DropLast(run));
      var action := Last(run);
      if action.Call? && action.id == id && Enabled(sys, action) && !sys.txns[id].finalized then
        Script(DropLast(run), id) + [Answered(action.op, Step(sys, action).1)]
      else
        Script(DropLast(run), id)
  }

  /** The transactions whose dirty commits succeeded, in commit order. */
  function CommitOrder(run: seq<Action>): seq<TxnId> {
    if run == [] then
      []
    else
      var sys := After(DropLast(run));
      var action := Last(run);
      if action.Commit? && Enabled(sys, action) && sys.txns[action.id].dirty && Step(sys, action).1 == Finished then
        CommitOrder(DropLast(run)) + [action.id]
      else
        CommitOrder(DropLast(run))
  }

  function Operations(script: seq<Answered>): seq<Operation> {
    seq(|script|, i requires 0 <= i < |script| => script[i].op)
  }

  function Replies(script: seq<Answered>): seq<Reply> {
    seq(|script|, i requires 0 <= i < |script| => script[i].reply)
  }

  /** The operations of the given transactions, one sequence per transaction. */
  function Programs(run: seq<Action>, ids: seq<TxnId>): seq<seq<Operation>> {
    seq(|ids|, i requires 0 <= i < |ids| => Operations(Script(run, ids[i])))
  }

  /** One transaction run with nobody else around: its final state and its replies. */
  function RunCalls(txn: Txn, ops: seq<Operation>): (Txn, seq<Reply>) {
    if ops == [] then
      (txn, [])
    else
      var (before, replies) := RunCalls(txn, DropLast(ops));
      var (after, reply) := CallTxn(before, Last(ops));
      (after, replies + [reply])
  }

  /** Begin, all calls, commit: one transaction after another from the empty store. */
  function SerialStore(programs: seq<seq<Operation>>): StoreData {
    if programs == [] then
      EMPTY_STORE
    else
      var before := SerialStore(DropLast(programs));
      CommitTxn(before, RunCalls(BeginTxn(before), Last(programs)).0).0
  }

  /** What transaction `id` would have done alone, started after the first `at` committed transactions. */
  function Alone(run: seq<Action>, id: TxnId, at: nat): (Txn, seq<Reply>)
    requires at <= |CommitOrder(run)|
  {
    RunCalls(BeginTxn(SerialStore(Programs(run, CommitOrder(run)[..at]))), Operations(Script(run, id)))
  }

  ghost predicate TxnIsSerial(run: seq<Action>, id: TxnId)
    requires id in After(run).txns
  {
    var txn := After(run).txns[id];
    && txn.baseGeneration <= |CommitOrder(run)|
    && var (alone, replies) := Alone(run, id, txn.baseGeneration);
    && replies == Replies(Script(run, id))
    && (!txn.finalized ==> txn == alone)
  }

  ghost predicate CommittedInOrder(run: seq<Action>) {
    forall i :: 0 <= i < |CommitOrder(run)| ==>
      var id := CommitOrder(run)[i];
      id in After(run).txns && After(run).txns[id].baseGeneration == i && After(run).txns[id].finalized
  }

  /**
   * Every interleaving of begins, operations, commits and rollbacks is equivalent to a serial execution:
   * the shared data is what the committed dirty transactions leave when run alone in commit order from the
   * empty store; the i-th of them began at generation i, so it sees exactly the ones before it; the
   * generation counts them; and every transaction, committed or not, got the replies it would have got
   * alone when started at its begin.
   */
  lemma {:induction false} EveryRunIsSerial(run: seq<Action>)
    ensures After(run).shared == SerialStore(Programs(run, CommitOrder(run)))
    ensures After(run).shared.generation == |CommitOrder(run)|
    ensures CommittedInOrder(run)
    ensures forall id :: id in After(run).txns ==> TxnIsSerial(run, id)
  {
    if run != [] {
      var before := DropLast(run);
      EveryRunIsSerial(before);
      var action := Last(run);
      ScriptsOfOthers(run);
      if Enabled(After(before), action) {
        match action
        case Begin(id) => SerialBegin(run);
        case Call(id, op) => SerialCall(run);
        case Commit(id) => SerialCommit(run);
        case Rollback(id) => SerialUnchanged(run);
      } else {
        SerialUnchanged(run);
      }
    }
  }

  /** One more action leaves every script alone except the one of an active caller; unknown handles have none. */
  lemma {:induction false} ScriptsOfOthers(run: seq<Action>)
    requires run != []
    ensures forall id :: !(Last(run).Call? && Last(run).id == id) ==> Script(run, id) == Script(DropLast(run), id)
    ensures forall id :: id in After(DropLast(run)).txns && After(DropLast(run)).txns[id].finalized ==>
      Script(run, id) == Script(DropLast(run), id)
    ensures forall id :: id !in After(run).txns ==> Script(run, id) == []
  {
    if |run| > 1 {
      ScriptsOfOthers(DropLast(run));
    }
  }

  lemma SamePrograms(run: seq<Action>, n: nat)
    requires run != [] && CommittedInOrder(DropLast(run)) && n <= |CommitOrder(DropLast(run))|
    ensures n <= |CommitOrder(run)| && CommitOrder(run)[..n] == CommitOrder(DropLast(run))[..n]
    ensures Programs(run, CommitOrder(run)[..n]) == Programs(DropLast(run), CommitOrder(DropLast(run))[..n])
  {
    ScriptsOfOthers(run);
    var order := CommitOrder(DropLast(run));
    assert CommitOrder(run)[..n] == order[..n];
    forall i | 0 <= i < n
      ensures Script(run, order[i]) == Script(DropLast(run), order[i])
    {
    }
  }

  /** A transaction whose state and script the last action did not touch stays serial. */
  lemma StillSerial(run: seq<Action>, id: TxnId)
    requires run != [] && CommittedInOrder(DropLast(run))
    requires id in After(DropLast(run)).txns && TxnIsSerial(DropLast(run), id)
    requires id in After(run).txns && Script(run, id) == Script(DropLast(run), id)
    requires After(run).txns[id].baseGeneration == After(DropLast(run)).txns[id].baseGeneration
    requires After(run).txns[id].finalized || After(run).txns[id] == After(DropLast(run)).txns[id]
    ensures TxnIsSerial(run, id)
  {
    SamePrograms(run, After(run).txns[id].baseGeneration);
  }

  ghost predicate SerialBefore(run: seq<Action>) {
    && run != []
    && After(DropLast(run)).shared == SerialStore(Programs(DropLast(run), CommitOrder(DropLast(run))))
    && After(DropLast(run)).shared.generation == |CommitOrder(DropLast(run))|
    && CommittedInOrder(DropLast(run))
    && forall id :: id in After(DropLast(run)).txns ==> TxnIsSerial(DropLast(run), id)
  }

  ghost predicate SerialNow(run: seq<Action>) {
    && After(run).shared == SerialStore(Programs(run, CommitOrder(run)))
    && After(run).shared.generation == |CommitOrder(run)|
    && CommittedInOrder(run)
    && forall id :: id in After(run).txns ==> TxnIsSerial(run, id)
  }

  lemma SharedUnchanged(run: seq<Action>)
    requires SerialBefore(run)
    requires CommitOrder(run) == CommitOrder(DropLast(run)) && After(run).shared == After(DropLast(run)).shared
    ensures After(run).shared == SerialStore(Programs(run, CommitOrder(run)))
  {
    SamePrograms(run, |CommitOrder(run)|);
    assert CommitOrder(run)[..|CommitOrder(run)|] == CommitOrder(run);
  }

  lemma SerialUnchanged(run: seq<Action>)
    requires SerialBefore(run)
    requires Last(run).Rollback? || !Enabled(After(DropLast(run)), Last(run))
    ensures SerialNow(run)
  {
    ScriptsOfOthers(run);
    SharedUnchanged(run);
    forall id | id in After(run).txns
      ensures TxnIsSerial(run, id)
    {
      StillSerial(run, id);
    }
  }

  lemma SerialBegin(run: seq<Action>)
    requires SerialBefore(run) && Last(run).Begin? && Enabled(After(DropLast(run)), Last(run))
    ensures SerialNow(run)
  {
    ScriptsOfOthers(run);
    SharedUnchanged(run);
    forall id | id in After(run).txns
      ensures TxnIsSerial(run, id)
    {
      if id == Last(run).id {
        NoScriptYet(DropLast(run), id);
        assert CommitOrder(run)[..|CommitOrder(run)|] == CommitOrder(run);
      } else {
        StillSerial(run, id);
      }
    }
  }

  lemma NoScriptYet(run: seq<Action>, id: TxnId)
    requires id !in After(run).txns
    ensures Script(run, id) == []
  {
    if run != [] {
      ScriptsOfOthers(run);
    }
  }

  /** What a call step does: only the caller's own transaction changes. */
  lemma CallCases(run: seq<Action>)
    requires run != [] && Last(run).Call? && Enabled(After(DropLast(run)), Last(run))
    ensures CommitOrder(run) == CommitOrder(DropLast(run)) && After(run).shared == After(DropLast(run)).shared
    ensures After(run).txns.Keys == After(DropLast(run)).txns.Keys
    ensures forall id :: id in After(run).txns && id != Last(run).id ==>
      After(run).txns[id] == After(DropLast(run)).txns[id]
    ensures var txn := After(DropLast(run)).txns[Last(run).id];
      && After(run).txns[Last(run).id] == CallTxn(txn, Last(run).op).0
      && Script(run, Last(run).id)
         == Script(DropLast(run), Last(run).id)
            + (if txn.finalized then [] else [Answered(Last(run).op, CallTxn(txn, Last(run).op).1)])
  {
  }

  lemma ScriptGrows(script: seq<Answered>, last: Answered)
    ensures Operations(script + [last]) == Operations(script) + [last.op]
    ensures Replies(script + [last]) == Replies(script) + [last.reply]
  {
  }

  lemma RunOneMore(txn: Txn, ops: seq<Operation>, op: Operation)
    ensures var (before, replies) := RunCalls(txn, ops);
      var (after, reply) := CallTxn(before, op);
      RunCalls(txn, ops + [op]) == (after, replies + [reply])
  {
    assert DropLast(ops + [op]) == ops;
  }

  lemma CallerIsSerial(run: seq<Action>)
    requires SerialBefore(run) && Last(run).Call? && Enabled(After(DropLast(run)), Last(run))
    requires !After(DropLast(run)).txns[Last(run).id].finalized
    ensures Last(run).id in After(run).txns && TxnIsSerial(run, Last(run).id)
  {
    CallCases(run);
    var id, op := Last(run).id, Last(run).op;
    var before := After(DropLast(run)).txns[id];
    assert TxnIsSerial(DropLast(run), id);
    SamePrograms(run, before.baseGeneration);
    var script := Script(DropLast(run), id);
    ScriptGrows(script, Answered(op, CallTxn(before, op).1));
    var base := BeginTxn(SerialStore(Programs(run, CommitOrder(run)[..before.baseGeneration])));
    RunOneMore(base, Operations(script), op);
  }

  /** After a step that keeps every transaction's begin and finalization, committed transactions stay in order. */
  lemma OrderKept(run: seq<Action>)
    requires run != [] && CommittedInOrder(DropLast(run))
    requires After(run).txns.Keys == After(DropLast(run)).txns.Keys
    requires forall id :: id in After(run).txns ==>
      && After(run).txns[id].baseGeneration == After(DropLast(run)).txns[id].baseGeneration
      && (After(DropLast(run)).txns[id].finalized ==> After(run).txns[id].finalized)
    requires
      || CommitOrder(run) == CommitOrder(DropLast(run))
      || (&& CommitOrder(run) == CommitOrder(DropLast(run)) + [Last(run).id]
          && Last(run).id in After(run).txns
          && After(run).txns[Last(run).id].finalized
          && After(run).txns[Last(run).id].baseGeneration == |CommitOrder(DropLast(run))|)
    ensures CommittedInOrder(run)
  {
    forall i | 0 <= i < |CommitOrder(run)|
      ensures var id := CommitOrder(run)[i];
        id in After(run).txns && After(run).txns[id].baseGeneration == i && After(run).txns[id].finalized
    {
      if i < |CommitOrder(DropLast(run))| {
        assert CommitOrder(run)[i] == CommitOrder(DropLast(run))[i];
      }
    }
  }

  lemma SerialCall(run: seq<Action>)
    requires SerialBefore(run) && Last(run).Call? && Enabled(After(DropLast(run)), Last(run))
    ensures SerialNow(run)
  {
    CallCases(run);
    SharedUnchanged(run);
    OrderKept(run);
    forall id | id in After(run).txns
      ensures TxnIsSerial(run, id)
    {
      CallKeepsSerial(run, id);
    }
  }

  lemma CallKeepsSerial(run: seq<Action>, id: TxnId)
    requires SerialBefore(run) && Last(run).Call? && Enabled(After(DropLast(run)), Last(run))
    requires id in After(run).txns
    ensures TxnIsSerial(run, id)
  {
    CallCases(run);
    if id == Last(run).id && !After(DropLast(run)).txns[id].finalized {
      CallerIsSerial(run);
    } else {
      assert TxnIsSerial(DropLast(run), id);
      ScriptsOfOthers(run);
      StillSerial(run, id);
    }
  }

  /** What a commit step does to the shared data, by cases of `CommitTxn`. */
  lemma CommitCases(run: seq<Action>)
    requires run != [] && Last(run).Commit? && Enabled(After(DropLast(run)), Last(run))
    ensures var sys := After(DropLast(run)); var order := CommitOrder(DropLast(run)); var id := Last(run).id;
      || (CommitOrder(run) == order && After(run).shared == sys.shared)
      || (&& CommitOrder(run) == order + [id] && !sys.txns[id].finalized
          && sys.txns[id].baseGeneration == sys.shared.generation
          && After(run).shared == CommitTxn(sys.shared, sys.txns[id]).0
          && After(run).shared.generation == sys.shared.generation + 1)
    ensures After(run).txns.Keys == After(DropLast(run)).txns.Keys
    ensures forall id :: id in After(run).txns ==>
      After(run).txns[id].baseGeneration == After(DropLast(run)).txns[id].baseGeneration
    ensures forall id :: id in After(run).txns && id != Last(run).id ==>
      After(run).txns[id] == After(DropLast(run)).txns[id]
    ensures After(run).txns[Last(run).id].finalized
  {
  }

  lemma CommitPublishes(run: seq<Action>)
    requires SerialBefore(run) && Last(run).Commit? && Enabled(After(DropLast(run)), Last(run))
    requires CommitOrder(run) == CommitOrder(DropLast(run)) + [Last(run).id]
    requires !After(DropLast(run)).txns[Last(run).id].finalized
    requires After(DropLast(run)).txns[Last(run).id].baseGeneration == |CommitOrder(DropLast(run))|
    ensures SerialStore(Programs(run, CommitOrder(run)))
         == CommitTxn(After(DropLast(run)).shared, After(DropLast(run)).txns[Last(run).id]).0
  {
    ScriptsOfOthers(run);
    var id := Last(run).id;
    var order := CommitOrder(DropLast(run));
    assert order[..|order|] == order && CommitOrder(run)[..|order|] == order;
    SamePrograms(run, |order|);
    assert TxnIsSerial(DropLast(run), id);
    var programs := Programs(run, CommitOrder(run));
    assert DropLast(programs) == Programs(run, order);
    assert Last(programs) == Operations(Script(DropLast(run), id));
  }

  lemma CommitKeepsSerial(run: seq<Action>, id: TxnId)
    requires SerialBefore(run) && Last(run).Commit? && Enabled(After(DropLast(run)), Last(run))
    requires id in After(run).txns
    ensures TxnIsSerial(run, id)
  {
    CommitCases(run);
    ScriptsOfOthers(run);
    assert TxnIsSerial(DropLast(run), id);
    StillSerial(run, id);
  }

  lemma SerialCommit(run: seq<Action>)
    requires SerialBefore(run) && Last(run).Commit? && Enabled(After(DropLast(run)), Last(run))
    ensures SerialNow(run)
  {
    CommitCases(run);
    if CommitOrder(run) == CommitOrder(DropLast(run)) {
      SharedUnchanged(run);
    } else {
      CommitPublishes(run);
    }
    OrderKept(run);
    forall id | id in After(run).txns
      ensures TxnIsSerial(run, id)
    {
      CommitKeepsSerial(run, id);
    }
  }

  /** The committed part of the serial order never changes: it only grows at its end. */
  lemma {:induction false} CommitOrderGrows(run: seq<Action>, more: seq<Action>)
    ensures CommitOrder(run) <= CommitOrder(run + more)
    decreases |more|
  {
    if more == [] {
      assert run + more == run;
    } else {
      assert DropLast(run + more) == run + DropLast(more);
      CommitOrderGrows(run, DropLast(more));
    }
  }
}
