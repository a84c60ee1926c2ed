/** How transactions end: what a commit or a rollback answers in any run, and what a finished transaction does. */
module TransactionEnd {
  import opened StateModel
  import opened DurableStore
  import opened SerialEquivalence

  /** An action of transaction `id`, and nobody else's transaction touched by it. */
  ghost predicate OthersAreKept(sys: System, next: System, id: TxnId) {
    && next.txns.Keys == sys.txns.Keys
    && forall other :: other in sys.txns && other != id ==> next.txns[other] == sys.txns[other]
  }

  /** One commit step, by the two generations. */
  lemma CommitStep(sys: System, id: TxnId)
    requires id in sys.txns && !sys.txns[id].finalized
    ensures var txn, (next, reply) := sys.txns[id], Step(sys, Commit(id));
      && OthersAreKept(sys, next, id) && next.txns[id].finalized
      && if !txn.dirty then
           reply == Finished && next.shared == sys.shared
         else if sys.shared.generation == txn.baseGeneration < U64_MAX then
           reply == Finished && next.shared == txn.working.(generation := txn.baseGeneration + 1)
         else
           reply == Rejected(Conflict(TransactionEntity)) && next.shared == sys.shared
  {
  }

  /**
   * A commit without writes succeeds at any generation and publishes nothing. One with writes succeeds exactly if
   * no other writer has committed since its begin and a generation is left; then the shared data become its
   * private data. Whatever it answers, the transaction is finished.
   */
  lemma CommitIsDecided(run: seq<Action>, id: TxnId)
    requires id in After(run).txns && !After(run).txns[id].finalized
    ensures var sys, begun := After(run), After(run).txns[id].baseGeneration;
      var (next, reply) := Step(sys, Commit(id));
      && begun <= |CommitOrder(run)|
      && OthersAreKept(sys, next, id) && next.txns[id].finalized
      && if !sys.txns[id].dirty then
           reply == Finished && next.shared == sys.shared
         else if |CommitOrder(run)| == begun < U64_MAX then
           reply == Finished && next.shared == sys.txns[id].working.(generation := begun + 1)
         else
           reply == Rejected(Conflict(TransactionEntity)) && next.shared == sys.shared
  {
    EveryRunIsSerial(run);
    assert TxnIsSerial(run, id);
    CommitStep(After(run), id);
  }

  /** A rollback always succeeds, publishes nothing, and finishes the transaction. */
  lemma RollbackIsDecided(run: seq<Action>, id: TxnId)
    requires id in After(run).txns && !After(run).txns[id].finalized
    ensures var sys := After(run);
      var (next, reply) := Step(sys, Rollback(id));
      && reply == Finished && next.shared == sys.shared
      && OthersAreKept(sys, next, id) && next.txns[id].finalized
  {
  }

  /** Once finished, a transaction never changes again, and refuses everything without any effect. */
  lemma {:induction false} FinishedForever(run: seq<Action>, more: seq<Action>, id: TxnId, action: Action)
    requires id in After(run).txns && After(run).txns[id].finalized
    requires action.id == id && !action.Begin?
    ensures id in After(run + more).txns && After(run + more).txns[id] == After(run).txns[id]
    ensures Step(After(run + more), action) == (After(run + more), Rejected(TransactionFinalized))
    decreases |more|
  {
    if more == [] {
      assert run + more == run;
    } else {
      assert DropLast(run + more) == run + DropLast(more);
      FinishedForever(run, DropLast(more), id, action);
    }
    var sys := After(run + more);
    assert sys.txns[id := sys.txns[id]] == sys.txns;
  }
}
