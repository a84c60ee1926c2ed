/** The lazy map, which only drops a key when it is touched, against an eager one that holds just live entries. */
module TtlRefinement {
  import opened StateModel
  import opened TtlStore
  import opened TtlHistory

  /** The map with every entry that `now` finds expired removed at once. */
  function LiveAt(data: TtlData, now: U64): TtlData {
    data.(entries := map key | key in data.entries && now < data.entries[key].expiresAt :: data.entries[key])
  }

  /** One event on the eager store: first drop everything expired, on all keys. */
  function EagerStep(eager: TtlData, event: Event): (TtlData, TtlReply) {
    Execute(LiveAt(eager, event.now), event.call, event.now)
  }

  predicate EagerFollowsAt(eager: seq<TtlData>, log: seq<Event>, i: nat)
    requires i < |log| && |eager| == |log| + 1
  {
    EagerStep(eager[i], log[i]) == (eager[i + 1], log[i].reply)
  }

  /** The eager store answers the whole log with the same replies; `eager[i]` is its map before event `i`. */
  ghost predicate IsEagerHistory(eager: seq<TtlData>, log: seq<Event>) {
    && |eager| == |log| + 1
    && eager[0] == START.data
    && forall i :: 0 <= i < |log| ==> EagerFollowsAt(eager, log, i)
  }

  ghost predicate SamplesInOrder(log: seq<Event>) {
    forall i, j :: 0 <= i < j < |log| ==> log[i].now <= log[j].now
  }

  lemma ExpiryIsLater(now: U64, ttl: Duration)
    requires ExpiryOf(now, ttl).Ok?
    ensures now < ExpiryOf(now, ttl).value
  {
  }

  // ----- any order of samples -----

  /** Some event before `i`, but after the entry was stored, came with a sample that had reached its expiry. */
  ghost predicate HasLapsed(h: seq<Moment>, log: seq<Event>, i: nat, entry: TtlEntry)
    requires i <= |log| && |h| == |log| + 1
  {
    exists m :: 0 <= m < i && entry.revision <= |h[m].births| && log[m].now >= entry.expiresAt
  }

  /**
   * Event `i` gets to the lock and finds its key's entry unexpired by its own sample, though an earlier event
   * on any key came with a later sample that had reached the expiry.
   */
  ghost predicate LateUse(h: seq<Moment>, log: seq<Event>, i: nat)
    requires i < |log| && |h| == |log| + 1
  {
    var key := log[i].call.key;
    && Locks(log[i])
    && IsLive(h[i].data, key, log[i].now)
    && HasLapsed(h, log, i, h[i].data.entries[key])
  }

  /** The entries of the lazy map before event `i` that no sample so far has found expired. */
  ghost function EagerAt(h: seq<Moment>, log: seq<Event>, i: nat): TtlData
    requires i <= |log| && |h| == |log| + 1
  {
    var data := h[i].data;
    data.(entries := map key | key in data.entries && !HasLapsed(h, log, i, data.entries[key]) :: data.entries[key])
  }

  /** The call changes at most its own key. */
  ghost predicate LeavesAlone(data: TtlData, after: TtlData, key: TtlKey) {
    forall other :: other != key ==>
      && (other in after.entries <==> other in data.entries)
      && (other in data.entries ==> after.entries[other] == data.entries[other])
  }

  /** What a call that locks leaves at its key is live. */
  lemma LockedEffect(data: TtlData, event: Event)
    requires Locks(event)
    ensures var after := Execute(data, event.call, event.now).0;
      && LeavesAlone(data, after, event.call.key)
      && (event.call.key in after.entries <==> IsLive(after, event.call.key, event.now))
  {
    ExecuteByLiveness(data, event.call, event.now);
    if event.call.Put? || event.call.Extend? {
      ExpiryIsLater(event.now, event.call.ttl);
    }
  }

  /** Two stores that agree on the counter and on what is live at the key reply alike and leave the same there. */
  lemma SameKeySameReply(a: TtlData, b: TtlData, call: TtlCall, now: U64)
    requires a.nextRevision == b.nextRevision
    requires IsLive(a, call.key, now) <==> IsLive(b, call.key, now)
    requires IsLive(a, call.key, now) ==> a.entries[call.key] == b.entries[call.key]
    ensures var x, y := Execute(a, call, now), Execute(b, call, now);
      && x.1 == y.1 && x.0.nextRevision == y.0.nextRevision
      && (IsLive(x.0, call.key, now) <==> IsLive(y.0, call.key, now))
      && (IsLive(x.0, call.key, now) ==> x.0.entries[call.key] == y.0.entries[call.key])
  {
    ExecuteByLiveness(a, call, now);
    ExecuteByLiveness(b, call, now);
  }

  /** The reply to a call that locks tells whether its key was live. */
  lemma LivenessShows(a: TtlData, b: TtlData, event: Event)
    requires IsLive(a, event.call.key, event.now) && !IsLive(b, event.call.key, event.now) && Locks(event)
    ensures Execute(a, event.call, event.now).1 != Execute(b, event.call, event.now).1
  {
    ExecuteByLiveness(a, event.call, event.now);
    ExecuteByLiveness(b, event.call, event.now);
  }

  /** A call that does not lock changes nothing and replies without looking. */
  lemma RefusedAlike(a: TtlData, b: TtlData, event: Event)
    requires !Locks(event)
    ensures Execute(a, event.call, event.now) == (a, Execute(b, event.call, event.now).1)
  {
  }

  /** After event `i` an entry has lapsed if it had before, or was there and its expiry is reached by the sample. */
  lemma LapsesBy(h: seq<Moment>, log: seq<Event>, i: nat, entry: TtlEntry)
    requires i < |log| && |h| == |log| + 1
    ensures HasLapsed(h, log, i + 1, entry) <==>
      HasLapsed(h, log, i, entry) || (entry.revision <= |h[i].births| && log[i].now >= entry.expiresAt)
  {
    if HasLapsed(h, log, i, entry) {
      var m :| 0 <= m < i && entry.revision <= |h[m].births| && log[m].now >= entry.expiresAt;
      assert m < i + 1;
    }
  }

  /** An entry that event `i` creates has not lapsed when the event is over. */
  lemma NewHasNotLapsed(h: seq<Moment>, log: seq<Event>, i: nat, entry: TtlEntry)
    requires IsHistory(h, log) && i < |log| && entry.revision > |h[i].births|
    ensures !HasLapsed(h, log, i + 1, entry)
  {
    forall m | 0 <= m < i + 1
      ensures |h[m].births| <= |h[i].births|
    {
      BirthsGrow(h, log, m, i);
    }
  }

  /** The entries the eager store has for event `i`: stored, not lapsed, and unexpired by the event's own sample. */
  lemma EagerLive(h: seq<Moment>, log: seq<Event>, i: nat, key: TtlKey)
    requires IsHistory(h, log) && i < |log|
    ensures var eager, data := LiveAt(EagerAt(h, log, i), log[i].now), h[i].data;
      && (key in eager.entries <==> key in data.entries && !HasLapsed(h, log, i + 1, data.entries[key]))
      && (key in eager.entries ==>
           eager.entries[key] == data.entries[key] && IsLive(eager, key, log[i].now) && IsLive(data, key, log[i].now))
  {
    RevisionsNameValues(h, log, i);
    if key in h[i].data.entries {
      LapsesBy(h, log, i, h[i].data.entries[key]);
    }
  }

  /** A call that does not lock leaves the eager map as its sample has thinned it out. */
  lemma RefusedEagerly(h: seq<Moment>, log: seq<Event>, i: nat)
    requires IsHistory(h, log) && i < |log| && !Locks(log[i])
    ensures EagerStep(EagerAt(h, log, i), log[i]) == (EagerAt(h, log, i + 1), log[i].reply)
  {
    StepOf(h, log, i);
    var eager := LiveAt(EagerAt(h, log, i), log[i].now);
    RefusedAlike(eager, h[i].data, log[i]);
    RefusedAlike(h[i].data, h[i].data, log[i]);
    forall key
      ensures key in eager.entries <==> key in EagerAt(h, log, i + 1).entries
      ensures key in eager.entries ==> eager.entries[key] == EagerAt(h, log, i + 1).entries[key]
    {
      EagerLive(h, log, i, key);
    }
    assert eager.entries == EagerAt(h, log, i + 1).entries;
  }

  /** What is left at a key after a call that locks and is no late use: the same in both stores. */
  lemma LockedEagerlyAt(h: seq<Moment>, log: seq<Event>, i: nat, key: TtlKey)
    requires IsHistory(h, log) && i < |log| && Locks(log[i]) && !LateUse(h, log, i)
    ensures var after := EagerStep(EagerAt(h, log, i), log[i]).0;
      && (key in after.entries <==> key in EagerAt(h, log, i + 1).entries)
      && (key in after.entries ==> after.entries[key] == EagerAt(h, log, i + 1).entries[key])
  {
    StepOf(h, log, i);
    var eager, data := LiveAt(EagerAt(h, log, i), log[i].now), h[i].data;
    LockedEffect(eager, log[i]);
    LockedEffect(data, log[i]);
    EagerLive(h, log, i, key);
    if key == log[i].call.key {
      LapsesNot(h, log, i);
      SameKeySameReply(eager, data, log[i].call, log[i].now);
    }
  }

  /** After a call that locks and is no late use, what the lazy map holds at its key has not lapsed. */
  lemma LapsesNot(h: seq<Moment>, log: seq<Event>, i: nat)
    requires IsHistory(h, log) && i < |log| && Locks(log[i]) && !LateUse(h, log, i)
    ensures var key, after := log[i].call.key, h[i + 1].data;
      key in after.entries ==> !HasLapsed(h, log, i + 1, after.entries[key])
    ensures IsLive(LiveAt(EagerAt(h, log, i), log[i].now), log[i].call.key, log[i].now)
       <==> IsLive(h[i].data, log[i].call.key, log[i].now)
  {
    StepOf(h, log, i);
    var key, data, after := log[i].call.key, h[i].data, h[i + 1].data;
    ExecuteByLiveness(data, log[i].call, log[i].now);
    EagerLive(h, log, i, key);
    if key in data.entries {
      LapsesBy(h, log, i, data.entries[key]);
    }
    if key in after.entries && after.entries[key].revision > |h[i].births| {
      NewHasNotLapsed(h, log, i, after.entries[key]);
    }
  }

  lemma LockedReply(h: seq<Moment>, log: seq<Event>, i: nat)
    requires IsHistory(h, log) && i < |log| && Locks(log[i]) && !LateUse(h, log, i)
    ensures var (after, reply) := EagerStep(EagerAt(h, log, i), log[i]);
      reply == log[i].reply && after.nextRevision == h[i + 1].data.nextRevision
  {
    StepOf(h, log, i);
    LapsesNot(h, log, i);
    EagerLive(h, log, i, log[i].call.key);
    SameKeySameReply(LiveAt(EagerAt(h, log, i), log[i].now), h[i].data, log[i].call, log[i].now);
  }

  lemma LockedEagerly(h: seq<Moment>, log: seq<Event>, i: nat)
    requires IsHistory(h, log) && i < |log| && Locks(log[i]) && !LateUse(h, log, i)
    ensures EagerStep(EagerAt(h, log, i), log[i]) == (EagerAt(h, log, i + 1), log[i].reply)
  {
    LockedReply(h, log, i);
    var after := EagerStep(EagerAt(h, log, i), log[i]).0;
    forall key
      ensures key in after.entries <==> key in EagerAt(h, log, i + 1).entries
      ensures key in after.entries ==> after.entries[key] == EagerAt(h, log, i + 1).entries[key]
    {
      LockedEagerlyAt(h, log, i, key);
    }
    assert after.entries == EagerAt(h, log, i + 1).entries;
  }

  /** One event on the eager store that holds what has not lapsed: the same reply exactly if it is no late use. */
  lemma EagerEvent(h: seq<Moment>, log: seq<Event>, i: nat)
    requires IsHistory(h, log) && i < |log|
    ensures LateUse(h, log, i) ==> EagerStep(EagerAt(h, log, i), log[i]).1 != log[i].reply
    ensures !LateUse(h, log, i) ==> EagerStep(EagerAt(h, log, i), log[i]) == (EagerAt(h, log, i + 1), log[i].reply)
  {
    if LateUse(h, log, i) {
      StepOf(h, log, i);
      LivenessShows(h[i].data, LiveAt(EagerAt(h, log, i), log[i].now), log[i]);
    } else if Locks(log[i]) {
      LockedEagerly(h, log, i);
    } else {
      RefusedEagerly(h, log, i);
    }
  }

  lemma {:induction false} EagerIsForced(h: seq<Moment>, log: seq<Event>, eager: seq<TtlData>, i: nat)
    requires IsHistory(h, log) && IsEagerHistory(eager, log) && i <= |log|
    ensures eager[i] == EagerAt(h, log, i)
    ensures i < |log| ==> !LateUse(h, log, i)
  {
    if i == 0 {
      assert EagerAt(h, log, 0).entries == START.data.entries;
    } else {
      EagerIsForced(h, log, eager, i - 1);
      assert EagerFollowsAt(eager, log, i - 1);
      EagerEvent(h, log, i - 1);
    }
    if i < |log| {
      assert EagerFollowsAt(eager, log, i);
      EagerEvent(h, log, i);
    }
  }

  lemma EagerExists(h: seq<Moment>, log: seq<Event>) returns (eager: seq<TtlData>)
    requires IsHistory(h, log) && forall i :: 0 <= i < |log| ==> !LateUse(h, log, i)
    ensures IsEagerHistory(eager, log)
    ensures forall i :: 0 <= i <= |log| ==> eager[i] == EagerAt(h, log, i)
  {
    eager := seq(|log| + 1, i requires 0 <= i < |log| + 1 => EagerAt(h, log, i));
    assert eager[0].entries == START.data.entries;
    forall i | 0 <= i < |log|
      ensures EagerFollowsAt(eager, log, i)
    {
      EagerEvent(h, log, i);
    }
  }

  /**
   * Exactly when the lazy store refines the eager one: an eager store gives every reply of the run if and only
   * if no event uses an entry after a sample, of any event since the entry was stored, has reached its expiry.
   */
  lemma RefinesUnlessUsedLate(h: seq<Moment>, log: seq<Event>)
    requires IsHistory(h, log)
    ensures (exists eager :: IsEagerHistory(eager, log)) <==> forall i :: 0 <= i < |log| ==> !LateUse(h, log, i)
  {
    if eager :| IsEagerHistory(eager, log) {
      forall i | 0 <= i < |log|
        ensures !LateUse(h, log, i)
      {
        EagerIsForced(h, log, eager, i);
      }
    } else if forall i :: 0 <= i < |log| ==> !LateUse(h, log, i) {
      var eager := EagerExists(h, log);
    }
  }

  lemma InOrderIsNeverLate(h: seq<Moment>, log: seq<Event>, i: nat)
    requires IsHistory(h, log) && SamplesInOrder(log) && i < |log|
    ensures !LateUse(h, log, i)
    ensures EagerAt(h, log, i + 1) == LiveAt(h[i + 1].data, log[i].now)
  {
    StepOf(h, log, i);
    RevisionsNameValues(h, log, i + 1);
    var data := h[i + 1].data;
    forall key | key in data.entries
      ensures HasLapsed(h, log, i + 1, data.entries[key]) <==> log[i].now >= data.entries[key].expiresAt
    {
      InOrderLapse(h, log, i, key);
    }
    assert EagerAt(h, log, i + 1).entries == LiveAt(data, log[i].now).entries;
  }

  lemma InOrderLapse(h: seq<Moment>, log: seq<Event>, i: nat, key: TtlKey)
    requires IsHistory(h, log) && SamplesInOrder(log) && i < |log| && key in h[i + 1].data.entries
    ensures HasLapsed(h, log, i + 1, h[i + 1].data.entries[key]) <==> log[i].now >= h[i + 1].data.entries[key].expiresAt
  {
    StepOf(h, log, i);
    RevisionsNameValues(h, log, i + 1);
    ExecuteByLiveness(h[i].data, log[i].call, log[i].now);
    var entry := h[i + 1].data.entries[key];
    LapsesBy(h, log, i, entry);
    if entry.revision > |h[i].births| {
      NewHasNotLapsed(h, log, i, entry);
      ExpiryIsLater(log[i].now, log[i].call.ttl);
    }
  }

  /**
   * When the samples are nondecreasing in lock order, the lazy store refines the eager one: the eager store
   * gives every reply of the run, and after each event its map is exactly the lazy map's unexpired entries.
   */
  lemma LazyRefinesEager(h: seq<Moment>, log: seq<Event>) returns (eager: seq<TtlData>)
    requires IsHistory(h, log) && SamplesInOrder(log)
    ensures IsEagerHistory(eager, log)
    ensures forall i :: 0 <= i < |log| ==> eager[i + 1] == LiveAt(h[i + 1].data, log[i].now)
  {
    forall i | 0 <= i < |log|
      ensures !LateUse(h, log, i) && EagerAt(h, log, i + 1) == LiveAt(h[i + 1].data, log[i].now)
    {
      InOrderIsNeverLate(h, log, i);
    }
    eager := EagerExists(h, log);
  }

  /**
   * With samples out of order the two can differ: the clock reads 20 for one thread before the lock goes to a
   * thread that read 5, and the lazy store still finds an entry the eager one has dropped.
   */
  lemma OutOfOrderSamplesDiffer(scope: TenantScope) returns (h: seq<Moment>, log: seq<Event>)
    ensures IsHistory(h, log) && |log| == 3
    ensures !exists eager :: IsEagerHistory(eager, log)
  {
    var a, b := TtlKey(scope, "n", "a"), TtlKey(scope, "n", "b");
    assert b.key[0] != a.key[0];
    var entry := TtlEntry([0], 1, 10);
    var stored := Moment(TtlData(1, map[a := entry]), [Birth(a, entry, 1)]);
    var put := Event(0, Put(a, [0], 10 * NANOS_PER_MILLI), 0, Inserted(1));
    var late := Event(1, Get(b), 20, Missing);
    var early := Event(2, Get(a), 5, Found(entry));
    log := [put, late, early];
    h := [START, stored, stored, stored];
    assert FollowsAt(h, log, 0) && FollowsAt(h, log, 1) && FollowsAt(h, log, 2);
    forall eager
      ensures !IsEagerHistory(eager, log)
    {
      DroppedEntryIsMissing(eager, log);
    }
  }

  lemma DroppedEntryIsMissing(eager: seq<TtlData>, log: seq<Event>)
    requires |log| == 3 && log[0].call.Put? && log[0].call.ttl == 10 * NANOS_PER_MILLI
    requires log[1].call.Get? && log[2].call.Get? && log[2].reply.Found?
    requires log[0].now == 0 && log[1].now == 20 && log[2].now == 5
    ensures !IsEagerHistory(eager, log)
  {
    if |eager| == 4 && eager[0] == START.data {
      assert LiveAt(eager[0], 0).entries == map[];
      if EagerFollowsAt(eager, log, 0) && EagerFollowsAt(eager, log, 1) {
        assert LiveAt(eager[1], 20).entries == map[];
        assert !EagerFollowsAt(eager, log, 2);
      }
    }
  }
}
