/**
 * Runs of the TTL store as the sequence of its locked sections, each with the clock sample its caller took
 * before taking the lock. Nothing is assumed about the samples: every interleaving of threads and clock
 * advances is such a sequence, with samples possibly out of order.
 */
module TtlHistory {
  import opened Wrappers
  import opened StateModel
  import opened TtlStore

  /** One locked section: who ran it, what was asked, the clock sample it carried, and the reply. */
  datatype Event = Event(thread: nat, call: TtlCall, now: U64, reply: TtlReply)

  /** The key and entry a revision was created with, and the revision of the put its value goes back to. */
  datatype Birth = Birth(key: TtlKey, entry: TtlEntry, root: nat)

  /** The store between two sections, with every entry ever created: revision `r` is at index `r - 1`. */
  datatype Moment = Moment(data: TtlData, births: seq<Birth>)

  const START := Moment(TtlData(0, map[]), [])

  /** The births once an event has happened: one more exactly when it inserted or extended an entry. */
  function BirthsThen(before: Moment, event: Event, after: TtlData): seq<Birth> {
    var key := event.call.key;
    if event.reply.Inserted? && key in after.entries then
      before.births + [Birth(key, after.entries[key], event.reply.revision)]
    else if event.reply.Extended? && event.call.Extend? && key in after.entries
            && 1 <= event.call.expected <= |before.births| then
      before.births + [Birth(key, after.entries[key], before.births[event.call.expected - 1].root)]
    else
      before.births
  }

  predicate Follows(before: Moment, event: Event, after: Moment) {
    && (after.data, event.reply) == Execute(before.data, event.call, event.now)
    && after.births == BirthsThen(before, event, after.data)
  }

  predicate FollowsAt(h: seq<Moment>, log: seq<Event>, i: nat)
    requires i < |log| && |h| == |log| + 1
  {
    Follows(h[i], log[i], h[i + 1])
  }

  /** `h[i]` is the store before event `i`, and `h[|log|]` the store at the end. */
  ghost predicate IsHistory(h: seq<Moment>, log: seq<Event>) {
    && |h| == |log| + 1
    && h[0] == START
    && forall i :: 0 <= i < |log| ==> FollowsAt(h, log, i)
  }

  /** The key now holds a new entry under the next revision, or the revisions are used up and `kept` is left. */
  predicate StoresNew(
      data: TtlData, key: TtlKey, value: TtlValue, expiresAt: U64, kept: TtlData, after: TtlData, reply: TtlReply)
  {
    if data.nextRevision < U64_MAX then
      && !reply.Refused?
      && after.nextRevision == data.nextRevision + 1
      && after.entries == data.entries[key := TtlEntry(value, after.nextRevision, expiresAt)]
    else
      reply.Refused? && after == kept
  }

  /** `Execute` call by call, as if expired entries were not there at all. */
  lemma ExecuteByLiveness(data: TtlData, call: TtlCall, now: U64)
    ensures var (after, reply) := Execute(data, call, now);
      match call
      case Get(key) =>
        if IsLive(data, key, now) then after == data && reply == Found(data.entries[key])
        else after == Without(data, key) && reply == Missing
      case Take(key, expected) =>
        if !IsLive(data, key, now) then after == Without(data, key) && reply == Missing
        else if data.entries[key].revision != expected then
          after == data && reply == RevisionMismatch(data.entries[key].revision)
        else after == Without(data, key) && reply == Taken(data.entries[key].value)
      case Remove(key) =>
        after == Without(data, key) && reply == Removed(if IsLive(data, key, now) then Applied else Unchanged)
      case Put(key, value, ttl) =>
        if ExpiryOf(now, ttl).Err? then after == data && reply == Refused(ExpiryOf(now, ttl).error)
        else if IsLive(data, key, now) then after == data && reply == Existing(data.entries[key].revision)
        else StoresNew(data, key, value, ExpiryOf(now, ttl).value, Without(data, key), after, reply) &&
             (reply == Inserted(after.nextRevision) || reply.Refused?)
      case Extend(key, expected, ttl) =>
        if ExpiryOf(now, ttl).Err? then after == data && reply == Refused(ExpiryOf(now, ttl).error)
        else if !IsLive(data, key, now) then after == Without(data, key) && reply == Missing
        else if data.entries[key].revision != expected then
          after == data && reply == RevisionMismatch(data.entries[key].revision)
        else StoresNew(data, key, data.entries[key].value, ExpiryOf(now, ttl).value, data, after, reply) &&
             (reply == Extended(after.nextRevision, ExpiryOf(now, ttl).value) || reply.Refused?)
  {
    var key, entries := call.key, data.entries;
    assert key !in entries ==> entries - {key} == entries;
    assert entries - {key} - {key} == entries - {key};
    var next := data.nextRevision + 1;
    match call
    case Put(_, value, ttl) =>
      if ExpiryOf(now, ttl).Ok? && next <= U64_MAX {
        var entry := TtlEntry(value, next, ExpiryOf(now, ttl).value);
        assert (entries - {key})[key := entry] == entries[key := entry];
      }
    case _ =>
  }

  predicate WellBorn(births: seq<Birth>, i: nat)
    requires i < |births|
  {
    && births[i].entry.revision == i + 1
    && 1 <= births[i].root <= i + 1
    && var origin := births[births[i].root - 1];
       origin.key == births[i].key && origin.root == births[i].root && origin.entry.value == births[i].entry.value
  }

  ghost predicate Registered(m: Moment) {
    && |m.births| == m.data.nextRevision
    && (forall i :: 0 <= i < |m.births| ==> WellBorn(m.births, i))
    && (forall key :: key in m.data.entries ==>
         && 1 <= m.data.entries[key].revision <= |m.births|
         && m.births[m.data.entries[key].revision - 1].key == key
         && m.births[m.data.entries[key].revision - 1].entry == m.data.entries[key])
  }

  /** A new entry: under the next revision, and going back to itself or to what its key held. */
  ghost predicate Bears(before: Moment, birth: Birth)
    requires Registered(before)
  {
    var key, next := birth.key, before.data.nextRevision + 1;
    && birth.entry.revision == next
    && (|| birth.root == next
        || (&& key in before.data.entries
            && birth.entry.value == before.data.entries[key].value
            && birth.root == before.births[before.data.entries[key].revision - 1].root))
  }

  function BornInto(before: Moment, birth: Birth): Moment {
    Moment(TtlData(birth.entry.revision, before.data.entries[birth.key := birth.entry]), before.births + [birth])
  }

  /** Everything a locked section can do: nothing, drop its key, or store a new revision there. */
  ghost predicate Changes(before: Moment, key: TtlKey, after: Moment)
    requires Registered(before)
  {
    || after == before
    || after == Moment(Without(before.data, key), before.births)
    || (exists birth: Birth :: birth.key == key && Bears(before, birth) && after == BornInto(before, birth))
  }

  lemma StepChanges(before: Moment, event: Event, after: Moment)
    requires Registered(before) && Follows(before, event, after)
    ensures Changes(before, event.call.key, after)
  {
    ExecuteByLiveness(before.data, event.call, event.now);
    if |after.births| > |before.births| {
      var birth := after.births[|before.births|];
      assert Bears(before, birth) && after == BornInto(before, birth);
    }
  }

  lemma BirthKeepsRegistered(before: Moment, birth: Birth)
    requires Registered(before) && Bears(before, birth)
    ensures Registered(BornInto(before, birth))
  {
    var births, grown := before.births, before.births + [birth];
    forall i | 0 <= i < |grown|
      ensures WellBorn(grown, i)
    {
      if i < |births| {
        assert WellBorn(births, i);
        assert grown[i] == births[i] && grown[births[i].root - 1] == births[births[i].root - 1];
      } else if birth.root != birth.entry.revision {
        assert WellBorn(births, before.data.entries[birth.key].revision - 1);
        assert grown[birth.root - 1] == births[birth.root - 1];
      }
    }
  }

  lemma ChangesKeepRegistered(before: Moment, key: TtlKey, after: Moment)
    requires Registered(before) && Changes(before, key, after)
    ensures Registered(after) && before.births <= after.births
  {
    if birth: Birth :| birth.key == key && Bears(before, birth) && after == BornInto(before, birth) {
      BirthKeepsRegistered(before, birth);
    }
  }

  /**
   * Revisions name values forever: across all keys and tenants each revision is given out once, and at every
   * moment of every run each stored entry is exactly the one its revision was created with.
   */
  lemma {:induction false} RevisionsNameValues(h: seq<Moment>, log: seq<Event>, i: nat)
    requires IsHistory(h, log) && i <= |log|
    ensures Registered(h[i])
  {
    if i > 0 {
      RevisionsNameValues(h, log, i - 1);
      assert FollowsAt(h, log, i - 1);
      StepChanges(h[i - 1], log[i - 1], h[i]);
      ChangesKeepRegistered(h[i - 1], log[i - 1].call.key, h[i]);
    }
  }

  lemma StepOf(h: seq<Moment>, log: seq<Event>, i: nat)
    requires IsHistory(h, log) && i < |log|
    ensures Registered(h[i]) && Follows(h[i], log[i], h[i + 1])
  {
    RevisionsNameValues(h, log, i);
    assert FollowsAt(h, log, i);
  }

  lemma ChangeOf(h: seq<Moment>, log: seq<Event>, i: nat)
    requires IsHistory(h, log) && i < |log|
    ensures Registered(h[i]) && Changes(h[i], log[i].call.key, h[i + 1])
  {
    StepOf(h, log, i);
    StepChanges(h[i], log[i], h[i + 1]);
  }

  lemma {:induction false} BirthsGrow(h: seq<Moment>, log: seq<Event>, i: nat, j: nat)
    requires IsHistory(h, log) && i <= j <= |log|
    ensures h[i].births <= h[j].births
    decreases j
  {
    if i < j {
      BirthsGrow(h, log, i, j - 1);
      ChangeOf(h, log, j - 1);
      ChangesKeepRegistered(h[j - 1], log[j - 1].call.key, h[j]);
    }
  }

  /** The put that created a revision which goes back to itself, or an extension of an earlier one. */
  ghost predicate BornBy(event: Event, birth: Birth) {
    var revision := birth.entry.revision;
    && event.call.key == birth.key
    && if birth.root == revision then
         && event.call.Put?
         && event.reply == Inserted(revision)
         && event.call.value == birth.entry.value
         && ExpiryOf(event.now, event.call.ttl) == Ok(birth.entry.expiresAt)
       else
         && birth.root < revision
         && event.call.Extend?
         && event.reply == Extended(revision, birth.entry.expiresAt)
         && ExpiryOf(event.now, event.call.ttl) == Ok(birth.entry.expiresAt)
  }

  lemma StepBears(before: Moment, event: Event, after: Moment)
    requires Registered(before) && Follows(before, event, after) && |after.births| > |before.births|
    ensures |after.births| == |before.births| + 1 && BornBy(event, after.births[|before.births|])
  {
    ExecuteByLiveness(before.data, event.call, event.now);
    if event.reply.Extended? {
      assert WellBorn(before.births, event.call.expected - 1);
    }
  }

  /** Every revision was created by one event of the run. */
  lemma {:induction false} EveryBirthHasAnEvent(h: seq<Moment>, log: seq<Event>, i: nat, r: nat) returns (p: nat)
    requires IsHistory(h, log) && i <= |log| && 1 <= r <= |h[i].births|
    ensures p < i && |h[p].births| < r && BornBy(log[p], h[i].births[r - 1])
    decreases i
  {
    StepOf(h, log, i - 1);
    BirthsGrow(h, log, i - 1, i);
    if r <= |h[i - 1].births| {
      p := EveryBirthHasAnEvent(h, log, i - 1, r);
    } else {
      p := i - 1;
      StepBears(h[p], log[p], h[i]);
    }
  }

  /** The put a revision goes back to inserted the value the revision still has. */
  lemma EveryBirthHasAPut(h: seq<Moment>, log: seq<Event>, i: nat, r: nat) returns (p: nat)
    requires IsHistory(h, log) && i <= |log| && 1 <= r <= |h[i].births|
    ensures p < i && log[p].call.Put? && log[p].reply.Inserted?
    ensures log[p].reply.revision == h[i].births[r - 1].root
    ensures log[p].call.key == h[i].births[r - 1].key && log[p].call.value == h[i].births[r - 1].entry.value
  {
    RevisionsNameValues(h, log, i);
    assert WellBorn(h[i].births, r - 1);
    var root := h[i].births[r - 1].root;
    assert WellBorn(h[i].births, root - 1);
    p := EveryBirthHasAnEvent(h, log, i, root);
  }

  /** Revision `r` has been created and its entry is still stored. */
  predicate IsStored(m: Moment, r: nat) {
    1 <= r <= |m.births| && m.births[r - 1].key in m.data.entries && m.data.entries[m.births[r - 1].key].revision == r
  }

  /** Some entry that goes back to the put that created revision `root` is still stored. */
  predicate RootIsStored(m: Moment, root: nat) {
    && 1 <= root <= |m.births|
    && m.births[root - 1].key in m.data.entries
    && var r := m.data.entries[m.births[root - 1].key].revision;
       1 <= r <= |m.births| && m.births[r - 1].root == root
  }

  lemma BirthKeepsAbsence(before: Moment, birth: Birth, r: nat)
    requires Registered(before) && Bears(before, birth) && 1 <= r <= |before.births|
    ensures !IsStored(before, r) ==> !IsStored(BornInto(before, birth), r)
    ensures !RootIsStored(before, r) ==> !RootIsStored(BornInto(before, birth), r)
  {
    var births, grown := before.births, before.births + [birth];
    assert grown[r - 1] == births[r - 1] && WellBorn(births, r - 1);
    var own, entries := births[r - 1].key, before.data.entries;
    if birth.key in entries {
      assert WellBorn(births, entries[birth.key].revision - 1);
    }
    if own != birth.key && own in entries {
      assert grown[entries[own].revision - 1] == births[entries[own].revision - 1];
    }
  }

  lemma ChangesKeepAbsence(before: Moment, key: TtlKey, after: Moment, r: nat)
    requires Registered(before) && Changes(before, key, after) && 1 <= r <= |before.births|
    ensures !IsStored(before, r) ==> !IsStored(after, r)
    ensures !RootIsStored(before, r) ==> !RootIsStored(after, r)
  {
    if birth: Birth :| birth.key == key && Bears(before, birth) && after == BornInto(before, birth) {
      BirthKeepsAbsence(before, birth, r);
    }
  }

  /** An entry that is gone stays gone, and so does everything that goes back to one put. */
  lemma {:induction false} AbsenceIsForever(h: seq<Moment>, log: seq<Event>, i: nat, j: nat, r: nat)
    requires IsHistory(h, log) && i <= j <= |log| && 1 <= r <= |h[i].births|
    ensures !IsStored(h[i], r) ==> !IsStored(h[j], r)
    ensures !RootIsStored(h[i], r) ==> !RootIsStored(h[j], r)
    decreases j
  {
    if i < j {
      AbsenceIsForever(h, log, i, j - 1, r);
      BirthsGrow(h, log, i, j - 1);
      ChangeOf(h, log, j - 1);
      ChangesKeepAbsence(h[j - 1], log[j - 1].call.key, h[j], r);
    }
  }

  /** The event hands out, extends or takes revision `r`. */
  predicate Uses(event: Event, r: nat) {
    match event.reply
    case Found(entry) => entry.revision == r
    case Taken(_) => event.call.Take? && event.call.expected == r
    case Extended(_, _) => event.call.Extend? && event.call.expected == r
    case _ => false
  }

  lemma UseStep(before: Moment, event: Event, after: Moment, r: nat)
    requires Registered(before) && Follows(before, event, after) && Uses(event, r)
    ensures IsStored(before, r) && IsLive(before.data, event.call.key, event.now)
    ensures before.births[r - 1].key == event.call.key && event.now < before.births[r - 1].entry.expiresAt
    ensures event.reply.Found? ==> event.reply.entry == before.births[r - 1].entry && after == before
    ensures event.reply.Taken? ==> event.reply.value == before.births[r - 1].entry.value
  {
    ExecuteByLiveness(before.data, event.call, event.now);
  }

  /**
   * What a use says, for any order of samples: the revision is stored at that moment, the sample is strictly
   * below its expiry, and what is returned is what the revision was created with.
   */
  lemma UseIsLive(h: seq<Moment>, log: seq<Event>, i: nat, r: nat)
    requires IsHistory(h, log) && i < |log| && Uses(log[i], r)
    ensures IsStored(h[i], r) && h[i].births <= h[|log|].births
    ensures var birth := h[|log|].births[r - 1];
      && birth.key == log[i].call.key && log[i].now < birth.entry.expiresAt
      && (log[i].reply.Found? ==> log[i].reply.entry == birth.entry && IsStored(h[i + 1], r))
      && (log[i].reply.Taken? ==> log[i].reply.value == birth.entry.value)
  {
    StepOf(h, log, i);
    UseStep(h[i], log[i], h[i + 1], r);
    BirthsGrow(h, log, i, |log|);
  }

  /** A reply, on the key of an already created revision `r`, that rules `r` out from then on. */
  predicate RulesOut(reply: TtlReply, r: nat) {
    match reply
    case Existing(revision) => revision != r
    case Found(entry) => entry.revision != r
    case RevisionMismatch(current) => current != r
    case Refused(_) => false
    case _ => true
  }

  lemma RuledOut(before: Moment, event: Event, after: Moment, r: nat)
    requires Registered(before) && Follows(before, event, after)
    requires 1 <= r <= |before.births| && before.births[r - 1].key == event.call.key && RulesOut(event.reply, r)
    ensures !IsStored(after, r)
  {
    ExecuteByLiveness(before.data, event.call, event.now);
    StepChanges(before, event, after);
    ChangesKeepRegistered(before, event.call.key, after);
    assert after.births[r - 1] == before.births[r - 1];
  }

  /**
   * No resurrection, whatever order the clock samples come in: once an event has reported a revision absent,
   * no later one finds, extends or takes it.
   */
  lemma NoResurrection(h: seq<Moment>, log: seq<Event>, i: nat, j: nat, r: nat)
    requires IsHistory(h, log) && i < j < |log| && 1 <= r <= |h[i].births|
    requires log[i].call.key == h[i].births[r - 1].key && RulesOut(log[i].reply, r)
    ensures !Uses(log[j], r)
  {
    StepOf(h, log, i);
    RuledOut(h[i], log[i], h[i + 1], r);
    BirthsGrow(h, log, i, i + 1);
    AbsenceIsForever(h, log, i + 1, j, r);
    if Uses(log[j], r) {
      UseIsLive(h, log, j, r);
    }
  }

  lemma TakeEndsRoot(before: Moment, event: Event, after: Moment)
    requires Registered(before) && Follows(before, event, after) && event.reply.Taken?
    ensures event.call.Take? && 1 <= event.call.expected <= |before.births|
    ensures RootIsStored(before, before.births[event.call.expected - 1].root)
    ensures after.births == before.births
    ensures !RootIsStored(after, before.births[event.call.expected - 1].root)
  {
    ExecuteByLiveness(before.data, event.call, event.now);
    assert WellBorn(before.births, event.call.expected - 1);
  }

  lemma TakeAt(h: seq<Moment>, log: seq<Event>, i: nat)
    requires IsHistory(h, log) && i < |log| && log[i].reply.Taken?
    ensures log[i].call.Take? && 1 <= log[i].call.expected <= |h[i].births| && h[i].births <= h[|log|].births
    ensures var root := h[i].births[log[i].call.expected - 1].root;
      && 1 <= root <= |h[i + 1].births| && RootIsStored(h[i], root) && !RootIsStored(h[i + 1], root)
  {
    StepOf(h, log, i);
    TakeEndsRoot(h[i], log[i], h[i + 1]);
    assert WellBorn(h[i].births, log[i].call.expected - 1);
    BirthsGrow(h, log, i, |log|);
  }

  /**
   * Single use: of everything that goes back to one put, however often it was extended, at most one event
   * takes it. In particular no revision is taken twice.
   */
  lemma TakenOnce(h: seq<Moment>, log: seq<Event>, i: nat, j: nat)
    requires IsHistory(h, log) && i < |log| && j < |log| && log[i].reply.Taken? && log[j].reply.Taken?
    ensures log[i].call.Take? && 1 <= log[i].call.expected <= |h[|log|].births|
    ensures log[j].call.Take? && 1 <= log[j].call.expected <= |h[|log|].births|
    ensures h[|log|].births[log[i].call.expected - 1].root == h[|log|].births[log[j].call.expected - 1].root ==>
      i == j
  {
    TakeAt(h, log, i);
    TakeAt(h, log, j);
    if i < j {
      AbsenceIsForever(h, log, i + 1, j, h[i].births[log[i].call.expected - 1].root);
    } else if j < i {
      AbsenceIsForever(h, log, j + 1, i, h[j].births[log[j].call.expected - 1].root);
    }
  }

  /** The call got as far as the lock: its expiry, if it computes one, did not fail. */
  predicate Locks(event: Event) {
    match event.call
    case Put(_, _, ttl) => ExpiryOf(event.now, ttl).Ok?
    case Extend(_, _, ttl) => ExpiryOf(event.now, ttl).Ok?
    case _ => true
  }

  /** The event took, removed or extended the entry, or ran on its key with a sample at or past its expiry. */
  predicate Ends(event: Event, birth: Birth) {
    && event.call.key == birth.key
    && match event.reply
       case Taken(_) => event.call.Take? && event.call.expected == birth.entry.revision
       case Removed(_) => true
       case Extended(_, _) => event.call.Extend? && event.call.expected == birth.entry.revision
       case _ => Locks(event) && event.now >= birth.entry.expiresAt
  }

  lemma EndStep(before: Moment, event: Event, after: Moment, r: nat)
    requires Registered(before) && Follows(before, event, after)
    requires IsStored(before, r) && !IsStored(after, r)
    ensures Ends(event, before.births[r - 1])
  {
    ExecuteByLiveness(before.data, event.call, event.now);
    StepChanges(before, event, after);
    ChangesKeepRegistered(before, event.call.key, after);
    assert after.births[r - 1] == before.births[r - 1];
  }

  lemma {:induction false} EndingBetween(h: seq<Moment>, log: seq<Event>, i: nat, j: nat, r: nat) returns (m: nat)
    requires IsHistory(h, log) && i <= j <= |log| && IsStored(h[i], r) && !IsStored(h[j], r)
    ensures i <= m < j && r <= |h[i].births| && Ends(log[m], h[i].births[r - 1])
    decreases j
  {
    if IsStored(h[j - 1], r) {
      m := j - 1;
      StepOf(h, log, m);
      EndStep(h[m], log[m], h[j], r);
      BirthsGrow(h, log, i, m);
    } else {
      m := EndingBetween(h, log, i, j - 1, r);
    }
  }

  lemma RefusedTake(before: Moment, event: Event, after: Moment, r: nat)
    requires Registered(before) && Follows(before, event, after) && IsStored(before, r)
    requires event.call == Take(before.births[r - 1].key, r) && !event.reply.Taken?
    ensures event.reply.Missing? && event.now >= before.births[r - 1].entry.expiresAt
  {
    ExecuteByLiveness(before.data, event.call, event.now);
  }

  /**
   * A take is rejected only for cause: if event `i` found an entry and the take of its revision at `j` fails,
   * then an event in between took, revoked or extended that revision or ran on its key with a sample at or
   * past its expiry, or the take's own sample was at or past it.
   */
  lemma RejectionHasACause(h: seq<Moment>, log: seq<Event>, i: nat, j: nat) returns (m: nat)
    requires IsHistory(h, log) && i < j < |log| && log[i].reply.Found?
    requires log[j].call == Take(log[i].call.key, log[i].reply.entry.revision) && !log[j].reply.Taken?
    ensures i < m <= j && (exists root :: Ends(log[m], Birth(log[i].call.key, log[i].reply.entry, root)))
    ensures m == j ==> log[j].now >= log[i].reply.entry.expiresAt
  {
    var r := log[i].reply.entry.revision;
    UseIsLive(h, log, i, r);
    StepOf(h, log, i);
    UseStep(h[i], log[i], h[i + 1], r);
    var birth := h[i + 1].births[r - 1];
    assert birth == Birth(log[i].call.key, log[i].reply.entry, birth.root);
    if IsStored(h[j], r) {
      m := j;
      BirthsGrow(h, log, i + 1, j);
      StepOf(h, log, j);
      RefusedTake(h[j], log[j], h[j + 1], r);
      assert Ends(log[j], birth);
    } else {
      m := EndingBetween(h, log, i + 1, j, r);
    }
  }

  lemma EndsLeaveNothing(before: Moment, event: Event, after: Moment, r: nat)
    requires Registered(before) && Follows(before, event, after)
    requires 1 <= r <= |before.births| && Ends(event, before.births[r - 1])
    ensures r <= |after.births| && !IsStored(after, r)
  {
    ExecuteByLiveness(before.data, event.call, event.now);
    StepChanges(before, event, after);
    ChangesKeepRegistered(before, event.call.key, after);
    assert after.births[r - 1] == before.births[r - 1] && WellBorn(before.births, r - 1);
  }

  /** The converse: every such event really ends the revision, for good. */
  lemma EndedIsRejected(h: seq<Moment>, log: seq<Event>, m: nat, j: nat, r: nat)
    requires IsHistory(h, log) && m < j < |log| && 1 <= r <= |h[m].births|
    requires Ends(log[m], h[m].births[r - 1])
    ensures !Uses(log[j], r)
  {
    StepOf(h, log, m);
    EndsLeaveNothing(h[m], log[m], h[m + 1], r);
    AbsenceIsForever(h, log, m + 1, j, r);
    if Uses(log[j], r) {
      UseIsLive(h, log, j, r);
    }
  }
}
