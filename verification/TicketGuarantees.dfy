/** What every interleaving of ticket issuers, consumers, revokers and other callers guarantees. */
module TicketGuarantees {
  import opened Wrappers
  import opened StateModel
  import opened TtlStore
  import opened TtlHistory
  import opened Base64Url
  import opened TicketModel
  import opened TicketService
  import opened TicketProtocol

  ghost predicate IsOutcome(w: World, t: nat, outcome: Outcome) {
    t in w.threads && w.threads[t].stage == Finished(outcome)
  }

  lemma StandsAtEnd(config: Config, w: World, t: nat)
    requires Sound(config, w) && t in w.threads
    ensures StageAfter(config, t, w.threads[t].goal, w.log[..|w.log|]) == w.threads[t].stage
  {
    assert Standing(config, w, t) && w.log[..|w.log|] == w.log;
  }

  lemma {:induction false} FinishedIsFinal(config: Config, w: World, t: nat, k: nat, n: nat)
    requires Sound(config, w) && t in w.threads && k <= n <= |w.log|
    requires StageAfter(config, t, w.threads[t].goal, w.log[..k]).Finished?
    ensures StageAfter(config, t, w.threads[t].goal, w.log[..n])
         == StageAfter(config, t, w.threads[t].goal, w.log[..k])
    decreases n
  {
    if k < n {
      FinishedIsFinal(config, w, t, k, n - 1);
      assert w.log[..n][..n - 1] == w.log[..n - 1] && Played(config, w, n - 1);
    }
  }

  // ----- issue -----

  /** A put that inserted, at `i`, and the read of the same entry, at `j`. */
  ghost predicate PutThenRead(config: Config, w: World, t: nat, i: nat, j: nat, secret: TicketSecret)
    requires t in w.threads && w.threads[t].goal.Issue?
  {
    var binding := w.threads[t].goal.binding;
    var key := KeyOf(config, binding.tenantScope, secret);
    && i < j < |w.log| && w.log[i].thread == t && w.log[j].thread == t
    && w.log[i].call == Put(key, config.format.write(FromBinding(binding)), config.ttl)
    && w.log[i].reply.Inserted?
    && w.log[j].call == Get(key)
  }

  lemma ReadFollowsPut(config: Config, w: World, t: nat, j: nat) returns (i: nat, secret: TicketSecret)
    requires Sound(config, w) && j < |w.log| && w.log[j].thread == t
    requires t in w.threads && w.threads[t].goal.Issue? && w.log[j].call.Get?
    ensures PutThenRead(config, w, t, i, j, secret)
    ensures StageAfter(config, t, w.threads[t].goal, w.log[..j]) == Checking(secret, w.log[i].reply.revision)
  {
    assert Played(config, w, j);
    secret := StageAfter(config, t, w.threads[t].goal, w.log[..j]).secret;
    i := LastEventOf(config, w, t, j);
  }

  lemma InsertedExpiry(config: Config, w: World, i: nat, j: nat)
    requires Sound(config, w) && i < j < |w.log| && w.log[i].call.Put? && w.log[i].reply.Inserted?
    requires w.log[j].reply.Found? && w.log[j].reply.entry.revision == w.log[i].reply.revision
    ensures ExpiryOf(w.log[i].now, w.log[i].call.ttl) == Ok(w.log[j].reply.entry.expiresAt)
    ensures w.log[j].now < w.log[j].reply.entry.expiresAt
  {
    var h, r := w.History(), w.log[i].reply.revision;
    StepOf(h, w.log, i);
    ExecuteByLiveness(h[i].data, w.log[i].call, w.log[i].now);
    assert h[i + 1].births[r - 1].entry.expiresAt == ExpiryOf(w.log[i].now, w.log[i].call.ttl).value;
    BirthsGrow(h, w.log, i + 1, |w.log|);
    UseIsLive(h, w.log, j, r);
  }

  /**
   * The read-back of `issue` succeeds exactly when it finds the revision the put inserted, and then nothing
   * underflows: the ticket is issued at the clock sample of its own put and expires whole milliseconds later,
   * strictly after the sample of the read.
   */
  lemma IssueArithmetic(config: Config, w: World, t: nat, j: nat) returns (i: nat, secret: TicketSecret)
    requires Sound(config, w) && j < |w.log| && w.log[j].thread == t
    requires t in w.threads && w.threads[t].goal.Issue? && w.log[j].call.Get?
    ensures PutThenRead(config, w, t, i, j, secret)
    ensures
      var reply, now, expiresAt := w.log[j].reply, w.log[i].now, w.log[i].now + AsMillis(config.ttl);
      if reply.Found? && reply.entry.revision == w.log[i].reply.revision then
        && w.log[j].now < expiresAt <= U64_MAX
        && IsOutcome(w, t, Issued(IssuedTicket(secret, config.hmac(secret.text), config.ttl, now, expiresAt)))
      else
        IsOutcome(w, t, Denied(StateUnavailable))
  {
    i, secret := ReadFollowsPut(config, w, t, j);
    var goal, reply := w.threads[t].goal, w.log[j].reply;
    assert w.log[..j + 1][..j] == w.log[..j];
    FinishedIsFinal(config, w, t, j + 1, |w.log|);
    StandsAtEnd(config, w, t);
    if reply.Found? && reply.entry.revision == w.log[i].reply.revision {
      InsertedExpiry(config, w, i, j);
    }
  }

  /** Every issued ticket came about that way. */
  lemma IssuedTicketsWereRead(config: Config, w: World, t: nat, issued: IssuedTicket) returns (i: nat, j: nat)
    requires Sound(config, w) && IsOutcome(w, t, Issued(issued))
    ensures w.threads[t].goal.Issue? && PutThenRead(config, w, t, i, j, issued.secret)
    ensures issued.digest == config.hmac(issued.secret.text) && issued.ttl == config.ttl
    ensures issued.issuedAt == w.log[i].now && issued.expiresAt == w.log[i].now + AsMillis(config.ttl)
    ensures w.log[j].now < issued.expiresAt
  {
    StandsAtEnd(config, w, t);
    j := LastEventOf(config, w, t, |w.log|);
    var secret;
    i, secret := IssueArithmetic(config, w, t, j);
  }

  /** The put of an issuer that is still trying, or has given up for collisions, found the key taken. */
  lemma {:induction false} CollisionsSoFar(config: Config, w: World, t: nat, k: nat, i: nat)
    requires Sound(config, w) && t in w.threads && w.threads[t].goal.Issue?
    requires i < k <= |w.log| && w.log[i].thread == t
    requires var stage := StageAfter(config, t, w.threads[t].goal, w.log[..k]);
      stage.Trying? || stage == Finished(Denied(TicketCollision))
    ensures w.log[i].call.Put? && w.log[i].reply.Existing?
    decreases k
  {
    assert w.log[..k][..k - 1] == w.log[..k - 1] && Played(config, w, k - 1);
    if i < k - 1 {
      CollisionsSoFar(config, w, t, k - 1, i);
    }
  }

  /** An `issue` that ends in a collision has left every entry and the revision counter as it found them. */
  lemma CollisionChangesNothing(config: Config, w: World, t: nat, i: nat)
    requires Sound(config, w) && IsOutcome(w, t, Denied(TicketCollision)) && w.threads[t].goal.Issue?
    requires i < |w.log| && w.log[i].thread == t
    ensures w.log[i].reply.Existing? && w.History()[i + 1] == w.History()[i]
  {
    StandsAtEnd(config, w, t);
    CollisionsSoFar(config, w, t, |w.log|, i);
    StepOf(w.History(), w.log, i);
    ExecuteByLiveness(w.History()[i].data, w.log[i].call, w.log[i].now);
  }

  function EventsOf(t: nat, log: seq<Event>): nat {
    if log == [] then 0
    else (EventsOf(t, log[..|log| - 1]) + if log[|log| - 1].thread == t then 1 else 0)
  }

  lemma AttemptCounts(config: Config, goal: Goal, n: nat)
    requires goal.Issue? && n <= MAX_GENERATION_ATTEMPTS
    requires forall i :: 0 <= i < |goal.draws| ==> goal.draws[i] != Err(TicketCollision)
    ensures var stage := Attempt(config, goal, n);
      && (stage.Trying? ==> stage.attempt == n < MAX_GENERATION_ATTEMPTS)
      && (stage == Finished(Denied(TicketCollision)) <==> n == MAX_GENERATION_ATTEMPTS)
  {
    if n < MAX_GENERATION_ATTEMPTS && n < |goal.draws| && goal.draws[n].Ok? {
      TransportIsExact(Encode(goal.draws[n].value), config.lenient);
    }
  }

  /** While it is trying, an issuer has made as many calls as failed attempts. */
  lemma {:induction false} AttemptsAreCounted(config: Config, w: World, t: nat, k: nat)
    requires Sound(config, w) && t in w.threads && w.threads[t].goal.Issue? && k <= |w.log|
    requires forall i :: 0 <= i < |w.threads[t].goal.draws| ==> w.threads[t].goal.draws[i] != Err(TicketCollision)
    ensures var stage := StageAfter(config, t, w.threads[t].goal, w.log[..k]);
      && (stage.Trying? ==> stage.attempt == EventsOf(t, w.log[..k]) < MAX_GENERATION_ATTEMPTS)
      && (stage == Finished(Denied(TicketCollision)) ==> EventsOf(t, w.log[..k]) == MAX_GENERATION_ATTEMPTS)
  {
    var goal := w.threads[t].goal;
    if k == 0 {
      AttemptCounts(config, goal, 0);
    } else {
      AttemptsAreCounted(config, w, t, k - 1);
      assert w.log[..k][..k - 1] == w.log[..k - 1] && Played(config, w, k - 1);
      var before := StageAfter(config, t, goal, w.log[..k - 1]);
      if w.log[k - 1].thread == t && before.Trying? {
        AttemptCounts(config, goal, before.attempt + 1);
      }
    }
  }

  /** A collision is reported after exactly four calls, none of which changed anything. */
  lemma CollisionAfterFourAttempts(config: Config, w: World, t: nat)
    requires Sound(config, w) && IsOutcome(w, t, Denied(TicketCollision)) && w.threads[t].goal.Issue?
    requires forall i :: 0 <= i < |w.threads[t].goal.draws| ==> w.threads[t].goal.draws[i] != Err(TicketCollision)
    ensures EventsOf(t, w.log) == MAX_GENERATION_ATTEMPTS
    ensures forall i :: 0 <= i < |w.log| && w.log[i].thread == t ==> w.History()[i + 1] == w.History()[i]
  {
    StandsAtEnd(config, w, t);
    AttemptsAreCounted(config, w, t, |w.log|);
    assert w.log[..|w.log|] == w.log;
    forall i | 0 <= i < |w.log| && w.log[i].thread == t
      ensures w.History()[i + 1] == w.History()[i]
    {
      CollisionChangesNothing(config, w, t, i);
    }
  }

  ghost predicate IsAtAttempt(config: Config, goal: Goal, stage: Stage, n: nat)
    requires goal.Issue?
  {
    stage.Trying? ==> n < MAX_GENERATION_ATTEMPTS && stage == Attempt(config, goal, n)
  }

  lemma NextAttempt(config: Config, goal: Goal, stage: Stage, n: nat, reply: TtlReply)
    requires goal.Issue? && NextCall(config, goal, stage).Some? && IsAtAttempt(config, goal, stage, n)
    ensures IsAtAttempt(config, goal, Resume(config, goal, stage, reply), n + 1)
  {
    if stage.Trying? {
      AttemptTries(config, goal, n);
    }
  }

  /** While it is trying, an issuer is at the attempt after its failed ones. */
  lemma {:induction false} TryingIsAttempt(config: Config, w: World, t: nat, k: nat)
    requires Sound(config, w) && t in w.threads && w.threads[t].goal.Issue? && k <= |w.log|
    ensures var goal := w.threads[t].goal;
      IsAtAttempt(config, goal, StageAfter(config, t, goal, w.log[..k]), EventsOf(t, w.log[..k]))
  {
    var goal := w.threads[t].goal;
    if k > 0 {
      TryingIsAttempt(config, w, t, k - 1);
      assert w.log[..k][..k - 1] == w.log[..k - 1] && Played(config, w, k - 1);
      if w.log[k - 1].thread == t {
        var before, n := StageAfter(config, t, goal, w.log[..k - 1]), EventsOf(t, w.log[..k - 1]);
        NextAttempt(config, goal, before, n, w.log[k - 1].reply);
      }
    }
  }

  /** Every put of an issuer is for the binding and for the secret that was drawn for this very attempt. */
  lemma PutsFollowDraws(config: Config, w: World, t: nat, i: nat)
    requires Sound(config, w) && i < |w.log| && w.log[i].thread == t
    requires t in w.threads && w.threads[t].goal.Issue? && w.log[i].call.Put?
    ensures var n, binding, draws := EventsOf(t, w.log[..i]), w.threads[t].goal.binding, w.threads[t].goal.draws;
      && n < MAX_GENERATION_ATTEMPTS && n < |draws| && draws[n].Ok?
      && w.log[i].call
         == Put(DrawnKey(config, binding, draws[n].value), config.format.write(FromBinding(binding)), config.ttl)
  {
    assert Played(config, w, i);
    TryingIsAttempt(config, w, t, i);
    AttemptTries(config, w.threads[t].goal, EventsOf(t, w.log[..i]));
  }

  /** A refused put ends the issue: as an encoding failure if the expiry cannot be computed, else as no state. */
  lemma RefusedPutIsDenied(config: Config, w: World, t: nat, i: nat)
    requires Sound(config, w) && i < |w.log| && w.log[i].thread == t
    requires t in w.threads && w.threads[t].goal.Issue? && w.log[i].call.Put? && w.log[i].reply.Refused?
    ensures
      if ExpiryOf(w.log[i].now, config.ttl).Err? then
        IsOutcome(w, t, Denied(EncodingFailure))
      else
        IsOutcome(w, t, Denied(StateUnavailable)) && w.History()[i].data.nextRevision == U64_MAX
  {
    PutsFollowDraws(config, w, t, i);
    assert Played(config, w, i);
    StepOf(w.History(), w.log, i);
    ExecuteByLiveness(w.History()[i].data, w.log[i].call, w.log[i].now);
    assert w.log[..i + 1][..i] == w.log[..i];
    FinishedIsFinal(config, w, t, i + 1, |w.log|);
    StandsAtEnd(config, w, t);
  }

  // ----- consume -----

  /** The read of a matching entry, at `i`, and the take of its revision, at `j`. */
  ghost predicate ReadThenTake(config: Config, w: World, t: nat, i: nat, j: nat)
    requires t in w.threads && w.threads[t].goal.Consume?
  {
    var goal := w.threads[t].goal;
    var key := KeyOf(config, goal.expected.tenantScope, goal.secret);
    && i < j < |w.log| && w.log[i].thread == t && w.log[j].thread == t
    && w.log[i].call == Get(key)
    && w.log[i].reply.Found?
    && CheckStored(config, w.log[i].reply.entry.value, goal.expected).Ok?
    && w.log[j].call == Take(key, w.log[i].reply.entry.revision)
  }

  lemma TakeFollowsRead(config: Config, w: World, t: nat, j: nat) returns (i: nat)
    requires Sound(config, w) && j < |w.log| && w.log[j].thread == t
    requires t in w.threads && w.threads[t].goal.Consume? && w.log[j].call.Take?
    ensures ReadThenTake(config, w, t, i, j)
    ensures StageAfter(config, t, w.threads[t].goal, w.log[..j]) == Claiming(w.log[i].reply.entry)
  {
    assert Played(config, w, j);
    i := LastEventOf(config, w, t, j);
  }

  /** Somebody took, revoked or extended the found revision at `m`, or ran on its key with a late sample. */
  ghost predicate Spoils(w: World, i: nat, m: nat)
    requires i < |w.log| && m < |w.log| && w.log[i].reply.Found?
  {
    Ends(w.log[m], Birth(w.log[i].call.key, w.log[i].reply.entry, 0))
  }

  /** A take of a found revision works exactly when nothing in between has ended it and its sample is in time. */
  lemma TakeDecided(w: World, i: nat, j: nat)
    requires IsHistory(w.History(), w.log) && i < j < |w.log| && w.log[i].reply.Found?
    requires w.log[j].call == Take(w.log[i].call.key, w.log[i].reply.entry.revision)
    ensures w.log[j].reply.Taken? <==>
      w.log[j].now < w.log[i].reply.entry.expiresAt && forall m :: i < m < j ==> !Spoils(w, i, m)
    ensures w.log[j].reply.Taken? ==> w.log[j].reply.value == w.log[i].reply.entry.value
  {
    var h, r := w.History(), w.log[i].reply.entry.revision;
    UseIsLive(h, w.log, i, r);
    if w.log[j].reply.Taken? {
      UseIsLive(h, w.log, j, r);
      forall m | i < m < j
        ensures !Spoils(w, i, m)
      {
        BirthsGrow(h, w.log, i + 1, m);
        BirthsGrow(h, w.log, m, |w.log|);
        if Spoils(w, i, m) {
          EndedIsRejected(h, w.log, m, j, r);
        }
      }
    } else {
      var m := RejectionHasACause(h, w.log, i, j);
      assert m < j ==> Spoils(w, i, m);
    }
  }

  /**
   * A consumer that found a matching entry is redeemed exactly when its take is in time and nobody ended that
   * revision in between; otherwise it is rejected. The value it takes is the one it read, so the second
   * decoding and matching never fails.
   */
  lemma ConsumeIsDecided(config: Config, w: World, t: nat, j: nat) returns (i: nat)
    requires Sound(config, w) && j < |w.log| && w.log[j].thread == t
    requires t in w.threads && w.threads[t].goal.Consume? && w.log[j].call.Take?
    ensures ReadThenTake(config, w, t, i, j)
    ensures
      var entry, expected := w.log[i].reply.entry, w.threads[t].goal.expected;
      if w.log[j].now < entry.expiresAt && forall m :: i < m < j ==> !Spoils(w, i, m) then
        w.log[j].reply == Taken(entry.value) && IsOutcome(w, t, Redeemed(ConsumedTicket(expected, entry.expiresAt)))
      else
        IsOutcome(w, t, Denied(TicketRejected))
  {
    i := TakeFollowsRead(config, w, t, j);
    TakeDecided(w, i, j);
    StepOf(w.History(), w.log, j);
    ExecuteByLiveness(w.History()[j].data, w.log[j].call, w.log[j].now);
    assert w.log[..j + 1][..j] == w.log[..j];
    FinishedIsFinal(config, w, t, j + 1, |w.log|);
    StandsAtEnd(config, w, t);
  }

  /**
   * Of two consumers that found the same revision, the one whose take comes first wins if its take is in time
   * and nobody ended the revision before; the other one is rejected.
   */
  lemma FirstTakeWins(config: Config, w: World, t: nat, u: nat, i: nat, j: nat, other: nat, k: nat)
    requires Sound(config, w) && t in w.threads && u in w.threads
    requires w.threads[t].goal.Consume? && ReadThenTake(config, w, t, i, j)
    requires w.threads[u].goal.Consume? && ReadThenTake(config, w, u, other, k)
    requires j < k && w.log[i].reply.entry.revision == w.log[other].reply.entry.revision
    requires w.log[j].now < w.log[i].reply.entry.expiresAt && forall m :: i < m < j ==> !Spoils(w, i, m)
    ensures IsOutcome(
      w, t, Redeemed(ConsumedTicket(w.threads[t].goal.expected, w.log[i].reply.entry.expiresAt)))
    ensures IsOutcome(w, u, Denied(TicketRejected))
  {
    var h, r := w.History(), w.log[i].reply.entry.revision;
    UseIsLive(h, w.log, i, r);
    UseIsLive(h, w.log, other, r);
    TakeDecided(w, i, j);
    var found := ConsumeIsDecided(config, w, t, j);
    TakeDecided(w, found, j);
    UseIsLive(h, w.log, found, r);
    if j < other {
      BirthsGrow(h, w.log, i + 1, j);
      BirthsGrow(h, w.log, j, |w.log|);
      EndedIsRejected(h, w.log, j, other, r);
    }
    assert Spoils(w, other, j);
    TakeDecided(w, other, k);
    found := ConsumeIsDecided(config, w, u, k);
    TakeDecided(w, found, k);
  }

  lemma RedeemedTicketsWereTaken(config: Config, w: World, t: nat, consumed: ConsumedTicket)
    returns (i: nat, j: nat)
    requires Sound(config, w) && IsOutcome(w, t, Redeemed(consumed))
    ensures w.threads[t].goal.Consume? && ReadThenTake(config, w, t, i, j) && w.log[j].reply.Taken?
    ensures consumed == ConsumedTicket(w.threads[t].goal.expected, w.log[i].reply.entry.expiresAt)
    ensures w.log[j].now < consumed.expiresAt
  {
    StandsAtEnd(config, w, t);
    j := LastEventOf(config, w, t, |w.log|);
    i := ConsumeIsDecided(config, w, t, j);
  }

  /** Event `j` takes something that goes back to the put at `p`. */
  ghost predicate TakesFrom(w: World, j: nat, p: nat) {
    && p < j < |w.log|
    && w.log[p].call.Put? && w.log[p].reply.Inserted?
    && w.log[j].call.Take? && w.log[j].reply.Taken? && 1 <= w.log[j].call.expected <= |w.moment.births|
    && w.moment.births[w.log[j].call.expected - 1].root == w.log[p].reply.revision
    && w.log[p].call.key == w.log[j].call.key
    && w.log[p].call.value == w.log[j].reply.value
  }

  lemma EveryTakeHasAPut(w: World, j: nat) returns (p: nat)
    requires IsHistory(w.History(), w.log) && j < |w.log| && w.log[j].reply.Taken?
    ensures TakesFrom(w, j, p)
  {
    var h := w.History();
    TakenOnce(h, w.log, j, j);
    UseIsLive(h, w.log, j, w.log[j].call.expected);
    BirthsGrow(h, w.log, j, |w.log|);
    p := EveryBirthHasAPut(h, w.log, j, w.log[j].call.expected);
  }

  /** Thread `t` was redeemed with what the put at `p` stored. */
  ghost predicate RedeemedFrom(config: Config, w: World, t: nat, p: nat) {
    && t in w.threads
    && w.threads[t].stage.Finished? && w.threads[t].stage.outcome.Redeemed?
    && exists j :: 0 <= j < |w.log| && w.log[j].thread == t && TakesFrom(w, j, p)
  }

  /** No put is redeemed by two calls, however they interleave and however often it was extended. */
  lemma SingleUse(config: Config, w: World, t: nat, u: nat, p: nat)
    requires Sound(config, w) && RedeemedFrom(config, w, t, p) && RedeemedFrom(config, w, u, p)
    ensures t == u
  {
    var i :| 0 <= i < |w.log| && w.log[i].thread == t && TakesFrom(w, i, p);
    var j :| 0 <= j < |w.log| && w.log[j].thread == u && TakesFrom(w, j, p);
    TakenOnce(w.History(), w.log, i, j);
  }

  /** Nobody but `issue` puts entries into the ticket namespace. */
  ghost predicate OnlyIssuePuts(w: World) {
    forall i :: 0 <= i < |w.log| && w.log[i].call.Put? && w.log[i].call.key.namespace == TICKET_NAMESPACE ==>
      w.log[i].thread in w.threads && w.threads[w.log[i].thread].goal.Issue?
  }

  ghost predicate NobodyExtends(w: World) {
    forall i :: 0 <= i < |w.log| && w.log[i].call.Extend? ==> w.log[i].call.key.namespace != TICKET_NAMESPACE
  }

  lemma MatchingValue(config: Config, binding: TicketBinding, expected: TicketBinding)
    requires config.format.RoundTrips()
    ensures CheckStored(config, config.format.write(FromBinding(binding)), expected).Ok? <==> binding == expected
  {
    MatchesOnlyItself(binding, expected, config.lenient);
  }

  /**
   * With a strict decoder, of all values only the one that `issue` writes for the binding is accepted. What cannot
   * be read, and tickets of other versions, are encoding failures; all others are rejected.
   */
  lemma AcceptedIsWritten(config: Config, value: TtlValue, expected: TicketBinding)
    requires !config.lenient
    ensures var stored := config.format.read(value);
      CheckStored(config, value, expected) ==
        if stored == Some(FromBinding(expected)) then Ok(())
        else if stored.None? || stored.value.version != STORED_TICKET_VERSION then Err(EncodingFailure)
        else Err(TicketRejected)
  {
    var stored := config.format.read(value);
    if stored.Some? && stored.value.version == STORED_TICKET_VERSION {
      MatchesStrictly(stored.value, expected);
    }
  }

  /**
   * When only `issue` puts tickets, a redeemed ticket was put by an earlier `issue` for exactly the expected
   * binding, with a secret of the same digest. If nobody extends tickets either, the expiry is that put's.
   */
  lemma RedeemedMeansIssued(config: Config, w: World, t: nat, consumed: ConsumedTicket) returns (p: nat)
    requires Sound(config, w) && IsOutcome(w, t, Redeemed(consumed))
    requires OnlyIssuePuts(w) && config.format.RoundTrips()
    ensures RedeemedFrom(config, w, t, p) && p < |w.log| && w.log[p].thread in w.threads
    ensures w.threads[t].goal.Consume?
    ensures w.threads[w.log[p].thread].goal.Issue?
    ensures w.threads[w.log[p].thread].goal.binding == w.threads[t].goal.expected == consumed.binding
    ensures exists secret: TicketSecret ::
      w.log[p].call.key == KeyOf(config, consumed.binding.tenantScope, secret) &&
      config.hmac(secret.text) == config.hmac(w.threads[t].goal.secret.text)
    ensures NobodyExtends(w) ==> consumed.expiresAt == w.log[p].now + AsMillis(config.ttl)
  {
    var i, j := RedeemedTicketsWereTaken(config, w, t, consumed);
    p := EveryTakeHasAPut(w, j);
    TakeDecided(w, i, j);
    var expected, issuer := w.threads[t].goal.expected, w.log[p].thread;
    assert w.log[p].call.key.namespace == TICKET_NAMESPACE && Played(config, w, p);
    MatchingValue(config, w.threads[issuer].goal.binding, expected);
    var secret := StageAfter(config, issuer, w.threads[issuer].goal, w.log[..p]).secret;
    EncodeIsInjective(config.hmac(secret.text), config.hmac(w.threads[t].goal.secret.text));
    if NobodyExtends(w) {
      ExpiryOfPut(config, w, i, j, p);
    }
  }

  lemma ExpiryOfPut(config: Config, w: World, i: nat, j: nat, p: nat)
    requires Sound(config, w) && TakesFrom(w, j, p) && NobodyExtends(w)
    requires w.log[j].call.key.namespace == TICKET_NAMESPACE
    requires i < |w.log| && w.log[i].reply.Found? && w.log[i].reply.entry.revision == w.log[j].call.expected
    ensures ExpiryOf(w.log[p].now, w.log[p].call.ttl) == Ok(w.log[i].reply.entry.expiresAt)
  {
    var h, r := w.History(), w.log[j].call.expected;
    UseIsLive(h, w.log, i, r);
    UseIsLive(h, w.log, j, r);
    var q := EveryBirthHasAnEvent(h, w.log, |w.log|, r);
    assert w.log[q].call.key == w.log[j].call.key && !w.log[q].call.Extend?;
    StepOf(h, w.log, p);
    ExecuteByLiveness(h[p].data, w.log[p].call, w.log[p].now);
    if i <= p {
      BirthsGrow(h, w.log, i, p);
    }
    InsertedExpiry(config, w, p, i);
  }

  // ----- revoke -----

  lemma RevokeCall(config: Config, w: World, t: nat, i: nat)
    requires Sound(config, w) && i < |w.log| && w.log[i].thread == t
    requires t in w.threads && w.threads[t].goal.Revoke?
    ensures w.log[i].call == Remove(KeyFor(w.threads[t].goal.scope, w.threads[t].goal.digest))
    ensures IsOutcome(w, t, Revoked(w.log[i].reply == Removed(Applied)))
    ensures forall k :: i < k < |w.log| ==> w.log[k].thread != t
  {
    var goal := w.threads[t].goal;
    assert Played(config, w, i);
    assert w.log[..i + 1][..i] == w.log[..i];
    FinishedIsFinal(config, w, t, i + 1, |w.log|);
    StandsAtEnd(config, w, t);
    forall k | i < k < |w.log|
      ensures w.log[k].thread != t
    {
      FinishedIsFinal(config, w, t, i + 1, k);
      assert Played(config, w, k);
    }
  }

  /**
   * A finished revoke has run one operation, the removal of its digest's entry. It reports exactly whether that
   * entry was live at its sample, and leaves nothing under the key.
   */
  lemma RevokeIsDecided(config: Config, w: World, t: nat) returns (i: nat)
    requires Sound(config, w) && t in w.threads && w.threads[t].goal.Revoke? && w.threads[t].stage.Finished?
    ensures i < |w.log| && forall k :: 0 <= k < |w.log| ==> (w.log[k].thread == t <==> k == i)
    ensures var key := KeyFor(w.threads[t].goal.scope, w.threads[t].goal.digest);
      && w.log[i].call == Remove(key)
      && IsOutcome(w, t, Revoked(IsLive(w.History()[i].data, key, w.log[i].now)))
      && w.History()[i + 1].data == Without(w.History()[i].data, key)
  {
    StandsAtEnd(config, w, t);
    i := LastEventOf(config, w, t, |w.log|);
    RevokeCall(config, w, t, i);
    forall k | 0 <= k < i
      ensures w.log[k].thread != t
    {
      if w.log[k].thread == t {
        RevokeCall(config, w, t, k);
      }
    }
    StepOf(w.History(), w.log, i);
    ExecuteByLiveness(w.History()[i].data, w.log[i].call, w.log[i].now);
  }

  /** After a revoke at `i`, no revision that its key has held before is found, extended or taken. */
  lemma RevokedIsGone(config: Config, w: World, t: nat, i: nat, j: nat, r: nat)
    requires Sound(config, w) && t in w.threads && w.threads[t].goal.Revoke?
    requires i < j < |w.log| && w.log[i].thread == t && 1 <= r <= |w.History()[i].births|
    requires w.History()[i].births[r - 1].key == KeyFor(w.threads[t].goal.scope, w.threads[t].goal.digest)
    ensures !Uses(w.log[j], r)
  {
    RevokeCall(config, w, t, i);
    StepOf(w.History(), w.log, i);
    EndedIsRejected(w.History(), w.log, i, j, r);
  }

  /** What was put before a removal of its key is not taken after it. */
  lemma RemovedIsNotTaken(w: World, i: nat, j: nat, p: nat)
    requires IsHistory(w.History(), w.log) && i < |w.log| && TakesFrom(w, j, p)
    requires w.log[i].call == Remove(w.log[j].call.key)
    ensures j < i || i < p
  {
    var h, root := w.History(), w.log[p].reply.revision;
    if p < i < j {
      StepOf(h, w.log, p);
      ExecuteByLiveness(h[p].data, w.log[p].call, w.log[p].now);
      StepBears(h[p], w.log[p], h[p + 1]);
      BirthsGrow(h, w.log, p + 1, i + 1);
      StepOf(h, w.log, i);
      ExecuteByLiveness(h[i].data, w.log[i].call, w.log[i].now);
      AbsenceIsForever(h, w.log, i + 1, j, root);
      TakeAt(h, w.log, j);
    }
  }

  /**
   * A ticket that was redeemed although its digest was revoked was either redeemed before the revoke got to the
   * store or put there after it.
   */
  lemma RevokedIsNotRedeemed(config: Config, w: World, t: nat, u: nat, consumed: ConsumedTicket)
    returns (i: nat, j: nat, p: nat)
    requires Sound(config, w) && IsOutcome(w, u, Redeemed(consumed)) && w.threads[u].goal.Consume?
    requires t in w.threads && w.threads[t].goal.Revoke? && w.threads[t].stage.Finished?
    requires w.threads[t].goal.scope == w.threads[u].goal.expected.tenantScope
    requires w.threads[t].goal.digest == config.hmac(w.threads[u].goal.secret.text)
    ensures i < |w.log| && w.log[i].thread == t
    ensures j < |w.log| && w.log[j].thread == u && TakesFrom(w, j, p)
    ensures j < i || i < p
  {
    i := RevokeIsDecided(config, w, t);
    var found;
    found, j := RedeemedTicketsWereTaken(config, w, u, consumed);
    p := EveryTakeHasAPut(w, j);
    RemovedIsNotTaken(w, i, j, p);
  }

  // ----- with nobody else at the store -----

  /** The ticket is in the store, for its binding and until its expiry. */
  predicate Holds(config: Config, data: TtlData, binding: TicketBinding, issued: IssuedTicket) {
    var key := KeyOf(config, binding.tenantScope, issued.secret);
    && key in data.entries
    && data.entries[key].value == config.format.write(FromBinding(binding))
    && data.entries[key].expiresAt == issued.expiresAt
  }

  lemma IssuedIsHeld(config: Config, goal: Goal, data: TtlData, now: U64)
    requires goal.Issue?
    ensures var (stored, stage) := RunAlone(config, goal, Start(config, goal), data, now);
      stage.Finished? && stage.outcome.Issued? ==> Holds(config, stored, goal.binding, stage.outcome.issued)
  {
    IssueAlone(config, goal, 0, data, now);
  }

  /** A consume on its own: it is redeemed, and the entry removed, exactly for a live entry that matches. */
  lemma ConsumeAlone(config: Config, secret: TicketSecret, expected: TicketBinding, data: TtlData, now: U64)
    ensures
      var key := KeyOf(config, expected.tenantScope, secret);
      var (after, stage) := RunAlone(config, Consume(secret, expected), Looking, data, now);
      if !IsLive(data, key, now) then
        after == Without(data, key) && stage == Finished(Denied(TicketRejected))
      else match CheckStored(config, data.entries[key].value, expected)
        case Err(error) => after == data && stage == Finished(Denied(error))
        case Ok(_) =>
          && after == Without(data, key)
          && stage == Finished(Redeemed(ConsumedTicket(expected, data.entries[key].expiresAt)))
  {
    var goal, key := Consume(secret, expected), KeyOf(config, expected.tenantScope, secret);
    ExecuteByLiveness(data, Get(key), now);
    var (got, found) := Execute(data, Get(key), now);
    RunStep(config, goal, Looking, data, now, got, found);
    if found.Found? && CheckStored(config, found.entry.value, expected).Ok? {
      var take := Take(key, found.entry.revision);
      ExecuteByLiveness(got, take, now);
      var (after, taken) := Execute(got, take, now);
      RunStep(config, goal, Claiming(found.entry), got, now, after, taken);
    }
  }

  /**
   * An issued ticket is consumed once by its own binding before its expiry; a wrong binding of the same tenant
   * is rejected and leaves it in place, and after the expiry or a first consume it is rejected for good.
   */
  lemma IssuedTicketIsConsumedOnce(
      config: Config, goal: Goal, data: TtlData, now: U64, expected: TicketBinding, later: U64, last: U64)
    requires goal.Issue? && config.format.RoundTrips()
    requires var (_, stage) := RunAlone(config, goal, Start(config, goal), data, now);
      stage.Finished? && stage.outcome.Issued?
    requires expected.tenantScope == goal.binding.tenantScope
    ensures
      var (stored, stage) := RunAlone(config, goal, Start(config, goal), data, now);
      var issued := stage.outcome.issued;
      var consume := Consume(issued.secret, expected);
      var (after, end) := RunAlone(config, consume, Looking, stored, later);
      if later < issued.expiresAt && expected == goal.binding then
        && end == Finished(Redeemed(ConsumedTicket(expected, issued.expiresAt)))
        && RunAlone(config, consume, Looking, after, last).1 == Finished(Denied(TicketRejected))
      else
        && end == Finished(Denied(TicketRejected))
        && (later < issued.expiresAt ==> after == stored)
  {
    IssuedIsHeld(config, goal, data, now);
    var (stored, stage) := RunAlone(config, goal, Start(config, goal), data, now);
    var secret := stage.outcome.issued.secret;
    ConsumeAlone(config, secret, expected, stored, later);
    var (after, end) := RunAlone(config, Consume(secret, expected), Looking, stored, later);
    ConsumeAlone(config, secret, expected, after, last);
    MatchingValue(config, goal.binding, expected);
    assert CheckStored(config, config.format.write(FromBinding(goal.binding)), expected).Err? ==>
      CheckStored(config, config.format.write(FromBinding(goal.binding)), expected) == Err(TicketRejected);
  }
}
