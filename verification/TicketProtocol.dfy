/**
 * Any number of service calls on one store, interleaved operation by operation. A call samples the clock in one
 * move and runs its locked section in a later one, so that clock advances and other calls come in between.
 */
module TicketProtocol {
  import opened Wrappers
  import opened StateModel
  import opened TtlStore
  import opened TtlHistory
  import opened TicketService

  /** One service call: where it stands, and the clock sample it holds if it is on its way to the lock. */
  datatype Thread = Thread(goal: Goal, stage: Stage, sample: Option<U64>)

  datatype World = World(time: U64, threads: map<nat, Thread>, past: seq<Moment>, moment: Moment, log: seq<Event>) {
    function History(): seq<Moment> {
      past + [moment]
    }
  }

  datatype Move =
    | Spawn(thread: nat, goal: Goal)
    | Advance(duration: Duration)
    | Sample(thread: nat)
    | Lock(thread: nat)

  function Initial(time: U64): World {
    World(time, map[], [], START, [])
  }

  /** One move; a move that is not possible changes nothing. */
  function Step(config: Config, w: World, move: Move): World {
    match move
    case Spawn(t, goal) =>
      if t in w.threads then w
      else w.(threads := w.threads[t := Thread(goal, Start(config, goal), None)])
    case Advance(duration) =>
      (match AddDuration(w.time, duration)
       case Err(_) => w
       case Ok(time) => w.(time := time))
    case Sample(t) =>
      if t in w.threads && w.threads[t].sample.None? && NextCall(config, w.threads[t].goal, w.threads[t].stage).Some?
      then
        w.(threads := w.threads[t := w.threads[t].(sample := Some(w.time))])
      else
        w
    case Lock(t) =>
      if t in w.threads && w.threads[t].sample.Some? then Locked(config, w, t) else w
  }

  function Locked(config: Config, w: World, t: nat): World
    requires t in w.threads && w.threads[t].sample.Some?
  {
    var thread := w.threads[t];
    match NextCall(config, thread.goal, thread.stage)
    case None => w
    case Some(call) =>
      var (data, reply) := Execute(w.moment.data, call, thread.sample.value);
      var event := Event(t, call, thread.sample.value, reply);
      World(
        w.time,
        w.threads[t := Thread(thread.goal, Resume(config, thread.goal, thread.stage, reply), None)],
        w.past + [w.moment],
        Moment(data, BirthsThen(w.moment, event, data)),
        w.log + [event])
  }

  function After(config: Config, time: U64, moves: seq<Move>): World {
    if moves == [] then Initial(time)
    else Step(config, After(config, time, moves[..|moves| - 1]), moves[|moves| - 1])
  }

  /** The stage that the replies to thread `t` in the log have brought it to. */
  function StageAfter(config: Config, t: nat, goal: Goal, log: seq<Event>): Stage {
    if log == [] then
      Start(config, goal)
    else
      var last, stage := log[|log| - 1], StageAfter(config, t, goal, log[..|log| - 1]);
      if last.thread == t then Resume(config, goal, stage, last.reply) else stage
  }

  /** Event `i` is the call its thread had come to. */
  ghost predicate Played(config: Config, w: World, i: nat)
    requires i < |w.log|
  {
    var event := w.log[i];
    && event.thread in w.threads
    && event.now <= w.time
    && var goal := w.threads[event.thread].goal;
       NextCall(config, goal, StageAfter(config, event.thread, goal, w.log[..i])) == Some(event.call)
  }

  ghost predicate Standing(config: Config, w: World, t: nat)
    requires t in w.threads
  {
    && w.threads[t].stage == StageAfter(config, t, w.threads[t].goal, w.log)
    && (w.threads[t].sample.Some? ==> w.threads[t].sample.value <= w.time)
  }

  /** What every reachable world keeps: the log is a run of the store and explains where each thread stands. */
  ghost predicate Sound(config: Config, w: World) {
    && IsHistory(w.History(), w.log)
    && (forall i :: 0 <= i < |w.log| ==> Played(config, w, i))
    && (forall t :: t in w.threads ==> Standing(config, w, t))
  }

  lemma {:induction false} NoEventsNoProgress(config: Config, t: nat, goal: Goal, log: seq<Event>)
    requires forall event :: event in log ==> event.thread != t
    ensures StageAfter(config, t, goal, log) == Start(config, goal)
  {
    if log != [] {
      NoEventsNoProgress(config, t, goal, log[..|log| - 1]);
    }
  }

  lemma HistoryExtends(h: seq<Moment>, log: seq<Event>, event: Event, after: Moment)
    requires IsHistory(h, log) && Follows(h[|log|], event, after)
    ensures IsHistory(h + [after], log + [event])
  {
    forall i | 0 <= i < |log + [event]|
      ensures FollowsAt(h + [after], log + [event], i)
    {
      assert i < |log| ==> FollowsAt(h, log, i);
    }
  }

  lemma LockedKeepsSound(config: Config, w: World, t: nat)
    requires Sound(config, w) && t in w.threads && w.threads[t].sample.Some?
    ensures Sound(config, Locked(config, w, t))
  {
    var next := Locked(config, w, t);
    if next != w {
      var event := next.log[|w.log|];
      HistoryExtends(w.History(), w.log, event, next.moment);
      assert next.threads.Keys == w.threads.Keys;
      assert next.log[..|w.log|] == w.log && Standing(config, w, t);
      forall i | 0 <= i < |next.log|
        ensures Played(config, next, i)
      {
        if i < |w.log| {
          assert Played(config, w, i) && next.log[..i] == w.log[..i];
        }
      }
      forall u | u in next.threads
        ensures Standing(config, next, u)
      {
        assert Standing(config, w, u);
      }
    }
  }

  lemma StepKeepsSound(config: Config, w: World, move: Move)
    requires Sound(config, w)
    ensures Sound(config, Step(config, w, move))
  {
    var next := Step(config, w, move);
    if move.Lock? {
      if move.thread in w.threads && w.threads[move.thread].sample.Some? {
        LockedKeepsSound(config, w, move.thread);
      }
    } else {
      forall i | 0 <= i < |next.log|
        ensures Played(config, next, i)
      {
        assert Played(config, w, i);
      }
      forall t | t in next.threads
        ensures Standing(config, next, t)
      {
        if t in w.threads {
          assert Standing(config, w, t);
        } else {
          forall event | event in w.log
            ensures event.thread != t
          {
            var i :| 0 <= i < |w.log| && w.log[i] == event;
            assert Played(config, w, i);
          }
          NoEventsNoProgress(config, t, next.threads[t].goal, w.log);
        }
      }
    }
  }

  lemma {:induction false} EveryWorldIsSound(config: Config, time: U64, moves: seq<Move>)
    ensures Sound(config, After(config, time, moves))
  {
    if moves != [] {
      EveryWorldIsSound(config, time, moves[..|moves| - 1]);
      StepKeepsSound(config, After(config, time, moves[..|moves| - 1]), moves[|moves| - 1]);
    }
  }

  /** The event that brought a thread to a stage it did not start in; it is the thread's last one so far. */
  lemma {:induction false} LastEvent(config: Config, t: nat, goal: Goal, log: seq<Event>) returns (i: nat)
    requires StageAfter(config, t, goal, log) != Start(config, goal)
    ensures i < |log| && log[i].thread == t
    ensures StageAfter(config, t, goal, log)
         == Resume(config, goal, StageAfter(config, t, goal, log[..i]), log[i].reply)
    decreases |log|
  {
    var shorter := log[..|log| - 1];
    if log[|log| - 1].thread == t {
      i := |log| - 1;
    } else {
      i := LastEvent(config, t, goal, shorter);
      assert shorter[..i] == log[..i];
    }
  }

  lemma LastEventOf(config: Config, w: World, t: nat, k: nat) returns (i: nat)
    requires Sound(config, w) && t in w.threads && k <= |w.log|
    requires StageAfter(config, t, w.threads[t].goal, w.log[..k]) != Start(config, w.threads[t].goal)
    ensures i < k && w.log[i].thread == t
    ensures var goal := w.threads[t].goal;
      var stage := StageAfter(config, t, goal, w.log[..i]);
      && StageAfter(config, t, goal, w.log[..k]) == Resume(config, goal, stage, w.log[i].reply)
      && NextCall(config, goal, stage) == Some(w.log[i].call)
  {
    i := LastEvent(config, t, w.threads[t].goal, w.log[..k]);
    assert w.log[..k][..i] == w.log[..i] && Played(config, w, i);
  }

  // ----- clocks -----

  lemma {:induction false} TimeIsMonotone(config: Config, time: U64, moves: seq<Move>, m: nat)
    requires m <= |moves|
    ensures After(config, time, moves[..m]).time <= After(config, time, moves).time
    decreases |moves|
  {
    if m == |moves| {
      assert moves[..m] == moves;
    } else {
      var init := moves[..|moves| - 1];
      TimeIsMonotone(config, time, init, m);
      assert init[..m] == moves[..m];
    }
  }

  /** Thread `t` read this off the clock in a move of its own, and then ran nothing before place `i` of the log. */
  ghost predicate IsReading(config: Config, time: U64, moves: seq<Move>, t: nat, now: U64, log: seq<Event>, i: nat)
    requires i <= |log|
  {
    exists m: nat ::
      && m < |moves| && moves[m] == Sample(t)
      && var seen := After(config, time, moves[..m]);
      && seen.time == now && |seen.log| <= i
      && forall k :: |seen.log| <= k < i ==> log[k].thread != t
  }

  lemma ReadingStays(
      config: Config, time: U64, moves: seq<Move>, t: nat, now: U64, log: seq<Event>, i: nat, longer: seq<Event>,
      j: nat)
    requires moves != [] && i <= |log| && IsReading(config, time, moves[..|moves| - 1], t, now, log, i)
    requires i <= j <= |longer| && log[..i] == longer[..i] && forall k :: i <= k < j ==> longer[k].thread != t
    ensures IsReading(config, time, moves, t, now, longer, j)
  {
    var init := moves[..|moves| - 1];
    var m: nat :|
      && m < |init| && init[m] == Sample(t)
      && var seen := After(config, time, init[..m]);
      && seen.time == now && |seen.log| <= i
      && forall k :: |seen.log| <= k < i ==> log[k].thread != t;
    assert init[..m] == moves[..m] && moves[m] == Sample(t);
    var seen := After(config, time, moves[..m]);
    forall k | |seen.log| <= k < j
      ensures longer[k].thread != t
    {
      assert k < i ==> log[..i][k] == longer[..i][k];
    }
  }

  /** A move appends at most one event, of the thread whose sample it uses up. */
  lemma LogGrows(config: Config, w: World, move: Move)
    ensures var next := Step(config, w, move);
      && |w.log| <= |next.log| <= |w.log| + 1
      && (forall i :: 0 <= i <= |w.log| ==> next.log[..i] == w.log[..i])
      && (forall i :: 0 <= i < |w.log| ==> next.log[i] == w.log[i])
      && (|next.log| > |w.log| ==>
           && move.Lock? && move.thread in w.threads && w.threads[move.thread].sample.Some?
           && next.log[|w.log|].thread == move.thread
           && next.log[|w.log|].now == w.threads[move.thread].sample.value)
  {
  }

  /** Every clock sample, of an event or of a thread on its way to the lock, is such a reading. */
  ghost predicate AreReadings(config: Config, time: U64, moves: seq<Move>, w: World) {
    && (forall t :: t in w.threads && w.threads[t].sample.Some? ==>
         IsReading(config, time, moves, t, w.threads[t].sample.value, w.log, |w.log|))
    && (forall i :: 0 <= i < |w.log| ==> IsReading(config, time, moves, w.log[i].thread, w.log[i].now, w.log, i))
  }

  lemma EventIsReading(config: Config, time: U64, moves: seq<Move>, i: nat)
    requires moves != []
    requires var init := moves[..|moves| - 1]; AreReadings(config, time, init, After(config, time, init))
    requires i < |After(config, time, moves).log|
    ensures var log := After(config, time, moves).log; IsReading(config, time, moves, log[i].thread, log[i].now, log, i)
  {
    var init := moves[..|moves| - 1];
    var before, w := After(config, time, init), After(config, time, moves);
    var t, now := w.log[i].thread, w.log[i].now;
    LogGrows(config, before, moves[|moves| - 1]);
    assert i == |before.log| ==> t in before.threads && before.threads[t].sample == Some(now);
    assert IsReading(config, time, init, t, now, before.log, i);
    ReadingStays(config, time, moves, t, now, before.log, i, w.log, i);
  }

  lemma SampleIsReading(config: Config, time: U64, moves: seq<Move>, t: nat)
    requires moves != []
    requires var init := moves[..|moves| - 1]; AreReadings(config, time, init, After(config, time, init))
    requires var w := After(config, time, moves); t in w.threads && w.threads[t].sample.Some?
    ensures var w := After(config, time, moves);
      IsReading(config, time, moves, t, w.threads[t].sample.value, w.log, |w.log|)
  {
    var init := moves[..|moves| - 1];
    var before, w := After(config, time, init), After(config, time, moves);
    LogGrows(config, before, moves[|moves| - 1]);
    if t in before.threads && before.threads[t].sample == w.threads[t].sample {
      var now := before.threads[t].sample.value;
      assert IsReading(config, time, init, t, now, before.log, |before.log|);
      ReadingStays(config, time, moves, t, now, before.log, |before.log|, w.log, |w.log|);
    } else {
      assert moves[|init|] == Sample(t) && moves[..|init|] == init && w.log == before.log;
    }
  }

  /** In every world the samples are what the threads themselves read off the clock after their last operation. */
  lemma {:induction false} SamplesAreReadings(config: Config, time: U64, moves: seq<Move>)
    ensures AreReadings(config, time, moves, After(config, time, moves))
  {
    if moves != [] {
      var w := After(config, time, moves);
      SamplesAreReadings(config, time, moves[..|moves| - 1]);
      forall i | 0 <= i < |w.log|
        ensures IsReading(config, time, moves, w.log[i].thread, w.log[i].now, w.log, i)
      {
        EventIsReading(config, time, moves, i);
      }
      forall t | t in w.threads && w.threads[t].sample.Some?
        ensures IsReading(config, time, moves, t, w.threads[t].sample.value, w.log, |w.log|)
      {
        SampleIsReading(config, time, moves, t);
      }
    }
  }

  // ----- a call with nobody in between -----

  /** More moves from a world on. */
  function Moved(config: Config, w: World, moves: seq<Move>): World
    decreases |moves|
  {
    if moves == [] then w else Moved(config, Step(config, w, moves[0]), moves[1..])
  }

  lemma {:induction false} MovedIsReached(config: Config, time: U64, moves: seq<Move>, more: seq<Move>)
    ensures After(config, time, moves + more) == Moved(config, After(config, time, moves), more)
    decreases |more|
  {
    if more == [] {
      assert moves + more == moves;
    } else {
      var next := moves + [more[0]];
      assert next[..|next| - 1] == moves;
      MovedIsReached(config, time, next, more[1..]);
      assert moves + more == next + more[1..];
    }
  }

  /** The world once thread `t` alone has gone on as far as it can. */
  ghost predicate IsRunAlone(config: Config, w: World, t: nat, after: World)
    requires t in w.threads
  {
    var thread := w.threads[t];
    var (data, stage) := RunAlone(config, thread.goal, thread.stage, w.moment.data, w.time);
    && after.time == w.time && after.moment.data == data
    && after.threads == w.threads[t := Thread(thread.goal, stage, None)]
  }

  /** One operation of a thread that gets the lock at once. */
  lemma OneAlone(config: Config, w: World, t: nat) returns (locked: World)
    requires t in w.threads && w.threads[t].sample.None?
    requires NextCall(config, w.threads[t].goal, w.threads[t].stage).Some?
    ensures locked == Step(config, Step(config, w, Sample(t)), Lock(t))
    ensures t in locked.threads && locked.time == w.time
    ensures var thread, (data, reply) :=
        w.threads[t],
        Execute(w.moment.data, NextCall(config, w.threads[t].goal, w.threads[t].stage).value, w.time);
      && locked.moment.data == data
      && locked.threads
         == w.threads[t := Thread(thread.goal, Resume(config, thread.goal, thread.stage, reply), None)]
  {
    locked := Step(config, Step(config, w, Sample(t)), Lock(t));
  }

  /** A thread that always gets the lock at once does what `RunAlone` says. */
  lemma {:induction false} RunsAlone(config: Config, w: World, t: nat) returns (moves: seq<Move>)
    requires t in w.threads && w.threads[t].sample.None?
    ensures IsRunAlone(config, w, t, Moved(config, w, moves))
    decreases Rank(w.threads[t].stage)
  {
    var thread := w.threads[t];
    if NextCall(config, thread.goal, thread.stage).None? {
      moves := [];
      assert w.threads[t := thread] == w.threads;
    } else {
      var locked := OneAlone(config, w, t);
      var more := RunsAlone(config, locked, t);
      moves := [Sample(t), Lock(t)] + more;
      assert moves[1..] == [Lock(t)] + more && moves[1..][1..] == more;
    }
  }
}
