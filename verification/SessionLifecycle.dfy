/** The session state machine of `crates/qingyin-types/src/lib.rs`. */
module SessionLifecycle {

  datatype SessionState =
    | Created
    | Authorized
    | Routing
    | Leased
    | Connecting
    | Active
    | Draining
    | Retrying
    | Completed
    | Cancelled
    | Expired
    | Failed
  {
    predicate IsTerminal() {
      Completed? || Cancelled? || Expired? || Failed?
    }

    predicate CanTransitionTo(next: SessionState) {
      if IsTerminal() then
        false
      else if next.Cancelled? || next.Expired? || next.Failed? then
        true
      else
        match this
        case Created => next.Authorized?
        case Authorized => next.Routing?
        case Routing => next.Leased?
        case Leased => next.Connecting?
        case Connecting => next.Active?
        case Active => next.Draining? || next.Retrying?
        case Retrying => next.Active?
        case Draining => next.Completed?
        case _ => false
    }
  }

  /** A non-empty walk through the state machine, one entry per state visited. */
  ghost predicate IsPath(path: seq<SessionState>) {
    && path != []
    && forall i :: 0 <= i < |path| - 1 ==> path[i].CanTransitionTo(path[i + 1])
  }

  function CountRetrying(path: seq<SessionState>): nat {
    if path == [] then 0 else (if path[0].Retrying? then 1 else 0) + CountRetrying(path[1..])
  }

  /** Active, then `k` excursions through Retrying, then the normal end. */
  function ActiveTail(k: nat): seq<SessionState> {
    if k == 0 then [Active, Draining, Completed] else [Active, Retrying] + ActiveTail(k - 1)
  }

  /** The only ways from Created to Completed: six fixed states in order with `k` excursions from Active. */
  function CompletionPath(k: nat): seq<SessionState> {
    OPENING[..5] + ActiveTail(k)
  }

  lemma SplitPath(path: seq<SessionState>, i: nat)
    requires IsPath(path) && i < |path|
    ensures IsPath(path[i..])
    ensures i + 1 < |path| ==> !path[i].IsTerminal()
  {
    var tail := path[i..];
    forall j | 0 <= j < |tail| - 1
      ensures tail[j].CanTransitionTo(tail[j + 1])
    {
      assert tail[j] == path[i + j] && tail[j + 1] == path[i + j + 1];
    }
    if i + 1 < |path| {
      assert path[i].CanTransitionTo(path[i + 1]);
    }
  }

  /** Cancelled, Expired and Failed have no successor, so a path that ends in Completed never visits them. */
  lemma BeforeCompletion(path: seq<SessionState>, i: nat)
    requires IsPath(path) && path[|path| - 1] == Completed && i < |path|
    ensures i + 1 < |path| ==> !path[i].IsTerminal()
    ensures path[i].IsTerminal() ==> path[i].Completed? && i == |path| - 1
  {
    SplitPath(path, i);
  }

  lemma {:induction false} CountRetryingConcat(a: seq<SessionState>, b: seq<SessionState>)
    ensures CountRetrying(a + b) == CountRetrying(a) + CountRetrying(b)
    ensures Retrying !in a ==> CountRetrying(a) == 0
  {
    if a == [] {
      assert a + b == b;
    } else {
      assert (a + b)[1..] == a[1..] + b;
      CountRetryingConcat(a[1..], b);
    }
  }

  lemma {:induction false} PathFromActive(path: seq<SessionState>)
    requires IsPath(path) && path[0] == Active && path[|path| - 1] == Completed
    ensures path == ActiveTail(CountRetrying(path))
    decreases |path|
  {
    BeforeCompletion(path, 1);
    assert path[0].CanTransitionTo(path[1]);
    assert path[1].CanTransitionTo(path[2]);
    BeforeCompletion(path, 2);
    if path[1].Draining? {
      assert path == [Active, Draining, Completed];
      CountRetryingConcat(path, []);
    } else {
      SplitPath(path, 2);
      PathFromActive(path[2..]);
      assert path == [Active, Retrying] + path[2..];
      CountRetryingConcat([Active, Retrying], path[2..]);
      assert [Active, Retrying][1..] == [Retrying];
    }
  }

  /**
   * A session that runs from Created to Completed passes Authorized, Routing, Leased, Connecting, Active and
   * Draining in that order, and makes exactly 7 + 2k transitions for k visits to Retrying.
   */
  lemma CreatedToCompleted(path: seq<SessionState>)
    requires IsPath(path) && path[0] == Created && path[|path| - 1] == Completed
    ensures path == CompletionPath(CountRetrying(path))
    ensures |path| == 8 + 2 * CountRetrying(path)
  {
    Opening(path, 5);
    SplitPath(path, 5);
    assert path[5] == path[..6][5];
    PathFromActive(path[5..]);
    JoinedAtSix(path, OPENING);
    RetryingInCompletion(CountRetrying(path[5..]));
  }

  lemma JoinedAtSix(path: seq<SessionState>, opening: seq<SessionState>)
    requires |path| >= 6 && |opening| == 6 && path[..6] == opening[..6]
    ensures path == opening[..5] + path[5..]
  {
    assert path[..5] == path[..6][..5] == opening[..5];
  }

  const OPENING: seq<SessionState> := [Created, Authorized, Routing, Leased, Connecting, Active]

  lemma {:induction false} Opening(path: seq<SessionState>, i: nat)
    requires IsPath(path) && path[0] == Created && path[|path| - 1] == Completed && i <= 5
    ensures i < |path| && path[..i + 1] == OPENING[..i + 1]
  {
    if i > 0 {
      Opening(path, i - 1);
      assert path[i - 1] == path[..i][i - 1] == OPENING[i - 1];
      assert path[i - 1].CanTransitionTo(path[i]);
      BeforeCompletion(path, i);
    }
  }

  lemma {:induction false} RetryingInCompletion(k: nat)
    ensures CountRetrying(CompletionPath(k)) == CountRetrying(ActiveTail(k)) == k
    ensures |CompletionPath(k)| == 8 + 2 * k
  {
    if k == 0 {
      assert ActiveTail(0)[1..] == [Draining, Completed];
    } else {
      RetryingInCompletion(k - 1);
      assert ActiveTail(k)[1..] == [Retrying] + ActiveTail(k - 1);
      assert ActiveTail(k)[1..][1..] == ActiveTail(k - 1);
    }
    assert CompletionPath(k) == OPENING[..5] + ActiveTail(k);
    CountRetryingConcat(OPENING[..5], ActiveTail(k));
  }

  /** Every such shape is reachable: the description of completed sessions is exact. */
  lemma {:induction false} CompletionPathIsPath(k: nat)
    ensures IsPath(ActiveTail(k)) && IsPath(CompletionPath(k))
    ensures ActiveTail(k)[0] == Active && ActiveTail(k)[|ActiveTail(k)| - 1] == Completed
  {
    if k > 0 {
      CompletionPathIsPath(k - 1);
    }
  }

  // ----- every path of a new session -----

  /** The state after `i` steps of a session that has not been asked to end. */
  function RunningAt(i: nat): SessionState {
    if i < 5 then OPENING[i] else if i % 2 == 1 then Active else Retrying
  }

  function Running(n: nat): seq<SessionState> {
    seq(n, i requires 0 <= i < n => RunningAt(i))
  }

  predicate IsInterruption(s: SessionState) {
    s == Cancelled || s == Expired || s == Failed
  }

  /** How a session goes on from its last running state: not at all, interrupted, or from Active to its end. */
  predicate IsEnding(last: SessionState, ending: seq<SessionState>) {
    || ending == []
    || (|ending| == 1 && IsInterruption(ending[0]))
    || (last == Active && ending == [Draining])
    || (last == Active && |ending| == 2 && ending[0] == Draining
        && (ending[1] == Completed || IsInterruption(ending[1])))
  }

  ghost predicate IsCourse(path: seq<SessionState>, n: nat, ending: seq<SessionState>) {
    n > 0 && IsEnding(RunningAt(n - 1), ending) && path == Running(n) + ending
  }

  lemma RunningIsPath(n: nat)
    requires n > 0
    ensures IsPath(Running(n)) && Running(n)[0] == Created && Running(n)[n - 1] == RunningAt(n - 1)
    ensures Running(n + 1) == Running(n) + [RunningAt(n)]
  {
    var path := Running(n);
    forall i | 0 <= i < |path| - 1
      ensures path[i].CanTransitionTo(path[i + 1])
    {
      assert path[i] == RunningAt(i) && path[i + 1] == RunningAt(i + 1);
    }
  }

  lemma CourseIsPath(path: seq<SessionState>, n: nat, ending: seq<SessionState>)
    requires IsCourse(path, n, ending)
    ensures IsPath(path) && path[0] == Created
  {
    RunningIsPath(n);
    forall i | 0 <= i < |path| - 1
      ensures path[i].CanTransitionTo(path[i + 1])
    {
      if i < n - 1 {
        assert path[i] == Running(n)[i] && path[i + 1] == Running(n)[i + 1];
      }
    }
  }

  lemma EndingGoesOn(n: nat, ending: seq<SessionState>, next: SessionState)
    requires IsEnding(RunningAt(n), ending)
    requires (if ending == [] then RunningAt(n) else ending[|ending| - 1]).CanTransitionTo(next)
    ensures (ending == [] && next == RunningAt(n + 1)) || IsEnding(RunningAt(n), ending + [next])
  {
    if ending == [] {
      assert n < 4 ==> RunningAt(n + 1) == OPENING[n + 1];
    }
  }

  /** One more state on a course makes a course. */
  lemma CourseGoesOn(path: seq<SessionState>, n: nat, ending: seq<SessionState>, next: SessionState)
    returns (m: nat, longer: seq<SessionState>)
    requires IsCourse(path, n, ending) && path[|path| - 1].CanTransitionTo(next)
    ensures IsCourse(path + [next], m, longer)
  {
    RunningIsPath(n);
    assert path[|path| - 1] == if ending == [] then RunningAt(n - 1) else ending[|ending| - 1];
    EndingGoesOn(n - 1, ending, next);
    if ending == [] && next == RunningAt(n) {
      m, longer := n + 1, [];
    } else {
      m, longer := n, ending + [next];
      assert path + [next] == Running(n) + (ending + [next]);
    }
  }

  lemma {:induction false} PathIsCourse(path: seq<SessionState>) returns (n: nat, ending: seq<SessionState>)
    requires IsPath(path) && path[0] == Created
    ensures IsCourse(path, n, ending)
  {
    if |path| == 1 {
      n, ending := 1, [];
      assert path == Running(1) + [];
    } else {
      var init, last := path[..|path| - 1], path[|path| - 1];
      assert init[|init| - 1] == path[|path| - 2] && path[|path| - 2].CanTransitionTo(path[|path| - 2 + 1]);
      forall i | 0 <= i < |init| - 1
        ensures init[i].CanTransitionTo(init[i + 1])
      {
        assert init[i] == path[i] && init[i + 1] == path[i + 1];
      }
      n, ending := PathIsCourse(init);
      n, ending := CourseGoesOn(init, n, ending, last);
      assert path == init + [last];
    }
  }

  /**
   * All paths of a new session: the opening and any number of changes between Active and Retrying, broken off by
   * Cancelled, Expired or Failed at any point, or from Active on to Draining and there to Completed or broken off.
   */
  lemma PathsFromCreated(path: seq<SessionState>)
    ensures IsPath(path) && path[0] == Created <==> exists n, ending :: IsCourse(path, n, ending)
  {
    if IsPath(path) && path[0] == Created {
      var n, ending := PathIsCourse(path);
    }
    if n, ending :| IsCourse(path, n, ending) {
      CourseIsPath(path, n, ending);
    }
  }
}
