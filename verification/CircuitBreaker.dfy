/** The circuit breaker in front of the facilitator (src/circuit-breaker.ts).

    `execute` awaits the protected call, so a call may complete in a later state than the one
    that admitted it.  The breaker is therefore specified against the *history* of what happened
    to it, in any interleaving of calls starting, calls completing, state reads and resets.  The
    class `Breaker` holds the four variables of the source; its invariant says that they are
    what the history demands. */
module CircuitBreaker {
  import opened Prelude

  datatype Config = Config(failureThreshold: int, openDurationMs: int, halfOpenMaxCalls: int, isFailure: FailureTest)

  /** The optional `isFailure(ok, error)` of the options. */
  type FailureTest = Option<(bool, Option<string>) -> bool>

  datatype Phase = Closed | Open | HalfOpen

  /** How the protected call ended.  A rejection may carry `undefined` (`None`). */
  datatype Outcome = Resolved | Rejected(error: Option<string>)

  /** The outcomes that count as failures: what the custom test says or, without one, every rejection that
      carries something. */
  predicate Fails(c: Config, outcome: Outcome) {
    match (c.isFailure, outcome)
    case (None, Resolved) => false
    case (None, Rejected(None)) => false
    case (None, Rejected(Some(_))) => true
    case (Some(test), Resolved) => test(true, None)
    case (Some(test), Rejected(error)) => test(false, error)
  }

  datatype Event =
    | Observed(at: int)                             // the `state` getter was read
    | Started(id: nat, at: int, admitted: bool)     // `execute` decided; if admitted, `fn` now runs
    | Completed(id: nat, at: int, outcome: Outcome, failed: bool)    // `fn` settled and was classified
    | Reset

  type History = seq<Event>

  function Last(h: History): Event
    requires h != []
  {
    h[|h| - 1]
  }

  function Front(h: History): History
    requires h != []
  {
    h[..|h| - 1]
  }

  // ----- The reference: what a history says about the breaker -----

  /** Failing completions since the last success or reset. */
  function TrailingFailures(h: History): nat {
    if h == [] then 0
    else match Last(h)
      case Completed(_, _, _, failed) => if failed then TrailingFailures(Front(h)) + 1 else 0
      case Reset => 0
      case _ => TrailingFailures(Front(h))
  }

  /** When the latest of the trailing failures completed. */
  function LastFailureAt(h: History): int
    requires TrailingFailures(h) > 0
  {
    match Last(h)
    case Completed(_, at, _, _) => at
    case _ => LastFailureAt(Front(h))
  }

  predicate Tripped(c: Config, h: History) {
    TrailingFailures(h) > 0 && TrailingFailures(h) >= c.failureThreshold
  }

  /** The cooldown of the latest failure had elapsed at time `at`. */
  predicate CooledDown(c: Config, h: History, at: int)
    requires Tripped(c, h)
  {
    at - LastFailureAt(h) >= c.openDurationMs
  }

  /** Tripped, and since the latest failure somebody looked at the breaker after the cooldown. */
  predicate Probing(c: Config, h: History) {
    Tripped(c, h) &&
    match Last(h)
    case Observed(at) => Probing(c, Front(h)) || CooledDown(c, Front(h), at)
    case Started(_, at, _) => Probing(c, Front(h)) || CooledDown(c, Front(h), at)
    case _ => false
  }

  function PhaseOf(c: Config, h: History): Phase {
    if !Tripped(c, h) then Closed else if Probing(c, h) then HalfOpen else Open
  }

  /** Trial calls let through since the latest completion or reset. */
  function Trials(c: Config, h: History): set<nat> {
    if h == [] then {}
    else match Last(h)
      case Completed(_, _, _, _) => {}
      case Reset => {}
      case Observed(_) => Trials(c, Front(h))
      case Started(id, _, admitted) =>
        Trials(c, Front(h)) + if admitted && Tripped(c, Front(h)) then {id} else {}
  }

  /** Does `execute` at time `at` run the call? */
  predicate Admits(c: Config, h: History, at: int) {
    match PhaseOf(c, h + [Observed(at)])
    case Closed => true
    case Open => false
    case HalfOpen => |Trials(c, h)| < c.halfOpenMaxCalls
  }

  function InFlight(h: History): set<nat> {
    if h == [] then {}
    else match Last(h)
      case Started(id, _, admitted) => InFlight(Front(h)) + if admitted then {id} else {}
      case Completed(id, _, _, _) => InFlight(Front(h)) - {id}
      case _ => InFlight(Front(h))
  }

  function StartedIds(h: History): set<nat> {
    set i | 0 <= i < |h| && h[i].Started? :: h[i].id
  }

  function TimeOf(e: Event, before: int): int {
    if e.Reset? then before else e.at
  }

  /** The latest clock reading (0 before the first one). */
  function Now(h: History): int {
    if h == [] then 0 else TimeOf(Last(h), Now(Front(h)))
  }

  /** The event can come next: the clock does not run backwards, a new call is new and is admitted
      as the reference says, and only a running call completes, classified by its outcome. */
  predicate Legal(c: Config, h: History, e: Event) {
    TimeOf(e, Now(h)) >= Now(h) &&
    match e
    case Started(id, at, admitted) => id !in StartedIds(h) && admitted == Admits(c, h, at)
    case Completed(id, _, outcome, failed) => id in InFlight(h) && failed == Fails(c, outcome)
    case _ => true
  }

  /** The histories of all runs. */
  predicate Run(c: Config, h: History) {
    h == [] || (Run(c, Front(h)) && Legal(c, Front(h), Last(h)))
  }

  // ----- The implementation -----

  /** The four variables of the breaker are what the history demands. */
  ghost predicate Agrees(c: Config, h: History, state: Phase, failures: int, openedAt: int, halfOpenUsed: int) {
    && state == PhaseOf(c, h)
    && failures == (if state.Closed? then TrailingFailures(h) else c.failureThreshold)
    && openedAt == (if state.Closed? then 0 else LastFailureAt(h))
    && (state.Closed? ==> halfOpenUsed == 0)
    && (state.HalfOpen? ==> halfOpenUsed == |Trials(c, h)|)
  }

  class Breaker {
    const config: Config
    var state: Phase
    var failures: int
    var openedAt: int
    var halfOpenUsed: int
    ghost var history: History

    ghost predicate Valid()
      reads this
    {
      Run(config, history) && Agrees(config, history, state, failures, openedAt, halfOpenUsed)
    }

    constructor (config: Config)
      ensures Valid() && history == [] && this.config == config
    {
      this.config := config;
      state, failures, openedAt, halfOpenUsed := Closed, 0, 0, 0;
      history := [];
    }

    method DoOpen(now: int)
      modifies this`state, this`openedAt, this`failures
      ensures state == Open && openedAt == now && failures == config.failureThreshold
    {
      state := Open;
      openedAt := now;
      failures := config.failureThreshold;
    }

    method DoClose()
      modifies this`state, this`openedAt, this`failures, this`halfOpenUsed
      ensures state == Closed && openedAt == 0 && failures == 0 && halfOpenUsed == 0
    {
      state := Closed;
      failures := 0;
      openedAt := 0;
      halfOpenUsed := 0;
    }

    /** The `state` getter, with its lazy move from open to half-open. */
    method ReadState(now: int) returns (current: Phase)
      requires Valid() && now >= Now(history)
      modifies this
      ensures Valid() && history == old(history) + [Observed(now)]
      ensures current == state
      ensures Now(history) == now && StartedIds(history) == StartedIds(old(history))
      ensures state == Open ==> !CooledDown(config, history, now)
    {
      if state == Open && now - openedAt >= config.openDurationMs {
        state := HalfOpen;
        halfOpenUsed := 0;
        OpenMeansNoTrials(config, history);
      }
      Appended(history, Observed(now));
      StartedIdsAppend(history, Observed(now));
      history := history + [Observed(now)];
      current := state;
    }

    /** `execute` up to `await fn()`: reads the state (a second time unless it is open), then admits
        or refuses. */
    method Execute(ghost id: nat, now: int, nowAgain: int) returns (admitted: bool, ghost readings: History)
      requires Valid() && Now(history) <= now <= nowAgain && id !in StartedIds(history)
      modifies this
      ensures Valid()
      // it reads the state again unless it found it open
      ensures readings == if PhaseOf(config, old(history) + [Observed(now)]) == Open then [Observed(now)]
                          else [Observed(now), Observed(nowAgain)]
      ensures history == old(history) + readings + [Started(id, Last(readings).at, admitted)]
    {
      var current := ReadState(now);
      readings := [Observed(now)];
      if current == Open {
        admitted := Decide(id, now, current);
      } else {
        current := ReadState(nowAgain);
        readings := [Observed(now), Observed(nowAgain)];
        admitted := Decide(id, nowAgain, current);
      }
    }

    /** The decision, from the state just read. */
    method Decide(ghost id: nat, ghost at: int, current: Phase) returns (admitted: bool)
      requires Valid() && current == state && id !in StartedIds(history)
      requires history != [] && Last(history) == Observed(at)
      modifies this`halfOpenUsed, this`history
      ensures Valid() && history == old(history) + [Started(id, at, admitted)]
    {
      ghost var used := halfOpenUsed;
      admitted := current == Closed || (current == HalfOpen && halfOpenUsed < config.halfOpenMaxCalls);
      if admitted && current == HalfOpen {
        halfOpenUsed := halfOpenUsed + 1;
      }
      Deciding(config, history, at, id, admitted, state, failures, openedAt, used);
      history := history + [Started(id, at, admitted)];
    }

    /** `classify` and `recordFailure`, run when the protected call settles. */
    method Complete(ghost id: nat, now: int, outcome: Outcome)
      requires Valid() && now >= Now(history) && id in InFlight(history)
      modifies this
      ensures Valid()
      ensures exists failed :: history == old(history) + [Completed(id, now, outcome, failed)]
      // without a custom test a resolved call closes the breaker, and so does a rejection with `undefined`
      ensures config.isFailure.None? && outcome in {Resolved, Rejected(None)} ==> state == Closed && failures == 0
      // any other rejection is one failure more
      ensures config.isFailure.None? && outcome.Rejected? && outcome.error.Some? ==>
                TrailingFailures(history) == TrailingFailures(old(history)) + 1
    {
      var ok, error := outcome.Resolved?, if outcome.Rejected? then outcome.error else None;
      var failed: bool;
      if config.isFailure.Some? {
        failed := config.isFailure.value(ok, error);
      } else {
        failed := error.Some?;
      }
      Appended(history, Completed(id, now, outcome, failed));
      if failed {
        failures := failures + 1;
        if state == HalfOpen && failures >= 1 {
          DoOpen(now);
        } else if failures >= config.failureThreshold {
          DoOpen(now);
        }
      } else {
        DoClose();
      }
      history := history + [Completed(id, now, outcome, failed)];
    }

    method ResetBreaker()
      requires Valid()
      modifies this
      ensures Valid() && history == old(history) + [Reset] && state == Closed
    {
      DoClose();
      Appended(history, Reset);
      history := history + [Reset];
    }
  }

  lemma Appended(h: History, e: Event)
    ensures Last(h + [e]) == e && Front(h + [e]) == h
  {
  }

  // ----- Small facts about the reference -----

  /** The decision of `execute`, taken right after the state was read at the same instant, is the
      one the reference demands. */
  lemma Deciding(c: Config, h: History, at: int, id: nat, admitted: bool,
                 state: Phase, failures: int, openedAt: int, used: int)
    requires Run(c, h) && h != [] && Last(h) == Observed(at) && id !in StartedIds(h)
    requires Agrees(c, h, state, failures, openedAt, used)
    requires admitted <==> state.Closed? || (state.HalfOpen? && used < c.halfOpenMaxCalls)
    ensures var h' := h + [Started(id, at, admitted)];
      Run(c, h') && Agrees(c, h', state, failures, openedAt, if admitted && state.HalfOpen? then used + 1 else used)
  {
    ObservedTwice(c, h, at);
    assert Admits(c, h, at) == admitted;
    StartAgrees(c, h, Started(id, at, admitted), state, failures, openedAt, used);
  }

  /** Reading the state again at the same instant changes nothing. */
  lemma ObservedTwice(c: Config, h: History, at: int)
    requires h != [] && Last(h) == Observed(at)
    ensures PhaseOf(c, h + [Observed(at)]) == PhaseOf(c, h)
  {
    Appended(h, Observed(at));
  }

  lemma StartAgrees(c: Config, h: History, e: Event, state: Phase, failures: int, openedAt: int, used: int)
    requires e.Started? && Run(c, h) && h != [] && Last(h) == Observed(e.at) && e.id !in StartedIds(h)
    requires e.admitted == Admits(c, h, e.at) && PhaseOf(c, h + [Observed(e.at)]) == PhaseOf(c, h)
    requires Agrees(c, h, state, failures, openedAt, used)
    ensures var h' := h + [e];
      Run(c, h') && Agrees(c, h', state, failures, openedAt, if e.admitted && state.HalfOpen? then used + 1 else used)
  {
    Appended(h, e);
    Appended(h, Observed(e.at));
    TrialsHaveStarted(c, h);
  }

  lemma StartedIdsAppend(h: History, e: Event)
    ensures StartedIds(h + [e]) == StartedIds(h) + if e.Started? then {e.id} else {}
  {
    var h' := h + [e];
    assert h'[|h|] == e;
    forall id ensures id in StartedIds(h') <==> id in StartedIds(h) || (e.Started? && e.id == id) {
      if id in StartedIds(h) {
        var i :| 0 <= i < |h| && h[i].Started? && h[i].id == id;
        assert h'[i] == h[i];
      }
    }
  }

  lemma {:induction false} TrialsHaveStarted(c: Config, h: History)
    ensures Trials(c, h) <= StartedIds(h)
  {
    if h != [] {
      TrialsHaveStarted(c, Front(h));
      assert StartedIds(Front(h)) <= StartedIds(h);
      if Last(h).Started? {
        assert h[|h| - 1].id in StartedIds(h);
      }
    }
  }

  /** An open breaker that nobody has found cooled down has let no trial through. */
  lemma {:induction false} OpenMeansNoTrials(c: Config, h: History)
    requires Run(c, h) && PhaseOf(c, h) == Open
    ensures Trials(c, h) == {}
  {
    match Last(h)
    case Completed(_, _, _, _) =>
    case Reset =>
    case Observed(_) => OpenMeansNoTrials(c, Front(h));
    case Started(_, at, admitted) =>
      OpenMeansNoTrials(c, Front(h));
      Appended(Front(h), Observed(at));
  }

  // ----- Theorems over every run -----

  /** A half-open breaker has used at most `halfOpenMaxCalls` trials, and all of them are still
      running: nothing has completed since it went half-open. */
  lemma {:induction false} HalfOpenTrialsAreRunning(c: Config, h: History)
    requires Run(c, h)
    ensures Tripped(c, h) ==> Trials(c, h) <= InFlight(h) && |Trials(c, h)| <= Max(0, c.halfOpenMaxCalls)
  {
    if h != [] {
      HalfOpenTrialsAreRunning(c, Front(h));
      if Last(h).Started? {
        Appended(Front(h), Observed(Last(h).at));
      }
    }
  }

  /** While the breaker stays half-open, from index `i` on, nothing completes and nobody resets it, and at
      most `halfOpenMaxCalls` calls run: whichever completes first ends it, in whatever state it was
      admitted. */
  lemma HalfOpenEpisodeIsLimited(c: Config, h: History, i: nat)
    requires Run(c, h) && HalfOpenSince(c, h, i)
    ensures forall j :: i <= j < |h| ==> !h[j].Completed? && !h[j].Reset?
    ensures CallsRunSince(h, i) <= Max(0, c.halfOpenMaxCalls)
  {
    Episode(c, h, i);
    assert h[..|h|] == h;
    HalfOpenTrialsAreRunning(c, h);
  }

  predicate HalfOpenSince(c: Config, h: History, i: nat) {
    i <= |h| && forall n :: i <= n <= |h| ==> PhaseOf(c, h[..n]) == HalfOpen
  }

  lemma {:induction false} Episode(c: Config, h: History, i: nat)
    requires Run(c, h) && HalfOpenSince(c, h, i)
    ensures forall j :: i <= j < |h| ==> !h[j].Completed? && !h[j].Reset?
    ensures CallsRunSince(h, i) <= |Trials(c, h)|
  {
    if i < |h| {
      EpisodePrefix(c, h, i);
      Episode(c, Front(h), i);
      EpisodeStep(c, h, i);
      forall j | i <= j < |h| ensures !h[j].Completed? && !h[j].Reset? {
        assert j < |h| - 1 ==> h[j] == Front(h)[j];
      }
    }
  }

  lemma EpisodePrefix(c: Config, h: History, i: nat)
    requires HalfOpenSince(c, h, i) && i < |h|
    ensures HalfOpenSince(c, Front(h), i) && PhaseOf(c, Front(h)) == PhaseOf(c, h) == HalfOpen
  {
    assert h[..|h|] == h && h[..|h| - 1] == Front(h);
    forall n | i <= n <= |Front(h)| ensures PhaseOf(c, Front(h)[..n]) == HalfOpen {
      assert Front(h)[..n] == h[..n];
    }
  }

  lemma EpisodeStep(c: Config, h: History, i: nat)
    requires h != [] && Run(c, h) && i < |h| && PhaseOf(c, Front(h)) == PhaseOf(c, h) == HalfOpen
    requires CallsRunSince(Front(h), i) <= |Trials(c, Front(h))|
    ensures !Last(h).Completed? && !Last(h).Reset?
    ensures CallsRunSince(h, i) <= |Trials(c, h)|
  {
    TrialsHaveStarted(c, Front(h));
  }

  // ----- What the outcomes of the calls do to the breaker -----

  /** Without a custom test, a run whose calls all resolve never trips: the breaker stays closed. */
  lemma {:induction false} ResolvedCallsNeverTrip(c: Config, h: History)
    requires Run(c, h) && c.isFailure.None?
    requires forall i :: 0 <= i < |h| && h[i].Completed? ==> h[i].outcome == Resolved
    ensures TrailingFailures(h) == 0 && PhaseOf(c, h) == Closed
  {
    if h != [] {
      assert forall i :: 0 <= i < |Front(h)| ==> Front(h)[i] == h[i];
      ResolvedCallsNeverTrip(c, Front(h));
    }
  }

  /** The calls that settled from index `n` on. */
  function SettledSince(h: History, n: nat): nat {
    if |h| <= n then 0 else SettledSince(Front(h), n) + if Last(h).Completed? then 1 else 0
  }

  /** From index `n` on every call that settles is rejected with an error, and nobody resets the breaker. */
  ghost predicate RejectedSince(h: History, n: nat) {
    forall i :: n <= i < |h| ==>
      && !h[i].Reset?
      && (h[i].Completed? ==> h[i].outcome.Rejected? && h[i].outcome.error.Some?)
  }

  /** Without a custom test, `failureThreshold` rejections in a row trip the breaker, in every interleaving:
      it is open as soon as the last of them is in, and closed at no time after that. */
  lemma RejectionsInARowTrip(c: Config, h: History, n: nat)
    requires Run(c, h) && c.isFailure.None? && RejectedSince(h, n)
    requires SettledSince(h, n) >= Max(1, c.failureThreshold)
    ensures PhaseOf(c, h) != Closed
    ensures Last(h).Completed? ==> PhaseOf(c, h) == Open
  {
    RejectionsAddUp(c, h, n);
  }

  lemma {:induction false} RejectionsAddUp(c: Config, h: History, n: nat)
    requires Run(c, h) && c.isFailure.None? && RejectedSince(h, n)
    ensures TrailingFailures(h) >= SettledSince(h, n)
  {
    if |h| > n {
      assert forall i :: n <= i < |Front(h)| ==> Front(h)[i] == h[i];
      RejectionsAddUp(c, Front(h), n);
    }
  }

  /** With a custom test, exactly the outcomes it says `true` to extend the failures in a row; all others
      end them. */
  lemma CustomTestDecides(c: Config, h: History, id: nat, at: int, outcome: Outcome, failed: bool)
    requires c.isFailure.Some? && Run(c, h + [Completed(id, at, outcome, failed)])
    ensures TrailingFailures(h + [Completed(id, at, outcome, failed)])
         == if (if outcome.Resolved? then c.isFailure.value(true, None) else c.isFailure.value(false, outcome.error))
            then TrailingFailures(h) + 1 else 0
  {
    Appended(h, Completed(id, at, outcome, failed));
  }

  // ----- The wedge -----

  /** Half-open, nothing running that could end it, and every further call refused. */
  ghost predicate Wedged(c: Config, h: History) {
    PhaseOf(c, h) == HalfOpen && InFlight(h) == {} && forall at: int :: !Admits(c, h, at)
  }

  /** Some run wedges the breaker exactly when it is configured to allow no trial call at all, and some
      outcome counts as a failure. */
  lemma WedgedOnlyWithoutTrials(c: Config)
    ensures (exists h :: Run(c, h) && Wedged(c, h)) <==> c.halfOpenMaxCalls <= 0 && exists outcome :: Fails(c, outcome)
  {
    if c.halfOpenMaxCalls <= 0 && exists outcome :: Fails(c, outcome) {
      var failure :| Fails(c, failure);
      var outage := Outage(Max(1, c.failureThreshold), failure);
      OutageRuns(c, Max(1, c.failureThreshold), failure);
      var at := Max(0, c.openDurationMs);
      var h := outage + [Observed(at)];
      Appended(outage, Observed(at));
      assert Probing(c, h);
      forall later: int ensures !Admits(c, h, later) {
        Appended(h, Observed(later));
      }
      assert Run(c, h) && Wedged(c, h);
    }
    forall h | Run(c, h) && Wedged(c, h) ensures c.halfOpenMaxCalls <= 0 && exists outcome :: Fails(c, outcome) {
      HalfOpenTrialsAreRunning(c, h);
      assert Trials(c, h) == {};
      Appended(h, Observed(0));
      assert !Admits(c, h, 0);
      var outcome := SomethingFailed(c, h);
    }
  }

  lemma {:induction false} SomethingFailed(c: Config, h: History) returns (outcome: Outcome)
    requires Run(c, h) && TrailingFailures(h) > 0
    ensures Fails(c, outcome)
  {
    if Last(h).Completed? {
      outcome := Last(h).outcome;
    } else {
      outcome := SomethingFailed(c, Front(h));
    }
  }

  /** `n` calls at time 0, one after the other, all failing. */
  function Outage(n: nat, failure: Outcome): History {
    if n == 0 then []
    else Outage(n - 1, failure) + [Started(n - 1, 0, true)] + [Completed(n - 1, 0, failure, true)]
  }

  lemma {:induction false} OutageRuns(c: Config, n: nat, failure: Outcome)
    requires n <= Max(1, c.failureThreshold) && Fails(c, failure)
    ensures Failing(c, Outage(n, failure), n)
  {
    if n > 0 {
      OutageRuns(c, n - 1, failure);
      OneMoreFailure(c, Outage(n - 1, failure), n - 1, failure);
    }
  }

  lemma OneMoreFailure(c: Config, h: History, n: nat, failure: Outcome)
    requires Failing(c, h, n) && n < Max(1, c.failureThreshold) && Fails(c, failure)
    ensures Failing(c, h + [Started(n, 0, true)] + [Completed(n, 0, failure, true)], n + 1)
  {
    FailingStart(c, h, n);
    FailingEnd(c, h, n, failure);
  }

  /** After `n` failed calls, all at time 0. */
  ghost predicate Failing(c: Config, h: History, n: nat) {
    && Run(c, h) && TrailingFailures(h) == n && InFlight(h) == {} && Now(h) == 0
    && (n > 0 ==> LastFailureAt(h) == 0 && !Probing(c, h))
    && (forall id <- StartedIds(h) :: id < n)
  }

  lemma FailingStart(c: Config, h: History, n: nat)
    requires Failing(c, h, n) && n < Max(1, c.failureThreshold)
    ensures var h' := h + [Started(n, 0, true)];
      && Run(c, h') && TrailingFailures(h') == n && InFlight(h') == {n} && Now(h') == 0
      && forall id <- StartedIds(h') :: id <= n
  {
    Appended(h, Observed(0));
    Appended(h, Started(n, 0, true));
    StartedIdsAppend(h, Started(n, 0, true));
    assert !Tripped(c, h) && Admits(c, h, 0);
  }

  lemma FailingEnd(c: Config, h: History, n: nat, failure: Outcome)
    requires Fails(c, failure)
    requires var h' := h + [Started(n, 0, true)];
      && Run(c, h') && TrailingFailures(h') == n && InFlight(h') == {n} && Now(h') == 0
      && forall id <- StartedIds(h') :: id <= n
    ensures Failing(c, h + [Started(n, 0, true)] + [Completed(n, 0, failure, true)], n + 1)
  {
    var h', end := h + [Started(n, 0, true)], Completed(n, 0, failure, true);
    Appended(h', end);
    StartedIdsAppend(h', end);
  }

  lemma {:induction false} ProbingMeansCooledDown(c: Config, h: History)
    requires Run(c, h) && Probing(c, h)
    ensures CooledDown(c, h, Now(h))
  {
    if Probing(c, Front(h)) {
      ProbingMeansCooledDown(c, Front(h));
    }
  }

  lemma {:induction false} LastFailureIsLatest(c: Config, h: History, j: nat)
    requires Run(c, h) && TrailingFailures(h) > 0 && j < |h| && h[j].Completed? && h[j].failed
    ensures h[j].at <= LastFailureAt(h) <= Now(h)
  {
    if j < |h| - 1 {
      if TrailingFailures(Front(h)) > 0 {
        LastFailureIsLatest(c, Front(h), j);
      } else {
        ClockIsMonotone(c, h, j);
      }
    }
  }

  lemma {:induction false} ClockIsMonotone(c: Config, h: History, j: nat)
    requires Run(c, h) && j < |h| && !h[j].Reset?
    ensures h[j].at <= Now(h)
  {
    if j < |h| - 1 {
      ClockIsMonotone(c, Front(h), j);
    }
  }

  /** While the breaker is tripped, no call is run until `openDurationMs` have passed since every
      failure seen so far, late failures of calls admitted earlier included. */
  lemma CooldownIsRespected(c: Config, h: History, i: nat)
    requires i < |h| && Run(c, h[..i + 1]) && h[i].Started? && h[i].admitted && Tripped(c, h[..i])
    ensures forall j :: 0 <= j < i && h[j].Completed? && h[j].failed ==> h[i].at >= h[j].at + c.openDurationMs
  {
    var before := h[..i];
    assert Front(h[..i + 1]) == before && Last(h[..i + 1]) == h[i];
    Appended(before, Observed(h[i].at));
    ProbingMeansCooledDown(c, before + [Observed(h[i].at)]);
    forall j | 0 <= j < i && h[j].Completed? && h[j].failed
      ensures h[i].at >= h[j].at + c.openDurationMs
    {
      assert before[j] == h[j];
      LastFailureIsLatest(c, before, j);
    }
  }

  /** From index `n` on, every call that completes fails and nobody resets the breaker. */
  predicate DownSince(h: History, n: nat) {
    forall i :: n <= i < |h| ==> !h[i].Reset? && (h[i].Completed? ==> h[i].failed)
  }

  function CallsRunSince(h: History, n: nat): nat {
    if |h| <= n then 0
    else CallsRunSince(Front(h), n) + if Last(h).Started? && Last(h).admitted then 1 else 0
  }

  /** What an outage costs once the breaker has tripped at index `n - 1`: in every interleaving, at
      most `halfOpenMaxCalls` calls per full `openDurationMs` reach the failing service. */
  lemma OutageLoadIsBounded(c: Config, h: History, n: nat)
    requires Run(c, h) && 0 < n <= |h| && DownSince(h, n) && c.openDurationMs >= 0
    requires h[n - 1].Completed? && Tripped(c, h[..n])
    ensures Tripped(c, h)
    ensures CallsRunSince(h, n) * c.openDurationMs <= Max(0, c.halfOpenMaxCalls) * (Now(h) - h[n - 1].at)
  {
    OutageLoad(c, h, n);
    HalfOpenTrialsAreRunning(c, h);
    ChargedIsPaid(c, h, CallsRunSince(h, n), h[n - 1].at);
  }

  lemma ChargedIsPaid(c: Config, h: History, calls: nat, start: int)
    requires Charged(c, h, calls, start) && |Trials(c, h)| <= Max(0, c.halfOpenMaxCalls) && c.openDurationMs >= 0
    ensures calls * c.openDurationMs <= Max(0, c.halfOpenMaxCalls) * (Now(h) - start)
  {
    var last := LastFailureAt(h);
    Scale(calls, |Trials(c, h)|, c.openDurationMs, Max(0, c.halfOpenMaxCalls), last - start, Now(h) - last);
    assert (last - start) + (Now(h) - last) == Now(h) - start;
  }

  /** The trials of the current episode apart, the calls run since `start` are paid for by the
      time up to the latest failure. */
  ghost predicate Charged(c: Config, h: History, calls: int, start: int) {
    && Tripped(c, h) && start <= LastFailureAt(h) <= Now(h) && |Trials(c, h)| <= calls
    && (Trials(c, h) != {} ==> CooledDown(c, h, Now(h)))
    && (calls - |Trials(c, h)|) * c.openDurationMs <= Max(0, c.halfOpenMaxCalls) * (LastFailureAt(h) - start)
  }

  lemma ChargedStart(c: Config, h: History, calls: int, start: int)
    requires h != [] && Run(c, h) && Charged(c, Front(h), calls, start) && Last(h).Started?
    ensures Charged(c, h, calls + if Last(h).admitted then 1 else 0, start)
  {
    if Last(h).admitted {
      ChargedTrial(c, h, calls, start);
    } else {
      assert Trials(c, h) == Trials(c, Front(h));
    }
  }

  lemma ChargedTrial(c: Config, h: History, calls: int, start: int)
    requires h != [] && Run(c, h) && Charged(c, Front(h), calls, start) && Last(h).Started? && Last(h).admitted
    ensures Charged(c, h, calls + 1, start)
  {
    TrialsHaveStarted(c, Front(h));
    TrialCooledDown(c, h);
    assert Trials(c, h) == Trials(c, Front(h)) + {Last(h).id};
    assert |Trials(c, h)| == |Trials(c, Front(h))| + 1 && LastFailureAt(h) == LastFailureAt(Front(h));
  }

  /** A trial is let through only after the cooldown. */
  lemma TrialCooledDown(c: Config, h: History)
    requires h != [] && Run(c, h) && Last(h).Started? && Last(h).admitted && Tripped(c, Front(h))
    ensures Tripped(c, h) && CooledDown(c, h, Now(h)) && Now(h) >= Now(Front(h))
  {
    Appended(Front(h), Observed(Last(h).at));
    ProbingMeansCooledDown(c, Front(h) + [Observed(Last(h).at)]);
  }

  lemma ChargedFailure(c: Config, h: History, calls: nat, start: int)
    requires h != [] && Run(c, h) && Charged(c, Front(h), calls, start) && Last(h).Completed? && Last(h).failed
    requires c.openDurationMs >= 0
    ensures Charged(c, h, calls, start)
  {
    var f := Front(h);
    HalfOpenTrialsAreRunning(c, f);
    Scale(calls, |Trials(c, f)|, c.openDurationMs, Max(0, c.halfOpenMaxCalls),
          LastFailureAt(f) - start, Last(h).at - LastFailureAt(f));
  }

  lemma {:induction false} OutageLoad(c: Config, h: History, n: nat)
    requires Run(c, h) && 0 < n <= |h| && DownSince(h, n) && c.openDurationMs >= 0
    requires h[n - 1].Completed? && Tripped(c, h[..n])
    ensures Charged(c, h, CallsRunSince(h, n), h[n - 1].at)
  {
    if |h| == n {
      assert h[..n] == h;
    } else {
      assert Front(h)[..n] == h[..n];
      OutageLoad(c, Front(h), n);
      ChargedStep(c, h, n, h[n - 1].at);
    }
  }

  lemma ChargedStep(c: Config, h: History, n: nat, start: int)
    requires 0 < n < |h| && Run(c, h) && DownSince(h, n) && c.openDurationMs >= 0
    requires Charged(c, Front(h), CallsRunSince(Front(h), n), start)
    ensures Charged(c, h, CallsRunSince(h, n), start)
  {
    match Last(h)
    case Observed(_) => ChargedObserved(c, h, CallsRunSince(Front(h), n), start);
    case Started(_, _, _) => ChargedStart(c, h, CallsRunSince(Front(h), n), start);
    case Completed(_, _, _, _) => ChargedFailure(c, h, CallsRunSince(h, n), start);
  }

  lemma ChargedObserved(c: Config, h: History, calls: int, start: int)
    requires h != [] && Run(c, h) && Charged(c, Front(h), calls, start) && Last(h).Observed?
    ensures Charged(c, h, calls, start)
  {
  }

  lemma Scale(calls: nat, trials: nat, d: nat, m: nat, settled: nat, elapsed: nat)
    requires trials <= calls && trials <= m && (trials > 0 ==> elapsed >= d)
    requires (calls - trials) * d <= m * settled
    ensures calls * d <= m * (settled + elapsed)
  {
    if trials > 0 {
      assert trials * d <= m * d <= m * elapsed;
    }
    assert calls * d == (calls - trials) * d + trials * d;
    assert m * (settled + elapsed) == m * settled + m * elapsed;
  }
}
