/** Wake-ups and retry budgets over every interleaving of one run's transactions. */
module CollectionBudget {
  import opened Prelude
  import opened CollectionRun
  import opened CollectionHistory

  // ---------------------------------------------------------------- wake-ups

  function AheadOf(rows: seq<Window>, now: int, locked: set<int>, w: Window): set<Window> {
    set v | v in rows && Takeable(v, now, locked) && Ahead(v, w)
  }

  lemma {:induction false} SomethingIsChosen(rows: seq<Window>, now: int, locked: set<int>, limit: int, w: Window)
    requires w in rows && Takeable(w, now, locked) && limit > 0
    ensures Chosen(rows, now, locked, limit) != {}
    decreases |AheadOf(rows, now, locked, w)|
  {
    var ahead := AheadOf(rows, now, locked, w);
    if ahead == {} {
      assert ahead == set v | v in rows && Takeable(v, now, locked) && Ahead(v, w);
      assert w.id in Chosen(rows, now, locked, limit);
    } else {
      var v :| v in ahead;
      var fewer := AheadOf(rows, now, locked, v);
      assert fewer <= ahead && v in ahead - fewer;
      StrictSubsetIsSmaller(fewer, ahead);
      SomethingIsChosen(rows, now, locked, limit, v);
    }
  }

  lemma {:induction false} StrictSubsetIsSmaller<T>(a: set<T>, b: set<T>)
    requires a < b
    ensures |a| < |b|
  {
    assert |b| == |a| + |b - a| by { assert a + (b - a) == b; }
    var x :| x in b - a;
  }

  /** A pending initialised run always has a window that is due when it is next woken, for every mix
      of absent and future retry times; so a claim with a new request then takes at least one. */
  lemma NeverWokenEmpty(r: Run, actions: seq<(RunAction, bool)>, request: string, limit: int)
    requires NewRun(r) && Windowed(r.task) && limit > 0
    ensures var run := History(Tracked(r, []), actions).run;
            run.initialised && run.status.Pending? ==>
              && DueAt(run.rows, run.nextAttempt)
              && (request != run.lastRequest ==> ClaimRun(run, run.nextAttempt, request, {}, limit).Ok?)
  {
    NewRunIsGood(r);
    HistoryIsGood(Tracked(r, []), actions);
    HistoryKeepsTask(Tracked(r, []), actions);
    var run := History(Tracked(r, []), actions).run;
    if run.initialised && run.status.Pending? {
      var i :| 0 <= i < |run.rows| && Due(run.rows[i], run.nextAttempt);
      SomethingIsChosen(run.rows, run.nextAttempt, {}, limit, run.rows[i]);
    }
  }

  /** The initial-backfill law wakes the run at its earliest due window exactly when it does not mix
      windows without a retry time with retry times that all lie in the future. */
  lemma WakesAtEarliestExactlyWhen(r: Run, now: int)
    requires Count(r.rows, Pending) > 0
    ensures RecalculateInitial(r, now).nextAttempt == EarliestWake(r.rows, now).GetOr(r.nextAttempt) <==>
            || MinRetry(r.rows).GetOr(now) <= now
            || forall w :: w in r.rows && w.status.Pending? ==> w.nextRetry.Some?
  {
    MinRetryIsTheLeastRetry(r.rows);
    EarliestWakeIsTheLeastWake(r.rows, now);
    var wake := EarliestWake(r.rows, now).value;
    var k :| 0 <= k < |r.rows| && r.rows[k].status.Pending? && WakeTime(r.rows[k], now) == wake;
    if MinRetry(r.rows).GetOr(now) > now {
      var m :| 0 <= m < |r.rows| && r.rows[m].status.Pending? && r.rows[m].nextRetry == MinRetry(r.rows);
      if w :| w in r.rows && w.status.Pending? && w.nextRetry.None? {
        var i :| 0 <= i < |r.rows| && r.rows[i] == w;
        assert WakeTime(w, now) == now;
      } else {
        assert r.rows[k].nextRetry.Some?;
      }
    } else if MinRetry(r.rows).Some? {
      var m :| 0 <= m < |r.rows| && r.rows[m].status.Pending? && r.rows[m].nextRetry == MinRetry(r.rows);
      assert WakeTime(r.rows[m], now) == now;
    }
  }

  const Older := Window(1, 1, 3600, Pending, 0, None, Nothing, "", None)
  const Newer := Window(2, 1, 7200, Pending, 0, None, Nothing, "", None)
  const Backfill := Run(SiteTarget(1), UsageBackfill, INITIAL_BACKFILL, Some(3600), Some(10800), 5,
                        Pending, true, 5, None, false, 0, 0, 0, 0, Nothing, "created", None, [])
  const Ready := Backfill.(initialised := true, total := 2, rows := [Older, Newer])
  const Started := Ready.(status := Running, heartbeat := Some(10), lastRequest := "claim",
                          rows := [Older, Newer.(status := Running, attempts := 1)])
  const Asleep := Started.(status := Pending, heartbeat := None, nextAttempt := 100,
                           rows := [Older, Newer.(attempts := 1, nextRetry := Some(100))])
  const AskForRetry := [WindowResult(2, 1, Pending, Some(100), Nothing, "")]

  /** An initial backfill of two hours: one claim takes the newer hour, whose handler asks to try again at 100. */
  const LateWake: seq<(RunAction, bool)> := [
    (Initialise(5, [Older, Newer]), true), (Claim(10, "claim", {}, 1), true), (Commit(10, "claim", AskForRetry), true)]

  lemma BecomesReady()
    ensures InitialiseRun(Backfill, 5, [Older, Newer]) == Ok(Ready)
  {
    var rows := [Older, Newer];
    assert rows[0] == Older && rows[1] == Newer;
    CountsPartitionRows(rows);
    EarliestWakeIsTheLeastWake(rows, 5);
    CountMeansPresence(rows, Running);
    CountMeansPresence(rows, Success);
    CountMeansPresence(rows, Failed);
    CountMeansPresence(rows, Unavailable);
  }

  lemma TakesTheNewer()
    ensures ClaimRun(Ready, 10, "claim", {}, 1) == Ok(Started)
  {
    var rows := Ready.rows;
    assert rows[0] == Older && rows[1] == Newer;
    assert (set v | v in rows && Takeable(v, 10, {}) && Ahead(v, Newer)) == {};
    assert (set v | v in rows && Takeable(v, 10, {}) && Ahead(v, Older)) == {Newer};
    assert Chosen(rows, 10, {}, 1) == {2};
    assert TouchAll(Take({2}, 10), rows) == Started.rows;
  }

  const RetryById: map<int, WindowResult> := map[2 := WindowResult(2, 1, Pending, Some(100), Nothing, "")]

  lemma RetryIsIndexed()
    ensures ById(AskForRetry) == RetryById && ValidResults(AskForRetry)
  {
    assert ById(AskForRetry, 0) == map[];
  }

  lemma RetryIsHeld(rows: seq<Window>)
    requires rows == [Older, Newer.(status := Running, attempts := 1)]
    ensures Held(RetryById, rows)
  {
    assert rows[1].id == 2;
  }

  lemma RetryIsSettled(rows: seq<Window>)
    requires rows == [Older, Newer.(status := Running, attempts := 1)]
    ensures TouchAll(Settle(RetryById, 10), rows) == [Older, Newer.(attempts := 1, nextRetry := Some(100))]
  {
    var e := Settle(RetryById, 10);
    assert Touch(e, rows[0]) == Older;
    assert Touch(e, rows[1]) == Newer.(attempts := 1, nextRetry := Some(100));
  }

  lemma RetryBringsNothing(rows: seq<Window>)
    requires |rows| == 2 && rows[0].id == 1 && rows[1].id == 2
    ensures SettledVolume(RetryById, rows) == Nothing
  {
    assert SettledVolume(RetryById, rows, 0) == Nothing;
    assert SettledVolume(RetryById, rows, 1) == Nothing;
  }

  lemma BothWait()
    ensures RecalculateInitial(Started.(rows := Asleep.rows), 10) == Asleep.(heartbeat := Some(10))
  {
    var rows := Asleep.rows;
    assert rows[0] == Older && rows[1] == Newer.(attempts := 1, nextRetry := Some(100));
    MinRetryIsTheLeastRetry(rows);
    CountsPartitionRows(rows);
    CountMeansPresence(rows, Running);
    CountMeansPresence(rows, Success);
    CountMeansPresence(rows, Failed);
    CountMeansPresence(rows, Unavailable);
    hide Count, MinRetry;
  }

  /** A commit of an initial backfill that brings nothing and leaves the run pending. */
  lemma CommitLeavesPending(r: Run, now: int, results: seq<WindowResult>, byId: map<int, WindowResult>, rows: seq<Window>)
    requires r.status.Running? && Windowed(r.task) && r.priority == INITIAL_BACKFILL && results != [] && ValidResults(results)
    requires ById(results) == byId && Held(byId, r.rows) && TouchAll(Settle(byId, now), r.rows) == rows && SettledVolume(byId, r.rows) == Nothing
    requires RecalculateInitial(r.(rows := rows), now).status.Pending?
    ensures CommitRun(r, r.lastRequest, now, results) == Ok(RecalculateInitial(r.(rows := rows), now).(heartbeat := None))
  {
    hide ById, ValidResults, TouchAll, Held, SettledVolume, RecalculateInitial;
    assert r.volume.Plus(Nothing) == r.volume;
  }

  lemma FallsAsleep()
    ensures CommitRun(Started, "claim", 10, AskForRetry) == Ok(Asleep)
  {
    hide ById, ValidResults, TouchAll, Held, SettledVolume, RecalculateInitial, CommitRun;
    RetryIsIndexed();
    RetryIsHeld(Started.rows);
    RetryIsSettled(Started.rows);
    RetryBringsNothing(Started.rows);
    BothWait();
    CommitLeavesPending(Started, 10, AskForRetry, RetryById, Asleep.rows);
  }

  lemma OneStep(t: Tracked, actions: seq<(RunAction, bool)>, n: nat, after: Run)
    requires 0 < n <= |actions| && actions[n - 1].1 && Transition(History(t, actions, n - 1).run, actions[n - 1].0) == Ok(after)
    ensures History(t, actions, n).run == after
  {
  }

  /** Then the older hour, due since the beginning, waits for the newer one's retry time. */
  lemma LateWakeExample()
    ensures NewRun(Backfill)
    ensures var run := History(Tracked(Backfill, []), LateWake).run;
            run.status.Pending? && run.nextAttempt == 100 && run.rows == Asleep.rows && Due(Asleep.rows[0], 10)
  {
    var t := Tracked(Backfill, []);
    BecomesReady();
    TakesTheNewer();
    FallsAsleep();
    hide InitialiseRun, ClaimRun, CommitRun, History;
    assert History(t, LateWake, 0) == t by { NothingYet(t); }
    OneStep(t, LateWake, 1, Ready);
    OneStep(t, LateWake, 2, Started);
    OneStep(t, LateWake, 3, Asleep);
  }

  lemma NothingYet(t: Tracked)
    ensures History(t, LateWake, 0) == t
  {
  }

  // ---------------------------------------------------------------- retry budget

  /** Handlers ask for another attempt only below the budget; releases and recoveries use it. */
  ghost predicate Disciplined(a: RunAction, budget: int) {
    match a
    case Commit(_, _, results) => forall o :: o in results && o.status.Pending? ==> o.attempt < budget
    case Complete(_, _, result, _) => result.status.Pending? ==> result.attempt < budget
    case Release(_, _, b) => b == budget
    case Recover(_, _, b) => b == budget
    case _ => true
  }

  predicate InBudget(w: Window, budget: int) {
    w.attempts <= budget && (w.status.Pending? ==> w.attempts < budget)
  }

  /** Attempts still available to a run's windows. */
  function Remaining(rows: seq<Window>, budget: int, n: nat := |rows|): int
    requires n <= |rows|
  {
    if n == 0 then 0 else Remaining(rows, budget, n - 1) + budget - rows[n - 1].attempts
  }

  function Claims(log: seq<Event>, n: nat := |log|): nat
    requires n <= |log|
  {
    if n == 0 then 0 else Claims(log, n - 1) + if log[n - 1].Claimed? then 1 else 0
  }

  ghost predicate RowsInBudget(rows: seq<Window>, budget: int) {
    forall i :: 0 <= i < |rows| ==> InBudget(rows[i], budget)
  }

  /** The effect leaves every row within the budget. */
  ghost predicate Frugal(e: Effect, rows: seq<Window>, budget: int) {
    && Proper(e, rows)
    && (e.Expire? ==> e.budget == budget)
    && (e.Settle? ==> forall i :: 0 <= i < |rows| && rows[i].id in e.results && e.results[rows[i].id].status.Pending? ==> rows[i].attempts < budget)
  }

  lemma FrugalEffect(e: Effect, rows: seq<Window>, budget: int)
    requires RowsInBudget(rows, budget) && Frugal(e, rows, budget)
    ensures RowsInBudget(TouchAll(e, rows), budget)
  {
  }

  lemma {:induction false} RemainingIsNatural(rows: seq<Window>, budget: int, n: nat := |rows|)
    requires RowsInBudget(rows, budget) && n <= |rows|
    ensures Remaining(rows, budget, n) >= 0
  {
    if n > 0 { RemainingIsNatural(rows, budget, n - 1); }
  }

  /** Only claims spend attempts, and every claimed window spends one. */
  lemma {:induction false} EffectSpends(e: Effect, rows: seq<Window>, budget: int, n: nat := |rows|)
    requires n <= |rows|
    ensures Remaining(TouchAll(e, rows), budget, n) <= Remaining(rows, budget, n)
    ensures !e.Take? ==> Remaining(TouchAll(e, rows), budget, n) == Remaining(rows, budget, n)
    ensures e.Take? && (exists i :: 0 <= i < n && rows[i].id in e.chosen) ==>
              Remaining(TouchAll(e, rows), budget, n) < Remaining(rows, budget, n)
  {
    if n > 0 { EffectSpends(e, rows, budget, n - 1); }
  }

  lemma {:induction false} ClaimsOfPrefix(log: seq<Event>, more: seq<Event>, n: nat)
    requires n <= |log|
    ensures Claims(log + more, n) == Claims(log, n)
  {
    if n > 0 { ClaimsOfPrefix(log, more, n - 1); }
  }

  lemma {:induction false} ResolutionsClaimNothing(log: seq<Event>, more: seq<Event>, n: nat := |more|)
    requires n <= |more| && forall i :: 0 <= i < |more| ==> more[i].Resolved?
    ensures Claims(log + more, |log| + n) == Claims(log)
  {
    if n == 0 {
      ClaimsOfPrefix(log, more, |log|);
    } else {
      ResolutionsClaimNothing(log, more, n - 1);
    }
  }

  lemma {:induction false} FreshBudget(rows: seq<Window>, budget: int, n: nat := |rows|)
    requires FreshRows(rows) && n <= |rows|
    ensures Remaining(rows, budget, n) == n * budget
  {
    if n > 0 {
      FreshBudget(rows, budget, n - 1);
      assert n * budget == (n - 1) * budget + budget;
    }
  }

  /** Enough of the state to bound claims: `claims` so far plus attempts still available. */
  ghost predicate WithinBudget(rows: seq<Window>, claims: int, budget: int) {
    RowsInBudget(rows, budget) && claims + Remaining(rows, budget) <= |rows| * budget
  }

  lemma SettlingStaysInBudget(rows: seq<Window>, log: seq<Event>, e: Effect, mutated: bool, budget: int)
    requires WithinBudget(rows, Claims(log), budget) && Frugal(e, rows, budget) && !e.Take? && DistinctRows(rows)
    ensures WithinBudget(TouchAll(e, rows), Claims(log + Resolutions(e, mutated, rows)), budget)
  {
    FrugalEffect(e, rows, budget);
    EffectSpends(e, rows, budget);
    ResolutionsMatchRows(e, mutated, rows);
    forall k | 0 <= k < |Resolutions(e, mutated, rows)| ensures Resolutions(e, mutated, rows)[k].Resolved? {
      assert EndsOneOf(e, rows, |rows|, Resolutions(e, mutated, rows)[k]);
    }
    ResolutionsClaimNothing(log, Resolutions(e, mutated, rows));
  }

  lemma TakingStaysInBudget(rows: seq<Window>, log: seq<Event>, e: Effect, request: string, budget: int)
    requires WithinBudget(rows, Claims(log), budget) && Frugal(e, rows, budget) && e.Take?
    requires exists i :: 0 <= i < |rows| && rows[i].id in e.chosen
    ensures WithinBudget(TouchAll(e, rows), Claims(log + [Claimed(request)]), budget)
  {
    FrugalEffect(e, rows, budget);
    EffectSpends(e, rows, budget);
    ClaimsOfPrefix(log, [Claimed(request)], |log|);
  }

  ghost predicate Bounded(t: Tracked, budget: int) {
    Good(t) && Windowed(t.run.task) && WithinBudget(t.run.rows, Claims(t.log), budget)
  }

  lemma HeldResultsAreFrugal(rows: seq<Window>, results: seq<WindowResult>, now: int, budget: int)
    requires ValidResults(results) && Held(ById(results), rows)
    requires forall o :: o in results && o.status.Pending? ==> o.attempt < budget
    ensures Frugal(Settle(ById(results), now), rows, budget)
  {
  }

  function Reported(a: RunAction): seq<WindowResult>
    requires a.Commit? || a.Complete?
  {
    if a.Commit? then a.results else [a.result.(volume := a.mutation.GetOr(a.result.volume))]
  }

  lemma AcceptedCommit(r: Run, a: RunAction)
    requires (a.Commit? || a.Complete?) && Transition(r, a).Ok?
    ensures ValidResults(Reported(a)) && Held(ById(Reported(a)), r.rows)
    ensures Transition(r, a).value.rows == TouchAll(Settle(ById(Reported(a)), a.now), r.rows)
  {
  }

  lemma CommitStaysInBudget(t: Tracked, a: RunAction, budget: int)
    requires Bounded(t, budget) && Disciplined(a, budget) && (a.Commit? || a.Complete?) && Transition(t.run, a).Ok?
    ensures Bounded(Step(t, a, true), budget)
  {
    var rows, after, e := t.run.rows, Step(t, a, true), Settle(ById(Reported(a)), a.now);
    AcceptedCommit(t.run, a);
    assert WithinBudget(after.run.rows, Claims(after.log), budget) by {
      HeldResultsAreFrugal(rows, Reported(a), a.now, budget);
      SettlingStaysInBudget(rows, t.log, e, a.Complete? && a.mutation.Some?, budget);
      EventsOf(t.run, a, e, a.Complete? && a.mutation.Some?, t.log);
    }
    StepIsGood(t, a, true);
  }

  lemma ExpiryStaysInBudget(t: Tracked, a: RunAction, budget: int)
    requires Bounded(t, budget) && Disciplined(a, budget) && (a.Release? || a.Recover?) && Transition(t.run, a).Ok?
    ensures Bounded(Step(t, a, true), budget)
  {
    StepIsGood(t, a, true);
    if EffectOf(t.run, a).Some? {
      var e := Expire(budget, a.now, if a.Release? then EXECUTION_FAILED else LEASE_LOST);
      EventsOf(t.run, a, e, false, t.log);
      SettlingStaysInBudget(t.run.rows, t.log, e, false, budget);
    } else {
      assert t.log + Events(t.run, a) == t.log;
    }
  }

  lemma FenceStaysInBudget(t: Tracked, a: RunAction, budget: int)
    requires Bounded(t, budget) && a.Fence? && Transition(t.run, a).Ok?
    ensures Bounded(Step(t, a, true), budget)
  {
    StepIsGood(t, a, true);
    if t.run.status.Terminal() {
      assert t.log + Events(t.run, a) == t.log;
    } else {
      var e := Abort(a.now);
      EventsOf(t.run, a, e, false, t.log);
      SettlingStaysInBudget(t.run.rows, t.log, e, false, budget);
    }
  }

  lemma ClaimStaysInBudget(t: Tracked, a: RunAction, budget: int)
    requires Bounded(t, budget) && a.Claim? && Transition(t.run, a).Ok?
    ensures Bounded(Step(t, a, true), budget)
    ensures Remaining(Step(t, a, true).run.rows, budget) < Remaining(t.run.rows, budget)
  {
    StepIsGood(t, a, true);
    var chosen := Chosen(t.run.rows, a.now, a.locked, a.limit);
    ChosenArePending(t.run.rows, a.now, a.locked, a.limit);
    TakingStaysInBudget(t.run.rows, t.log, Take(chosen, a.now), a.request, budget);
    EffectSpends(Take(chosen, a.now), t.run.rows, budget);
  }

  lemma InitialisationStaysInBudget(t: Tracked, a: RunAction, budget: int)
    requires Bounded(t, budget) && a.Initialise? && Transition(t.run, a).Ok? && budget > 0
    ensures Bounded(Step(t, a, true), budget)
  {
    StepIsGood(t, a, true);
    FreshBudget(a.rows, budget);
    assert t.run.rows == [] && Claims(t.log) <= 0;
    assert t.log + Events(t.run, a) == t.log;
  }

  lemma StepStaysInBudget(t: Tracked, a: RunAction, allowed: bool, budget: int)
    requires Bounded(t, budget) && Disciplined(a, budget) && budget > 0
    ensures Bounded(Step(t, a, allowed), budget)
  {
    if Transition(t.run, a).Ok? && allowed {
      match a
      case Initialise(_, _) => InitialisationStaysInBudget(t, a, budget);
      case Claim(_, _, _, _) => ClaimStaysInBudget(t, a, budget);
      case Commit(_, _, _) => CommitStaysInBudget(t, a, budget);
      case Complete(_, _, _, _) => CommitStaysInBudget(t, a, budget);
      case Release(_, _, _) => ExpiryStaysInBudget(t, a, budget);
      case Recover(_, _, _) => ExpiryStaysInBudget(t, a, budget);
      case Fence(_) => FenceStaysInBudget(t, a, budget);
      case Heartbeat(_, _) => assert t.log + Events(t.run, a) == t.log;
      case CommitWhole(_, _, _, _, _, _) =>
    }
  }

  lemma {:induction false} HistoryStaysInBudget(r: Run, actions: seq<(RunAction, bool)>, budget: int, n: nat := |actions|)
    requires NewRun(r) && Windowed(r.task) && budget > 0 && n <= |actions|
    requires forall i :: 0 <= i < |actions| ==> Disciplined(actions[i].0, budget)
    ensures Bounded(History(Tracked(r, []), actions, n), budget)
  {
    if n == 0 {
      NewRunIsGood(r);
    } else {
      HistoryStaysInBudget(r, actions, budget, n - 1);
      StepStaysInBudget(History(Tracked(r, []), actions, n - 1), actions[n - 1].0, actions[n - 1].1, budget);
    }
  }

  /** With disciplined handlers no window ever exceeds the budget, a pending window always has an
      attempt left, and the run is claimed at most once per window and attempt, whatever crashes,
      releases and recoveries happen. */
  lemma RetryBudgetHolds(r: Run, actions: seq<(RunAction, bool)>, budget: int)
    requires NewRun(r) && Windowed(r.task) && budget > 0
    requires forall i :: 0 <= i < |actions| ==> Disciplined(actions[i].0, budget)
    ensures var t := History(Tracked(r, []), actions);
            && (forall i :: 0 <= i < |t.run.rows| ==>
                  t.run.rows[i].attempts <= budget && (t.run.rows[i].status.Pending? ==> t.run.rows[i].attempts < budget))
            && Claims(t.log) <= |t.run.rows| * budget
  {
    HistoryStaysInBudget(r, actions, budget);
    var rows := History(Tracked(r, []), actions).run.rows;
    RemainingIsNatural(rows, budget);
    forall i | 0 <= i < |rows| ensures InBudget(rows[i], budget) {}
  }

  /** Each accepted claim strictly uses up attempts, so claiming terminates. */
  lemma ClaimingTerminates(r: Run, actions: seq<(RunAction, bool)>, claim: RunAction, budget: int)
    requires NewRun(r) && Windowed(r.task) && budget > 0 && claim.Claim?
    requires forall i :: 0 <= i < |actions| ==> Disciplined(actions[i].0, budget)
    requires Transition(History(Tracked(r, []), actions).run, claim).Ok?
    ensures var t := History(Tracked(r, []), actions);
            0 <= Remaining(Step(t, claim, true).run.rows, budget) < Remaining(t.run.rows, budget)
  {
    HistoryStaysInBudget(r, actions, budget);
    ClaimStaysInBudget(History(Tracked(r, []), actions), claim, budget);
    RemainingIsNatural(Step(History(Tracked(r, []), actions), claim, true).run.rows, budget);
  }
}
