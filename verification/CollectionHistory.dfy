/** Arbitrary interleavings of the queue's transactions on one run, with the history of what they
    resolved: status law, conservation, fencing, wake-ups and the retry budget. */
module CollectionHistory {
  import opened Prelude
  import opened CollectionRun

  datatype Cause = Committed | Expired | Aborted

  /** `Resolved` ends one attempt of one window; `mutated` tells that a business mutation went with it. */
  datatype Event =
    | Claimed(request: string)
    | Resolved(id: int, attempt: int, cause: Cause, mutated: bool, volume: Volume)

  datatype Tracked = Tracked(run: Run, log: seq<Event>)

  datatype RunAction =
    | Initialise(now: int, rows: seq<Window>)
    | Claim(now: int, request: string, locked: set<int>, limit: int)
    | Commit(now: int, request: string, results: seq<WindowResult>)
    | CommitWhole(now: int, request: string, status: Status, next: Option<int>, volume: Volume, errorCode: string)
    | Complete(now: int, request: string, result: WindowResult, mutation: Option<Volume>)
    | Release(now: int, request: string, budget: int)
    | Heartbeat(now: int, request: string)
    | Recover(now: int, staleBefore: Option<int>, budget: int)
    | Fence(now: int)

  function Transition(r: Run, a: RunAction): (o: Outcome<Run>)
    ensures SameRun(r, o)
  {
    if a.now <= 0 then Fail(Contract)
    else
      match a
      case Initialise(now, rows) => InitialiseRun(r, now, rows)
      case Claim(now, request, locked, limit) => ClaimRun(r, now, request, locked, limit)
      case Commit(now, request, results) => CommitRun(r, request, now, results)
      case CommitWhole(now, request, status, next, volume, code) => CommitPlain(r, request, now, status, next, volume, code)
      case Complete(now, request, result, mutation) => CompleteRun(r, request, now, result, mutation)
      case Release(now, request, budget) => ReleaseRun(r, request, now, budget)
      case Heartbeat(now, request) => HeartbeatRun(r, request, now)
      case Recover(now, staleBefore, budget) => RecoverRun(r, now, staleBefore, budget)
      case Fence(now) => AbortRun(r, now)
  }

  /** The row effect of an accepted transaction, if it has one. */
  function EffectOf(r: Run, a: RunAction): Option<Effect> {
    match a
    case Claim(now, _, locked, limit) => if Windowed(r.task) then Some(Take(Chosen(r.rows, now, locked, limit), now)) else None
    case Commit(now, _, results) => Some(Settle(ById(results), now))
    case Complete(now, _, result, mutation) => Some(Settle(ById([result.(volume := mutation.GetOr(result.volume))]), now))
    case Release(now, request, budget) => if Owned(r, request) && Windowed(r.task) then Some(Expire(budget, now, EXECUTION_FAILED)) else None
    case Recover(now, staleBefore, budget) => if Stale(r, staleBefore) && Windowed(r.task) then Some(Expire(budget, now, LEASE_LOST)) else None
    case Fence(now) => if r.status.Terminal() then None else Some(Abort(now))
    case _ => None
  }

  predicate Resolves(e: Effect, w: Window) {
    !e.Take? && w.status.Running? && Affects(e, w)
  }

  function Resolution(e: Effect, mutated: bool, w: Window): Event
    requires Resolves(e, w)
  {
    match e
    case Settle(results, _) => Resolved(w.id, w.attempts, Committed, mutated, results[w.id].volume)
    case Expire(_, _, _) => Resolved(w.id, w.attempts, Expired, false, Nothing)
    case Abort(_) => Resolved(w.id, w.attempts, Aborted, false, Nothing)
  }

  function Resolutions(e: Effect, mutated: bool, rows: seq<Window>, n: nat := |rows|): seq<Event>
    requires n <= |rows|
  {
    if n == 0 then []
    else
      var earlier := Resolutions(e, mutated, rows, n - 1);
      if Resolves(e, rows[n - 1]) then earlier + [Resolution(e, mutated, rows[n - 1])] else earlier
  }

  function Events(r: Run, a: RunAction): seq<Event> {
    if a.Claim? then [Claimed(a.request)]
    else
      match EffectOf(r, a)
      case None => []
      case Some(e) => Resolutions(e, a.Complete? && a.mutation.Some?, r.rows)
  }

  /** `allowed` is false when anything outside the run's own rows makes the transaction roll back:
      scope locks, configuration fences, a failing mutation or a lifecycle refusal. */
  function Step(t: Tracked, a: RunAction, allowed: bool): Tracked {
    match Transition(t.run, a)
    case Ok(r) => if allowed then Tracked(r, t.log + Events(t.run, a)) else t
    case Fail(_) => t
  }

  /** The state after the first `n` transactions. */
  function History(t: Tracked, actions: seq<(RunAction, bool)>, n: nat := |actions|): Tracked
    requires n <= |actions|
  {
    if n == 0 then t else Step(History(t, actions, n - 1), actions[n - 1].0, actions[n - 1].1)
  }

  // ---------------------------------------------------------------- the invariant

  ghost predicate DueAt(rows: seq<Window>, time: int) {
    exists i :: 0 <= i < |rows| && Due(rows[i], time)
  }

  ghost predicate RowsOk(rows: seq<Window>) {
    && DistinctRows(rows)
    && (forall i :: 0 <= i < |rows| ==> rows[i].volume.Natural() && (rows[i].status.Running? ==> rows[i].attempts > 0))
  }

  /** The law relating an initialised windowed run to its windows. */
  ghost predicate Lawful(r: Run) {
    && RowsOk(r.rows) && r.total == |r.rows|
    && r.completed == Count(r.rows, Success) && r.failed == Count(r.rows, Failed)
    && (match r.status
        case Running => Count(r.rows, Running) > 0
        case Pending => Count(r.rows, Running) == 0 && Count(r.rows, Pending) > 0 && DueAt(r.rows, r.nextAttempt)
        case Success => Count(r.rows, Running) == Count(r.rows, Pending) == Count(r.rows, Failed) == 0
        case Failed => Count(r.rows, Running) == Count(r.rows, Pending) == 0 && Count(r.rows, Failed) > 0
        case Unavailable => false)
  }

  ghost predicate RunOk(r: Run) {
    && (r.active <==> !r.status.Terminal()) && !r.status.Unavailable?
    && (Windowed(r.task) && r.initialised ==> Lawful(r))
    && (Windowed(r.task) && !r.initialised ==> r.rows == [] && r.total == r.completed == r.failed == 0 && (r.status.Pending? || r.status.Failed?))
    && (!Windowed(r.task) ==> r.initialised && r.rows == [] && r.total == 0)
  }

  function LogVolume(log: seq<Event>, n: nat := |log|): Volume
    requires n <= |log|
  {
    if n == 0 then Nothing
    else
      var sum := LogVolume(log, n - 1);
      if log[n - 1].Resolved? then sum.Plus(log[n - 1].volume) else sum
  }

  /** No attempt is resolved twice, and no row still runs an attempt that was resolved. */
  ghost predicate LogOk(rows: seq<Window>, log: seq<Event>) {
    Unique(log) && (forall e :: e in log && e.Resolved? ==> Fenced(rows, e.id, e.attempt))
  }

  ghost predicate Unique(log: seq<Event>) {
    forall i, j :: 0 <= i < j < |log| && log[i].Resolved? && log[j].Resolved? ==>
      log[i].id != log[j].id || log[i].attempt != log[j].attempt
  }

  ghost predicate Fenced(rows: seq<Window>, id: int, attempt: int) {
    exists i :: 0 <= i < |rows| && rows[i].id == id && Passed(rows[i], attempt)
  }

  /** The row has left the given attempt for good. */
  predicate Passed(w: Window, attempt: int) {
    attempt <= w.attempts && (w.status.Running? ==> attempt < w.attempts)
  }

  ghost predicate Good(t: Tracked) {
    RunOk(t.run) && (Windowed(t.run.task) ==> HistoryOk(t.run.rows, t.run.volume, t.log))
  }

  ghost predicate HistoryOk(rows: seq<Window>, volume: Volume, log: seq<Event>) {
    RowsOk(rows) && LogOk(rows, log) && volume == LogVolume(log) && RowVolume(rows).AtMost(volume)
  }

  // ---------------------------------------------------------------- derivation establishes the law

  /** Both wake-up laws choose a time at which some pending row is due. */
  lemma WakesWithWork(rows: seq<Window>, now: int)
    requires now > 0 && Count(rows, Pending) > 0
    ensures DueAt(rows, Max(now, MinRetry(rows).GetOr(now)))
    ensures EarliestWake(rows, now).Some? && DueAt(rows, EarliestWake(rows, now).value)
  {
    MinRetryIsTheLeastRetry(rows);
    EarliestWakeIsTheLeastWake(rows, now);
    CountMeansPresence(rows, Pending);
    var wake := Max(now, MinRetry(rows).GetOr(now));
    if MinRetry(rows).Some? {
      var j :| 0 <= j < |rows| && rows[j].status.Pending? && rows[j].nextRetry == MinRetry(rows);
      assert Due(rows[j], wake);
    } else {
      var i :| 0 <= i < |rows| && rows[i].status.Pending?;
      assert Due(rows[i], wake);
    }
    var k :| 0 <= k < |rows| && rows[k].status.Pending? && WakeTime(rows[k], now) == EarliestWake(rows, now).value;
    assert Due(rows[k], EarliestWake(rows, now).value);
  }

  ghost predicate Underived(r: Run) {
    Windowed(r.task) && r.initialised && RowsOk(r.rows) && r.total == |r.rows| && r.active && !r.status.Terminal()
  }

  ghost predicate Derives(r: Run, d: Run) {
    && Lawful(d) && (d.active <==> !d.status.Terminal())
    && d.rows == r.rows && d.volume == r.volume && d.task == r.task && d.initialised
  }

  lemma InitialDerivation(r: Run, now: int)
    requires Underived(r) && now > 0
    ensures Derives(r, RecalculateInitial(r, now))
  {
    CountsPartitionRows(r.rows);
    if Count(r.rows, Pending) > 0 { WakesWithWork(r.rows, now); }
  }

  lemma LockedDerivation(r: Run, now: int)
    requires Underived(r) && now > 0
    ensures RecalculateLocked(r, now).Ok? && Derives(r, RecalculateLocked(r, now).value)
  {
    CountsPartitionRows(r.rows);
    if Count(r.rows, Pending) > 0 { WakesWithWork(r.rows, now); }
  }

  lemma Derivation(r: Run, now: int)
    requires Underived(r) && now > 0
    ensures Recalculate(r, now).Ok? && Derives(r, Recalculate(r, now).value)
  {
    InitialDerivation(r, now);
    LockedDerivation(r, now);
  }

  // ---------------------------------------------------------------- what one effect does to the history

  /** Claims take pending rows; commits settle running rows to a state that is not running. */
  ghost predicate Proper(e: Effect, rows: seq<Window>) {
    forall i :: 0 <= i < |rows| && Affects(e, rows[i]) ==> ProperFor(e, rows[i])
  }

  predicate ProperFor(e: Effect, w: Window)
    requires Affects(e, w)
  {
    match e
    case Take(_, _) => w.status.Pending?
    case Settle(results, _) => w.status.Running? && !results[w.id].status.Running? && results[w.id].volume.Natural()
    case _ => true
  }

  lemma TouchedRow(e: Effect, w: Window)
    requires Affects(e, w) ==> ProperFor(e, w)
    ensures var v := Touch(e, w);
            && v.id == w.id && v.attempts >= w.attempts && (w.volume.Natural() ==> v.volume.Natural())
            && (Resolves(e, w) ==> v.attempts == w.attempts && !v.status.Running?)
            && (!Resolves(e, w) ==> v.status.Running? ==> v == w || v.attempts == w.attempts + 1)
    ensures !e.Settle? ==> Touch(e, w).volume == w.volume
  {
  }

  lemma EffectKeepsRowsOk(e: Effect, rows: seq<Window>)
    requires Proper(e, rows) && RowsOk(rows)
    ensures RowsOk(TouchAll(e, rows))
  {
  }

  /** Every event ends the attempt that one of the first `n` rows is running, each row's only once. */
  ghost predicate MatchesRows(e: Effect, rows: seq<Window>, n: nat, evs: seq<Event>)
    requires n <= |rows|
  {
    && (forall k :: 0 <= k < |evs| ==> EndsOneOf(e, rows, n, evs[k]))
    && (forall j, k :: 0 <= j < k < |evs| && evs[j].Resolved? && evs[k].Resolved? ==> evs[j].id != evs[k].id)
  }

  ghost predicate EndsOneOf(e: Effect, rows: seq<Window>, n: nat, ev: Event)
    requires n <= |rows|
  {
    ev.Resolved? && exists i :: 0 <= i < n && Resolves(e, rows[i]) && ev.id == rows[i].id && ev.attempt == rows[i].attempts
  }

  lemma {:induction false} ResolutionsMatchRows(e: Effect, mutated: bool, rows: seq<Window>, n: nat := |rows|)
    requires DistinctRows(rows) && n <= |rows|
    ensures MatchesRows(e, rows, n, Resolutions(e, mutated, rows, n))
  {
    if n > 0 {
      ResolutionsMatchRows(e, mutated, rows, n - 1);
      var earlier, evs := Resolutions(e, mutated, rows, n - 1), Resolutions(e, mutated, rows, n);
      forall k | 0 <= k < |earlier| ensures EndsOneOf(e, rows, n, evs[k]) && evs[k].id != rows[n - 1].id {
        assert EndsOneOf(e, rows, n - 1, earlier[k]);
      }
    }
  }

  lemma EffectKeepsUniqueness(e: Effect, mutated: bool, rows: seq<Window>, log: seq<Event>)
    requires DistinctRows(rows) && Proper(e, rows) && LogOk(rows, log)
    ensures Unique(log + Resolutions(e, mutated, rows))
  {
    var more := Resolutions(e, mutated, rows);
    ResolutionsMatchRows(e, mutated, rows);
    var all := log + more;
    forall i, j | 0 <= i < j < |all| && all[i].Resolved? && all[j].Resolved?
      ensures all[i].id != all[j].id || all[i].attempt != all[j].attempt
    {
      if i < |log| <= j {
        assert all[j] == more[j - |log|] && all[i] in log && EndsOneOf(e, rows, |rows|, more[j - |log|]);
        var k :| 0 <= k < |rows| && Resolves(e, rows[k]) && all[j].id == rows[k].id && all[j].attempt == rows[k].attempts;
        var m :| 0 <= m < |rows| && rows[m].id == all[i].id && Passed(rows[m], all[i].attempt);
      }
    }
  }

  lemma EffectKeepsFences(e: Effect, mutated: bool, rows: seq<Window>, log: seq<Event>)
    requires DistinctRows(rows) && Proper(e, rows) && LogOk(rows, log)
    ensures forall ev :: ev in log + Resolutions(e, mutated, rows) && ev.Resolved? ==> Fenced(TouchAll(e, rows), ev.id, ev.attempt)
  {
    var more, after := Resolutions(e, mutated, rows), TouchAll(e, rows);
    ResolutionsMatchRows(e, mutated, rows);
    forall ev | ev in log + more && ev.Resolved? ensures Fenced(after, ev.id, ev.attempt) {
      if ev in more {
        var j :| 0 <= j < |more| && more[j] == ev;
        assert EndsOneOf(e, rows, |rows|, more[j]);
        var k :| 0 <= k < |rows| && Resolves(e, rows[k]) && ev.id == rows[k].id && ev.attempt == rows[k].attempts;
        TouchedRow(e, rows[k]);
        assert Passed(after[k], ev.attempt);
      } else {
        var k :| 0 <= k < |rows| && rows[k].id == ev.id && Passed(rows[k], ev.attempt);
        TouchedRow(e, rows[k]);
        assert Passed(after[k], ev.attempt);
      }
    }
  }

  /** The accepted volume one row brings to a commit. */
  function Gain(e: Effect, w: Window): Volume {
    if e.Settle? && w.id in e.results then e.results[w.id].volume else Nothing
  }

  lemma RowGain(e: Effect, mutated: bool, w: Window)
    requires w.volume.Natural() && (Affects(e, w) ==> ProperFor(e, w))
    ensures Touch(e, w).volume.AtMost(w.volume.Plus(Gain(e, w)))
    ensures if Resolves(e, w) then Resolution(e, mutated, w).volume == Gain(e, w) else Gain(e, w) == Nothing
  {
  }

  lemma {:induction false} RowsGain(e: Effect, rows: seq<Window>, n: nat := |rows|)
    requires Proper(e, rows) && n <= |rows| && forall i :: 0 <= i < |rows| ==> rows[i].volume.Natural()
    ensures RowVolume(TouchAll(e, rows), n).AtMost(
              if e.Settle? then RowVolume(rows, n).Plus(SettledVolume(e.results, rows, n)) else RowVolume(rows, n))
  {
    if n > 0 {
      RowsGain(e, rows, n - 1);
      RowGain(e, false, rows[n - 1]);
    }
  }

  lemma {:induction false} LogVolumeOfPrefix(log: seq<Event>, more: seq<Event>, n: nat)
    requires n <= |log|
    ensures LogVolume(log + more, n) == LogVolume(log, n)
  {
    if n > 0 { LogVolumeOfPrefix(log, more, n - 1); }
  }

  lemma {:induction false} LogVolumeAppends(log: seq<Event>, more: seq<Event>, n: nat := |more|)
    requires n <= |more|
    ensures LogVolume(log + more, |log| + n) == LogVolume(log).Plus(LogVolume(more, n))
  {
    if n == 0 {
      LogVolumeOfPrefix(log, more, |log|);
    } else {
      LogVolumeAppends(log, more, n - 1);
    }
  }

  lemma LogVolumeSnoc(log: seq<Event>, last: Event)
    requires last.Resolved?
    ensures LogVolume(log + [last]) == LogVolume(log).Plus(last.volume)
  {
    LogVolumeOfPrefix(log, [last], |log|);
    assert (log + [last])[|log|] == last;
  }

  lemma {:induction false} LoggedGain(e: Effect, mutated: bool, rows: seq<Window>, n: nat := |rows|)
    requires Proper(e, rows) && n <= |rows| && forall i :: 0 <= i < |rows| ==> rows[i].volume.Natural()
    ensures e.Settle? ==> LogVolume(Resolutions(e, mutated, rows, n)) == SettledVolume(e.results, rows, n)
    ensures !e.Settle? ==> LogVolume(Resolutions(e, mutated, rows, n)) == Nothing
  {
    if n > 0 {
      LoggedGain(e, mutated, rows, n - 1);
      RowGain(e, mutated, rows[n - 1]);
      var earlier := Resolutions(e, mutated, rows, n - 1);
      if Resolves(e, rows[n - 1]) {
        var ev := Resolution(e, mutated, rows[n - 1]);
        LogVolumeSnoc(earlier, ev);
        assert Resolutions(e, mutated, rows, n) == earlier + [ev];
      } else {
        assert Resolutions(e, mutated, rows, n) == earlier;
      }
    }
  }

  lemma EffectKeepsHistory(e: Effect, mutated: bool, rows: seq<Window>, volume: Volume, log: seq<Event>)
    requires Proper(e, rows) && HistoryOk(rows, volume, log)
    ensures HistoryOk(TouchAll(e, rows), if e.Settle? then volume.Plus(SettledVolume(e.results, rows)) else volume,
                      log + Resolutions(e, mutated, rows))
  {
    var after, all := TouchAll(e, rows), log + Resolutions(e, mutated, rows);
    var total := if e.Settle? then SettledVolume(e.results, rows) else Nothing;
    assert RowsOk(after) by { EffectKeepsRowsOk(e, rows); }
    assert LogOk(after, all) by {
      EffectKeepsUniqueness(e, mutated, rows, log);
      EffectKeepsFences(e, mutated, rows, log);
    }
    assert LogVolume(all) == volume.Plus(total) by {
      LoggedGain(e, mutated, rows);
      LogVolumeAppends(log, Resolutions(e, mutated, rows));
    }
    assert RowVolume(after).AtMost(volume.Plus(total)) by { RowsGain(e, rows); }
  }

  // ---------------------------------------------------------------- every step keeps the invariant

  lemma {:induction false} AbortFailsOpenRows(rows: seq<Window>, now: int, n: nat := |rows|)
    requires n <= |rows|
    ensures var after := TouchAll(Abort(now), rows);
            && Count(after, Running, n) == Count(after, Pending, n) == 0
            && Count(after, Failed, n) == Count(rows, Failed, n) + Count(rows, Running, n) + Count(rows, Pending, n)
  {
    if n > 0 { AbortFailsOpenRows(rows, now, n - 1); }
  }

  lemma TakenRowsRun(chosen: set<int>, now: int, rows: seq<Window>, i: nat)
    requires i < |rows| && rows[i].id in chosen
    ensures Count(TouchAll(Take(chosen, now), rows), Running) > 0
  {
    var after := TouchAll(Take(chosen, now), rows);
    assert after[i].status.Running?;
    CountMeansPresence(after, Running);
  }

  /** A claim changes neither the successful nor the failed rows. */
  lemma {:induction false} TakeKeepsOutcomes(chosen: set<int>, now: int, rows: seq<Window>, n: nat := |rows|)
    requires Proper(Take(chosen, now), rows) && n <= |rows|
    ensures Count(TouchAll(Take(chosen, now), rows), Success, n) == Count(rows, Success, n)
    ensures Count(TouchAll(Take(chosen, now), rows), Failed, n) == Count(rows, Failed, n)
  {
    if n > 0 { TakeKeepsOutcomes(chosen, now, rows, n - 1); }
  }

  lemma CommitIsGood(t: Tracked, now: int, results: map<int, WindowResult>, mutated: bool)
    requires Good(t) && t.run.status.Running? && Windowed(t.run.task) && now > 0
    requires forall id :: id in results ==> ValidResult(results[id])
    requires CommitRows(t.run, now, results).Ok?
    ensures Good(Tracked(CommitRows(t.run, now, results).value, t.log + Resolutions(Settle(results, now), mutated, t.run.rows)))
  {
    var r, e := t.run, Settle(results, now);
    assert Proper(e, r.rows);
    var settled := r.(rows := TouchAll(e, r.rows), volume := r.volume.Plus(SettledVolume(results, r.rows)));
    EffectKeepsHistory(e, mutated, r.rows, r.volume, t.log);
    Derivation(settled, now);
  }

  lemma ExpireIsGood(t: Tracked, now: int, budget: int, code: string)
    requires Good(t) && t.run.status.Running? && Windowed(t.run.task) && now > 0
    ensures var e := Expire(budget, now, code);
            var expired := t.run.(rows := TouchAll(e, t.run.rows));
            && Underived(expired)
            && HistoryOk(expired.rows, expired.volume, t.log + Resolutions(e, false, t.run.rows))
  {
    EffectKeepsHistory(Expire(budget, now, code), false, t.run.rows, t.run.volume, t.log);
  }

  lemma EventsOf(r: Run, a: RunAction, e: Effect, mutated: bool, log: seq<Event>)
    requires EffectOf(r, a) == Some(e) && !a.Claim? && mutated == (a.Complete? && a.mutation.Some?)
    ensures log + Events(r, a) == log + Resolutions(e, mutated, r.rows)
  {
  }

  lemma ReleaseIsGood(t: Tracked, now: int, request: string, budget: int)
    requires Good(t) && now > 0 && ReleaseRun(t.run, request, now, budget).Ok?
    ensures Good(Tracked(ReleaseRun(t.run, request, now, budget).value, t.log + Events(t.run, Release(now, request, budget))))
  {
    var r := t.run;
    if Owned(r, request) && Windowed(r.task) {
      var e := Expire(budget, now, EXECUTION_FAILED);
      var expired := r.(rows := TouchAll(e, r.rows), heartbeat := None);
      assert ReleaseRun(r, request, now, budget) == Recalculate(expired, now);
      ExpireIsGood(t, now, budget, EXECUTION_FAILED);
      Derivation(expired, now);
      EventsOf(r, Release(now, request, budget), e, false, t.log);
    } else {
      assert t.log + Events(r, Release(now, request, budget)) == t.log;
    }
  }

  lemma RecoverIsGood(t: Tracked, now: int, staleBefore: Option<int>, budget: int)
    requires Good(t) && now > 0 && RecoverRun(t.run, now, staleBefore, budget).Ok?
    ensures Good(Tracked(RecoverRun(t.run, now, staleBefore, budget).value, t.log + Events(t.run, Recover(now, staleBefore, budget))))
  {
    var r := t.run;
    if Stale(r, staleBefore) && Windowed(r.task) {
      var e := Expire(budget, now, LEASE_LOST);
      ExpireIsGood(t, now, budget, LEASE_LOST);
      LockedDerivation(r.(rows := TouchAll(e, r.rows)), now);
      EventsOf(r, Recover(now, staleBefore, budget), e, false, t.log);
    } else {
      assert t.log + Events(r, Recover(now, staleBefore, budget)) == t.log;
    }
  }

  lemma ChosenArePending(rows: seq<Window>, now: int, locked: set<int>, limit: int)
    requires DistinctRows(rows)
    ensures var chosen := Chosen(rows, now, locked, limit);
            Proper(Take(chosen, now), rows) && (chosen != {} ==> exists i :: 0 <= i < |rows| && rows[i].id in chosen)
  {
  }

  lemma ClaimedKeepsHistory(rows: seq<Window>, volume: Volume, log: seq<Event>, request: string)
    requires HistoryOk(rows, volume, log)
    ensures HistoryOk(rows, volume, log + [Claimed(request)])
  {
    LogVolumeAppends(log, [Claimed(request)]);
    assert LogVolume([Claimed(request)]) == Nothing;
  }

  lemma TakeIsLawful(r: Run, taken: Run, now: int, chosen: set<int>)
    requires Lawful(r) && Proper(Take(chosen, now), r.rows)
    requires exists i :: 0 <= i < |r.rows| && r.rows[i].id in chosen
    requires taken == r.(status := Running, heartbeat := taken.heartbeat, lastRequest := taken.lastRequest, rows := TouchAll(Take(chosen, now), r.rows))
    ensures Lawful(taken)
  {
    var i :| 0 <= i < |r.rows| && r.rows[i].id in chosen;
    TakenRowsRun(chosen, now, r.rows, i);
    TakeKeepsOutcomes(chosen, now, r.rows);
    EffectKeepsRowsOk(Take(chosen, now), r.rows);
  }

  lemma TakeKeepsHistory(rows: seq<Window>, volume: Volume, log: seq<Event>, now: int, request: string, chosen: set<int>)
    requires HistoryOk(rows, volume, log) && Proper(Take(chosen, now), rows)
    ensures HistoryOk(TouchAll(Take(chosen, now), rows), volume, log + [Claimed(request)])
  {
    var claimed := log + [Claimed(request)];
    ClaimedKeepsHistory(rows, volume, log, request);
    EffectKeepsHistory(Take(chosen, now), false, rows, volume, claimed);
    TakeResolvesNothing(chosen, now, rows);
    assert claimed + [] == claimed;
  }

  lemma {:induction false} TakeResolvesNothing(chosen: set<int>, now: int, rows: seq<Window>, n: nat := |rows|)
    requires n <= |rows|
    ensures Resolutions(Take(chosen, now), false, rows, n) == []
  {
    if n > 0 { TakeResolvesNothing(chosen, now, rows, n - 1); }
  }

  lemma ClaimIsGood(t: Tracked, now: int, request: string, locked: set<int>, limit: int)
    requires Good(t) && ClaimRun(t.run, now, request, locked, limit).Ok?
    ensures Good(Tracked(ClaimRun(t.run, now, request, locked, limit).value, t.log + Events(t.run, Claim(now, request, locked, limit))))
  {
    var r, taken := t.run, ClaimRun(t.run, now, request, locked, limit).value;
    if Windowed(r.task) {
      var chosen := Chosen(r.rows, now, locked, limit);
      ChosenArePending(r.rows, now, locked, limit);
      assert Lawful(taken) by { TakeIsLawful(r, taken, now, chosen); }
      TakeKeepsHistory(r.rows, r.volume, t.log, now, request, chosen);
    }
  }

  lemma FenceIsGood(t: Tracked, now: int)
    requires Good(t) && AbortRun(t.run, now).Ok?
    ensures Good(Tracked(AbortRun(t.run, now).value, t.log + Events(t.run, Fence(now))))
  {
    var r, e := t.run, Abort(now);
    if r.status.Terminal() {
      assert t.log + Events(r, Fence(now)) == t.log;
    } else {
      EventsOf(r, Fence(now), e, false, t.log);
      if Windowed(r.task) {
        EffectKeepsHistory(e, false, r.rows, r.volume, t.log);
        if r.initialised { AbortFailsOpenRows(r.rows, now); }
      }
    }
  }

  lemma {:induction false} NoFreshVolume(rows: seq<Window>, n: nat := |rows|)
    requires FreshRows(rows) && n <= |rows|
    ensures RowVolume(rows, n) == Nothing
  {
    if n > 0 { NoFreshVolume(rows, n - 1); }
  }

  lemma InitialiseIsGood(t: Tracked, now: int, rows: seq<Window>)
    requires Good(t) && InitialiseRun(t.run, now, rows).Ok?
    ensures Good(Tracked(InitialiseRun(t.run, now, rows).value, t.log))
  {
    NoFreshVolume(rows);
    LockedDerivation(t.run.(initialised := true, total := |rows|, rows := rows), now);
  }

  lemma CommitStepIsGood(t: Tracked, a: RunAction)
    requires Good(t) && (a.Commit? || a.Complete?) && Transition(t.run, a).Ok?
    ensures Good(Tracked(Transition(t.run, a).value, t.log + Events(t.run, a)))
  {
    var results := if a.Commit? then a.results else [a.result.(volume := a.mutation.GetOr(a.result.volume))];
    var mutated := a.Complete? && a.mutation.Some?;
    CommitIsGood(t, a.now, ById(results), mutated);
    EventsOf(t.run, a, Settle(ById(results), a.now), mutated, t.log);
  }

  lemma StepIsGood(t: Tracked, a: RunAction, allowed: bool)
    requires Good(t)
    ensures Good(Step(t, a, allowed))
  {
    if Transition(t.run, a).Ok? && allowed {
      match a
      case Initialise(now, rows) =>
        InitialiseIsGood(t, now, rows);
        assert t.log + Events(t.run, a) == t.log;
      case Claim(now, request, locked, limit) => ClaimIsGood(t, now, request, locked, limit);
      case Commit(_, _, _) => CommitStepIsGood(t, a);
      case CommitWhole(_, _, _, _, _, _) =>
      case Complete(_, _, _, _) => CommitStepIsGood(t, a);
      case Release(now, request, budget) => ReleaseIsGood(t, now, request, budget);
      case Heartbeat(_, _) => assert t.log + Events(t.run, a) == t.log;
      case Recover(now, staleBefore, budget) => RecoverIsGood(t, now, staleBefore, budget);
      case Fence(now) => FenceIsGood(t, now);
    }
  }

  lemma {:induction false} HistoryIsGood(t: Tracked, actions: seq<(RunAction, bool)>, n: nat := |actions|)
    requires Good(t) && n <= |actions|
    ensures Good(History(t, actions, n))
  {
    if n > 0 {
      HistoryIsGood(t, actions, n - 1);
      StepIsGood(History(t, actions, n - 1), actions[n - 1].0, actions[n - 1].1);
    }
  }

  lemma NewRunIsGood(r: Run)
    requires NewRun(r)
    ensures Good(Tracked(r, []))
  {
  }

  // ---------------------------------------------------------------- main results

  /** In every interleaving each attempt of each window is resolved at most once, and so is any
      business mutation that travels with the resolution. */
  lemma ExactlyOnceResolution(r: Run, actions: seq<(RunAction, bool)>, i: nat, j: nat)
    requires NewRun(r) && Windowed(r.task)
    requires var log := History(Tracked(r, []), actions).log;
             i < |log| && j < |log| && log[i].Resolved? && log[j].Resolved? && log[i].id == log[j].id && log[i].attempt == log[j].attempt
    ensures i == j
  {
    NewRunIsGood(r);
    HistoryIsGood(Tracked(r, []), actions);
    HistoryKeepsTask(Tracked(r, []), actions);
  }

  lemma {:induction false} HistoryKeepsTask(t: Tracked, actions: seq<(RunAction, bool)>, n: nat := |actions|)
    requires n <= |actions|
    ensures var u := History(t, actions, n); u.run.task == t.run.task && u.run.target == t.run.target && t.log <= u.log
  {
    if n > 0 {
      HistoryKeepsTask(t, actions, n - 1);
      assert SameRun(History(t, actions, n - 1).run, Transition(History(t, actions, n - 1).run, actions[n - 1].0));
    }
  }

  lemma ByIdKeepsResults(results: seq<WindowResult>, i: nat)
    requires ValidResults(results) && i < |results|
    ensures results[i].windowId in ById(results) && ById(results)[results[i].windowId] == results[i]
  {
    var j :| 0 <= j < |results| && ById(results)[results[i].windowId] == results[j] && results[i].windowId == results[j].windowId;
    assert j == i;
  }

  /** Once an attempt of a window is resolved, no later report for that attempt changes anything,
      whichever request identifier it carries and however often that identifier was reused since. */
  lemma ResolvedAttemptIsFencedForever(
      r: Run, before: seq<(RunAction, bool)>, after: seq<(RunAction, bool)>, id: int, attempt: int, a: RunAction, allowed: bool)
    requires NewRun(r) && Windowed(r.task)
    requires exists e :: e in History(Tracked(r, []), before).log && e.Resolved? && e.id == id && e.attempt == attempt
    requires match a
             case Commit(_, _, results) => exists o :: o in results && o.windowId == id && o.attempt == attempt
             case Complete(_, _, result, _) => result.windowId == id && result.attempt == attempt
             case _ => false
    ensures var t := History(Tracked(r, []), before + after); Step(t, a, allowed) == t && Transition(t.run, a).Fail?
  {
    NewRunIsGood(r);
    HistoryIsGood(Tracked(r, []), before + after);
    HistoryKeepsTask(Tracked(r, []), before + after);
    HistoryComposes(Tracked(r, []), before, after);
    HistoryKeepsTask(History(Tracked(r, []), before), after);
    var t := History(Tracked(r, []), before + after);
    var e :| e in History(Tracked(r, []), before).log && e.Resolved? && e.id == id && e.attempt == attempt;
    assert e in t.log;
    FencedReportIsRefused(t, id, attempt, a);
  }

  lemma {:induction false} HistoryOfPrefix(t: Tracked, before: seq<(RunAction, bool)>, after: seq<(RunAction, bool)>, n: nat)
    requires n <= |before|
    ensures History(t, before + after, n) == History(t, before, n)
  {
    if n > 0 { HistoryOfPrefix(t, before, after, n - 1); }
  }

  lemma {:induction false} HistoryComposes(t: Tracked, before: seq<(RunAction, bool)>, after: seq<(RunAction, bool)>, n: nat := |after|)
    requires n <= |after|
    ensures History(t, before + after, |before| + n) == History(History(t, before), after, n)
  {
    if n == 0 {
      HistoryOfPrefix(t, before, after, |before|);
    } else {
      HistoryComposes(t, before, after, n - 1);
    }
  }

  lemma FencedReportIsRefused(t: Tracked, id: int, attempt: int, a: RunAction)
    requires DistinctRows(t.run.rows) && Fenced(t.run.rows, id, attempt)
    requires match a
             case Commit(_, _, results) => exists o :: o in results && o.windowId == id && o.attempt == attempt
             case Complete(_, _, result, _) => result.windowId == id && result.attempt == attempt
             case _ => false
    ensures Transition(t.run, a).Fail?
  {
  }

  /** The status law of every windowed run: the five counts always add up to the total, the stored
      counters are the true counts, the run is terminal exactly when every window is and successful
      exactly when also none failed, its queue key is released exactly then, and the accumulated
      volume is that of all accepted results and covers what the windows currently hold. */
  lemma StatusLaw(r: Run, actions: seq<(RunAction, bool)>)
    requires NewRun(r) && Windowed(r.task)
    ensures var t := History(Tracked(r, []), actions); var run := t.run;
            run.initialised ==>
              && Count(run.rows, Success) + Count(run.rows, Failed) + Count(run.rows, Unavailable)
                 + Count(run.rows, Pending) + Count(run.rows, Running) == run.total == |run.rows|
              && run.completed == Count(run.rows, Success) && run.failed == Count(run.rows, Failed)
              && (run.status.Terminal() <==> forall w :: w in run.rows ==> w.status.Terminal())
              && (run.status.Success? <==> forall w :: w in run.rows ==> w.status.Success? || w.status.Unavailable?)
              && (run.active <==> !run.status.Terminal())
              && run.volume == LogVolume(t.log) && RowVolume(run.rows).AtMost(run.volume)
  {
    NewRunIsGood(r);
    HistoryIsGood(Tracked(r, []), actions);
    HistoryKeepsTask(Tracked(r, []), actions);
    var run := History(Tracked(r, []), actions).run;
    if run.initialised { LawfulStatus(run); }
  }

  lemma LawfulStatus(run: Run)
    requires Lawful(run)
    ensures Count(run.rows, Success) + Count(run.rows, Failed) + Count(run.rows, Unavailable)
            + Count(run.rows, Pending) + Count(run.rows, Running) == |run.rows|
    ensures run.status.Terminal() <==> forall w :: w in run.rows ==> w.status.Terminal()
    ensures run.status.Success? <==> forall w :: w in run.rows ==> w.status.Success? || w.status.Unavailable?
  {
    CountsPartitionRows(run.rows);
    CountMeansPresence(run.rows, Pending);
    CountMeansPresence(run.rows, Running);
    CountMeansPresence(run.rows, Failed);
    if run.status.Terminal() {
      forall w | w in run.rows ensures !w.status.Pending? && !w.status.Running? {
        var i :| 0 <= i < |run.rows| && run.rows[i] == w;
      }
    }
    if run.status.Success? {
      forall w | w in run.rows ensures !w.status.Failed? {
        var i :| 0 <= i < |run.rows| && run.rows[i] == w;
      }
    }
  }
}
