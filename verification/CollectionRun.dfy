/** One durable collection run with its windows: every transaction of the queue as a function on
    the run's rows (model/collection_task.go and model/site_run_state.go). */
module CollectionRun {
  import opened Prelude

  datatype Status = Pending | Running | Success | Failed | Unavailable {
    predicate Terminal() { Success? || Failed? || Unavailable? }
  }

  datatype TaskType =
    | SiteProbe | RealtimeStat | ResourceSnapshot | UserSync | ChannelSync | PerformanceSync
    | TopupSync | RedemptionSync | UpstreamTaskSync | ModelMetaSync | PlanSync | PricingSync
    | SystemTaskSync | LogSync | UsageHour | UsageBackfill | UsageValidation
    | AccountRebuild | CustomerRebuild

  /** Task types whose work is split into per-hour windows. */
  predicate Windowed(task: TaskType) {
    task.UsageHour? || task.UsageBackfill? || task.UsageValidation? || task.AccountRebuild? || task.CustomerRebuild?
  }

  datatype Target = SiteTarget(id: int) | AccountTarget(id: int) | CustomerTarget(id: int)

  const INITIAL_BACKFILL := 50
  const LEASE_LOST := "WORKER_LEASE_LOST"
  const EXECUTION_FAILED := "WORKER_EXECUTION_FAILED"
  const CONFIG_CHANGED := "SITE_CONFIG_CHANGED"

  datatype Window = Window(
    id: int, site: int, hour: int, status: Status, attempts: nat, nextRetry: Option<int>,
    volume: Volume, errorCode: string, finishedAt: Option<int>)

  /** `rows` holds the run's windows, which are never removed once the run is initialised. */
  datatype Run = Run(
    target: Target, task: TaskType, priority: int, start: Option<int>, end: Option<int>, createdAt: int,
    status: Status, active: bool, nextAttempt: int, heartbeat: Option<int>, initialised: bool,
    total: int, completed: int, failed: int, retries: nat, volume: Volume,
    lastRequest: string, finishedAt: Option<int>, rows: seq<Window>)

  /** What a handler reports for one claimed window. */
  datatype WindowResult = WindowResult(
    windowId: int, attempt: int, status: Status, nextRetry: Option<int>, volume: Volume, errorCode: string)

  /** The primary key of the windows. */
  ghost predicate DistinctRows(rows: seq<Window>) {
    forall i, j :: 0 <= i < j < |rows| ==> rows[i].id != rows[j].id
  }

  // ---------------------------------------------------------------- aggregates over a run's rows

  /** `COUNT(*)` of the (first `n`) rows with one status. */
  function Count(rows: seq<Window>, status: Status, n: nat := |rows|): nat
    requires n <= |rows|
  {
    if n == 0 then 0 else Count(rows, status, n - 1) + if rows[n - 1].status == status then 1 else 0
  }

  lemma {:induction false} CountsPartitionRows(rows: seq<Window>, n: nat := |rows|)
    requires n <= |rows|
    ensures Count(rows, Success, n) + Count(rows, Failed, n) + Count(rows, Unavailable, n)
         + Count(rows, Pending, n) + Count(rows, Running, n) == n
  {
    if n > 0 { CountsPartitionRows(rows, n - 1); }
  }

  lemma {:induction false} CountMeansPresence(rows: seq<Window>, status: Status, n: nat := |rows|)
    requires n <= |rows|
    ensures Count(rows, status, n) > 0 <==> exists i :: 0 <= i < n && rows[i].status == status
  {
    if n > 0 { CountMeansPresence(rows, status, n - 1); }
  }

  /** `MIN(next_retry_at)` over the pending rows; SQL's MIN skips NULL. */
  function MinRetry(rows: seq<Window>, n: nat := |rows|): Option<int>
    requires n <= |rows|
  {
    if n == 0 then None
    else
      var least, w := MinRetry(rows, n - 1), rows[n - 1];
      if !w.status.Pending? || w.nextRetry.None? then least
      else if least.None? then w.nextRetry
      else Some(Min(least.value, w.nextRetry.value))
  }

  lemma {:induction false} MinRetryIsTheLeastRetry(rows: seq<Window>, n: nat := |rows|)
    requires n <= |rows|
    ensures MinRetry(rows, n).None? ==>
              forall i :: 0 <= i < n && rows[i].status.Pending? ==> rows[i].nextRetry.None?
    ensures MinRetry(rows, n).Some? ==>
              && (exists i :: 0 <= i < n && rows[i].status.Pending? && rows[i].nextRetry == MinRetry(rows, n))
              && (forall i :: 0 <= i < n && rows[i].status.Pending? && rows[i].nextRetry.Some? ==>
                    MinRetry(rows, n).value <= rows[i].nextRetry.value)
  {
    if n > 0 { MinRetryIsTheLeastRetry(rows, n - 1); }
  }

  /** The time at which one pending row may be taken, seen from `now`. */
  function WakeTime(w: Window, now: int): int {
    if w.nextRetry.Some? && w.nextRetry.value > now then w.nextRetry.value else now
  }

  /** The earliest wake time over the pending rows. */
  function EarliestWake(rows: seq<Window>, now: int, n: nat := |rows|): Option<int>
    requires n <= |rows|
  {
    if n == 0 then None
    else
      var least, w := EarliestWake(rows, now, n - 1), rows[n - 1];
      if !w.status.Pending? then least
      else if least.None? || WakeTime(w, now) < least.value then Some(WakeTime(w, now))
      else least
  }

  lemma {:induction false} EarliestWakeIsTheLeastWake(rows: seq<Window>, now: int, n: nat := |rows|)
    requires n <= |rows|
    ensures EarliestWake(rows, now, n).None? <==> Count(rows, Pending, n) == 0
    ensures EarliestWake(rows, now, n).Some? ==>
              && (exists i :: 0 <= i < n && rows[i].status.Pending? && WakeTime(rows[i], now) == EarliestWake(rows, now, n).value)
              && (forall i :: 0 <= i < n && rows[i].status.Pending? ==> EarliestWake(rows, now, n).value <= WakeTime(rows[i], now))
  {
    if n > 0 {
      EarliestWakeIsTheLeastWake(rows, now, n - 1);
      CountMeansPresence(rows, Pending, n - 1);
    }
  }

  function RowVolume(rows: seq<Window>, n: nat := |rows|): Volume
    requires n <= |rows|
  {
    if n == 0 then Nothing else RowVolume(rows, n - 1).Plus(rows[n - 1].volume)
  }

  // ---------------------------------------------------------------- what one transaction does to rows

  /** The row updates of one transaction, applied to every row they affect. */
  datatype Effect =
    | Take(chosen: set<int>, now: int)
    | Settle(results: map<int, WindowResult>, now: int)
    | Expire(budget: int, now: int, code: string)
    | Abort(now: int)

  predicate Affects(e: Effect, w: Window) {
    match e
    case Take(chosen, _) => w.id in chosen
    case Settle(results, _) => w.id in results
    case Expire(_, _, _) => w.status.Running?
    case Abort(_) => w.status.Pending? || w.status.Running?
  }

  function Touch(e: Effect, w: Window): Window {
    if !Affects(e, w) then w
    else
      match e
      case Take(_, now) =>
        w.(status := Running, attempts := w.attempts + 1, nextRetry := None, finishedAt := None)
      case Settle(results, now) =>
        var o := results[w.id];
        w.(status := o.status, nextRetry := o.nextRetry, volume := o.volume, errorCode := o.errorCode,
           finishedAt := if o.status.Terminal() then Some(now) else None)
      case Expire(budget, now, code) =>
        if w.attempts < budget then w.(status := Pending, nextRetry := Some(now), finishedAt := None)
        else w.(status := Failed, nextRetry := None, finishedAt := Some(now), errorCode := code)
      case Abort(now) =>
        w.(status := Failed, errorCode := CONFIG_CHANGED, finishedAt := Some(now))
  }

  function TouchAll(e: Effect, rows: seq<Window>): seq<Window> {
    seq(|rows|, i requires 0 <= i < |rows| => Touch(e, rows[i]))
  }

  /** The rows added by the accepted results of one commit. */
  function SettledVolume(results: map<int, WindowResult>, rows: seq<Window>, n: nat := |rows|): Volume
    requires n <= |rows|
  {
    if n == 0 then Nothing
    else
      var sum := SettledVolume(results, rows, n - 1);
      if rows[n - 1].id in results then sum.Plus(results[rows[n - 1].id].volume) else sum
  }

  /** No transaction changes what a run is about. */
  predicate SameRun(r: Run, o: Outcome<Run>) {
    o.Ok? ==> o.value.task == r.task && o.value.target == r.target && o.value.priority == r.priority
  }

  // ---------------------------------------------------------------- deriving the run from its rows

  /** The statement-by-statement law of an initial backfill: counters from the rows, one MIN for the
      wake-up, and a status that is terminal exactly when every row is. */
  function RecalculateInitial(r: Run, now: int): Run {
    var pending, running := Count(r.rows, Pending), Count(r.rows, Running);
    var completed, failed := Count(r.rows, Success), Count(r.rows, Failed);
    var terminal := completed + failed + Count(r.rows, Unavailable) == r.total;
    r.(status := if terminal then (if failed > 0 then Failed else Success)
                 else if running == 0 && pending > 0 then Pending else Running,
       completed := completed, failed := failed,
       nextAttempt := if pending > 0 then Max(now, MinRetry(r.rows).GetOr(now)) else r.nextAttempt,
       active := r.active && !terminal,
       heartbeat := if terminal then None else r.heartbeat,
       finishedAt := if terminal then Some(now) else r.finishedAt)
  }

  /** The law used by every other caller: terminal runs are left alone, an inconsistent run is refused. */
  function RecalculateLocked(r: Run, now: int): (o: Outcome<Run>)
    ensures SameRun(r, o)
    ensures o.Ok? ==> o.value.rows == r.rows
  {
    if r.status.Failed? || r.status.Success? then Ok(r)
    else if !r.initialised || r.total != |r.rows| then Fail(Contract)
    else
      var pending, running := Count(r.rows, Pending), Count(r.rows, Running);
      var completed, failed := Count(r.rows, Success), Count(r.rows, Failed);
      var counted := r.(completed := completed, failed := failed);
      if completed + failed + Count(r.rows, Unavailable) == r.total then
        Ok(counted.(status := if failed > 0 then Failed else Success,
                    active := false, heartbeat := None, finishedAt := Some(now)))
      else
        var woken := counted.(nextAttempt := EarliestWake(r.rows, now).GetOr(r.nextAttempt));
        if running > 0 then Ok(woken.(status := Running))
        else if pending > 0 then Ok(woken.(status := Pending))
        else Fail(Contract)
  }

  function Recalculate(r: Run, now: int): (o: Outcome<Run>)
    ensures SameRun(r, o)
    ensures o.Ok? ==> o.value.rows == r.rows
  {
    if r.priority == INITIAL_BACKFILL then Ok(RecalculateInitial(r, now)) else RecalculateLocked(r, now)
  }

  // ---------------------------------------------------------------- claim

  /** `status = 'pending' AND COALESCE(next_retry_at, 0) <= now`. */
  predicate Due(w: Window, now: int) {
    w.status.Pending? && w.nextRetry.GetOr(0) <= now
  }

  /** `hour_ts DESC, id DESC`. */
  predicate Ahead(a: Window, b: Window) {
    a.hour > b.hour || (a.hour == b.hour && a.id > b.id)
  }

  predicate Takeable(w: Window, now: int, locked: set<int>) {
    Due(w, now) && w.id !in locked
  }

  /** The rows returned by the claim's ordered, limited, lock-skipping query: those with fewer than
      `limit` takeable rows ahead of them. */
  function Chosen(rows: seq<Window>, now: int, locked: set<int>, limit: int): set<int> {
    set w | w in rows && Takeable(w, now, locked) &&
            |set v | v in rows && Takeable(v, now, locked) && Ahead(v, w)| < limit :: w.id
  }

  predicate ClaimableRow(r: Run, now: int, request: string) {
    r.status.Pending? && r.initialised && r.nextAttempt <= now && r.lastRequest != request
  }

  /** One claim transaction on the run's own rows. When no window can be taken the transaction also
      writes `next_attempt_at`, but returning an error rolls that write back. */
  function ClaimRun(r: Run, now: int, request: string, locked: set<int>, limit: int): (o: Outcome<Run>)
    ensures SameRun(r, o)
  {
    if !ClaimableRow(r, now, request) then Fail(ClaimLost)
    else if !Windowed(r.task) then
      Ok(r.(status := Running, heartbeat := Some(now), lastRequest := request, retries := r.retries + 1))
    else
      var chosen := Chosen(r.rows, now, locked, limit);
      if r.total <= 0 || chosen == {} then Fail(NothingDue)
      else Ok(r.(status := Running, heartbeat := Some(now), lastRequest := request,
                 rows := TouchAll(Take(chosen, now), r.rows)))
  }

  // ---------------------------------------------------------------- commit

  predicate ValidResult(o: WindowResult) {
    && o.windowId > 0 && o.attempt > 0 && o.volume.Natural()
    && (match o.status
        case Pending => o.nextRetry.Some? && o.nextRetry.value > 0
        case Success => true
        case Unavailable => true
        case Failed => o.errorCode != ""
        case Running => false)
  }

  predicate ValidResults(results: seq<WindowResult>, n: nat := |results|)
    requires n <= |results|
  {
    && (forall i :: 0 <= i < n ==> ValidResult(results[i]))
    && (forall i, j :: 0 <= i < j < n ==> results[i].windowId != results[j].windowId)
  }

  function ById(results: seq<WindowResult>, n: nat := |results|): (byId: map<int, WindowResult>)
    requires n <= |results|
    ensures forall id :: id in byId ==> exists i :: 0 <= i < n && byId[id] == results[i] && id == results[i].windowId
    ensures forall i :: 0 <= i < n ==> results[i].windowId in byId
  {
    if n == 0 then map[] else ById(results, n - 1)[results[n - 1].windowId := results[n - 1]]
  }

  /** Every result names an existing row that is still running the attempt it was claimed with. */
  predicate Held(results: map<int, WindowResult>, rows: seq<Window>) {
    && (forall id :: id in results ==> exists i :: 0 <= i < |rows| && rows[i].id == id)
    && (forall i :: 0 <= i < |rows| && rows[i].id in results ==>
          rows[i].status.Running? && rows[i].attempts == results[rows[i].id].attempt)
  }

  predicate Owned(r: Run, request: string) {
    r.status.Running? && r.lastRequest == request
  }

  function CommitRows(r: Run, now: int, results: map<int, WindowResult>): (o: Outcome<Run>)
    ensures SameRun(r, o)
    ensures o.Ok? ==> Held(results, r.rows) && o.value.rows == TouchAll(Settle(results, now), r.rows)
  {
    if !Held(results, r.rows) then Fail(ClaimLost)
    else
      var settled := r.(rows := TouchAll(Settle(results, now), r.rows),
                        volume := r.volume.Plus(SettledVolume(results, r.rows)));
      var derived :- Recalculate(settled, now);
      Ok(if derived.status.Pending? then derived.(heartbeat := None) else derived)
  }

  function CommitRun(r: Run, request: string, now: int, results: seq<WindowResult>): (o: Outcome<Run>)
    ensures SameRun(r, o)
    ensures o.Ok? ==> Owned(r, request) && ValidResults(results) && Held(ById(results), r.rows)
    ensures o.Ok? ==> o.value.rows == TouchAll(Settle(ById(results), now), r.rows)
  {
    if !Owned(r, request) then Fail(ClaimLost)
    else if !Windowed(r.task) || results == [] || !ValidResults(results) then Fail(Contract)
    else CommitRows(r, now, ById(results))
  }

  /** The commit of a task without windows. */
  function CommitPlain(r: Run, request: string, now: int, status: Status, next: Option<int>, volume: Volume, errorCode: string): (o: Outcome<Run>)
    ensures SameRun(r, o)
  {
    if !Owned(r, request) then Fail(ClaimLost)
    else if Windowed(r.task) || !volume.Natural() then Fail(Contract)
    else
      var counted := r.(volume := r.volume.Plus(volume), heartbeat := None);
      match status
      case Success => Ok(counted.(status := Success, active := false, finishedAt := Some(now)))
      case Failed =>
        if errorCode == "" then Fail(Contract)
        else Ok(counted.(status := Failed, active := false, finishedAt := Some(now)))
      case Pending =>
        if next.None? || next.value <= 0 then Fail(Contract)
        else Ok(counted.(status := Pending, nextAttempt := next.value))
      case _ => Fail(Contract)
  }

  /** Commits one window together with its business mutation, whose row counts replace the reported ones. */
  function CompleteRun(r: Run, request: string, now: int, result: WindowResult, mutation: Option<Volume>): (o: Outcome<Run>)
    ensures SameRun(r, o)
  {
    if !Owned(r, request) || !Windowed(r.task) then Fail(ClaimLost)
    else if !exists i :: 0 <= i < |r.rows| && r.rows[i].id == result.windowId && r.rows[i].status.Running? && r.rows[i].attempts == result.attempt then Fail(ClaimLost)
    else CommitRun(r, request, now, [result.(volume := mutation.GetOr(result.volume))])
  }

  // ---------------------------------------------------------------- release, recover, heartbeat, fence

  function ReleaseRun(r: Run, request: string, now: int, budget: int): (o: Outcome<Run>)
    ensures SameRun(r, o)
    ensures o.Ok? ==> o.value.rows == if Owned(r, request) && Windowed(r.task) && Count(r.rows, Running) > 0
                                      then TouchAll(Expire(budget, now, EXECUTION_FAILED), r.rows) else r.rows
  {
    if !Owned(r, request) then Ok(r)
    else if !Windowed(r.task) then Ok(r.(status := Pending, heartbeat := None, nextAttempt := now))
    else if Count(r.rows, Running) == 0 then Ok(r)
    else Recalculate(r.(rows := TouchAll(Expire(budget, now, EXECUTION_FAILED), r.rows), heartbeat := None), now)
  }

  predicate Stale(r: Run, staleBefore: Option<int>) {
    r.status.Running? && (staleBefore.None? || r.heartbeat.None? || r.heartbeat.value < staleBefore.value)
  }

  function RecoverRun(r: Run, now: int, staleBefore: Option<int>, budget: int): (o: Outcome<Run>)
    ensures SameRun(r, o)
    ensures o.Ok? ==> o.value.rows == if Stale(r, staleBefore) && Windowed(r.task)
                                      then TouchAll(Expire(budget, now, LEASE_LOST), r.rows) else r.rows
  {
    if !Stale(r, staleBefore) then Ok(r)
    else if !Windowed(r.task) then
      if r.retries < budget then Ok(r.(status := Pending, heartbeat := None, nextAttempt := now))
      else Ok(r.(status := Failed, heartbeat := None, active := false, finishedAt := Some(now)))
    else
      var derived :- RecalculateLocked(r.(rows := TouchAll(Expire(budget, now, LEASE_LOST), r.rows)), now);
      Ok(if derived.status.Pending? then derived.(heartbeat := None) else derived)
  }

  function HeartbeatRun(r: Run, request: string, now: int): (o: Outcome<Run>)
    ensures SameRun(r, o)
  {
    if !Owned(r, request) then Fail(ClaimLost) else Ok(r.(heartbeat := Some(now)))
  }

  /** A site reconfiguration fails every open run of the site with all its open windows. */
  function AbortRun(r: Run, now: int): (o: Outcome<Run>)
    ensures SameRun(r, o)
  {
    if r.status.Terminal() then Ok(r)
    else if r.initialised && r.total != |r.rows| then Fail(Contract)
    else
      var rows := TouchAll(Abort(now), r.rows);
      Ok(r.(rows := rows, completed := Count(rows, Success), failed := Count(rows, Failed),
            status := Failed, active := false, heartbeat := None, finishedAt := Some(now)))
  }

  // ---------------------------------------------------------------- creation

  predicate NewRun(r: Run) {
    && r.status.Pending? && r.active && r.rows == [] && r.total == r.completed == r.failed == 0
    && r.retries == 0 && r.volume == Nothing && r.heartbeat.None?
    && r.initialised == !Windowed(r.task)
  }

  predicate FreshRows(rows: seq<Window>) {
    && (forall i :: 0 <= i < |rows| ==>
          rows[i].status.Pending? && rows[i].attempts == 0 && rows[i].nextRetry.None? && rows[i].volume == Nothing)
    && (forall i, j :: 0 <= i < j < |rows| ==> rows[i].id != rows[j].id)
  }

  /** The last step of materialisation: the fresh rows become the run's windows. */
  function InitialiseRun(r: Run, now: int, rows: seq<Window>): (o: Outcome<Run>)
    ensures SameRun(r, o)
  {
    if !r.status.Pending? || r.initialised || !Windowed(r.task) || now <= 0 || !FreshRows(rows) then Fail(Contract)
    else RecalculateLocked(r.(initialised := true, total := |rows|, rows := rows), now)
  }
}
