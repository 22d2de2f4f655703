/** Alert notifications: enqueue, claim, takeover, completion, disabling and exhaustion of deliveries,
    with a resolved notification waiting for its firing one. */
module AlertDelivery {
  import opened Prelude

  const MAX_ATTEMPTS := 5

  datatype Kind = Firing | Resolved | Test
  datatype Status = Pending | Success | Failed

  datatype Delivery = Delivery(
    event: Option<int>,
    kind: Kind,
    status: Status,
    attempts: int,
    token: Option<int>,
    lease: Option<int>,
    retry: Option<int>)

  /** The table, the next row id, and the supply of claim tokens, none of which is ever issued twice. */
  datatype Queue = Queue(rows: map<int, Delivery>, nextId: int, nextToken: int)

  const NoDeliveries := Queue(map[], 1, 1)

  // -------------------------------------------------------------- transactions

  predicate ValidEnqueue(event: Option<int>, kind: Kind, now: int) {
    now > 0 && (kind.Test? <==> event.None?) && (event.Some? ==> event.value > 0)
  }

  /** The unique key over event, kind and channel; rows without an event never collide. */
  predicate Same(d: Delivery, event: Option<int>, kind: Kind) {
    event.Some? && d.event == event && d.kind == kind
  }

  predicate Enqueued(rows: map<int, Delivery>, event: Option<int>, kind: Kind) {
    exists id :: id in rows && Same(rows[id], event, kind)
  }

  function Enqueue(q: Queue, event: Option<int>, kind: Kind, now: int): Queue {
    if !ValidEnqueue(event, kind, now) || Enqueued(q.rows, event, kind) then q
    else
      q.(rows := q.rows[q.nextId := Delivery(event, kind, Pending, 0, None, None, Some(now))], nextId := q.nextId + 1)
  }

  predicate FreshlyDue(d: Delivery, now: int) {
    d.token.None? && d.attempts < MAX_ATTEMPTS && d.retry.Some? && d.retry.value <= now
  }

  predicate LeaseExpired(d: Delivery, now: int) {
    d.token.Some? && 1 <= d.attempts <= MAX_ATTEMPTS && d.lease.Some? && d.lease.value <= now
  }

  /** A resolved notification waits while a firing one of its event is pending. */
  predicate Waits(rows: map<int, Delivery>, id: int)
    requires id in rows
  {
    rows[id].kind.Resolved? && exists f :: f in rows && Same(rows[f], rows[id].event, Firing) && rows[f].status.Pending?
  }

  predicate Claimable(rows: map<int, Delivery>, id: int, now: int) {
    && id in rows && rows[id].status.Pending?
    && (FreshlyDue(rows[id], now) || LeaseExpired(rows[id], now))
    && !Waits(rows, id)
  }

  function Leased(d: Delivery, token: int, leaseUntil: int): Delivery {
    d.(attempts := if d.token.Some? then d.attempts else d.attempts + 1, token := Some(token), lease := Some(leaseUntil), retry := None)
  }

  function Claim(q: Queue, id: int, now: int, leaseUntil: int): Queue {
    if now <= 0 || leaseUntil <= now || !Claimable(q.rows, id, now) then q
    else q.(rows := q.rows[id := Leased(q.rows[id], q.nextToken, leaseUntil)], nextToken := q.nextToken + 1)
  }

  datatype Report = Report(id: int, attempts: int, token: int, status: Status, retry: Option<int>, now: int)

  predicate ValidReport(r: Report) {
    r.attempts > 0 && r.now > 0 && (r.status.Pending? <==> r.retry.Some?)
  }

  /** The fence: still pending, and held under this very attempt and token. */
  predicate Holds(rows: map<int, Delivery>, r: Report) {
    r.id in rows && rows[r.id].status.Pending? && rows[r.id].attempts == r.attempts && rows[r.id].token == Some(r.token)
  }

  function Complete(q: Queue, r: Report): Queue {
    if !ValidReport(r) || !Holds(q.rows, r) then q
    else q.(rows := q.rows[r.id := q.rows[r.id].(status := r.status, retry := r.retry, token := None, lease := None)])
  }

  function Closed(d: Delivery): Delivery {
    d.(status := Failed, retry := None, token := None, lease := None)
  }

  function DisablePending(q: Queue, now: int): Queue {
    if now <= 0 then q
    else q.(rows := map id | id in q.rows :: if q.rows[id].status.Pending? then Closed(q.rows[id]) else q.rows[id])
  }

  predicate Exhausted(d: Delivery, now: int) {
    d.status.Pending? && d.token.None? && d.attempts >= MAX_ATTEMPTS && d.retry.Some? && d.retry.value <= now
  }

  function FailExhausted(q: Queue, now: int): Queue {
    if now <= 0 then q
    else q.(rows := map id | id in q.rows :: if Exhausted(q.rows[id], now) then Closed(q.rows[id]) else q.rows[id])
  }

  // -------------------------------------------------------------- histories

  datatype Action =
    | Enqueueing(event: Option<int>, kind: Kind, now: int)
    | Claiming(id: int, now: int, leaseUntil: int)
    | Completing(report: Report)
    | Disabling(now: int)
    | Exhausting(now: int)

  function Act(q: Queue, a: Action): Queue {
    match a
    case Enqueueing(event, kind, now) => Enqueue(q, event, kind, now)
    case Claiming(id, now, leaseUntil) => Claim(q, id, now, leaseUntil)
    case Completing(report) => Complete(q, report)
    case Disabling(now) => DisablePending(q, now)
    case Exhausting(now) => FailExhausted(q, now)
  }

  function Play(actions: seq<Action>, n: nat := |actions|): Queue
    requires n <= |actions|
  {
    if n == 0 then NoDeliveries else Act(Play(actions, n - 1), actions[n - 1])
  }

  // -------------------------------------------------------------- lease structure

  /** Pending means leased or waiting for a retry time, never both and never neither; terminal means neither. */
  predicate RowOk(d: Delivery) {
    && (d.kind.Test? <==> d.event.None?)
    && 0 <= d.attempts <= MAX_ATTEMPTS
    && (d.token.Some? <==> d.lease.Some?)
    && (d.status.Pending? ==> (d.token.Some? <==> d.retry.None?))
    && (d.token.Some? ==> d.status.Pending? && d.attempts >= 1)
    && (!d.status.Pending? ==> d.token.None? && d.retry.None?)
  }

  ghost predicate RowsOk(q: Queue) {
    q.nextId > 0 && forall id :: id in q.rows ==> RowOk(q.rows[id]) && 0 < id < q.nextId
  }

  /** Tokens in the table were issued, each to one row; no two rows are the same notification. */
  ghost predicate Unique(q: Queue) {
    && (forall id :: id in q.rows && q.rows[id].token.Some? ==> q.rows[id].token.value < q.nextToken)
    && (forall a, b :: a in q.rows && b in q.rows && a != b && q.rows[a].token.Some? ==> q.rows[a].token != q.rows[b].token)
    && (forall a, b :: a in q.rows && b in q.rows && a != b ==> !Same(q.rows[a], q.rows[b].event, q.rows[b].kind))
  }

  ghost predicate TableOk(q: Queue) {
    RowsOk(q) && Unique(q)
  }

  /** Handed out at least once, or finished with success. */
  predicate Begun(d: Delivery) {
    d.attempts > 0 || d.status.Success?
  }

  /** A resolved delivery has begun only if the firing delivery enqueued before it is over. */
  predicate InOrder(rows: map<int, Delivery>, firing: int, resolved: int)
    requires firing in rows && resolved in rows
  {
    rows[resolved].kind.Resolved? && Same(rows[firing], rows[resolved].event, Firing) && firing < resolved && Begun(rows[resolved]) ==>
      !rows[firing].status.Pending?
  }

  ghost predicate Orderly(q: Queue) {
    forall f, r :: f in q.rows && r in q.rows ==> InOrder(q.rows, f, r)
  }

  /** What one transaction may do to a row: a terminal row is frozen; a token is kept, dropped, or replaced by a new
      one, which alone can count an attempt. */
  predicate RowMove(q: Queue, d: Delivery, e: Delivery) {
    && e.event == d.event && e.kind == d.kind
    && (!d.status.Pending? ==> e == d)
    && (e.token == d.token || e.token.None? || e.token == Some(q.nextToken))
    && (e.attempts == d.attempts || (d.token.None? && e.attempts == d.attempts + 1 && e.token == Some(q.nextToken)))
  }

  ghost predicate Moved(q: Queue, next: Queue) {
    && q.nextId <= next.nextId && q.nextToken <= next.nextToken && q.rows.Keys <= next.rows.Keys
    && (forall id :: id in q.rows ==> RowMove(q, q.rows[id], next.rows[id]))
    && (forall id :: id in next.rows && id !in q.rows ==> id == q.nextId && next.rows[id].status.Pending? && next.rows[id].attempts == 0)
  }

  lemma ActMovesRow(q: Queue, a: Action, id: int)
    requires RowsOk(q) && id in Act(q, a).rows
    ensures RowOk(Act(q, a).rows[id])
    ensures id in q.rows ==> RowMove(q, q.rows[id], Act(q, a).rows[id])
  {
  }

  lemma ActKeepsTable(q: Queue, a: Action)
    requires TableOk(q)
    ensures TableOk(Act(q, a)) && Moved(q, Act(q, a))
  {
    var next := Act(q, a);
    assert q.nextId <= next.nextId && q.nextToken <= next.nextToken && q.rows.Keys <= next.rows.Keys;
    assert forall id :: id in next.rows && id !in q.rows ==> id == q.nextId && next.nextId == q.nextId + 1 && next.rows[id].status.Pending? && next.rows[id].attempts == 0;
    ActKeepsUnique(q, a);
    hide Act, RowOk, RowMove, Unique;
    forall id | id in next.rows ensures RowOk(next.rows[id]) && (id in q.rows ==> RowMove(q, q.rows[id], next.rows[id])) {
      ActMovesRow(q, a, id);
    }
  }

  lemma ActKeepsUnique(q: Queue, a: Action)
    requires TableOk(q)
    ensures Unique(Act(q, a))
  {
    hide RowOk;
  }

  lemma ActKeepsOrder(q: Queue, a: Action)
    requires TableOk(q) && Orderly(q)
    ensures Orderly(Act(q, a))
  {
    ActKeepsTable(q, a);
  }

  lemma {:induction false} TableLaw(actions: seq<Action>, n: nat)
    requires n <= |actions|
    ensures TableOk(Play(actions, n)) && Orderly(Play(actions, n))
  {
    hide Act, TableOk, Orderly;
    if n > 0 {
      TableLaw(actions, n - 1);
      ActKeepsTable(Play(actions, n - 1), actions[n - 1]);
      ActKeepsOrder(Play(actions, n - 1), actions[n - 1]);
    } else {
      assert TableOk(NoDeliveries) && Orderly(NoDeliveries) by { NothingIsFine(); }
    }
  }

  lemma NothingIsFine()
    ensures TableOk(NoDeliveries) && Orderly(NoDeliveries)
  {
  }

  lemma LastAct(actions: seq<Action>, n: nat)
    requires 0 < n <= |actions|
    ensures Play(actions, n) == Act(Play(actions, n - 1), actions[n - 1])
    ensures TableOk(Play(actions, n - 1)) && TableOk(Play(actions, n)) && Moved(Play(actions, n - 1), Play(actions, n))
  {
    TableLaw(actions, n - 1);
    ActKeepsTable(Play(actions, n - 1), actions[n - 1]);
  }

  /** A delivery that succeeded or failed never changes again. */
  lemma {:induction false} TerminalIsForever(actions: seq<Action>, i: nat, j: nat, id: int)
    requires i <= j <= |actions| && id in Play(actions, i).rows && !Play(actions, i).rows[id].status.Pending?
    ensures id in Play(actions, j).rows && Play(actions, j).rows[id] == Play(actions, i).rows[id]
    decreases j
  {
    if i < j {
      TerminalIsForever(actions, i, j - 1, id);
      LastAct(actions, j);
      hide Act, Play, TableOk;
      assert RowMove(Play(actions, j - 1), Play(actions, j - 1).rows[id], Play(actions, j).rows[id]);
    }
  }

  // -------------------------------------------------------------- attempts

  /** The transaction leases row `id` anew, rather than taking over an expired lease. */
  predicate FreshClaim(q: Queue, a: Action, id: int) {
    a.Claiming? && a.id == id && id in q.rows && q.rows[id].token.None? && Act(q, a).nextToken > q.nextToken
  }

  function FreshClaims(actions: seq<Action>, id: int, n: nat := |actions|): nat
    requires n <= |actions|
  {
    if n == 0 then 0
    else FreshClaims(actions, id, n - 1) + if FreshClaim(Play(actions, n - 1), actions[n - 1], id) then 1 else 0
  }

  lemma ActCountsAttempts(q: Queue, a: Action, id: int)
    requires RowsOk(q) && id in Act(q, a).rows
    ensures Act(q, a).rows[id].attempts ==
              (if id in q.rows then q.rows[id].attempts else 0) + (if FreshClaim(q, a, id) then 1 else 0)
  {
  }

  /** The attempt counter is exactly the number of fresh claims, of which there are at most five; takeovers are free. */
  lemma {:induction false} AttemptsAreFreshClaims(actions: seq<Action>, n: nat, id: int)
    requires n <= |actions|
    ensures id in Play(actions, n).rows ==> Play(actions, n).rows[id].attempts == FreshClaims(actions, id, n) <= MAX_ATTEMPTS
    ensures id !in Play(actions, n).rows ==> FreshClaims(actions, id, n) == 0
  {
    if n > 0 {
      AttemptsAreFreshClaims(actions, n - 1, id);
      LastAct(actions, n);
      var q, next := Play(actions, n - 1), Play(actions, n);
      if id in next.rows {
        ActCountsAttempts(q, actions[n - 1], id);
        assert RowOk(next.rows[id]);
      }
    }
  }

  // -------------------------------------------------------------- fencing

  ghost predicate Spent(q: Queue, token: int) {
    token < q.nextToken && forall id :: id in q.rows ==> q.rows[id].token != Some(token)
  }

  /** Once a token is out of use no row ever carries it again. */
  lemma {:induction false} SpentStaysSpent(actions: seq<Action>, i: nat, j: nat, token: int)
    requires i <= j <= |actions| && Spent(Play(actions, i), token)
    ensures Spent(Play(actions, j), token)
    decreases j
  {
    if i < j {
      SpentStaysSpent(actions, i, j - 1, token);
      LastAct(actions, j);
      hide Act, Play;
      var q, next := Play(actions, j - 1), Play(actions, j);
      forall id | id in next.rows ensures next.rows[id].token != Some(token) {
        if id in q.rows { assert RowMove(q, q.rows[id], next.rows[id]); }
      }
    }
  }

  /** A report takes effect exactly when it is well formed and its sender still holds the row under that attempt and
      token; it then ends the lease with the reported outcome, and only there. */
  lemma ReportTakesEffectExactlyWhen(q: Queue, r: Report)
    ensures Complete(q, r) != q <==> ValidReport(r) && Holds(q.rows, r)
    ensures Complete(q, r) != q ==>
              var d, e := q.rows[r.id], Complete(q, r).rows[r.id];
              && e.status == r.status && e.retry == r.retry && e.token.None? && e.lease.None? && e.attempts == d.attempts
              && e.event == d.event && e.kind == d.kind && Complete(q, r) == q.(rows := q.rows[r.id := e])
  {
  }

  lemma ReplacedTokenIsSpent(q: Queue, a: Action, id: int)
    requires TableOk(q) && id in q.rows && q.rows[id].token.Some? && Act(q, a).rows[id].token != q.rows[id].token
    ensures Spent(Act(q, a), q.rows[id].token.value)
  {
  }

  /** A worker whose lease was taken over, or closed under it, is fenced for good: whenever its report arrives after
      that, on whatever attempt count, it changes nothing. */
  lemma LateReportChangesNothing(actions: seq<Action>, i: nat, k: nat, id: int, r: Report)
    requires i < k <= |actions| && id in Play(actions, i).rows
    requires Play(actions, i).rows[id].token == Some(r.token) && Play(actions, i + 1).rows[id].token != Some(r.token)
    ensures Complete(Play(actions, k), r) == Play(actions, k)
  {
    TableLaw(actions, i);
    ReplacedTokenIsSpent(Play(actions, i), actions[i], id);
    SpentStaysSpent(actions, i + 1, k, r.token);
  }

  // -------------------------------------------------------------- ordering

  /** Row `f` is not in the table yet when row `r` has already begun. */
  ghost predicate BegunBefore(actions: seq<Action>, m: nat, f: int, r: int)
    requires m <= |actions|
  {
    var rows := Play(actions, m).rows;
    f !in rows && r in rows && Begun(rows[r])
  }

  /** A resolved delivery is in hand while the firing one of its event is pending exactly when it had already begun
      before that firing delivery was enqueued. */
  lemma OvertakenExactlyWhenLate(actions: seq<Action>, n: nat, f: int, r: int)
    requires n <= |actions| && f in Play(actions, n).rows && r in Play(actions, n).rows
    requires Play(actions, n).rows[r].kind.Resolved? && Same(Play(actions, n).rows[f], Play(actions, n).rows[r].event, Firing)
    requires Play(actions, n).rows[f].status.Pending?
    ensures Begun(Play(actions, n).rows[r]) <==> exists m: nat :: m < n && BegunBefore(actions, m, f, r)
  {
    if Begun(Play(actions, n).rows[r]) {
      var m := OvertakenOnlyIfLate(actions, n, f, r);
      assert BegunBefore(actions, m, f, r);
    }
    if m: nat :| m < n && BegunBefore(actions, m, f, r) {
      RowsStay(actions, m, n, r);
    }
  }

  lemma {:induction false} OvertakenOnlyIfLate(actions: seq<Action>, n: nat, f: int, r: int) returns (m: nat)
    requires n <= |actions| && f in Play(actions, n).rows && r in Play(actions, n).rows
    requires Play(actions, n).rows[r].kind.Resolved? && Same(Play(actions, n).rows[f], Play(actions, n).rows[r].event, Firing)
    requires Begun(Play(actions, n).rows[r]) && Play(actions, n).rows[f].status.Pending?
    ensures m < n && f !in Play(actions, m).rows && r in Play(actions, m).rows && Begun(Play(actions, m).rows[r])
    ensures r < f
  {
    LastAct(actions, n);
    var q, next := Play(actions, n - 1), Play(actions, n);
    assert r in q.rows;
    assert RowMove(q, q.rows[r], next.rows[r]);
    if f !in q.rows {
      m := n - 1;
      assert next.rows[r] == q.rows[r];
    } else {
      assert RowMove(q, q.rows[f], next.rows[f]);
      BeginningNeedsNoPendingFiring(q, actions[n - 1], f, r);
      m := OvertakenOnlyIfLate(actions, n - 1, f, r);
    }
  }

  lemma BeginningNeedsNoPendingFiring(q: Queue, a: Action, f: int, r: int)
    requires TableOk(q) && f in q.rows && r in q.rows && q.rows[r].kind.Resolved? && Same(q.rows[f], q.rows[r].event, Firing)
    requires q.rows[f].status.Pending?
    ensures Begun(Act(q, a).rows[r]) ==> Begun(q.rows[r])
  {
  }

  /** A row keeps its event and kind, and what has begun has begun. */
  lemma {:induction false} RowsStay(actions: seq<Action>, i: nat, j: nat, id: int)
    requires i <= j <= |actions| && id in Play(actions, i).rows
    ensures id in Play(actions, j).rows
    ensures var d, e := Play(actions, i).rows[id], Play(actions, j).rows[id];
            e.event == d.event && e.kind == d.kind && (Begun(d) ==> Begun(e))
    decreases j
  {
    if i < j {
      RowsStay(actions, i, j - 1, id);
      LastAct(actions, j);
      hide Act, Play, TableOk;
      assert RowMove(Play(actions, j - 1), Play(actions, j - 1).rows[id], Play(actions, j).rows[id]);
    }
  }

  /** A resolved delivery of the event has begun. */
  ghost predicate ResolvedBegun(rows: map<int, Delivery>, event: Option<int>) {
    exists r :: r in rows && rows[r].kind.Resolved? && rows[r].event == event && Begun(rows[r])
  }

  /** The guard at the enqueue: as long as a new firing delivery is pending, it is overtaken exactly when a resolved
      delivery of its event had begun in the table it was inserted into. */
  lemma OvertakingIsDecidedAtTheEnqueue(actions: seq<Action>, m: nat, n: nat, f: int)
    requires m < n <= |actions| && f !in Play(actions, m).rows && f in Play(actions, m + 1).rows
    requires f in Play(actions, n).rows && Play(actions, n).rows[f].kind.Firing? && Play(actions, n).rows[f].status.Pending?
    ensures ResolvedBegun(Play(actions, n).rows, Play(actions, n).rows[f].event) <==>
            ResolvedBegun(Play(actions, m).rows, Play(actions, n).rows[f].event)
  {
    var event := Play(actions, n).rows[f].event;
    TableLaw(actions, n);
    assert RowOk(Play(actions, n).rows[f]);
    if ResolvedBegun(Play(actions, n).rows, event) {
      var r :| r in Play(actions, n).rows && Play(actions, n).rows[r].kind.Resolved? && Play(actions, n).rows[r].event == event && Begun(Play(actions, n).rows[r]);
      var k := OvertakenOnlyIfLate(actions, n, f, r);
      if k > m { RowsStay(actions, m + 1, k, f); }
      RowsStay(actions, k, m, r);
      RowsStay(actions, m, n, r);
    }
    if ResolvedBegun(Play(actions, m).rows, event) {
      var r :| r in Play(actions, m).rows && Play(actions, m).rows[r].kind.Resolved? && Play(actions, m).rows[r].event == event && Begun(Play(actions, m).rows[r]);
      RowsStay(actions, m, n, r);
    }
  }

  /** Every row was inserted by an enqueue of its event and kind. */
  lemma {:induction false} InsertedBy(actions: seq<Action>, n: nat, id: int) returns (i: nat)
    requires n <= |actions| && id in Play(actions, n).rows
    ensures i < n && id !in Play(actions, i).rows && id in Play(actions, i + 1).rows && actions[i].Enqueueing?
    ensures actions[i].event == Play(actions, n).rows[id].event && actions[i].kind == Play(actions, n).rows[id].kind
  {
    if id in Play(actions, n - 1).rows {
      RowsStay(actions, n - 1, n, id);
      i := InsertedBy(actions, n - 1, id);
    } else {
      i := n - 1;
    }
  }

  /** No event's firing delivery is enqueued after its resolved one. */
  ghost predicate FiringFirst(actions: seq<Action>) {
    forall i, j :: 0 <= i < j < |actions| && actions[i].Enqueueing? && actions[j].Enqueueing? && actions[i].kind.Resolved? && actions[j].kind.Firing? ==>
      actions[i].event != actions[j].event
  }

  /** If callers enqueue in that order, no resolved delivery ever begins before the firing one of its event is over. */
  lemma FiringFirstMeansInOrder(actions: seq<Action>, n: nat, f: int, r: int)
    requires FiringFirst(actions) && n <= |actions| && f in Play(actions, n).rows && r in Play(actions, n).rows
    requires Play(actions, n).rows[r].kind.Resolved? && Same(Play(actions, n).rows[f], Play(actions, n).rows[r].event, Firing)
    ensures Begun(Play(actions, n).rows[r]) ==> !Play(actions, n).rows[f].status.Pending?
  {
    if Begun(Play(actions, n).rows[r]) && Play(actions, n).rows[f].status.Pending? {
      var m := OvertakenOnlyIfLate(actions, n, f, r);
      var i := InsertedBy(actions, m, r);
      var j := InsertedBy(actions, n, f);
      RowsStay(actions, m, n, r);
      if j < m { RowsStay(actions, j + 1, m, f); }
    }
  }

  /** The repository itself takes the other order too: a resolved delivery is enqueued and claimed, then the firing one. */
  lemma LateFiringIsOvertaken() returns (actions: seq<Action>)
    ensures |actions| == 3
    ensures var rows := Play(actions).rows;
            && 1 in rows && rows[1].kind.Resolved? && rows[1].token.Some?
            && 2 in rows && Same(rows[2], rows[1].event, Firing) && rows[2].status.Pending?
  {
    actions := [Enqueueing(Some(9), Resolved, 10), Claiming(1, 10, 70), Enqueueing(Some(9), Firing, 20)];
    var row := Delivery(Some(9), Resolved, Pending, 0, None, None, Some(10));
    var q1 := Queue(map[1 := row], 2, 1);
    assert Play(actions, 1) == q1 by { assert Play(actions, 0) == NoDeliveries; }
    var q2 := Queue(map[1 := Leased(row, 1, 70)], 2, 2);
    assert Claimable(q1.rows, 1, 10);
    assert Play(actions, 2) == q2;
    assert Play(actions, 3) == Act(q2, actions[2]);
  }

  // -------------------------------------------------------------- no stuck delivery

  /** When a pending delivery next becomes due. */
  function DueAt(d: Delivery): int
    requires RowOk(d) && d.status.Pending?
  {
    if d.lease.Some? then d.lease.value else d.retry.value
  }

  /** A claim would lease it, or the exhaustion sweep would close it. */
  predicate CanMove(q: Queue, id: int, now: int) {
    Claimable(q.rows, id, now) || (id in q.rows && Exhausted(q.rows[id], now))
  }

  /** No pending state is dead: from its due time on a delivery can be claimed, taken over or closed, unless it is a
      resolved one behind a pending firing delivery of the same event, which itself can from its own due time on. */
  lemma NothingIsStuck(q: Queue, id: int, now: int)
    requires TableOk(q) && id in q.rows && q.rows[id].status.Pending?
    requires now >= DueAt(q.rows[id])
    ensures CanMove(q, id, now) || Waits(q.rows, id)
    ensures Waits(q.rows, id) ==>
              exists f :: && f in q.rows && f != id && Same(q.rows[f], q.rows[id].event, Firing) && q.rows[f].status.Pending?
                          && RowOk(q.rows[f]) && (now >= DueAt(q.rows[f]) ==> CanMove(q, f, now))
  {
  }
}
