/** The alert delivery repository: its transactions over the table, each proved against the protocol's functions. */
module AlertDeliveryRepository {
  import opened Prelude
  import opened AlertDelivery

  datatype Claimed = Claimed(id: int, token: int, attempts: int, takeover: bool)

  /** `ORDER BY COALESCE(lease_expires_at, next_retry_at), id`. */
  predicate Sooner(rows: map<int, Delivery>, a: int, b: int)
    requires a in rows && b in rows
  {
    var ka := if rows[a].lease.Some? then rows[a].lease else rows[a].retry;
    var kb := if rows[b].lease.Some? then rows[b].lease else rows[b].retry;
    if ka == kb then a < b else ka.GetOr(0) < kb.GetOr(0)
  }

  class AlertDeliveryRepository {
    var rows: map<int, Delivery>
    var nextId: int
    var nextToken: int

    constructor ()
      ensures State() == NoDeliveries
    {
      rows, nextId, nextToken := map[], 1, 1;
    }

    ghost function State(): Queue
      reads this
    {
      Queue(rows, nextId, nextToken)
    }

    method Find(event: Option<int>, kind: Kind) returns (found: Option<int>)
      ensures found.Some? ==> found.value in rows && Same(rows[found.value], event, kind)
      ensures found.Some? <==> Enqueued(rows, event, kind)
    {
      var rest := rows.Keys;
      while rest != {}
        invariant rest <= rows.Keys && forall id :: id in rows && id !in rest ==> !Same(rows[id], event, kind)
        decreases rest
      {
        var id := LeastId(rest);
        rest := rest - {id};
        if Same(rows[id], event, kind) { return Some(id); }
      }
      found := None;
    }

    /** Inserts the notification once; a repeated enqueue finds the row already there. */
    method Enqueue(event: Option<int>, kind: Kind, now: int) returns (reply: Outcome<(int, bool)>)
      requires TableOk(State())
      modifies this`rows, this`nextId
      ensures TableOk(State())
      ensures State() == AlertDelivery.Enqueue(old(State()), event, kind, now)
      ensures reply.Fail? <==> !ValidEnqueue(event, kind, now)
      ensures reply.Ok? ==> reply.value.0 in rows && rows[reply.value.0].event == event && rows[reply.value.0].kind == kind
      ensures reply.Ok? ==> (reply.value.1 <==> reply.value.0 in old(rows))
    {
      ActKeepsTable(State(), Enqueueing(event, kind, now));
      if now <= 0 || (kind.Test? && event.Some?) || (!kind.Test? && (event.None? || event.value <= 0)) { return Fail(Contract); }
      var found := Find(event, kind);
      if found.Some? { return Ok((found.value, true)); }
      rows := rows[nextId := Delivery(event, kind, Pending, 0, None, None, Some(now))];
      nextId := nextId + 1;
      reply := Ok((nextId - 1, false));
    }

    /** The claim query: among the unlocked claimable rows, the soonest. */
    method Candidate(which: Option<int>, now: int, locked: set<int>) returns (found: Option<int>)
      requires TableOk(State())
      ensures var candidates := set id | id in rows && id !in locked && (which.Some? ==> id == which.value) && Claimable(rows, id, now);
              && (found.None? ==> forall id :: id in rows && id !in locked && (which.Some? ==> id == which.value) ==> !Claimable(rows, id, now))
              && (found.Some? ==> found.value in candidates && forall id :: id in candidates && id != found.value ==> Sooner(rows, found.value, id))
    {
      var rest := set id | id in rows && id !in locked && (which.Some? ==> id == which.value) && Claimable(rows, id, now);
      ghost var candidates := rest;
      if rest == {} {
        assert forall id :: id in rows && id !in locked && (which.Some? ==> id == which.value) && Claimable(rows, id, now) ==> id in rest;
        return None;
      }
      var best := Pick(rest);
      rest := rest - {best};
      hide Claimable, RowOk;
      while rest != {}
        invariant rest <= candidates <= rows.Keys && best in candidates && best !in rest
        invariant forall id :: id in candidates && id !in rest && id != best ==> Sooner(rows, best, id)
        decreases rest
      {
        var id := LeastId(rest);
        rest := rest - {id};
        if Sooner(rows, id, best) { best := id; }
      }
      found := Some(best);
    }

    /** Leases the soonest claimable row, or the one asked for, under a token nobody has held before. */
    method Claim(which: Option<int>, now: int, leaseUntil: int, locked: set<int>) returns (reply: Outcome<Claimed>)
      requires TableOk(State())
      modifies this`rows, this`nextToken
      ensures TableOk(State())
      ensures reply.Fail? ==> State() == old(State())
      ensures reply.Ok? ==>
                && reply.value.id in old(rows) && reply.value.id !in locked && (which.Some? ==> reply.value.id == which.value)
                && Claimable(old(rows), reply.value.id, now)
                && (forall id :: id in old(rows) && id !in locked && which.None? && id != reply.value.id && Claimable(old(rows), id, now) ==>
                      Sooner(old(rows), reply.value.id, id))
                && State() == AlertDelivery.Claim(old(State()), reply.value.id, now, leaseUntil)
                && reply.value.token == old(nextToken) && rows[reply.value.id].token == Some(reply.value.token)
                && rows[reply.value.id].attempts == reply.value.attempts
                && (reply.value.takeover <==> old(rows)[reply.value.id].token.Some?)
      ensures now <= 0 || leaseUntil <= now ==> reply == Fail(Contract)
      ensures now > 0 && leaseUntil > now ==> reply.Ok? || reply == Fail(NothingDue)
      ensures reply == Fail(NothingDue) ==>
                forall id :: id in old(rows) && id !in locked && (which.Some? ==> id == which.value) ==> !Claimable(old(rows), id, now)
    {
      if now <= 0 || leaseUntil <= now { return Fail(Contract); }
      var found := Candidate(which, now, locked);
      if found.None? { return Fail(NothingDue); }
      var id := found.value;
      ActKeepsTable(State(), Claiming(id, now, leaseUntil));
      var row := rows[id];
      var attempts := row.attempts;
      if row.token.None? { attempts := attempts + 1; }
      rows := rows[id := row.(attempts := attempts, token := Some(nextToken), lease := Some(leaseUntil), retry := None)];
      nextToken := nextToken + 1;
      reply := Ok(Claimed(id, nextToken - 1, attempts, row.token.Some?));
    }

    method Complete(r: Report) returns (error: Option<Error>)
      requires TableOk(State())
      modifies this`rows
      ensures TableOk(State())
      ensures State() == AlertDelivery.Complete(old(State()), r)
      ensures error == if !ValidReport(r) then Some(Contract) else if !Holds(old(rows), r) then Some(ClaimLost) else None
    {
      ActKeepsTable(State(), Completing(r));
      if !ValidReport(r) { return Some(Contract); }
      if r.id !in rows { return Some(ClaimLost); }
      var row := rows[r.id];
      if !row.status.Pending? || row.attempts != r.attempts || row.token != Some(r.token) { return Some(ClaimLost); }
      rows := rows[r.id := row.(status := r.status, retry := r.retry, token := None, lease := None)];
      error := None;
    }

    /** Notifications are off: everything pending fails at once. */
    method DisablePending(now: int) returns (reply: Outcome<nat>)
      requires TableOk(State())
      modifies this`rows
      ensures TableOk(State()) && State() == AlertDelivery.DisablePending(old(State()), now)
      ensures reply == if now <= 0 then Fail(Contract) else Ok(|set id | id in old(rows) && old(rows)[id].status.Pending?|)
      ensures now > 0 ==> forall id :: id in rows ==> !rows[id].status.Pending?
    {
      ActKeepsTable(State(), Disabling(now));
      hide TableOk;
      if now <= 0 { return Fail(Contract); }
      var affected := set id | id in rows && rows[id].status.Pending?;
      rows := map id | id in rows :: if rows[id].status.Pending? then Closed(rows[id]) else rows[id];
      reply := Ok(|affected|);
    }

    /** Unleased deliveries whose five attempts are used up fail once their retry time has come. */
    method FailExhaustedLeases(now: int) returns (reply: Outcome<nat>)
      requires TableOk(State())
      modifies this`rows
      ensures TableOk(State()) && State() == FailExhausted(old(State()), now)
      ensures reply == if now <= 0 then Fail(Contract) else Ok(|set id | id in old(rows) && Exhausted(old(rows)[id], now)|)
      ensures now > 0 ==> forall id :: id in rows ==> !Exhausted(rows[id], now)
    {
      ActKeepsTable(State(), Exhausting(now));
      hide TableOk;
      if now <= 0 { return Fail(Contract); }
      var affected := set id | id in rows && Exhausted(rows[id], now);
      rows := map id | id in rows :: if Exhausted(rows[id], now) then Closed(rows[id]) else rows[id];
      reply := Ok(|affected|);
    }
  }
}
