/** The queue's repository: transactions that update the stored runs step by step, each proved against
    the run-level functions, and the paging claim loop. */
module CollectionRepository {
  import opened Prelude
  import opened CollectionRun
  import opened CollectionScope
  import opened ClaimScan
  import CollectionEffects

  /** What a transaction meets outside the run's own rows. */
  datatype Fence = Open | Skipped | Moved

  /** One attempt to claim run `id`, in the order the transaction checks things. */
  function TryClaim(runs: map<int, Run>, accounts: map<int, AccountRef>, id: int, o: ClaimOptions, fence: Fence, locked: set<int>): Outcome<Run>
    requires id in runs
  {
    if !Resolvable(accounts, runs[id].target) then Fail(NotFound)
    else if fence.Skipped? then Fail(NothingDue)
    else if !ClaimableRow(runs[id], o.now, o.request) then Fail(ClaimLost)
    else if fence.Moved? then Fail(ConfigChanged)
    else if Busy(runs, accounts, id) then Fail(NothingDue)
    else ClaimRun(runs[id], o.now, o.request, locked, o.maxWindow)
  }

  /** What a committed claim makes of a run: it runs under the request, and its newest due windows that nobody has
      locked, as many as the limit and the supply allow, are each running one attempt more; nothing else changes. */
  ghost predicate Taken(before: Run, after: Run, now: int, request: string, locked: set<int>, limit: int) {
    && after == before.(status := Running, heartbeat := Some(now), lastRequest := request, retries := after.retries, rows := after.rows)
    && if !Windowed(before.task) then after.retries == before.retries + 1 && after.rows == before.rows
       else
         && after.retries == before.retries && |after.rows| == |before.rows|
         && exists chosen: set<int> ::
              && |chosen| == Min(limit, |CollectionEffects.TakeableRows(before.rows, now, locked)|) > 0
              && NewestOf(before.rows, chosen, now, locked)
              && forall i :: 0 <= i < |before.rows| ==>
                   var w := before.rows[i];
                   after.rows[i] == if w.id in chosen then w.(status := Running, attempts := w.attempts + 1, nextRetry := None, finishedAt := None) else w
  }

  /** Chosen windows are due and unlocked, and none is passed over for an older one. */
  ghost predicate NewestOf(rows: seq<Window>, chosen: set<int>, now: int, locked: set<int>) {
    && (forall id :: id in chosen ==> exists i :: 0 <= i < |rows| && rows[i].id == id)
    && (forall w :: w in rows && w.id in chosen ==> Due(w, now) && w.id !in locked)
    && (forall v, w :: v in rows && w in rows && w.id in chosen && Takeable(v, now, locked) && Ahead(v, w) ==> v.id in chosen)
  }

  /** The run has something to hand out: a windowed run an unlocked due window, any other run itself. */
  ghost predicate Supplied(r: Run, now: int, locked: set<int>) {
    Windowed(r.task) ==> r.total > 0 && exists i :: 0 <= i < |r.rows| && Takeable(r.rows[i], now, locked)
  }

  /** Which attempts commit, with what error the others end, and what a commit stores. */
  ghost predicate ClaimLaw(runs: map<int, Run>, accounts: map<int, AccountRef>, id: int, o: ClaimOptions, fence: Fence, locked: set<int>, attempt: Outcome<Run>)
    requires id in runs
  {
    var r := runs[id];
    var row := ClaimableRow(r, o.now, o.request);
    && (attempt.Ok? <==>
          Resolvable(accounts, r.target) && fence.Open? && row && !Busy(runs, accounts, id) && Supplied(r, o.now, locked))
    && (attempt.Ok? ==> Taken(r, attempt.value, o.now, o.request, locked, o.maxWindow))
    && (attempt == Fail(NotFound) <==> !Resolvable(accounts, r.target))
    && (attempt == Fail(ClaimLost) <==> Resolvable(accounts, r.target) && !fence.Skipped? && !row)
    && (attempt == Fail(ConfigChanged) <==> Resolvable(accounts, r.target) && fence.Moved? && row)
    && (attempt.Fail? ==> attempt.error.NotFound? || attempt.error.ClaimLost? || attempt.error.ConfigChanged? || attempt.error.NothingDue?)
  }

  lemma ClaimTakesWhatThereIs(r: Run, now: int, request: string, locked: set<int>, limit: int)
    requires DistinctRows(r.rows) && limit > 0
    ensures var attempt := ClaimRun(r, now, request, locked, limit);
            && (attempt.Ok? <==> ClaimableRow(r, now, request) && Supplied(r, now, locked))
            && (attempt.Ok? ==> Taken(r, attempt.value, now, request, locked, limit))
  {
    var chosen, all := Chosen(r.rows, now, locked, limit), CollectionEffects.TakeableRows(r.rows, now, locked);
    CollectionEffects.ClaimTakesTheNewestDue(r.rows, now, locked, limit);
    hide Takeable, Due, Ahead, DistinctRows;
    assert chosen != {} <==> |chosen| > 0;
    assert all != {} <==> |all| > 0;
    assert all != {} <==> exists i :: 0 <= i < |r.rows| && Takeable(r.rows[i], now, locked) by {
      if i :| 0 <= i < |r.rows| && Takeable(r.rows[i], now, locked) { assert r.rows[i] in all; }
    }
    assert NewestOf(r.rows, chosen, now, locked);
  }

  lemma ClaimKeepsKeys(r: Run, now: int, request: string, locked: set<int>, limit: int)
    requires DistinctRows(r.rows)
    ensures var attempt := ClaimRun(r, now, request, locked, limit);
            attempt.Ok? ==> DistinctRows(attempt.value.rows)
  {
  }

  lemma ClaimIsLawful(runs: map<int, Run>, accounts: map<int, AccountRef>, id: int, o: ClaimOptions, fence: Fence, locked: set<int>)
    requires id in runs && DistinctRows(runs[id].rows) && o.maxWindow > 0
    ensures ClaimLaw(runs, accounts, id, o, fence, locked, TryClaim(runs, accounts, id, o, fence, locked))
  {
    hide Busy, Resolvable, Supplied, Taken;
    ClaimTakesWhatThereIs(runs[id], o.now, o.request, locked, o.maxWindow);
  }

  /** The claim loop goes on after these two errors and stops with every other one. */
  predicate Passes(attempt: Outcome<Run>) {
    attempt.Fail? && (attempt.error.NothingDue? || attempt.error.ClaimLost?)
  }

  datatype ClaimReply = Claimed(id: int) | Idle | Stopped(id: int, error: Error) | Refused

  function FenceOf(fences: map<int, Fence>, id: int): Fence {
    if id in fences then fences[id] else Open
  }

  /** The checks every worker transaction makes before it looks at the run. */
  predicate Answerable(runs: map<int, Run>, id: int, now: int) {
    now > 0 && id in runs
  }

  function Unanswered(now: int): Outcome<Run> {
    if now <= 0 then Fail(Contract) else Fail(NotFound)
  }

  ghost predicate PrimaryKeys(runs: map<int, Run>) {
    forall id :: id in runs ==> DistinctRows(runs[id].rows)
  }

  // ---------------------------------------------------------------- the claim loop's answer

  function AttemptOn(table: map<int, Run>, accounts: map<int, AccountRef>, o: ClaimOptions, fences: map<int, Fence>, locked: set<int>, id: int): Outcome<Run>
    requires id in table
  {
    TryClaim(table, accounts, id, o, FenceOf(fences, id), locked)
  }

  predicate Earlier(table: map<int, Run>, a: int, b: int)
    requires a in table && b in table
  {
    Less(SqlKey(a, table[a]), SqlKey(b, table[b]))
  }

  /** Among the matching runs, `first` is the least in key order whose attempt does not pass. */
  ghost predicate FirstToDecide(table: map<int, Run>, accounts: map<int, AccountRef>, o: ClaimOptions, fences: map<int, Fence>, locked: set<int>, first: int) {
    && first in table && Matches(o, table[first])
    && !Passes(AttemptOn(table, accounts, o, fences, locked, first))
    && forall id :: id in table && Matches(o, table[id]) && Earlier(table, id, first) ==>
         Passes(AttemptOn(table, accounts, o, fences, locked, id))
  }

  /** The reply and the table left behind belong to the first run that decides, or to none. */
  ghost predicate Decides(table: map<int, Run>, accounts: map<int, AccountRef>, o: ClaimOptions, fences: map<int, Fence>, locked: set<int>, reply: ClaimReply, after: map<int, Run>) {
    match reply
    case Refused => false
    case Idle =>
      after == table && forall id :: id in table && Matches(o, table[id]) ==> Passes(AttemptOn(table, accounts, o, fences, locked, id))
    case Claimed(first) =>
      && FirstToDecide(table, accounts, o, fences, locked, first)
      && AttemptOn(table, accounts, o, fences, locked, first).Ok?
      && after == table[first := AttemptOn(table, accounts, o, fences, locked, first).value]
    case Stopped(first, error) =>
      && FirstToDecide(table, accounts, o, fences, locked, first) && after == table
      && AttemptOn(table, accounts, o, fences, locked, first) == Fail(error)
  }

  /** The claim loop stops at this run: its account is gone, or it could be claimed but for its site's fence. */
  predicate Blocks(table: map<int, Run>, accounts: map<int, AccountRef>, o: ClaimOptions, fences: map<int, Fence>, id: int)
    requires id in table
  {
    !Resolvable(accounts, table[id].target) || (FenceOf(fences, id).Moved? && ClaimableRow(table[id], o.now, o.request))
  }

  lemma BlocksExactly(table: map<int, Run>, accounts: map<int, AccountRef>, o: ClaimOptions, fences: map<int, Fence>, locked: set<int>, id: int)
    requires id in table
    ensures var attempt := AttemptOn(table, accounts, o, fences, locked, id);
            Blocks(table, accounts, o, fences, id) <==> attempt.Fail? && !Passes(attempt)
  {
  }

  ghost predicate Claimable(table: map<int, Run>, accounts: map<int, AccountRef>, o: ClaimOptions, fences: map<int, Fence>, locked: set<int>, id: int) {
    id in table && Matches(o, table[id]) && AttemptOn(table, accounts, o, fences, locked, id).Ok?
  }

  /** What a caller wants: the least claimable run, or the news that there is none. */
  ghost predicate Ideal(table: map<int, Run>, accounts: map<int, AccountRef>, o: ClaimOptions, fences: map<int, Fence>, locked: set<int>, reply: ClaimReply) {
    match reply
    case Claimed(first) =>
      && Claimable(table, accounts, o, fences, locked, first)
      && forall id :: Claimable(table, accounts, o, fences, locked, id) && id != first ==> Earlier(table, first, id)
    case Idle => forall id :: id in table ==> !Claimable(table, accounts, o, fences, locked, id)
    case _ => false
  }

  /** Every matching run that would stop the loop has a claimable one ahead of it. */
  ghost predicate Unblocked(table: map<int, Run>, accounts: map<int, AccountRef>, o: ClaimOptions, fences: map<int, Fence>, locked: set<int>) {
    forall b :: b in table && Matches(o, table[b]) && Blocks(table, accounts, o, fences, b) ==>
      exists c :: Claimable(table, accounts, o, fences, locked, c) && Earlier(table, c, b)
  }

  /** The answer is the least claimable run, or idle when there is none, exactly unless a run that stops the loop is
      ahead of all claimable ones. */
  lemma ClaimsTheLeastClaimableExactlyWhen(
      table: map<int, Run>, accounts: map<int, AccountRef>, o: ClaimOptions, fences: map<int, Fence>, locked: set<int>, reply: ClaimReply, after: map<int, Run>)
    requires Decides(table, accounts, o, fences, locked, reply, after)
    ensures Ideal(table, accounts, o, fences, locked, reply) <==> Unblocked(table, accounts, o, fences, locked)
  {
    hide Less, SqlKey, Matches, TryClaim, Passes, Blocks;
    forall id | id in table
      ensures Blocks(table, accounts, o, fences, id) <==>
                AttemptOn(table, accounts, o, fences, locked, id).Fail? && !Passes(AttemptOn(table, accounts, o, fences, locked, id))
      ensures Passes(AttemptOn(table, accounts, o, fences, locked, id)) ==> !AttemptOn(table, accounts, o, fences, locked, id).Ok?
    {
      BlocksExactly(table, accounts, o, fences, locked, id);
      PassedIsNotClaimed(AttemptOn(table, accounts, o, fences, locked, id));
    }
    if reply.Claimed? || reply.Stopped? {
      forall id | id in table && id != reply.id ensures Earlier(table, reply.id, id) != Earlier(table, id, reply.id) {
        KeysDiffer(table, reply.id, id);
      }
    }
    if reply.Stopped? {
      assert Blocks(table, accounts, o, fences, reply.id);
    }
  }

  lemma PassedIsNotClaimed(attempt: Outcome<Run>)
    ensures Passes(attempt) ==> attempt.Fail?
  {
  }

  lemma KeysDiffer(table: map<int, Run>, a: int, b: int)
    requires a in table && b in table && a != b
    ensures Earlier(table, a, b) != Earlier(table, b, a)
  {
    KeysAreStrictlyTotallyOrdered(SqlKey(a, table[a]), SqlKey(b, table[b]), SqlKey(a, table[a]));
  }

  const Probe: Run :=
    Run(SiteTarget(1), SiteProbe, 10, None, None, 100, Pending, true, 100, None, true, 0, 0, 0, 0, Nothing, "created", None, [])

  const TwoProbes: map<int, Run> := map[1 := Probe, 2 := Probe.(target := SiteTarget(2))]
  const AnyProbe: ClaimOptions := ClaimOptions({SiteProbe}, None, None, 200, "claim", 64, 24)

  /** Two probes are due; the first one's site does not allow it any more, and the claimable second one is not reached. */
  lemma BlockedQueueExample(reply: ClaimReply, after: map<int, Run>)
    requires Decides(TwoProbes, map[], AnyProbe, map[1 := Moved], {}, reply, after)
    ensures reply == Stopped(1, ConfigChanged) && Claimable(TwoProbes, map[], AnyProbe, map[1 := Moved], {}, 2)
  {
    assert Earlier(TwoProbes, 1, 2);
    assert AttemptOn(TwoProbes, map[], AnyProbe, map[1 := Moved], {}, 1) == Fail(ConfigChanged);
    assert !Busy(TwoProbes, map[], 2);
  }

  class CollectionTaskRepository {
    const accounts: map<int, AccountRef>
    var runs: map<int, Run>

    constructor (accounts: map<int, AccountRef>)
      ensures this.accounts == accounts && runs == map[]
    {
      this.accounts := accounts;
      runs := map[];
    }

    // ---------------------------------------------------------------- claim

    /** The selected run with the least key. */
    method LeastOf(candidates: set<int>) returns (least: int)
      requires candidates != {} && candidates <= runs.Keys
      ensures least in candidates
      ensures forall id :: id in candidates && id != least ==> Less(SqlKey(least, runs[least]), SqlKey(id, runs[id]))
    {
      least := Pick(candidates);
      var rest := candidates - {least};
      while rest != {}
        invariant rest <= candidates && least in candidates && least !in rest
        invariant forall id :: id in candidates && id !in rest && id != least ==> Less(SqlKey(least, runs[least]), SqlKey(id, runs[id]))
        decreases rest
      {
        var id := Pick(rest);
        rest := rest - {id};
        var a, b := SqlKey(id, runs[id]), SqlKey(least, runs[least]);
        forall other | other in candidates
          ensures Less(a, b) && Less(b, SqlKey(other, runs[other])) ==> Less(a, SqlKey(other, runs[other]))
        {
          KeysAreStrictlyTotallyOrdered(a, b, SqlKey(other, runs[other]));
        }
        KeysAreStrictlyTotallyOrdered(a, b, a);
        if Less(a, b) { least := id; }
      }
    }

    /** One page query: repeatedly the least remaining selected run. */
    method QueryPage(o: ClaimOptions, cursor: Option<SortKey>) returns (page: seq<int>)
      requires o.scanLimit > 0
      ensures IsPage(runs, o, cursor, o.scanLimit, page)
    {
      page := [];
      var rest := Selected(runs, o, cursor);
      while |page| < o.scanLimit && rest != {}
        invariant |page| <= o.scanLimit && Sorted(runs, page) && rest <= Selected(runs, o, cursor)
        invariant forall i :: 0 <= i < |page| ==> page[i] in Selected(runs, o, cursor)
        invariant forall id :: id in Selected(runs, o, cursor) <==> id in rest || id in page
        invariant forall i, id :: 0 <= i < |page| && id in rest ==> Less(SqlKey(page[i], runs[page[i]]), SqlKey(id, runs[id]))
        decreases rest
      {
        hide Less, SqlKey;
        var least := LeastOf(rest);
        rest := rest - {least};
        page := page + [least];
      }
    }

    /** Another run of the same scope is running. */
    method ScopeHasRunning(id: int) returns (busy: bool)
      requires id in runs
      ensures busy == Busy(runs, accounts, id)
    {
      busy := false;
      var rest := runs.Keys;
      while rest != {}
        invariant rest <= runs.Keys
        invariant busy <==> exists other :: other in runs && other !in rest && other != id && runs[other].status.Running? && Contend(accounts, runs[id], runs[other])
        decreases rest
      {
        var other := Pick(rest);
        rest := rest - {other};
        if other != id && runs[other].status.Running? && Contend(accounts, runs[id], runs[other]) { busy := true; }
      }
    }

    /** The takeable window of the latest hour, and of the highest id within it. */
    method NextWindow(rows: seq<Window>, now: int, locked: set<int>) returns (first: Option<Window>)
      requires DistinctRows(rows)
      ensures first.None? <==> forall w :: w in rows ==> !Takeable(w, now, locked)
      ensures first.Some? ==> first.value in rows && Takeable(first.value, now, locked)
      ensures first.Some? ==> forall w :: w in rows && Takeable(w, now, locked) && w != first.value ==> Ahead(first.value, w)
    {
      first := None;
      for i := 0 to |rows|
        invariant first.None? <==> forall j :: 0 <= j < i ==> !Takeable(rows[j], now, locked)
        invariant first.Some? ==> first.value in rows[..i] && Takeable(first.value, now, locked)
        invariant first.Some? ==> forall j :: 0 <= j < i && Takeable(rows[j], now, locked) && rows[j] != first.value ==> Ahead(first.value, rows[j])
      {
        var w := rows[i];
        if Takeable(w, now, locked) && (first.None? || Ahead(w, first.value)) { first := Some(w); }
      }
    }

    /** The claim's ordered, limited query: the next window that neither others have locked nor the query returned. */
    method SelectWindows(rows: seq<Window>, now: int, locked: set<int>, limit: int) returns (taken: seq<Window>)
      requires DistinctRows(rows)
      ensures (set w | w in taken :: w.id) == Chosen(rows, now, locked, limit)
      ensures forall i, j :: 0 <= i < j < |taken| ==> Ahead(taken[i], taken[j])
    {
      taken := [];
      var skipped, more := locked, true;
      ghost var all, done := CollectionEffects.TakeableRows(rows, now, locked), {};
      CollectionEffects.ChosenAreTheForemost(rows, now, locked, limit);
      hide Ahead, Takeable, CollectionEffects.Foremost, Chosen;
      while more && |taken| < limit
        invariant CollectionEffects.Leads(done, all) && |done| == |taken|
        invariant forall w :: w in done <==> w in taken
        invariant skipped == locked + set w | w in done :: w.id
        invariant forall i, j :: 0 <= i < j < |taken| ==> Ahead(taken[i], taken[j])
        invariant done <= CollectionEffects.Foremost(all, limit)
        invariant !more ==> done == all
        decreases more, limit - |taken|
      {
        var next := NextWindow(rows, now, skipped);
        LeftToTake(rows, now, locked, done, skipped);
        if next.None? {
          more := false;
        } else {
          CollectionEffects.NextIsForemost(all, done, next.value, limit);
          taken := taken + [next.value];
          skipped := skipped + {next.value.id};
          done := done + {next.value};
        }
      }
      CollectionEffects.LimitReached(all, done, limit);
    }

    /** `UPDATE ... WHERE id IN ids`: the selected windows start their next attempt. */
    method StartWindows(rows: seq<Window>, ids: set<int>, now: int) returns (started: seq<Window>)
      ensures started == TouchAll(Take(ids, now), rows)
    {
      started := rows;
      for i := 0 to |rows|
        invariant |started| == |rows|
        invariant forall j :: 0 <= j < i ==> started[j] == Touch(Take(ids, now), rows[j])
        invariant forall j :: i <= j < |rows| ==> started[j] == rows[j]
      {
        var w := rows[i];
        if w.id in ids {
          started := started[i := w.(status := Running, attempts := w.attempts + 1, nextRetry := None, finishedAt := None)];
        }
      }
    }

    /** The windows and the run row of a claim that nothing else refuses. */
    method HandOut(r: Run, now: int, request: string, locked: set<int>, limit: int) returns (attempt: Outcome<Run>)
      requires ClaimableRow(r, now, request) && DistinctRows(r.rows)
      ensures attempt == ClaimRun(r, now, request, locked, limit)
    {
      hide Chosen, DistinctRows;
      var claimed := r;
      if Windowed(r.task) {
        if r.total <= 0 { return Fail(NothingDue); }
        var windows := SelectWindows(r.rows, now, locked, limit);
        var ids := set w | w in windows :: w.id;
        if windows == [] { return Fail(NothingDue); }
        assert windows[0].id in ids;
        var started := StartWindows(r.rows, ids, now);
        claimed := claimed.(rows := started);
      }
      claimed := claimed.(status := Running, heartbeat := Some(now), lastRequest := request);
      if !Windowed(r.task) { claimed := claimed.(retries := r.retries + 1); }
      attempt := Ok(claimed);
    }

    /** One claim transaction: scope, scope locks, the row, the site fence, other running runs, then the windows. */
    method ClaimCandidate(id: int, o: ClaimOptions, fence: Fence, locked: set<int>) returns (attempt: Outcome<Run>)
      requires id in runs && PrimaryKeys(runs) && o.maxWindow > 0
      modifies this`runs
      ensures attempt == TryClaim(old(runs), accounts, id, o, fence, locked)
      ensures ClaimLaw(old(runs), accounts, id, o, fence, locked, attempt)
      ensures runs == if attempt.Ok? then old(runs)[id := attempt.value] else old(runs)
      ensures PrimaryKeys(runs)
    {
      var r := runs[id];
      ClaimIsLawful(runs, accounts, id, o, fence, locked);
      ClaimKeepsKeys(r, o.now, o.request, locked, o.maxWindow);
      hide ClaimLaw, ClaimRun, Busy;
      if !Resolvable(accounts, r.target) { return Fail(NotFound); }
      if fence.Skipped? { return Fail(NothingDue); }
      if !r.status.Pending? || !r.initialised || r.nextAttempt > o.now || r.lastRequest == o.request { return Fail(ClaimLost); }
      if fence.Moved? { return Fail(ConfigChanged); }
      var busy := ScopeHasRunning(id);
      if busy { return Fail(NothingDue); }
      attempt := HandOut(r, o.now, o.request, locked, o.maxWindow);
      if attempt.Ok? { runs := runs[id := attempt.value]; }
    }

    /** Claims the first run, in key order, whose attempt does not pass; stops with an error if that
        attempt fails for another reason; is idle exactly when every matching run passes. */
    method ClaimNext(request: ClaimOptions, fences: map<int, Fence>, locked: set<int>) returns (reply: ClaimReply)
      requires PrimaryKeys(runs)
      modifies this`runs
      ensures request.now <= 0 || request.tasks == {} <==> reply.Refused?
      ensures reply.Refused? ==> runs == old(runs)
      ensures PrimaryKeys(runs)
      ensures !reply.Refused? ==> Decides(old(runs), accounts, Normalised(request), fences, locked, reply, runs)
      ensures !reply.Refused? ==>
                (Ideal(old(runs), accounts, Normalised(request), fences, locked, reply) <==>
                 Unblocked(old(runs), accounts, Normalised(request), fences, locked))
      ensures reply.Claimed? ==>
                && reply.id in old(runs) && reply.id in runs
                && Taken(old(runs)[reply.id], runs[reply.id], request.now, request.request, locked, Normalised(request).maxWindow)
    {
      if request.now <= 0 || request.tasks == {} { return Refused; }
      hide Less, SqlKey, Matches, ClaimRun, Busy;
      var o := Normalised(request);
      assert o.now == request.now && o.request == request.request;
      var cursor: Option<SortKey> := None;
      while true
        invariant runs == old(runs)
        invariant forall id :: id in runs && Matches(o, runs[id]) && id !in Selected(runs, o, cursor) ==>
                    Passes(AttemptOn(runs, accounts, o, fences, locked, id))
        decreases Selected(runs, o, cursor)
      {
        var page := QueryPage(o, cursor);
        ghost var selected := Selected(runs, o, cursor);
        var i := 0;
        while i < |page|
          invariant 0 <= i <= |page| && runs == old(runs)
          invariant forall j :: 0 <= j < i ==> Passes(AttemptOn(runs, accounts, o, fences, locked, page[j]))
        {
          var attempt := ClaimCandidate(page[i], o, FenceOf(fences, page[i]), locked);
          if !Passes(attempt) {
            PageDecides(old(runs), accounts, o, fences, locked, cursor, page, i);
            reply := if attempt.Ok? then Claimed(page[i]) else Stopped(page[i], attempt.error);
            ClaimsTheLeastClaimableExactlyWhen(old(runs), accounts, o, fences, locked, reply, runs);
            return;
          }
          i := i + 1;
        }
        if |page| < o.scanLimit {
          ClaimsTheLeastClaimableExactlyWhen(runs, accounts, o, fences, locked, Idle, runs);
          return Idle;
        }
        var last := page[|page| - 1];
        NextPageIsSmaller(runs, o, cursor, page);
        cursor := Some(CursorOf(last, runs[last]));
      }
    }

    // ---------------------------------------------------------------- commit, release, recover

    /** The five status counts in one pass over the windows. */
    method CountWindows(rows: seq<Window>) returns (completed: nat, failed: nat, unavailable: nat, pending: nat, running: nat)
      ensures completed == Count(rows, Success) && failed == Count(rows, Failed) && unavailable == Count(rows, Unavailable)
      ensures pending == Count(rows, Pending) && running == Count(rows, Running)
    {
      completed, failed, unavailable, pending, running := 0, 0, 0, 0, 0;
      for i := 0 to |rows|
        invariant completed == Count(rows, Success, i) && failed == Count(rows, Failed, i) && unavailable == Count(rows, Unavailable, i)
        invariant pending == Count(rows, Pending, i) && running == Count(rows, Running, i)
      {
        match rows[i].status
        case Success => completed := completed + 1;
        case Failed => failed := failed + 1;
        case Unavailable => unavailable := unavailable + 1;
        case Pending => pending := pending + 1;
        case Running => running := running + 1;
      }
    }

    /** The initial-backfill derivation: counters first, then one MIN over the pending retry times. */
    method RecalculateBackfill(r: Run, now: int) returns (derived: Run)
      ensures derived == RecalculateInitial(r, now)
    {
      var completed, failed, unavailable, pending, running := CountWindows(r.rows);
      derived := r;
      if pending > 0 {
        var least: Option<int> := None;
        for i := 0 to |r.rows|
          invariant least == MinRetry(r.rows, i)
        {
          var w := r.rows[i];
          if w.status.Pending? && w.nextRetry.Some? && (least.None? || w.nextRetry.value < least.value) {
            least := w.nextRetry;
          }
        }
        derived := derived.(nextAttempt := if least.Some? && least.value > now then least.value else now);
      }
      derived := derived.(completed := completed, failed := failed);
      if completed + failed + unavailable == r.total {
        derived := derived.(status := if failed > 0 then Failed else Success, active := false, heartbeat := None, finishedAt := Some(now));
      } else {
        derived := derived.(status := if running == 0 && pending > 0 then Pending else Running);
      }
    }

    /** The common derivation: one pass that counts and keeps the earliest wake time. */
    method RecalculateLockedRun(r: Run, now: int) returns (reply: Outcome<Run>)
      ensures reply == RecalculateLocked(r, now)
    {
      if r.status.Failed? || r.status.Success? { return Ok(r); }
      if !r.initialised || r.total != |r.rows| { return Fail(Contract); }
      var completed, failed, unavailable, pending, running := CountWindows(r.rows);
      var next: Option<int> := None;
      for i := 0 to |r.rows|
        invariant next == EarliestWake(r.rows, now, i)
      {
        if r.rows[i].status.Pending? {
          var candidate := WakeTime(r.rows[i], now);
          if next.None? || candidate < next.value { next := Some(candidate); }
        }
      }
      var derived := r.(completed := completed, failed := failed);
      if completed + failed + unavailable == r.total {
        return Ok(derived.(status := if failed > 0 then Failed else Success, active := false, heartbeat := None, finishedAt := Some(now)));
      }
      if next.Some? { derived := derived.(nextAttempt := next.value); }
      if running > 0 { return Ok(derived.(status := Running)); }
      if pending > 0 { return Ok(derived.(status := Pending)); }
      return Fail(Contract);
    }

    method Derive(r: Run, now: int) returns (reply: Outcome<Run>)
      ensures reply == Recalculate(r, now)
    {
      if r.priority == INITIAL_BACKFILL {
        var derived := RecalculateBackfill(r, now);
        reply := Ok(derived);
      } else {
        reply := RecalculateLockedRun(r, now);
      }
    }

    /** Checks the reported results one by one while indexing them by window. */
    method IndexResults(results: seq<WindowResult>) returns (reply: Outcome<map<int, WindowResult>>)
      ensures reply == if ValidResults(results) then Ok(ById(results)) else Fail(Contract)
    {
      var byId := map[];
      for i := 0 to |results|
        invariant byId == ById(results, i) && ValidResults(results, i)
      {
        OneMoreResult(results, i);
        if !ValidResult(results[i]) || results[i].windowId in byId { return Fail(Contract); }
        byId := byId[results[i].windowId := results[i]];
      }
      return Ok(byId);
    }

    /** Settles the claimed windows one by one, adding up what they bring; any window that is no longer
        running the reported attempt loses the whole claim. */
    method SettleWindows(r: Run, now: int, byId: map<int, WindowResult>) returns (reply: Outcome<Run>)
      ensures reply == CommitRows(r, now, byId)
    {
      var found: set<int> := {};
      var rows, volume := r.rows, r.volume;
      for i := 0 to |r.rows|
        invariant |rows| == |r.rows| && found == (set j | 0 <= j < i && r.rows[j].id in byId :: r.rows[j].id)
        invariant forall j :: 0 <= j < i ==> rows[j] == Touch(Settle(byId, now), r.rows[j])
        invariant forall j :: i <= j < |rows| ==> rows[j] == r.rows[j]
        invariant forall j :: 0 <= j < i && r.rows[j].id in byId ==> r.rows[j].status.Running? && r.rows[j].attempts == byId[r.rows[j].id].attempt
        invariant volume == r.volume.Plus(SettledVolume(byId, r.rows, i))
      {
        var w := r.rows[i];
        if w.id in byId {
          if !w.status.Running? || w.attempts != byId[w.id].attempt { return Fail(ClaimLost); }
          found := found + {w.id};
          rows := rows[i := Touch(Settle(byId, now), w)];
          volume := volume.Plus(byId[w.id].volume);
        }
      }
      FoundExactlyWhenHeld(byId, r.rows, found);
      if found != byId.Keys {
        return Fail(ClaimLost);
      }
      assert rows == TouchAll(Settle(byId, now), r.rows);
      reply := Derive(r.(rows := rows, volume := volume), now);
      if reply.Ok? && reply.value.status.Pending? {
        reply := Ok(reply.value.(heartbeat := None));
      }
    }

    /** Commits the results of a claim; `allowed` is false when the surrounding transaction rolls back. */
    method CommitClaim(id: int, request: string, now: int, results: seq<WindowResult>, allowed: bool) returns (reply: Outcome<Run>)
      modifies this`runs
      ensures reply == if !Answerable(old(runs), id, now) then Unanswered(now)
                       else if CommitRun(old(runs)[id], request, now, results).Ok? && !allowed then Fail(ConfigChanged)
                       else CommitRun(old(runs)[id], request, now, results)
      ensures runs == if reply.Ok? then old(runs)[id := reply.value] else old(runs)
    {
      if !Answerable(runs, id, now) { return Unanswered(now); }
      var r := runs[id];
      if !Owned(r, request) { return Fail(ClaimLost); }
      if !Windowed(r.task) || results == [] { return Fail(Contract); }
      var indexed := IndexResults(results);
      if indexed.Fail? { return Fail(Contract); }
      reply := SettleWindows(r, now, indexed.value);
      if reply.Ok? {
        if !allowed { return Fail(ConfigChanged); }
        runs := runs[id := reply.value];
      }
    }

    /** Commits one claimed window with its business mutation; `mutated` counts how often the mutation has been
        applied to the store, and stays the same whenever the transaction rolls back. */
    method CompleteClaimedWindow(id: int, request: string, now: int, result: WindowResult, mutation: Option<Volume>, mutated: nat, allowed: bool)
      returns (reply: Outcome<Run>, applied: nat)
      modifies this`runs
      ensures reply == if !Answerable(old(runs), id, now) then Unanswered(now)
                       else if CompleteRun(old(runs)[id], request, now, result, mutation).Ok? && !allowed then Fail(ConfigChanged)
                       else CompleteRun(old(runs)[id], request, now, result, mutation)
      ensures runs == if reply.Ok? then old(runs)[id := reply.value] else old(runs)
      ensures applied == mutated + if reply.Ok? && mutation.Some? then 1 else 0
    {
      applied := mutated;
      if !Answerable(runs, id, now) { return Unanswered(now), mutated; }
      var r := runs[id];
      if !Owned(r, request) || !Windowed(r.task) { return Fail(ClaimLost), mutated; }
      var found := false;
      for i := 0 to |r.rows|
        invariant runs == old(runs)
        invariant found <==> exists j :: 0 <= j < i && r.rows[j].id == result.windowId && r.rows[j].status.Running? && r.rows[j].attempts == result.attempt
      {
        if r.rows[i].id == result.windowId && r.rows[i].status.Running? && r.rows[i].attempts == result.attempt { found := true; }
      }
      if !found { return Fail(ClaimLost), mutated; }
      reply := CommitClaim(id, request, now, [result.(volume := mutation.GetOr(result.volume))], allowed);
      if reply.Ok? && mutation.Some? { applied := mutated + 1; }
    }

    method Heartbeat(id: int, request: string, now: int) returns (reply: Outcome<Run>)
      modifies this`runs
      ensures reply == if !Answerable(old(runs), id, now) then Unanswered(now) else HeartbeatRun(old(runs)[id], request, now)
      ensures runs == if reply.Ok? then old(runs)[id := reply.value] else old(runs)
    {
      if !Answerable(runs, id, now) { return Unanswered(now); }
      var r := runs[id];
      if !r.status.Running? || r.lastRequest != request { return Fail(ClaimLost); }
      reply := Ok(r.(heartbeat := Some(now)));
      runs := runs[id := reply.value];
    }

    /** Returns running windows with budget left to pending and fails the exhausted ones, one by one. */
    method ExpireWindows(rows: seq<Window>, budget: int, now: int, code: string) returns (expired: seq<Window>, released: nat)
      ensures expired == TouchAll(Expire(budget, now, code), rows) && released == Count(rows, Running)
    {
      expired, released := rows, 0;
      for i := 0 to |rows|
        invariant |expired| == |rows| && released == Count(rows, Running, i)
        invariant forall j :: 0 <= j < i ==> expired[j] == Touch(Expire(budget, now, code), rows[j])
        invariant forall j :: i <= j < |rows| ==> expired[j] == rows[j]
      {
        var w := rows[i];
        if w.status.Running? {
          if w.attempts < budget {
            expired := expired[i := w.(status := Pending, nextRetry := Some(now), finishedAt := None)];
          } else {
            expired := expired[i := w.(status := Failed, nextRetry := None, finishedAt := Some(now), errorCode := code)];
          }
          released := released + 1;
        }
      }
      assert expired == TouchAll(Expire(budget, now, code), rows);
    }

    method ReleaseOwnedRunning(id: int, request: string, now: int, budget: int) returns (reply: Outcome<Run>)
      modifies this`runs
      ensures reply == if !Answerable(old(runs), id, now) then Unanswered(now) else ReleaseRun(old(runs)[id], request, now, budget)
      ensures runs == if reply.Ok? then old(runs)[id := reply.value] else old(runs)
    {
      if !Answerable(runs, id, now) { return Unanswered(now); }
      var r := runs[id];
      reply := Ok(r);
      if Owned(r, request) {
        if !Windowed(r.task) {
          reply := Ok(r.(status := Pending, heartbeat := None, nextAttempt := now));
        } else {
          var expired, released := ExpireWindows(r.rows, budget, now, EXECUTION_FAILED);
          if released > 0 { reply := Derive(r.(rows := expired, heartbeat := None), now); }
        }
      }
      if reply.Ok? { runs := runs[id := reply.value]; }
    }

    /** A run that is gone by then is nothing to recover. */
    method RecoverOne(id: int, now: int, staleBefore: Option<int>, budget: int) returns (error: Option<Error>)
      modifies this`runs
      ensures id !in old(runs) ==> error.None? && runs == old(runs)
      ensures id in old(runs) ==>
                var recovered := RecoverRun(old(runs)[id], now, staleBefore, budget);
                if recovered.Ok? then error.None? && runs == old(runs)[id := recovered.value] else error == Some(recovered.error) && runs == old(runs)
    {
      if id !in runs { return None; }
      var r := runs[id];
      var reply := Ok(r);
      if Stale(r, staleBefore) {
        if Windowed(r.task) {
          var expired, _ := ExpireWindows(r.rows, budget, now, LEASE_LOST);
          reply := RecalculateLockedRun(r.(rows := expired), now);
          if reply.Ok? && reply.value.status.Pending? { reply := Ok(reply.value.(heartbeat := None)); }
        } else if r.retries < budget {
          reply := Ok(r.(status := Pending, heartbeat := None, nextAttempt := now));
        } else {
          reply := Ok(r.(status := Failed, heartbeat := None, active := false, finishedAt := Some(now)));
        }
      }
      if reply.Fail? { return Some(reply.error); }
      runs := runs[id := reply.value];
      error := None;
    }

    /** Recovers the stale runs one transaction at a time and stops at the first that cannot be recovered. */
    method RecoverRunning(now: int, staleBefore: Option<int>, budget: int) returns (error: Option<Error>)
      modifies this`runs
      ensures runs.Keys == old(runs).Keys
      ensures now <= 0 ==> error == Some(Contract) && runs == old(runs)
      ensures forall id :: id in runs ==>
                var recovered := RecoverRun(old(runs)[id], now, staleBefore, budget);
                runs[id] == old(runs)[id] || recovered == Ok(runs[id])
      ensures error.None? ==> forall id :: id in runs ==> Ok(runs[id]) == RecoverRun(old(runs)[id], now, staleBefore, budget)
    {
      if now <= 0 { return Some(Contract); }
      hide RecoverRun;
      var rest := set id | id in runs && Stale(runs[id], staleBefore);
      ghost var stale := rest;
      while rest != {}
        invariant rest <= stale <= runs.Keys && runs.Keys == old(runs).Keys
        invariant forall id :: id in runs ==>
                    if id in stale && id !in rest then Ok(runs[id]) == RecoverRun(old(runs)[id], now, staleBefore, budget)
                    else runs[id] == old(runs)[id]
        decreases rest
      {
        var id := LeastId(rest);
        rest := rest - {id};
        error := RecoverOne(id, now, staleBefore, budget);
        if error.Some? { return; }
      }
      forall id | id in runs && id !in stale ensures Ok(runs[id]) == RecoverRun(old(runs)[id], now, staleBefore, budget) {
        FreshRunsAreLeftAlone(runs[id], now, staleBefore, budget);
      }
      error := None;
    }
  }

  lemma PageDecides(table: map<int, Run>, accounts: map<int, AccountRef>, o: ClaimOptions, fences: map<int, Fence>, locked: set<int>, cursor: Option<SortKey>, page: seq<int>, i: nat)
    requires o.scanLimit > 0 && IsPage(table, o, cursor, o.scanLimit, page) && i < |page|
    requires !Passes(AttemptOn(table, accounts, o, fences, locked, page[i]))
    requires forall j :: 0 <= j < i ==> Passes(AttemptOn(table, accounts, o, fences, locked, page[j]))
    requires forall id :: id in table && Matches(o, table[id]) && id !in Selected(table, o, cursor) ==>
               Passes(AttemptOn(table, accounts, o, fences, locked, id))
    ensures FirstToDecide(table, accounts, o, fences, locked, page[i])
  {
  }

  /** Skipping the ids of the taken windows leaves exactly the other takeable ones. */
  lemma LeftToTake(rows: seq<Window>, now: int, locked: set<int>, done: set<Window>, skipped: set<int>)
    requires DistinctRows(rows) && done <= CollectionEffects.TakeableRows(rows, now, locked)
    requires skipped == locked + set w | w in done :: w.id
    ensures forall w :: w in rows && Takeable(w, now, skipped) <==> w in CollectionEffects.TakeableRows(rows, now, locked) && w !in done
  {
    CollectionEffects.IdsNameRows(rows);
  }

  lemma OneMoreResult(results: seq<WindowResult>, i: nat)
    requires i < |results| && ValidResults(results, i)
    ensures ValidResults(results, i + 1) <==> ValidResult(results[i]) && results[i].windowId !in ById(results, i)
    ensures ValidResults(results) ==> ValidResults(results, i + 1)
  {
    hide ValidResult, ById;
    if results[i].windowId in ById(results, i) {
      var j :| 0 <= j < i && results[j].windowId == results[i].windowId;
    }
  }

  lemma FoundExactlyWhenHeld(byId: map<int, WindowResult>, rows: seq<Window>, found: set<int>)
    requires found == set j | 0 <= j < |rows| && rows[j].id in byId :: rows[j].id
    requires forall j :: 0 <= j < |rows| && rows[j].id in byId ==> rows[j].status.Running? && rows[j].attempts == byId[rows[j].id].attempt
    ensures found == byId.Keys <==> Held(byId, rows)
  {
    if found == byId.Keys {
      forall id | id in byId ensures exists i :: 0 <= i < |rows| && rows[i].id == id { assert id in found; }
    } else if Held(byId, rows) {
      forall id | id in byId ensures id in found {
        var i :| 0 <= i < |rows| && rows[i].id == id;
      }
    }
  }

  lemma FreshRunsAreLeftAlone(r: Run, now: int, staleBefore: Option<int>, budget: int)
    requires !Stale(r, staleBefore)
    ensures RecoverRun(r, now, staleBefore, budget) == Ok(r)
  {
  }

  lemma NextPageIsSmaller(table: map<int, Run>, o: ClaimOptions, cursor: Option<SortKey>, page: seq<int>)
    requires IsPage(table, o, cursor, |page|, page) && page != []
    ensures var last := page[|page| - 1];
            var next := Selected(table, o, Some(CursorOf(last, table[last])));
            next < Selected(table, o, cursor) && forall id :: id in Selected(table, o, cursor) && id !in next ==> id in page
  {
  }
}
