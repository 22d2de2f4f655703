/** The account and customer repositories: transactions over the shared tables, row by row, each proved
    against the lifecycle's step function, errors and rollbacks included. */
module LifecycleRepository {
  import opened Prelude
  import opened Accounts
  import opened Lifecycle

  function ErrorOf(reply: Outcome<World>): Option<Error> {
    if reply.Fail? then Some(reply.error) else None
  }

  /** The transaction behaved as step `s`: same refusal, same tables. */
  ghost predicate Did(before: World, s: Step, error: Option<Error>, after: World) {
    error == ErrorOf(Perform(before, s)) && after == After(before, s)
  }

  /** The observations of a complete snapshot, indexed by remote user; malformed or repeated ones refuse it. */
  function ByRemoteUser(users: seq<SiteUser>, n: nat := |users|): map<int, SiteUser>
    requires n <= |users|
  {
    if n == 0 then map[] else ByRemoteUser(users, n - 1)[users[n - 1].remoteUser := users[n - 1]]
  }

  ghost predicate ValidUsers(users: seq<SiteUser>, n: nat := |users|)
    requires n <= |users|
  {
    && (forall i :: 0 <= i < n ==> ValidUser(users[i]))
    && (forall i, j :: 0 <= i < j < n ==> users[i].remoteUser != users[j].remoteUser)
  }

  /** When a snapshot leaves an account isolated although its remote user is present, the statistics from its
      pause on belong to nobody and are handed to cleanup. */
  function CleanedFrom(a: Account, users: map<int, SiteUser>, at: int, pauseAt: int): Option<int> {
    var next := SnapshotRow(a, users, at, pauseAt);
    if FindingIn(a, users, pauseAt).Absent? || !next.state.IdentityMismatch? then None else next.pausedAt
  }

  /** The tables after the rows `ids` have been processed. */
  function RowsAfter(accounts: map<int, Account>, ids: set<int>, users: map<int, SiteUser>, at: int, pauseAt: int): map<int, Account> {
    map id | id in accounts :: if id in ids then SnapshotRow(accounts[id], users, at, pauseAt) else accounts[id]
  }

  function CleanupOf(accounts: map<int, Account>, ids: set<int>, users: map<int, SiteUser>, at: int, pauseAt: int): map<int, int> {
    map id | id in accounts && id in ids && CleanedFrom(accounts[id], users, at, pauseAt).Some? ::
      CleanedFrom(accounts[id], users, at, pauseAt).value
  }

  lemma NoRowYet(accounts: map<int, Account>, users: map<int, SiteUser>, at: int, pauseAt: int)
    ensures RowsAfter(accounts, {}, users, at, pauseAt) == accounts && CleanupOf(accounts, {}, users, at, pauseAt) == map[]
  {
  }

  lemma OneMoreRow(accounts: map<int, Account>, ids: set<int>, id: int, users: map<int, SiteUser>, at: int, pauseAt: int)
    requires id in accounts && id !in ids
    ensures var before := RowsAfter(accounts, ids, users, at, pauseAt);
            && before.Keys == accounts.Keys && before[id] == accounts[id]
            && RowsAfter(accounts, ids + {id}, users, at, pauseAt) == before[id := SnapshotRow(accounts[id], users, at, pauseAt)]
    ensures var pause, before, after := CleanedFrom(accounts[id], users, at, pauseAt), CleanupOf(accounts, ids, users, at, pauseAt), CleanupOf(accounts, ids + {id}, users, at, pauseAt);
            after == if pause.Some? then before[id := pause.value] else before
  {
  }

  class LifecycleRepository {
    var customers: map<int, Customer>
    var accounts: map<int, Account>
    var runs: seq<Rebuild>

    constructor ()
      ensures State() == Empty
    {
      customers, accounts, runs := map[], map[], [];
    }

    ghost function State(): World
      reads this
    {
      World(customers, accounts, runs)
    }

    // ---------------------------------------------------------------- single observations

    method MarkMissing(id: int, at: int, updatedAt: int) returns (error: Option<Error>)
      modifies this`accounts
      ensures Did(old(State()), ObserveOne(id, Observation(at, updatedAt, Absent)), error, State())
    {
      if at <= 0 || updatedAt <= 0 { return Some(Contract); }
      if id !in accounts { return Some(NotFound); }
      error := None;
      var row := accounts[id];
      if !Newer(row, at) { assert accounts[id := row] == accounts; return; }
      var count, state := row.missing, row.state;
      if !row.state.IdentityMismatch? {
        if count < MAX_MISSING { count := count + 1; }
        if count >= 2 { state := Missing; }
      }
      accounts := accounts[id := row.(state := state, missing := count, lastSynced := Some(at), updatedAt := Advance(row.updatedAt, updatedAt))];
    }

    method MarkIdentityMismatch(id: int, at: int, pauseAt: int, updatedAt: int) returns (error: Option<Error>)
      modifies this`accounts
      ensures Did(old(State()), ObserveOne(id, Observation(at, updatedAt, Conflicting(pauseAt))), error, State())
    {
      if at <= 0 || pauseAt <= 0 || updatedAt <= 0 { return Some(Contract); }
      if id !in accounts { return Some(NotFound); }
      error := None;
      var row := accounts[id];
      if !Newer(row, at) { assert accounts[id := row] == accounts; return; }
      var pause := pauseAt;
      if row.pausedAt.Some? && row.pausedAt.value < pause { pause := row.pausedAt.value; }
      accounts := accounts[id := row.(state := IdentityMismatch, pausedAt := Some(pause), lastSynced := Some(at),
                                      updatedAt := Advance(row.updatedAt, updatedAt))];
    }

    method ApplyAuthoritativeRemoteSnapshot(id: int, created: int, profile: Profile, at: int, updatedAt: int) returns (error: Option<Error>)
      modifies this`accounts
      ensures Did(old(State()), ObserveOne(id, Observation(at, updatedAt, Present(created, profile))), error, State())
    {
      if created <= 0 || at <= 0 || updatedAt <= 0 { return Some(Contract); }
      if id !in accounts { return Some(NotFound); }
      error := None;
      var row := accounts[id];
      if created != row.remoteCreated && !row.state.IdentityMismatch? { return Some(Mismatch); }
      if !Newer(row, at) { assert accounts[id := row] == accounts; return; }
      var state, count := RemoteState.Normal, 0;
      if row.state.IdentityMismatch? { state, count := IdentityMismatch, row.missing; }
      accounts := accounts[id := row.(profile := profile, state := state, missing := count, lastSeen := Some(at), lastSynced := Some(at),
                                      updatedAt := Advance(row.updatedAt, updatedAt))];
    }

    // ---------------------------------------------------------------- a whole-site snapshot

    method IndexUsers(users: seq<SiteUser>) returns (reply: Outcome<map<int, SiteUser>>)
      ensures reply == if ValidUsers(users) then Ok(ByRemoteUser(users)) else Fail(Contract)
      ensures reply.Ok? ==> Indexed(reply.value)
    {
      var byId: map<int, SiteUser> := map[];
      for i := 0 to |users|
        invariant byId == ByRemoteUser(users, i) && ValidUsers(users, i) && Indexed(byId)
        invariant byId.Keys == set j | 0 <= j < i :: users[j].remoteUser
      {
        if !ValidUser(users[i]) || users[i].remoteUser in byId { return Fail(Contract); }
        byId := byId[users[i].remoteUser := users[i]];
      }
      return Ok(byId);
    }

    /** The new row for one account, and from when on its statistics must be cleaned up. */
    method SnapshotOne(row: Account, byId: map<int, SiteUser>, at: int, pauseAt: int) returns (next: Account, pause: Option<int>)
      ensures next == SnapshotRow(row, byId, at, pauseAt) && pause == CleanedFrom(row, byId, at, pauseAt)
    {
      pause := None;
      next := row.(lastSynced := Some(at), updatedAt := Advance(row.updatedAt, at));
      if row.remoteUser !in byId || byId[row.remoteUser].deleted {
        if !row.state.IdentityMismatch? {
          if next.missing < MAX_MISSING { next := next.(missing := next.missing + 1); }
          if next.missing >= 2 { next := next.(state := Missing); }
        }
      } else if byId[row.remoteUser].created != row.remoteCreated {
        var effective := pauseAt;
        if row.pausedAt.Some? && row.pausedAt.value < effective { effective := row.pausedAt.value; }
        next := next.(state := IdentityMismatch, pausedAt := Some(effective));
        pause := Some(effective);
      } else if row.state.IdentityMismatch? {
        pause := row.pausedAt;
      } else {
        next := next.(profile := byId[row.remoteUser].profile, state := RemoteState.Normal, missing := 0, lastSeen := Some(at));
      }
    }

    method SnapshotRows(ids: set<int>, byId: map<int, SiteUser>, at: int, pauseAt: int) returns (updated: nat, pauses: map<int, int>)
      requires ids <= accounts.Keys
      modifies this`accounts
      ensures accounts == RowsAfter(old(accounts), ids, byId, at, pauseAt)
      ensures updated == |ids| && pauses == CleanupOf(old(accounts), ids, byId, at, pauseAt)
    {
      hide SnapshotRow, CleanedFrom, CleanupOf, RowsAfter;
      NoRowYet(accounts, byId, at, pauseAt);
      updated, pauses := 0, map[];
      var rest := ids;
      ghost var done: set<int> := {};
      while rest != {}
        invariant rest !! done && rest + done == ids && updated == |done|
        invariant accounts == RowsAfter(old(accounts), done, byId, at, pauseAt) && pauses == CleanupOf(old(accounts), done, byId, at, pauseAt)
        decreases rest
      {
        var id := LeastId(rest);
        OneMoreRow(old(accounts), done, id, byId, at, pauseAt);
        rest, done := rest - {id}, done + {id};
        var next, pause := SnapshotOne(accounts[id], byId, at, pauseAt);
        accounts := accounts[id := next];
        if pause.Some? { pauses := pauses[id := pause.value]; }
        updated := updated + 1;
      }
    }

    /** Applies one complete snapshot to the site's accounts by ascending id; accounts that have already seen an
        observation as recent are left alone. */
    method ApplySiteUserSnapshot(site: int, at: int, pauseAt: int, users: seq<SiteUser>, allowed: bool)
      returns (reply: Outcome<nat>, pauses: map<int, int>)
      modifies this`accounts
      ensures reply.Fail? <==> at <= 0 || pauseAt <= 0 || !ValidUsers(users) || !allowed
      ensures reply.Fail? ==> accounts == old(accounts)
      ensures var newer := set id | id in old(accounts) && Touches(old(accounts)[id], site, at);
              reply.Ok? ==>
                && Did(old(State()), ObserveSite(site, ByRemoteUser(users), at, pauseAt), None, State())
                && reply.value == |newer| && pauses == CleanupOf(old(accounts), newer, ByRemoteUser(users), at, pauseAt)
    {
      pauses := map[];
      if at <= 0 || pauseAt <= 0 { return Fail(Contract), pauses; }
      var indexed := IndexUsers(users);
      if indexed.Fail? { return Fail(Contract), pauses; }
      if !allowed { return Fail(ConfigChanged), pauses; }
      hide CleanedFrom, CleanupOf, ByRemoteUser;
      var ids := set id | id in accounts && Touches(accounts[id], site, at);
      var updated;
      updated, pauses := SnapshotRows(ids, indexed.value, at, pauseAt);
      assert accounts == SnapshotAll(old(accounts), site, indexed.value, at, pauseAt);
      reply := Ok(updated);
    }

    // ---------------------------------------------------------------- account lifecycle

    method Archive(id: int, pausedAt: int, updatedAt: int) returns (error: Option<Error>)
      modifies this`accounts
      ensures Did(old(State()), Step.Archive(id, pausedAt, updatedAt), error, State())
    {
      if pausedAt <= 0 || updatedAt <= 0 { return Some(Contract); }
      if id !in accounts { return Some(NotFound); }
      var row := accounts[id];
      var pause := pausedAt;
      if row.pausedAt.Some? && row.pausedAt.value < pause { pause := row.pausedAt.value; }
      accounts := accounts[id := row.(managed := Archived, pausedAt := Some(pause), backfillPending := false,
                                      updatedAt := Advance(row.updatedAt, updatedAt))];
      error := None;
    }

    method BeginRestore(id: int, updatedAt: int) returns (error: Option<Error>)
      modifies this`accounts
      ensures Did(old(State()), Step.BeginRestore(id, updatedAt), error, State())
    {
      if updatedAt <= 0 { return Some(Contract); }
      if id !in accounts || accounts[id].customer !in customers { return Some(NotFound); }
      var row := accounts[id];
      if customers[row.customer].status.Disabled? { return Some(Error.Disabled); }
      if row.state.IdentityMismatch? { return Some(Mismatch); }
      if !row.managed.Archived? || row.pausedAt.None? { return Some(Contract); }
      accounts := accounts[id := row.(backfillPending := true, updatedAt := Advance(row.updatedAt, updatedAt))];
      error := None;
    }

    method CompleteRestore(id: int, updatedAt: int) returns (error: Option<Error>)
      modifies this`accounts
      ensures Did(old(State()), Step.CompleteRestore(id, updatedAt), error, State())
    {
      if updatedAt <= 0 { return Some(Contract); }
      if id !in accounts || accounts[id].customer !in customers { return Some(NotFound); }
      var row := accounts[id];
      if customers[row.customer].status.Disabled? { return Some(Error.Disabled); }
      if row.state.IdentityMismatch? { return Some(Mismatch); }
      if !row.managed.Archived? || row.pausedAt.None? { return Some(Contract); }
      var completedAt := Advance(row.updatedAt, updatedAt);
      var latest := Latest(runs, AccountRebuild, id);
      if latest.None? { return Some(NotReady); }
      var run := runs[latest.value];
      if !run.status.Success? || !Covers(run, row.pausedAt, completedAt) { return Some(NotReady); }
      accounts := accounts[id := row.(managed := Active, pausedAt := None, backfillPending := false, updatedAt := completedAt)];
      error := None;
    }

    // ---------------------------------------------------------------- customer lifecycle

    method PauseAll(ids: set<int>, pause: int, done: int)
      requires ids <= accounts.Keys
      modifies this`accounts
      ensures accounts == map a | a in old(accounts) :: if a in ids then PauseWithCustomer(old(accounts)[a], pause, done) else old(accounts)[a]
    {
      var rest := ids;
      while rest != {}
        invariant rest <= ids
        invariant accounts == map a | a in old(accounts) ::
                    if a in ids && a !in rest then PauseWithCustomer(old(accounts)[a], pause, done) else old(accounts)[a]
        decreases rest
      {
        var next := LeastId(rest);
        rest := rest - {next};
        var row := accounts[next];
        var effective := pause;
        if row.pausedAt.Some? && row.pausedAt.value < effective { effective := row.pausedAt.value; }
        accounts := accounts[next := row.(pausedAt := Some(effective), updatedAt := Advance(row.updatedAt, done))];
      }
    }

    /** Pauses the customer and then, one by one, its active accounts. */
    method Disable(id: int, pausedAt: int, updatedAt: int) returns (error: Option<Error>)
      modifies this`accounts, this`customers
      ensures Did(old(State()), Step.Disable(id, pausedAt, updatedAt), error, State())
    {
      if pausedAt <= 0 || updatedAt <= 0 { return Some(Contract); }
      if id !in customers { return Some(NotFound); }
      var c := customers[id];
      var done := Advance(c.updatedAt, updatedAt);
      var pause := pausedAt;
      if c.pausedAt.Some? && c.pausedAt.value < pause { pause := c.pausedAt.value; }
      customers := customers[id := c.(status := CustomerStatus.Disabled, pausedAt := Some(pause), backfillPending := false, updatedAt := done)];
      var ids := set a | a in accounts && accounts[a].customer == id && accounts[a].managed.Active?;
      PauseAll(ids, pause, done);
      assert accounts == Perform(old(State()), Step.Disable(id, pausedAt, updatedAt)).value.accounts;
      error := None;
    }

    method BeginEnable(id: int, updatedAt: int) returns (error: Option<Error>)
      modifies this`customers
      ensures Did(old(State()), Step.BeginEnable(id, updatedAt), error, State())
    {
      if updatedAt <= 0 { return Some(Contract); }
      if id !in customers { return Some(NotFound); }
      var c := customers[id];
      if !c.status.Disabled? || c.pausedAt.None? { return Some(Contract); }
      customers := customers[id := c.(backfillPending := true, updatedAt := Advance(c.updatedAt, updatedAt))];
      error := None;
    }

    /** One pass over the locked runs keeps the highest customer rebuild and the highest rebuild of each account. */
    method LatestRuns(id: int, ids: set<int>) returns (customerRun: Option<nat>, accountRuns: map<int, nat>)
      ensures customerRun == Latest(runs, CustomerRebuild, id)
      ensures forall a :: a in ids ==> Latest(runs, AccountRebuild, a) == if a in accountRuns then Some(accountRuns[a]) else None
    {
      customerRun, accountRuns := None, map[];
      for i := 0 to |runs|
        invariant customerRun == Latest(runs, CustomerRebuild, id, i)
        invariant forall a :: a in ids ==> Latest(runs, AccountRebuild, a, i) == if a in accountRuns then Some(accountRuns[a]) else None
      {
        var run := runs[i];
        if run.kind.CustomerRebuild? && run.target == id {
          if customerRun.None? || i > customerRun.value { customerRun := Some(i); }
        } else if run.kind.AccountRebuild? && run.target in ids {
          if run.target !in accountRuns || i > accountRuns[run.target] { accountRuns := accountRuns[run.target := i]; }
        }
      }
    }

    method UnpauseAll(ids: set<int>, customer: int, done: int)
      requires ids == set a | a in accounts && Eligible(accounts[a], customer)
      modifies this`accounts
      ensures accounts == map a | a in old(accounts) ::
                if Eligible(old(accounts)[a], customer) then Unpaused(old(accounts)[a], Advance(old(accounts)[a].updatedAt, done)) else old(accounts)[a]
    {
      var rest := ids;
      while rest != {}
        invariant rest <= ids
        invariant accounts == map a | a in old(accounts) ::
                    if a in ids && a !in rest then Unpaused(old(accounts)[a], Advance(old(accounts)[a].updatedAt, done)) else old(accounts)[a]
        decreases rest
      {
        var next := LeastId(rest);
        rest := rest - {next};
        var row := accounts[next];
        accounts := accounts[next := row.(pausedAt := None, backfillPending := false, updatedAt := Advance(row.updatedAt, done))];
      }
    }

    /** Stops at the first account whose authoritative run is not a covering success. */
    method AllReady(ids: set<int>, customerRun: nat, accountRuns: map<int, nat>, done: int) returns (ready: bool)
      requires ids <= accounts.Keys && customerRun < |runs|
      requires forall a :: a in ids ==> Latest(runs, AccountRebuild, a) == if a in accountRuns then Some(accountRuns[a]) else None
      ensures ready <==> forall a :: a in ids ==> AccountReady(runs, customerRun, a, accounts[a], done)
    {
      hide Covers;
      var rest := ids;
      while rest != {}
        invariant rest <= ids
        invariant forall a :: a in ids && a !in rest ==> AccountReady(runs, customerRun, a, accounts[a], done)
        decreases rest
      {
        var next := LeastId(rest);
        rest := rest - {next};
        var authoritative := customerRun;
        if next in accountRuns && accountRuns[next] > authoritative { authoritative := accountRuns[next]; }
        assert authoritative == Authoritative(runs, customerRun, next);
        var row := accounts[next];
        if !runs[authoritative].status.Success? || (row.pausedAt.Some? && !Covers(runs[authoritative], row.pausedAt, done)) {
          assert !AccountReady(runs, customerRun, next, row, done);
          return false;
        }
      }
      ready := true;
    }

    /** Opens the customer and its eligible accounts, or nothing at all. */
    method CompleteEnable(id: int, updatedAt: int) returns (error: Option<Error>)
      modifies this`accounts, this`customers
      ensures Did(old(State()), Step.CompleteEnable(id, updatedAt), error, State())
    {
      if updatedAt <= 0 { return Some(Contract); }
      if id !in customers { return Some(NotFound); }
      var c := customers[id];
      if !c.status.Disabled? || c.pausedAt.None? { return Some(Contract); }
      var done := Advance(c.updatedAt, updatedAt);
      hide Covers, AccountReady;
      var ids := set a | a in accounts && Eligible(accounts[a], id);
      var customerRun, accountRuns := LatestRuns(id, ids);
      if customerRun.None? || !runs[customerRun.value].status.Success? || !Covers(runs[customerRun.value], c.pausedAt, done) {
        return Some(NotReady);
      }
      var ready := AllReady(ids, customerRun.value, accountRuns, done);
      if !ready { return Some(NotReady); }
      UnpauseAll(ids, id, done);
      customers := customers[id := c.(status := Using, pausedAt := None, backfillPending := false, updatedAt := done)];
      error := None;
    }

    // ---------------------------------------------------------------- automatic completion

    method FinalizeAccount(i: nat, now: int) returns (error: Option<Error>)
      requires i < |runs|
      modifies this`accounts
      ensures error == ErrorOf(FinalizeAccountRun(old(State()), runs[i], now))
      ensures State() == if error.Some? then old(State()) else FinalizeAccountRun(old(State()), runs[i], now).value
    {
      var run := runs[i];
      if run.target !in accounts { return Some(NotFound); }
      var row := accounts[run.target];
      error := None;
      if row.managed.Active? && row.pausedAt.None? { return; }
      if row.customer !in customers { return Some(NotFound); }
      if customers[row.customer].status.Disabled? { return Some(Error.Disabled); }
      if row.state.IdentityMismatch? || !row.managed.Archived? || row.pausedAt.None? || !ReachesPause(run, row.pausedAt) {
        return Some(Contract);
      }
      accounts := accounts[run.target := row.(managed := Active, pausedAt := None, backfillPending := false, updatedAt := now)];
    }

    /** Checks and opens account after account; the first one not reached by the run undoes them all. */
    method FinalizeCustomer(i: nat, now: int) returns (error: Option<Error>)
      requires i < |runs|
      modifies this`accounts, this`customers
      ensures error == ErrorOf(FinalizeCustomerRun(old(State()), runs[i], now))
      ensures State() == if error.Some? then old(State()) else FinalizeCustomerRun(old(State()), runs[i], now).value
    {
      var run := runs[i];
      if run.target !in customers { return Some(NotFound); }
      var c := customers[run.target];
      error := None;
      if c.status.Using? && c.pausedAt.None? { return; }
      if !c.status.Disabled? || c.pausedAt.None? || !ReachesPause(run, c.pausedAt) { return Some(Contract); }
      var reopened := accounts;
      var rest := set a | a in accounts && Eligible(accounts[a], run.target);
      ghost var eligible := rest;
      while rest != {}
        invariant rest <= eligible && accounts == old(accounts) && customers == old(customers)
        invariant reopened == map a | a in accounts :: if a in eligible && a !in rest then Unpaused(accounts[a], now) else accounts[a]
        invariant forall a :: a in eligible && a !in rest && accounts[a].pausedAt.Some? ==> ReachesPause(run, accounts[a].pausedAt)
        decreases rest
      {
        var next := LeastId(rest);
        rest := rest - {next};
        var row := reopened[next];
        if row.pausedAt.Some? && !ReachesPause(run, row.pausedAt) { return Some(NotReady); }
        reopened := reopened[next := row.(pausedAt := None, backfillPending := false, updatedAt := now)];
      }
      accounts := reopened;
      customers := customers[run.target := c.(status := Using, pausedAt := None, backfillPending := false, updatedAt := now)];
    }

    method FinalizeLocalRebuild(i: nat, now: int) returns (error: Option<Error>)
      requires i < |runs|
      modifies this`accounts, this`customers
      ensures Did(old(State()), Finalize(i, now), error, State())
    {
      var run := runs[i];
      error := None;
      if !run.status.Success? || run.kind.OtherTask? { return; }
      if Latest(runs, run.kind, run.target) != Some(i) || run.start.None? || run.end.None? { return Some(NotReady); }
      if run.kind.AccountRebuild? { error := FinalizeAccount(i, now); } else { error := FinalizeCustomer(i, now); }
    }
  }
}
