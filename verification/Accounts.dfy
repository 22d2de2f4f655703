/** Managed accounts: what one remote observation does to an account, what a whole-site snapshot does,
    and what a stream of duplicated and reordered observations adds up to. */
module Accounts {
  import opened Prelude

  datatype RemoteState = Normal | Missing | IdentityMismatch
  datatype Managed = Active | Archived

  datatype Profile = Profile(username: string, displayName: string, group: string, status: int, quota: int, usedQuota: int, requests: int)

  datatype Account = Account(
    site: int,
    customer: int,
    remoteUser: int,
    remoteCreated: int,
    state: RemoteState,
    missing: int,
    managed: Managed,
    pausedAt: Option<int>,
    backfillPending: bool,
    lastSynced: Option<int>,
    lastSeen: Option<int>,
    profile: Profile,
    updatedAt: int)

  /** The 32-bit ceiling of the absence counter. */
  const MAX_MISSING := 2147483647

  predicate Newer(a: Account, at: int) {
    a.lastSynced.None? || at > a.lastSynced.value
  }

  // -------------------------------------------------------------- one account, one observation

  function MarkMissing(a: Account, at: int, updatedAt: int): Outcome<Account> {
    if at <= 0 || updatedAt <= 0 then Fail(Contract)
    else if !Newer(a, at) then Ok(a)
    else
      var count := if a.missing < MAX_MISSING then a.missing + 1 else a.missing;
      var seen := a.(lastSynced := Some(at), updatedAt := Advance(a.updatedAt, updatedAt));
      if a.state.IdentityMismatch? then Ok(seen)
      else Ok(seen.(missing := count, state := if count >= 2 then Missing else a.state))
  }

  function MarkIdentityMismatch(a: Account, at: int, pauseAt: int, updatedAt: int): Outcome<Account> {
    if at <= 0 || pauseAt <= 0 || updatedAt <= 0 then Fail(Contract)
    else if !Newer(a, at) then Ok(a)
    else Ok(a.(state := IdentityMismatch, pausedAt := Some(Earliest(a.pausedAt, pauseAt)), lastSynced := Some(at),
               updatedAt := Advance(a.updatedAt, updatedAt)))
  }

  /** The authoritative snapshot: refused outright when it shows another identity and the account is not
      yet isolated; an isolated account is refreshed but stays isolated. */
  function ApplyRemoteSnapshot(a: Account, created: int, profile: Profile, at: int, updatedAt: int): Outcome<Account> {
    if created <= 0 || at <= 0 || updatedAt <= 0 then Fail(Contract)
    else if created != a.remoteCreated && !a.state.IdentityMismatch? then Fail(Mismatch)
    else if !Newer(a, at) then Ok(a)
    else
      var seen := a.(profile := profile, lastSeen := Some(at), lastSynced := Some(at), updatedAt := Advance(a.updatedAt, updatedAt));
      if a.state.IdentityMismatch? then Ok(seen) else Ok(seen.(state := Normal, missing := 0))
  }

  datatype Finding =
    | Absent
    | Conflicting(pauseAt: int)
    | Present(created: int, profile: Profile)

  datatype Observation = Observation(at: int, updatedAt: int, what: Finding)

  function Observe(a: Account, o: Observation): Outcome<Account> {
    match o.what
    case Absent => MarkMissing(a, o.at, o.updatedAt)
    case Conflicting(pauseAt) => MarkIdentityMismatch(a, o.at, pauseAt, o.updatedAt)
    case Present(created, profile) => ApplyRemoteSnapshot(a, created, profile, o.at, o.updatedAt)
  }

  // -------------------------------------------------------------- a whole-site snapshot

  datatype SiteUser = SiteUser(remoteUser: int, created: int, deleted: bool, profile: Profile)

  /** The snapshot loop's treatment of one account that has not yet seen an observation this new. */
  function SnapshotRow(a: Account, users: map<int, SiteUser>, at: int, pauseAt: int): Account {
    var seen := a.(lastSynced := Some(at), updatedAt := Advance(a.updatedAt, at));
    if a.remoteUser !in users || users[a.remoteUser].deleted then
      if a.state.IdentityMismatch? then seen
      else
        var count := if a.missing < MAX_MISSING then a.missing + 1 else a.missing;
        seen.(missing := count, state := if count >= 2 then Missing else a.state)
    else
      var user := users[a.remoteUser];
      if user.created != a.remoteCreated then seen.(state := IdentityMismatch, pausedAt := Some(Earliest(a.pausedAt, pauseAt)))
      else if a.state.IdentityMismatch? then seen
      else seen.(profile := user.profile, state := Normal, missing := 0, lastSeen := Some(at))
  }

  predicate Touches(a: Account, site: int, at: int) {
    a.site == site && Newer(a, at)
  }

  function SnapshotAll(accounts: map<int, Account>, site: int, users: map<int, SiteUser>, at: int, pauseAt: int): map<int, Account> {
    map id | id in accounts :: if Touches(accounts[id], site, at) then SnapshotRow(accounts[id], users, at, pauseAt) else accounts[id]
  }

  /** What the snapshot amounts to for one account, as a single observation. */
  function FindingIn(a: Account, users: map<int, SiteUser>, pauseAt: int): Finding {
    if a.remoteUser !in users || users[a.remoteUser].deleted then Absent
    else if users[a.remoteUser].created != a.remoteCreated then Conflicting(pauseAt)
    else Present(users[a.remoteUser].created, users[a.remoteUser].profile)
  }

  /** The columns both paths must agree on; the others only mirror the remote profile. */
  predicate SameLifecycle(a: Account, b: Account) {
    a.(profile := b.profile, lastSeen := b.lastSeen) == b
  }

  predicate ValidUser(u: SiteUser) { u.remoteUser > 0 && u.created > 0 }

  ghost predicate Indexed(users: map<int, SiteUser>) {
    forall id :: id in users ==> users[id].remoteUser == id && ValidUser(users[id])
  }

  /** The batch gives every account of the site exactly the result of one single-account observation at that
      time; only the mirrored profile of an isolated account that shows its old identity again is not refreshed. */
  lemma BatchRefinesSingle(accounts: map<int, Account>, site: int, users: map<int, SiteUser>, at: int, pauseAt: int, id: int)
    requires at > 0 && pauseAt > 0 && Indexed(users) && id in accounts && accounts[id].site == site
    ensures var a := accounts[id];
            var single := Observe(a, Observation(at, at, FindingIn(a, users, pauseAt)));
            var batch := SnapshotAll(accounts, site, users, at, pauseAt)[id];
            && single.Ok? && SameLifecycle(batch, single.value)
            && (!Newer(a, at) ==> batch == a)
            && (!(a.state.IdentityMismatch? && FindingIn(a, users, pauseAt).Present?) ==> batch == single.value)
            && (a.state.IdentityMismatch? && FindingIn(a, users, pauseAt).Present? ==> batch.profile == a.profile && batch.lastSeen == a.lastSeen)
  {
  }

  // -------------------------------------------------------------- streams of observations

  /** A refused observation rolls back, so the account is unchanged. */
  function Deliver(a: Account, o: Observation): Account {
    var reply := Observe(a, o);
    if reply.Ok? then reply.value else a
  }

  function Replay(a: Account, os: seq<Observation>, n: nat := |os|): Account
    requires n <= |os|
  {
    if n == 0 then a else Deliver(Replay(a, os, n - 1), os[n - 1])
  }

  predicate WellFormed(o: Observation) {
    && o.at > 0 && o.updatedAt > 0
    && (o.what.Conflicting? ==> o.what.pauseAt > 0)
    && (o.what.Present? ==> o.what.created > 0)
  }

  predicate ShowsOther(a: Account, o: Observation) {
    o.what.Present? && o.what.created != a.remoteCreated
  }

  ghost predicate Isolated(a: Account, accepted: seq<Observation>) {
    a.state.IdentityMismatch? || exists i :: 0 <= i < |accepted| && accepted[i].what.Conflicting?
  }

  /** Nothing the account has accepted so far is as recent as `at`. */
  ghost predicate Beats(a: Account, accepted: seq<Observation>, at: int) {
    Newer(a, at) && forall i :: 0 <= i < |accepted| ==> accepted[i].at < at
  }

  /** The sub-stream that counts, picked by times and identities alone. */
  ghost function Accepted(a: Account, os: seq<Observation>, n: nat := |os|): (accepted: seq<Observation>)
    requires n <= |os|
    ensures |accepted| <= n
  {
    if n == 0 then []
    else
      var before := Accepted(a, os, n - 1);
      var o := os[n - 1];
      if WellFormed(o) && Beats(a, before, o.at) && (ShowsOther(a, o) ==> Isolated(a, before)) then before + [o] else before
  }

  ghost predicate Increasing(os: seq<Observation>) {
    forall i, j :: 0 <= i < j < |os| ==> os[i].at < os[j].at
  }

  lemma {:induction false} ReplayOfPrefix(a: Account, os: seq<Observation>, more: seq<Observation>, n: nat)
    requires n <= |os|
    ensures Replay(a, os + more, n) == Replay(a, os, n)
  {
    if n > 0 { ReplayOfPrefix(a, os, more, n - 1); }
  }

  /** What one delivery does, told without the account's counters. */
  lemma DeliverEffect(r: Account, o: Observation)
    ensures var next := Deliver(r, o);
            && next.remoteCreated == r.remoteCreated
            && if WellFormed(o) && Newer(r, o.at) && (ShowsOther(r, o) ==> r.state.IdentityMismatch?)
               then next.lastSynced == Some(o.at) && (next.state.IdentityMismatch? <==> r.state.IdentityMismatch? || o.what.Conflicting?)
               else next == r
  {
  }

  /** Where the account stands after the first `n` deliveries, told from the accepted ones. */
  lemma {:induction false} StandsAt(a: Account, os: seq<Observation>, n: nat)
    requires n <= |os|
    ensures var r := Replay(a, os, n);
            var accepted := Accepted(a, os, n);
            && Increasing(accepted)
            && r == Replay(a, accepted)
            && r.remoteCreated == a.remoteCreated
            && (r.state.IdentityMismatch? <==> Isolated(a, accepted))
            && r.lastSynced == (if accepted == [] then a.lastSynced else Some(accepted[|accepted| - 1].at))
            && (accepted != [] ==> Newer(a, accepted[0].at))
  {
    hide Deliver, WellFormed;
    if n > 0 {
      StandsAt(a, os, n - 1);
      var before, o, r := Accepted(a, os, n - 1), os[n - 1], Replay(a, os, n - 1);
      assert Beats(a, before, o.at) <==> Newer(r, o.at);
      DeliverEffect(r, o);
      if WellFormed(o) && Beats(a, before, o.at) && (ShowsOther(a, o) ==> Isolated(a, before)) {
        var after := before + [o];
        assert Replay(a, after) == Deliver(Replay(a, before), o) by { ReplayOfPrefix(a, before, [o], |before|); }
        assert after[|before|].what == o.what;
        assert forall i :: 0 <= i < |before| ==> after[i] == before[i];
        assert Isolated(a, after) <==> Isolated(a, before) || o.what.Conflicting?;
      }
    }
  }

  /** Duplicates and late arrivals never matter: the account ends as if only the accepted observations,
      which come in strictly increasing time, had been delivered. */
  lemma OnlyAcceptedObservationsCount(a: Account, os: seq<Observation>)
    ensures Replay(a, os) == Replay(a, Accepted(a, os)) && Increasing(Accepted(a, os))
  {
    StandsAt(a, os, |os|);
  }

  /** Delivering an accepted observation once more, at any later point, changes nothing. */
  lemma RedeliveryIsHarmless(a: Account, os: seq<Observation>, i: nat)
    requires i < |Accepted(a, os)|
    ensures Replay(a, os + [Accepted(a, os)[i]]) == Replay(a, os)
  {
    var o := Accepted(a, os)[i];
    StandsAt(a, os, |os|);
    ReplayOfPrefix(a, os, [o], |os|);
    assert (os + [o])[|os|] == o;
  }

  /** Absences accepted after the last accepted presence, on top of `base` when there was none. */
  function AbsencesSincePresence(base: int, accepted: seq<Observation>, n: nat := |accepted|): int
    requires n <= |accepted|
  {
    if n == 0 then base
    else match accepted[n - 1].what
      case Absent => AbsencesSincePresence(base, accepted, n - 1) + 1
      case Present(_, _) => 0
      case Conflicting(_) => AbsencesSincePresence(base, accepted, n - 1)
  }

  /** The law of a not isolated account, which creation establishes. */
  predicate CountLaw(a: Account) {
    !a.state.IdentityMismatch? ==> 0 <= a.missing <= MAX_MISSING && (a.state.Missing? <==> a.missing >= 2)
  }

  /** While no identity conflict was accepted, the counter is the number of accepted absences since the last
      accepted presence, capped at 32 bits, and the account is missing exactly when it reaches two. */
  lemma MissingCountIsExact(a: Account, os: seq<Observation>)
    requires CountLaw(a) && !Replay(a, os).state.IdentityMismatch?
    ensures var r := Replay(a, os);
            && r.missing == Min(MAX_MISSING, AbsencesSincePresence(a.missing, Accepted(a, os)))
            && (r.state.Missing? <==> r.missing >= 2)
  {
    StandsAt(a, os, |os|);
    CountOfAccepted(a, os, |os|);
  }

  lemma {:induction false} CountOfAccepted(a: Account, os: seq<Observation>, n: nat)
    requires n <= |os| && CountLaw(a) && !Replay(a, os, n).state.IdentityMismatch?
    ensures var r := Replay(a, os, n);
            var absences := AbsencesSincePresence(a.missing, Accepted(a, os, n));
            && absences >= 0 && r.missing == Min(MAX_MISSING, absences) && CountLaw(r)
  {
    if n > 0 {
      StandsAt(a, os, n - 1);
      CountOfAccepted(a, os, n - 1);
      var before, o, r := Accepted(a, os, n - 1), os[n - 1], Replay(a, os, n - 1);
      AbsencesOfPrefix(a.missing, before, o, |before|);
      assert Beats(a, before, o.at) <==> Newer(r, o.at);
      hide Isolated, Beats, Increasing;
      assert Accepted(a, os, n) == before || Accepted(a, os, n) == before + [o];
      if Accepted(a, os, n) == before + [o] {
        OneMoreAbsence(a.missing, before, o);
      }
    }
  }

  lemma OneMoreAbsence(base: int, before: seq<Observation>, o: Observation)
    ensures AbsencesSincePresence(base, before + [o]) ==
              match o.what
              case Absent => AbsencesSincePresence(base, before) + 1
              case Present(_, _) => 0
              case Conflicting(_) => AbsencesSincePresence(base, before)
  {
    AbsencesOfPrefix(base, before, o, |before|);
  }

  lemma {:induction false} AbsencesOfPrefix(base: int, before: seq<Observation>, o: Observation, n: nat)
    requires n <= |before|
    ensures AbsencesSincePresence(base, before + [o], n) == AbsencesSincePresence(base, before, n)
  {
    if n > 0 { AbsencesOfPrefix(base, before, o, n - 1); }
  }
}
