/** All runs of the queue together: scopes, the busy check, and mutual exclusion. */
module CollectionStore {
  import opened Prelude
  import opened CollectionRun
  import opened CollectionHistory
  import opened CollectionScope

  /** `accounts` is the fixed ownership of accounts by sites and customers. */
  datatype Store = Store(runs: map<int, Tracked>, accounts: map<int, AccountRef>)

  datatype StoreAction =
    | Enqueue(id: int, run: Run)
    | Advance(id: int, action: RunAction, allowed: bool)

  function Headers(s: Store): map<int, Run> {
    map id | id in s.runs :: s.runs[id].run
  }

  /** A claim also needs a resolvable scope in which no contending run is running. */
  predicate Permitted(s: Store, id: int, action: RunAction, allowed: bool)
    requires id in s.runs
  {
    allowed && (action.Claim? ==> Resolvable(s.accounts, s.runs[id].run.target) && !Busy(Headers(s), s.accounts, id))
  }

  function Apply(s: Store, a: StoreAction): Store {
    match a
    case Enqueue(id, run) => if id in s.runs then s else s.(runs := s.runs[id := Tracked(run, [])])
    case Advance(id, action, allowed) =>
      if id !in s.runs then s
      else s.(runs := s.runs[id := Step(s.runs[id], action, Permitted(s, id, action, allowed))])
  }

  function Execute(s: Store, actions: seq<StoreAction>, n: nat := |actions|): Store
    requires n <= |actions|
  {
    if n == 0 then s else Apply(Execute(s, actions, n - 1), actions[n - 1])
  }

  ghost predicate WellFormed(actions: seq<StoreAction>) {
    forall i :: 0 <= i < |actions| && actions[i].Enqueue? ==> NewRun(actions[i].run)
  }

  /** At most one run of every pair in contention is running. */
  ghost predicate Exclusive(s: Store) {
    forall a, b :: a in s.runs && b in s.runs && a != b && s.runs[a].run.status.Running? && s.runs[b].run.status.Running? ==>
      !Contend(s.accounts, s.runs[a].run, s.runs[b].run)
  }

  /** Only a claim starts a run. */
  lemma OnlyClaimsStart(t: Tracked, a: RunAction, allowed: bool)
    requires Good(t) && Step(t, a, allowed).run.status.Running? && !t.run.status.Running?
    ensures a.Claim? && allowed
  {
    match a
    case Initialise(now, rows) =>
      if InitialiseRun(t.run, now, rows).Ok? {
        NoRunningRowsWhenFresh(rows);
      }
    case _ =>
  }

  lemma {:induction false} NoRunningRowsWhenFresh(rows: seq<Window>, n: nat := |rows|)
    requires FreshRows(rows) && n <= |rows|
    ensures Count(rows, Running, n) == 0
  {
    if n > 0 { NoRunningRowsWhenFresh(rows, n - 1); }
  }

  lemma ApplyKeepsExclusion(s: Store, a: StoreAction)
    requires Exclusive(s) && (a.Enqueue? ==> NewRun(a.run)) && forall id :: id in s.runs ==> Good(s.runs[id])
    ensures Exclusive(Apply(s, a)) && forall id :: id in Apply(s, a).runs ==> Good(Apply(s, a).runs[id])
  {
    if a.Advance? && a.id in s.runs {
      var permitted := Permitted(s, a.id, a.action, a.allowed);
      var before, after := s.runs[a.id], Step(s.runs[a.id], a.action, permitted);
      StepIsGood(before, a.action, permitted);
      assert SameRun(before.run, Transition(before.run, a.action));
      if after.run.status.Running? && !before.run.status.Running? { OnlyClaimsStart(before, a.action, permitted); }
      forall b | b in s.runs && b != a.id && after.run.status.Running? && s.runs[b].run.status.Running?
        ensures !Contend(s.accounts, after.run, s.runs[b].run) && !Contend(s.accounts, s.runs[b].run, after.run)
      {
        ContentionIsSymmetric(s.accounts, after.run, s.runs[b].run);
        assert Headers(s)[b] == s.runs[b].run && Headers(s)[a.id] == before.run;
      }
    } else if a.Enqueue? && a.id !in s.runs {
      NewRunIsGood(a.run);
    }
  }

  lemma {:induction false} ExecuteKeepsExclusion(accounts: map<int, AccountRef>, actions: seq<StoreAction>, n: nat := |actions|)
    requires WellFormed(actions) && n <= |actions|
    ensures var s := Execute(Store(map[], accounts), actions, n);
            Exclusive(s) && (forall id :: id in s.runs ==> Good(s.runs[id])) && s.accounts == accounts
  {
    if n > 0 {
      ExecuteKeepsExclusion(accounts, actions, n - 1);
      ApplyKeepsExclusion(Execute(Store(map[], accounts), actions, n - 1), actions[n - 1]);
    }
  }

  /** Mutual exclusion in every reachable state: two different running runs never share a site and task
      type, nor a customer and task type across account and customer targets. */
  lemma MutualExclusion(accounts: map<int, AccountRef>, actions: seq<StoreAction>, a: int, b: int)
    requires WellFormed(actions)
    requires var s := Execute(Store(map[], accounts), actions);
             a in s.runs && b in s.runs && s.runs[a].run.status.Running? && s.runs[b].run.status.Running?
             && s.runs[a].run.task == s.runs[b].run.task
    requires var s := Execute(Store(map[], accounts), actions);
             || (s.runs[a].run.target.SiteTarget? && s.runs[b].run.target == s.runs[a].run.target)
             || (CustomerOf(accounts, s.runs[a].run.target).Some?
                 && CustomerOf(accounts, s.runs[a].run.target) == CustomerOf(accounts, s.runs[b].run.target))
    ensures a == b
  {
    ExecuteKeepsExclusion(accounts, actions);
  }

  /** The interleaving of all runs, seen from one of them, is a history of that run alone; so every
      per-run result holds for every run of the queue in every reachable state. */
  lemma {:induction false} EveryRunHasItsOwnHistory(accounts: map<int, AccountRef>, actions: seq<StoreAction>, id: int, n: nat := |actions|)
      returns (run: Run, own: seq<(RunAction, bool)>)
    requires WellFormed(actions) && n <= |actions| && id in Execute(Store(map[], accounts), actions, n).runs
    ensures NewRun(run) && Execute(Store(map[], accounts), actions, n).runs[id] == History(Tracked(run, []), own)
  {
    var before, a := Execute(Store(map[], accounts), actions, n - 1), actions[n - 1];
    if id !in before.runs {
      run, own := a.run, [];
    } else {
      run, own := EveryRunHasItsOwnHistory(accounts, actions, id, n - 1);
      if a.Advance? && a.id == id {
        var permitted := Permitted(before, id, a.action, a.allowed);
        HistoryOfPrefix(Tracked(run, []), own, [(a.action, permitted)], |own|);
        own := own + [(a.action, permitted)];
      }
    }
  }
}
