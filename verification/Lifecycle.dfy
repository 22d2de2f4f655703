/** The customer and account lifecycle over one shared set of tables: archive and restore, disable and
    enable, remote observations, and the rebuild runs that decide when a paused row may reopen. */
module Lifecycle {
  import opened Prelude
  import opened Accounts
  import CollectionRun

  datatype CustomerStatus = Communicating | Signing | Using | Disabled

  datatype Customer = Customer(status: CustomerStatus, pausedAt: Option<int>, backfillPending: bool, updatedAt: int)

  datatype RunKind = AccountRebuild | CustomerRebuild | OtherTask

  /** The columns of a collection run that lifecycle decisions read; a run's id is its index. */
  datatype Rebuild = Rebuild(kind: RunKind, target: int, status: CollectionRun.Status, start: Option<int>, end: Option<int>)

  datatype World = World(customers: map<int, Customer>, accounts: map<int, Account>, runs: seq<Rebuild>)

  // -------------------------------------------------------------- authoritative runs

  predicate IsFor(run: Rebuild, kind: RunKind, target: int) {
    run.kind == kind && run.target == target
  }

  /** The run of this kind and target with the highest id. */
  function Latest(runs: seq<Rebuild>, kind: RunKind, target: int, n: nat := |runs|): (latest: Option<nat>)
    requires n <= |runs|
    ensures latest.Some? ==>
              && latest.value < n && IsFor(runs[latest.value], kind, target)
              && forall i :: latest.value < i < n ==> !IsFor(runs[i], kind, target)
    ensures latest.None? ==> forall i :: 0 <= i < n ==> !IsFor(runs[i], kind, target)
  {
    if n == 0 then None
    else if IsFor(runs[n - 1], kind, target) then Some(n - 1)
    else Latest(runs, kind, target, n - 1)
  }

  /** The test of the explicit completions: from the pause instant to the hour of completion. */
  predicate Covers(run: Rebuild, pausedAt: Option<int>, completedAt: int) {
    && pausedAt.Some? && run.start.Some? && run.end.Some?
    && run.start.value <= pausedAt.value
    && run.end.value >= if FloorHour(completedAt) <= pausedAt.value then pausedAt.value + 1 else FloorHour(completedAt)
  }

  /** The weaker test of the automatic completion, which never looks at the completion time. */
  predicate ReachesPause(run: Rebuild, pausedAt: Option<int>) {
    && pausedAt.Some? && run.start.Some? && run.end.Some?
    && run.start.value <= pausedAt.value <= run.end.value
  }

  /** The rebuilt range holds the pause instant and every hour start from the pause up to the completion hour. */
  ghost predicate NoGap(run: Rebuild, pause: int, completedAt: int) {
    && run.start.Some? && run.end.Some?
    && run.start.value <= pause < run.end.value
    && forall hour :: hour % 3600 == 0 && pause <= hour < FloorHour(completedAt) ==> run.start.value <= hour < run.end.value
  }

  // -------------------------------------------------------------- account lifecycle

  function ArchiveAccount(a: Account, pausedAt: int, updatedAt: int): Account {
    a.(managed := Archived, pausedAt := Some(Earliest(a.pausedAt, pausedAt)), backfillPending := false,
       updatedAt := Advance(a.updatedAt, updatedAt))
  }

  /** What stands in the way of restoring an account, checked in this order. */
  function RestoreError(c: Customer, a: Account): Option<Error> {
    if c.status.Disabled? then Some(Error.Disabled)
    else if a.state.IdentityMismatch? then Some(Mismatch)
    else if !a.managed.Archived? || a.pausedAt.None? then Some(Contract)
    else None
  }

  function BeginAccountRestore(c: Customer, a: Account, updatedAt: int): Outcome<Account> {
    var error := RestoreError(c, a);
    if error.Some? then Fail(error.value)
    else Ok(a.(backfillPending := true, updatedAt := Advance(a.updatedAt, updatedAt)))
  }

  function Reopened(a: Account, updatedAt: int): Account {
    a.(managed := Active, pausedAt := None, backfillPending := false, updatedAt := updatedAt)
  }

  function CompleteAccountRestore(c: Customer, a: Account, runs: seq<Rebuild>, id: int, updatedAt: int): Outcome<Account> {
    var error := RestoreError(c, a);
    var completedAt := Advance(a.updatedAt, updatedAt);
    var latest := Latest(runs, AccountRebuild, id);
    if error.Some? then Fail(error.value)
    else if latest.None? || !runs[latest.value].status.Success? || !Covers(runs[latest.value], a.pausedAt, completedAt) then Fail(NotReady)
    else Ok(Reopened(a, completedAt))
  }

  // -------------------------------------------------------------- customer lifecycle

  function PauseWithCustomer(a: Account, pause: int, updatedAt: int): Account {
    a.(pausedAt := Some(Earliest(a.pausedAt, pause)), updatedAt := Advance(a.updatedAt, updatedAt))
  }

  function DisableCustomer(w: World, id: int, pausedAt: int, updatedAt: int): Outcome<World> {
    if pausedAt <= 0 || updatedAt <= 0 then Fail(Contract)
    else if id !in w.customers then Fail(NotFound)
    else
      var c := w.customers[id];
      var done := Advance(c.updatedAt, updatedAt);
      var pause := Earliest(c.pausedAt, pausedAt);
      Ok(w.(customers := w.customers[id := c.(status := CustomerStatus.Disabled, pausedAt := Some(pause), backfillPending := false, updatedAt := done)],
            accounts := map a | a in w.accounts ::
              if w.accounts[a].customer == id && w.accounts[a].managed.Active? then PauseWithCustomer(w.accounts[a], pause, done) else w.accounts[a]))
  }

  function BeginCustomerEnable(c: Customer, updatedAt: int): Outcome<Customer> {
    if !c.status.Disabled? || c.pausedAt.None? then Fail(Contract)
    else Ok(c.(backfillPending := true, updatedAt := Advance(c.updatedAt, updatedAt)))
  }

  /** The accounts an enable reopens: archived and isolated ones stay as they are. */
  predicate Eligible(a: Account, customer: int) {
    a.customer == customer && a.managed.Active? && !a.state.IdentityMismatch?
  }

  /** Of the customer's run and the account's own newer run, the one with the higher id. */
  function Authoritative(runs: seq<Rebuild>, customerRun: nat, account: int): (run: nat)
    requires customerRun < |runs|
    ensures run < |runs|
  {
    var own := Latest(runs, AccountRebuild, account);
    if own.Some? && own.value > customerRun then own.value else customerRun
  }

  predicate AccountReady(runs: seq<Rebuild>, customerRun: nat, id: int, a: Account, completedAt: int)
    requires customerRun < |runs|
  {
    var run := runs[Authoritative(runs, customerRun, id)];
    run.status.Success? && (a.pausedAt.Some? ==> Covers(run, a.pausedAt, completedAt))
  }

  predicate CustomerReady(runs: seq<Rebuild>, id: int, c: Customer, completedAt: int) {
    var latest := Latest(runs, CustomerRebuild, id);
    latest.Some? && runs[latest.value].status.Success? && Covers(runs[latest.value], c.pausedAt, completedAt)
  }

  function Opened(c: Customer, updatedAt: int): Customer {
    c.(status := Using, pausedAt := None, backfillPending := false, updatedAt := updatedAt)
  }

  function Unpaused(a: Account, updatedAt: int): Account {
    a.(pausedAt := None, backfillPending := false, updatedAt := updatedAt)
  }

  function CompleteCustomerEnable(w: World, id: int, updatedAt: int): Outcome<World> {
    if updatedAt <= 0 then Fail(Contract)
    else if id !in w.customers then Fail(NotFound)
    else
      var c := w.customers[id];
      var done := Advance(c.updatedAt, updatedAt);
      if !c.status.Disabled? || c.pausedAt.None? then Fail(Contract)
      else if !CustomerReady(w.runs, id, c, done) then Fail(NotReady)
      else
        var run := Latest(w.runs, CustomerRebuild, id).value;
        if exists a :: a in w.accounts && Eligible(w.accounts[a], id) && !AccountReady(w.runs, run, a, w.accounts[a], done) then Fail(NotReady)
        else
          Ok(w.(customers := w.customers[id := Opened(c, done)],
                accounts := map a | a in w.accounts ::
                  if Eligible(w.accounts[a], id) then Unpaused(w.accounts[a], Advance(w.accounts[a].updatedAt, done)) else w.accounts[a]))
  }

  // -------------------------------------------------------------- automatic completion

  function FinalizeAccountRun(w: World, run: Rebuild, now: int): Outcome<World> {
    if run.target !in w.accounts then Fail(NotFound)
    else
      var a := w.accounts[run.target];
      if a.managed.Active? && a.pausedAt.None? then Ok(w)
      else if a.customer !in w.customers then Fail(NotFound)
      else if w.customers[a.customer].status.Disabled? then Fail(Error.Disabled)
      else if a.state.IdentityMismatch? || !a.managed.Archived? || !ReachesPause(run, a.pausedAt) then Fail(Contract)
      else Ok(w.(accounts := w.accounts[run.target := Reopened(a, now)]))
  }

  function FinalizeCustomerRun(w: World, run: Rebuild, now: int): Outcome<World> {
    if run.target !in w.customers then Fail(NotFound)
    else
      var c := w.customers[run.target];
      if c.status.Using? && c.pausedAt.None? then Ok(w)
      else if !c.status.Disabled? || !ReachesPause(run, c.pausedAt) then Fail(Contract)
      else if exists a :: a in w.accounts && Eligible(w.accounts[a], run.target) && w.accounts[a].pausedAt.Some? && !ReachesPause(run, w.accounts[a].pausedAt) then Fail(NotReady)
      else
        Ok(w.(customers := w.customers[run.target := Opened(c, now)],
              accounts := map a | a in w.accounts :: if Eligible(w.accounts[a], run.target) then Unpaused(w.accounts[a], now) else w.accounts[a]))
  }

  /** Runs inside the transaction that completes rebuild run `i`. */
  function FinalizeRun(w: World, i: nat, now: int): Outcome<World>
    requires i < |w.runs|
  {
    var run := w.runs[i];
    if !run.status.Success? || run.kind.OtherTask? then Ok(w)
    else if Latest(w.runs, run.kind, run.target) != Some(i) || run.start.None? || run.end.None? then Fail(NotReady)
    else if run.kind.AccountRebuild? then FinalizeAccountRun(w, run, now)
    else FinalizeCustomerRun(w, run, now)
  }

  // -------------------------------------------------------------- steps and histories

  datatype Step =
    | CreateCustomer(id: int, status: CustomerStatus, now: int)
    | ChangeStatus(id: int, status: CustomerStatus, now: int)
    | CreateAccount(id: int, site: int, customer: int, remoteUser: int, created: int, profile: Profile, now: int)
    | ObserveOne(id: int, observation: Observation)
    | ObserveSite(site: int, users: map<int, SiteUser>, at: int, pauseAt: int)
    | Archive(id: int, pausedAt: int, updatedAt: int)
    | BeginRestore(id: int, updatedAt: int)
    | CompleteRestore(id: int, updatedAt: int)
    | Disable(id: int, pausedAt: int, updatedAt: int)
    | BeginEnable(id: int, updatedAt: int)
    | CompleteEnable(id: int, updatedAt: int)
    | MoveRun(run: nat, row: Rebuild)   // whatever the collection queue does to a run row
    | Finalize(run: nat, now: int)

  function FreshAccount(site: int, customer: int, remoteUser: int, created: int, profile: Profile, now: int): Account {
    Account(site, customer, remoteUser, created, Normal, 0, Active, None, true, Some(now), Some(now), profile, now)
  }

  function SetAccount(w: World, id: int, reply: Outcome<Account>): Outcome<World> {
    if reply.Fail? then Fail(reply.error) else Ok(w.(accounts := w.accounts[id := reply.value]))
  }

  function Perform(w: World, s: Step): Outcome<World> {
    match s
    case CreateCustomer(id, status, now) =>
      if id in w.customers || status.Disabled? then Fail(Contract)
      else Ok(w.(customers := w.customers[id := Customer(status, None, false, now)]))
    case ChangeStatus(id, status, now) =>
      if id !in w.customers then Fail(NotFound)
      else if status.Disabled? || w.customers[id].status.Disabled? then Fail(Contract)
      else Ok(w.(customers := w.customers[id := w.customers[id].(status := status, updatedAt := now)]))
    case CreateAccount(id, site, customer, remoteUser, created, profile, now) =>
      if customer !in w.customers then Fail(NotFound)
      else if !w.customers[customer].status.Using? || id in w.accounts then Fail(Contract)
      else if exists other :: other in w.accounts && w.accounts[other].site == site && w.accounts[other].remoteUser == remoteUser then Fail(Contract)
      else Ok(w.(accounts := w.accounts[id := FreshAccount(site, customer, remoteUser, created, profile, now)]))
    case ObserveOne(id, o) =>
      if !WellFormed(o) then Fail(Contract)
      else if id !in w.accounts then Fail(NotFound)
      else SetAccount(w, id, Observe(w.accounts[id], o))
    case ObserveSite(site, users, at, pauseAt) =>
      if at <= 0 || pauseAt <= 0 then Fail(Contract)
      else Ok(w.(accounts := SnapshotAll(w.accounts, site, users, at, pauseAt)))
    case Archive(id, pausedAt, updatedAt) =>
      if pausedAt <= 0 || updatedAt <= 0 then Fail(Contract)
      else if id !in w.accounts then Fail(NotFound)
      else Ok(w.(accounts := w.accounts[id := ArchiveAccount(w.accounts[id], pausedAt, updatedAt)]))
    case BeginRestore(id, updatedAt) =>
      if updatedAt <= 0 then Fail(Contract)
      else if id !in w.accounts || w.accounts[id].customer !in w.customers then Fail(NotFound)
      else SetAccount(w, id, BeginAccountRestore(w.customers[w.accounts[id].customer], w.accounts[id], updatedAt))
    case CompleteRestore(id, updatedAt) =>
      if updatedAt <= 0 then Fail(Contract)
      else if id !in w.accounts || w.accounts[id].customer !in w.customers then Fail(NotFound)
      else SetAccount(w, id, CompleteAccountRestore(w.customers[w.accounts[id].customer], w.accounts[id], w.runs, id, updatedAt))
    case Disable(id, pausedAt, updatedAt) => DisableCustomer(w, id, pausedAt, updatedAt)
    case BeginEnable(id, updatedAt) =>
      if updatedAt <= 0 then Fail(Contract)
      else if id !in w.customers then Fail(NotFound)
      else
        var reply := BeginCustomerEnable(w.customers[id], updatedAt);
        if reply.Fail? then Fail(reply.error) else Ok(w.(customers := w.customers[id := reply.value]))
    case CompleteEnable(id, updatedAt) => CompleteCustomerEnable(w, id, updatedAt)
    case MoveRun(run, row) =>
      if run < |w.runs| then Ok(w.(runs := w.runs[run := row]))
      else if run == |w.runs| then Ok(w.(runs := w.runs + [row]))
      else Fail(NotFound)
    case Finalize(run, now) =>
      if run < |w.runs| then FinalizeRun(w, run, now) else Fail(NotFound)
  }

  /** A failing transaction rolls back. */
  function After(w: World, s: Step): World {
    var reply := Perform(w, s);
    if reply.Ok? then reply.value else w
  }

  function Run(w: World, steps: seq<Step>, n: nat := |steps|): World
    requires n <= |steps|
  {
    if n == 0 then w else After(Run(w, steps, n - 1), steps[n - 1])
  }

  const Empty := World(map[], map[], [])

  // -------------------------------------------------------------- pause invariants

  /** Archived and isolated accounts are paused; a disabled customer holds all its active accounts paused,
      none of them later than itself. */
  predicate AccountLaw(w: World, id: int)
    requires id in w.accounts
  {
    var a := w.accounts[id];
    && CountLaw(a)
    && (a.managed.Archived? || a.state.IdentityMismatch? ==> a.pausedAt.Some?)
    && a.customer in w.customers
    && var c := w.customers[a.customer];
      (c.status.Disabled? && c.pausedAt.Some? && a.managed.Active? ==> a.pausedAt.Some? && a.pausedAt.value <= c.pausedAt.value)
  }

  ghost predicate PauseLaw(w: World) {
    && (forall id :: id in w.customers ==> (w.customers[id].status.Disabled? <==> w.customers[id].pausedAt.Some?))
    && (forall id :: id in w.accounts ==> AccountLaw(w, id))
  }

  predicate PausedNoLater(before: Option<int>, after: Option<int>) {
    before.Some? ==> after.Some? && after.value <= before.value
  }

  /** An account never changes owner or identity, and isolation is permanent with a pause that only moves earlier. */
  predicate SameBinding(a: Account, b: Account) {
    && a.site == b.site && a.customer == b.customer && a.remoteUser == b.remoteUser && a.remoteCreated == b.remoteCreated
    && (a.state.IdentityMismatch? ==> b.state.IdentityMismatch? && PausedNoLater(a.pausedAt, b.pausedAt))
  }

  predicate Reopens(s: Step) { s.CompleteRestore? || s.CompleteEnable? || s.Finalize? }

  /** What one step may do to an account already there: only a completion may clear its pause, and nothing postpones it. */
  predicate AccountMove(s: Step, a: Account, b: Account) {
    && SameBinding(a, b)
    && (b.pausedAt.Some? || !Reopens(s) ==> PausedNoLater(a.pausedAt, b.pausedAt))
  }

  predicate CustomerMove(s: Step, c: Customer, d: Customer) {
    d.pausedAt.Some? || !Reopens(s) ==> PausedNoLater(c.pausedAt, d.pausedAt)
  }

  ghost predicate StepLaw(w: World, s: Step, next: World) {
    && w.customers.Keys <= next.customers.Keys && w.accounts.Keys <= next.accounts.Keys
    && (forall id :: id in w.accounts ==> AccountMove(s, w.accounts[id], next.accounts[id]))
    && (forall id :: id in w.customers ==> CustomerMove(s, w.customers[id], next.customers[id]))
  }

  lemma StepMovesCustomer(w: World, s: Step, id: int)
    requires PauseLaw(w) && id in After(w, s).customers
    ensures var next := After(w, s);
            && (next.customers[id].status.Disabled? <==> next.customers[id].pausedAt.Some?)
            && (id in w.customers ==> CustomerMove(s, w.customers[id], next.customers[id]))
  {
  }

  /** An observation keeps ownership, lifecycle status and an earlier pause; what it isolates it pauses. */
  predicate Observed(a: Account, b: Account) {
    && SameBinding(a, b) && b.managed == a.managed
    && PausedNoLater(a.pausedAt, b.pausedAt)
    && (CountLaw(a) ==> CountLaw(b))
    && (b.state.IdentityMismatch? ==> a.state.IdentityMismatch? || b.pausedAt.Some?)
  }

  lemma ObservationsOnlyPauseEarlier(a: Account, o: Observation, users: map<int, SiteUser>, at: int, pauseAt: int)
    ensures Observed(a, Deliver(a, o)) && Observed(a, SnapshotRow(a, users, at, pauseAt))
  {
  }

  /** The conclusion for one account after one step. */
  ghost predicate AccountKept(w: World, s: Step, id: int) {
    var next := After(w, s);
    id in next.accounts ==>
      AccountLaw(next, id) && (id in w.accounts ==> AccountMove(s, w.accounts[id], next.accounts[id]))
  }

  lemma CustomerStepsKeepAccounts(w: World, s: Step, id: int)
    requires PauseLaw(w) && (s.Disable? || s.CompleteEnable?)
    ensures AccountKept(w, s, id)
  {
    hide CountLaw, Covers, Latest;
    if id in w.accounts {
      assert AccountLaw(w, id);
      assert id in After(w, s).accounts ==> CountLaw(After(w, s).accounts[id]) by { CountLawReadsCounters(w.accounts[id], After(w, s).accounts[id]); }
    }
  }

  lemma FinalizeKeepsAccounts(w: World, s: Step, id: int)
    requires PauseLaw(w) && s.Finalize?
    ensures AccountKept(w, s, id)
  {
    hide CountLaw, Covers, ReachesPause, Latest;
    if id in w.accounts {
      assert AccountLaw(w, id);
      assert id in After(w, s).accounts ==> CountLaw(After(w, s).accounts[id]) by { CountLawReadsCounters(w.accounts[id], After(w, s).accounts[id]); }
    }
  }

  lemma CountLawReadsCounters(a: Account, b: Account)
    requires a.state == b.state && a.missing == b.missing
    ensures CountLaw(a) == CountLaw(b)
  {
  }

  lemma ObservationStepsKeepAccounts(w: World, s: Step, id: int)
    requires PauseLaw(w) && (s.ObserveOne? || s.ObserveSite?)
    ensures AccountKept(w, s, id)
  {
    if id in w.accounts {
      if s.ObserveOne? {
        ObservationsOnlyPauseEarlier(w.accounts[id], s.observation, map[], 1, 1);
      } else {
        ObservationsOnlyPauseEarlier(w.accounts[id], Observation(1, 1, Absent), s.users, s.at, s.pauseAt);
      }
    }
    hide Observe, SnapshotRow, CountLaw;
  }

  lemma AccountStepsKeepAccounts(w: World, s: Step, id: int)
    requires PauseLaw(w) && !(s.Disable? || s.CompleteEnable? || s.Finalize? || s.ObserveOne? || s.ObserveSite?)
    ensures AccountKept(w, s, id)
  {
    hide Covers, Latest;
  }

  lemma StepKeepsPauseLaw(w: World, s: Step)
    requires PauseLaw(w)
    ensures PauseLaw(After(w, s)) && StepLaw(w, s, After(w, s))
  {
    var next := After(w, s);
    assert w.customers.Keys <= next.customers.Keys && w.accounts.Keys <= next.accounts.Keys;
    hide After, AccountLaw, AccountMove, CustomerMove;
    forall id | id in next.customers
      ensures next.customers[id].status.Disabled? <==> next.customers[id].pausedAt.Some?
      ensures id in w.customers ==> CustomerMove(s, w.customers[id], next.customers[id])
    {
      StepMovesCustomer(w, s, id);
    }
    forall id | id in next.accounts
      ensures AccountLaw(next, id)
      ensures id in w.accounts ==> AccountMove(s, w.accounts[id], next.accounts[id])
    {
      if s.Disable? || s.CompleteEnable? {
        CustomerStepsKeepAccounts(w, s, id);
      } else if s.Finalize? {
        FinalizeKeepsAccounts(w, s, id);
      } else if s.ObserveOne? || s.ObserveSite? {
        ObservationStepsKeepAccounts(w, s, id);
      } else {
        AccountStepsKeepAccounts(w, s, id);
      }
    }
  }

  /** Over any history of transactions, committed or refused, in any order. */
  lemma {:induction false} HistoryKeepsPauseLaw(w: World, steps: seq<Step>, n: nat)
    requires PauseLaw(w) && n <= |steps|
    ensures PauseLaw(Run(w, steps, n))
  {
    hide PauseLaw, After;
    if n > 0 {
      HistoryKeepsPauseLaw(w, steps, n - 1);
      StepKeepsPauseLaw(Run(w, steps, n - 1), steps[n - 1]);
    }
  }

  /** Ownership is fixed and isolation permanent: between any two moments of a history the binding is the same,
      and an isolated account is still isolated, with a pause that was never cleared and only moved earlier. */
  lemma {:induction false} IsolationIsForever(w: World, steps: seq<Step>, i: nat, j: nat, id: int)
    requires PauseLaw(w) && i <= j <= |steps| && id in Run(w, steps, i).accounts
    ensures id in Run(w, steps, j).accounts
    ensures var a, b := Run(w, steps, i).accounts[id], Run(w, steps, j).accounts[id];
            SameBinding(a, b) && (a.state.IdentityMismatch? ==> a.pausedAt.Some? && b.state.IdentityMismatch? && b.pausedAt.Some?)
    decreases j
  {
    HistoryKeepsPauseLaw(w, steps, i);
    assert AccountLaw(Run(w, steps, i), id);
    if i < j {
      IsolationIsForever(w, steps, i, j - 1, id);
      HistoryKeepsPauseLaw(w, steps, j - 1);
      var before := Run(w, steps, j - 1);
      StepKeepsPauseLaw(before, steps[j - 1]);
      hide PauseLaw, After, Run, AccountLaw;
      assert AccountMove(steps[j - 1], before.accounts[id], After(before, steps[j - 1]).accounts[id]);
      assert Run(w, steps, j) == After(before, steps[j - 1]) by { LastStep(w, steps, j); }
    }
  }

  lemma LastStep(w: World, steps: seq<Step>, n: nat)
    requires 0 < n <= |steps|
    ensures Run(w, steps, n) == After(Run(w, steps, n - 1), steps[n - 1])
  {
  }

  /** A pause ends only through a completion: between two moments with none in between it stays, no later. */
  lemma {:induction false} PauseOutlivesEverythingElse(w: World, steps: seq<Step>, i: nat, j: nat, id: int)
    requires PauseLaw(w) && i <= j <= |steps| && id in Run(w, steps, i).accounts
    requires forall k :: i <= k < j ==> !Reopens(steps[k])
    ensures id in Run(w, steps, j).accounts
    ensures PausedNoLater(Run(w, steps, i).accounts[id].pausedAt, Run(w, steps, j).accounts[id].pausedAt)
    decreases j
  {
    if i < j {
      PauseOutlivesEverythingElse(w, steps, i, j - 1, id);
      HistoryKeepsPauseLaw(w, steps, j - 1);
      StepKeepsPauseLaw(Run(w, steps, j - 1), steps[j - 1]);
      hide PauseLaw, After, Run;
      LastStep(w, steps, j);
      assert AccountMove(steps[j - 1], Run(w, steps, j - 1).accounts[id], Run(w, steps, j).accounts[id]);
    }
  }

  // -------------------------------------------------------------- what the accepted steps achieve

  /** The earlier of an existing pause and a new one. */
  predicate EarlierOf(result: Option<int>, existing: Option<int>, at: int) {
    result.Some? && result.value <= at && PausedNoLater(existing, result) && (result.value == at || result == existing)
  }

  /** Closing steps take effect at once, opening ones only record the intent; nothing else in the tables moves. */
  lemma AcceptedStepsAchieve(w: World, s: Step)
    requires Perform(w, s).Ok?
    ensures var next := After(w, s);
            && (s.Archive? ==>
                  var a, b := w.accounts[s.id], next.accounts[s.id];
                  b.managed.Archived? && !b.backfillPending && b.updatedAt > a.updatedAt && EarlierOf(b.pausedAt, a.pausedAt, s.pausedAt))
            && (s.BeginRestore? ==>
                  var a, b := w.accounts[s.id], next.accounts[s.id];
                  b.managed.Archived? && b.pausedAt == a.pausedAt && b.backfillPending && b.updatedAt > a.updatedAt)
            && (s.CompleteRestore? ==>
                  var b := next.accounts[s.id]; b.managed.Active? && b.pausedAt.None? && !b.backfillPending)
            && (s.Archive? || s.BeginRestore? || s.CompleteRestore? ==>
                  next == w.(accounts := next.accounts) && next.accounts.Keys == w.accounts.Keys
                  && forall id :: id in w.accounts && id != s.id ==> next.accounts[id] == w.accounts[id])
            && (s.BeginEnable? ==>
                  var c, d := w.customers[s.id], next.customers[s.id];
                  d.status.Disabled? && d.pausedAt == c.pausedAt && d.backfillPending && next == w.(customers := next.customers))
  {
  }

  /** A disable closes the customer and pauses each of its active accounts no later, without archiving any; the
      customer's archived accounts and everybody else's stay as they are. */
  lemma DisableReachesEveryActiveAccount(w: World, s: Step, id: int)
    requires s.Disable? && Perform(w, s).Ok? && id in w.accounts
    ensures var c, d := w.customers[s.id], After(w, s).customers[s.id];
            d.status.Disabled? && !d.backfillPending && EarlierOf(d.pausedAt, c.pausedAt, s.pausedAt)
    ensures var a, b, pause := w.accounts[id], After(w, s).accounts[id], After(w, s).customers[s.id].pausedAt.value;
            if a.customer == s.id && a.managed.Active?
            then b.managed.Active? && EarlierOf(b.pausedAt, a.pausedAt, pause) && b.updatedAt > a.updatedAt && b.state == a.state
            else b == a
  {
  }

  // -------------------------------------------------------------- reopening leaves no gap

  /** The completion test is the no-gap condition: it implies it, and for whole-hour ranges it is exactly it. */
  lemma CoveringMeansNoGap(run: Rebuild, pause: int, completedAt: int)
    ensures Covers(run, Some(pause), completedAt) ==> NoGap(run, pause, completedAt)
    ensures run.end.Some? && run.end.value % 3600 == 0 ==> (Covers(run, Some(pause), completedAt) <==> NoGap(run, pause, completedAt))
  {
  }

  /** The runs a completion chooses from: the account's own rebuilds and, for an enable, the customer's. */
  predicate Relevant(s: Step, id: int, run: Rebuild) {
    IsFor(run, AccountRebuild, id) || (s.CompleteEnable? && IsFor(run, CustomerRebuild, s.id))
  }

  ghost predicate DecidedBy(w: World, s: Step, id: int, i: nat) {
    i < |w.runs| && Relevant(s, id, w.runs[i]) && forall k :: i < k < |w.runs| ==> !Relevant(s, id, w.runs[k])
  }

  /** When an explicit completion clears an account's pause, the relevant run with the highest id succeeded and
      covers the pause instant and every hour start up to the completion. */
  lemma ReopenedAccountHasNoGap(w: World, s: Step, id: int) returns (i: nat)
    requires PauseLaw(w) && (s.CompleteRestore? || s.CompleteEnable?)
    requires id in w.accounts && w.accounts[id].pausedAt.Some? && After(w, s).accounts[id].pausedAt.None?
    ensures DecidedBy(w, s, id, i) && w.runs[i].status.Success?
    ensures var completedAt := if s.CompleteRestore? then After(w, s).accounts[id].updatedAt else After(w, s).customers[s.id].updatedAt;
            completedAt >= s.updatedAt && NoGap(w.runs[i], w.accounts[id].pausedAt.value, completedAt)
  {
    var a := w.accounts[id];
    if s.CompleteRestore? {
      i := Latest(w.runs, AccountRebuild, id).value;
      CoveringMeansNoGap(w.runs[i], a.pausedAt.value, After(w, s).accounts[id].updatedAt);
    } else {
      var run := Latest(w.runs, CustomerRebuild, s.id).value;
      var done := Advance(w.customers[s.id].updatedAt, s.updatedAt);
      i := Authoritative(w.runs, run, id);
      assert AccountReady(w.runs, run, id, a, done);
      CoveringMeansNoGap(w.runs[i], a.pausedAt.value, done);
    }
  }

  /** Rebuild runs are created over whole hours. */
  ghost predicate WholeHours(runs: seq<Rebuild>) {
    forall i :: 0 <= i < |runs| && runs[i].end.Some? ==> runs[i].end.value % 3600 == 0
  }

  /** The deciding run succeeded and leaves no gap after the pause, if there is one. */
  ghost predicate Ready(w: World, s: Step, id: int, pausedAt: Option<int>, completedAt: int) {
    exists i: nat :: DecidedBy(w, s, id, i) && w.runs[i].status.Success? && (pausedAt.Some? ==> NoGap(w.runs[i], pausedAt.value, completedAt))
  }

  /** A restore commits exactly when the account is archived, not isolated, its customer is open, and the run with
      the highest id succeeded without leaving a gap. */
  lemma RestoreCommitsExactlyWhen(w: World, s: Step)
    requires PauseLaw(w) && WholeHours(w.runs) && s.CompleteRestore? && s.updatedAt > 0 && s.id in w.accounts
    ensures var a := w.accounts[s.id];
            Perform(w, s).Ok? <==>
              && a.managed.Archived? && !a.state.IdentityMismatch? && !w.customers[a.customer].status.Disabled?
              && Ready(w, s, s.id, a.pausedAt, Advance(a.updatedAt, s.updatedAt))
  {
  }

  lemma AccountReadyExactly(w: World, s: Step, run: nat, id: int, completedAt: int)
    requires s.CompleteEnable? && Latest(w.runs, CustomerRebuild, s.id) == Some(run) && WholeHours(w.runs) && id in w.accounts
    ensures AccountReady(w.runs, run, id, w.accounts[id], completedAt) <==> Ready(w, s, id, w.accounts[id].pausedAt, completedAt)
  {
  }

  /** An enable commits exactly when the customer is disabled, its own latest rebuild succeeded without a gap, and so
      did, for every account it would reopen, the deciding run; one account that is not ready keeps all of them closed. */
  lemma EnableCommitsExactlyWhen(w: World, s: Step)
    requires PauseLaw(w) && WholeHours(w.runs) && s.CompleteEnable? && s.updatedAt > 0 && s.id in w.customers
    ensures var c := w.customers[s.id];
            var done := Advance(c.updatedAt, s.updatedAt);
            var latest := Latest(w.runs, CustomerRebuild, s.id);
            Perform(w, s).Ok? <==>
              && c.status.Disabled?
              && latest.Some? && w.runs[latest.value].status.Success? && NoGap(w.runs[latest.value], c.pausedAt.value, done)
              && forall id :: id in w.accounts && Eligible(w.accounts[id], s.id) ==> Ready(w, s, id, w.accounts[id].pausedAt, done)
  {
    hide Ready, NoGap, AccountReady, Covers;
    var c := w.customers[s.id];
    var done := Advance(c.updatedAt, s.updatedAt);
    var latest := Latest(w.runs, CustomerRebuild, s.id);
    if latest.Some? && c.status.Disabled? {
      CoveringMeansNoGap(w.runs[latest.value], c.pausedAt.value, done);
      CoversNeedsAnEnd(w.runs[latest.value], c.pausedAt, done);
      forall id | id in w.accounts && Eligible(w.accounts[id], s.id)
        ensures AccountReady(w.runs, latest.value, id, w.accounts[id], done) <==> Ready(w, s, id, w.accounts[id].pausedAt, done)
      {
        AccountReadyExactly(w, s, latest.value, id, done);
      }
    }
  }

  lemma CoversNeedsAnEnd(run: Rebuild, pausedAt: Option<int>, completedAt: int)
    ensures Covers(run, pausedAt, completedAt) ==> run.end.Some?
    ensures pausedAt.Some? && NoGap(run, pausedAt.value, completedAt) ==> run.end.Some?
  {
  }

  /** Likewise for the customer itself, whose own rebuild decides; and every account an enable reopens rests on a success. */
  lemma EnabledCustomerHasNoGap(w: World, s: Step) returns (i: nat)
    requires PauseLaw(w) && s.CompleteEnable? && Perform(w, s).Ok?
    ensures Latest(w.runs, CustomerRebuild, s.id) == Some(i) && w.runs[i].status.Success?
    ensures s.id in w.customers && w.customers[s.id].pausedAt.Some? && After(w, s).customers[s.id].status.Using?
    ensures NoGap(w.runs[i], w.customers[s.id].pausedAt.value, After(w, s).customers[s.id].updatedAt)
    ensures forall id :: id in w.accounts && Eligible(w.accounts[id], s.id) ==>
              After(w, s).accounts[id].pausedAt.None? && w.runs[Authoritative(w.runs, i, id)].status.Success?
    ensures forall id :: id in w.accounts && !Eligible(w.accounts[id], s.id) ==> After(w, s).accounts[id] == w.accounts[id]
  {
    i := Latest(w.runs, CustomerRebuild, s.id).value;
    var done := Advance(w.customers[s.id].updatedAt, s.updatedAt);
    CoveringMeansNoGap(w.runs[i], w.customers[s.id].pausedAt.value, done);
    forall id | id in w.accounts && Eligible(w.accounts[id], s.id) ensures AccountReady(w.runs, i, id, w.accounts[id], done) {}
  }

  /** The automatic completion also needs the highest id and a success, but only a range that reaches the pause:
      it leaves no gap exactly when the range goes beyond the pause and up to the hour of completion. */
  lemma AutomaticReopeningExactly(w: World, s: Step, id: int)
    requires PauseLaw(w) && s.Finalize? && id in w.accounts && w.accounts[id].pausedAt.Some? && After(w, s).accounts[id].pausedAt.None?
    ensures s.run < |w.runs| && w.runs[s.run].status.Success? && w.runs[s.run].start.Some? && w.runs[s.run].end.Some?
    ensures var run := w.runs[s.run];
            && Latest(w.runs, run.kind, run.target) == Some(s.run)
            && run.start.value <= w.accounts[id].pausedAt.value <= run.end.value
            && (run.end.value % 3600 == 0 ==>
                  (NoGap(run, w.accounts[id].pausedAt.value, s.now) <==>
                     w.accounts[id].pausedAt.value < run.end.value && FloorHour(s.now) <= run.end.value))
  {
    CoveringMeansNoGap(w.runs[s.run], w.accounts[id].pausedAt.value, s.now);
  }

  const SomeProfile := Profile("user", "User", "default", 1, 0, 0, 0)
  const FirstBackfill := Rebuild(AccountRebuild, 5, CollectionRun.Pending, Some(7200), Some(36000))
  const ArchivedMidBackfill: seq<Step> := [
    CreateCustomer(1, Using, 7200),
    CreateAccount(5, 1, 1, 7, 7200, SomeProfile, 37800),
    MoveRun(0, FirstBackfill),
    Archive(5, 36000, 38700),
    MoveRun(0, FirstBackfill.(status := CollectionRun.Success)),
    Finalize(0, 72000)]

  lemma ArchivedAndPaused()
    ensures var w := Run(Empty, ArchivedMidBackfill, 4);
            && w.runs == [FirstBackfill] && 5 in w.accounts && w.accounts[5].customer == 1
            && w.accounts[5].managed.Archived? && w.accounts[5].pausedAt == Some(36000) && w.accounts[5].state.Normal?
            && 1 in w.customers && w.customers[1].status.Using?
  {
    forall n | 0 < n <= 4 ensures Run(Empty, ArchivedMidBackfill, n) == After(Run(Empty, ArchivedMidBackfill, n - 1), ArchivedMidBackfill[n - 1]) {
      LastStep(Empty, ArchivedMidBackfill, n);
    }
    assert Run(Empty, ArchivedMidBackfill, 0) == Empty;
    hide Run;
    assert Run(Empty, ArchivedMidBackfill, 1).customers.Keys == {1};
    assert 5 in Run(Empty, ArchivedMidBackfill, 2).accounts;
  }

  /** A history in which that condition fails: the account is archived while its first backfill is still running,
      nobody asks for a restore, and the backfill's success hours later reopens the account with ten hours missing. */
  lemma FirstBackfillReopensAnArchivedAccount()
    ensures var w := Run(Empty, ArchivedMidBackfill);
            && 5 in w.accounts && w.accounts[5].managed.Active? && w.accounts[5].pausedAt.None? && w.accounts[5].updatedAt == 72000
            && |w.runs| == 1 && !NoGap(w.runs[0], 36000, 72000)
  {
    ArchivedAndPaused();
    LastStep(Empty, ArchivedMidBackfill, 5);
    LastStep(Empty, ArchivedMidBackfill, 6);
    hide Run;
    var w := Run(Empty, ArchivedMidBackfill, 5);
    assert w.runs == [FirstBackfill.(status := CollectionRun.Success)];
    assert Latest(w.runs, AccountRebuild, 5) == Some(0);
    CoveringMeansNoGap(w.runs[0], 36000, 72000);
  }
}
