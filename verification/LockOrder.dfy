/** The global lock order: sites, then customers, then accounts, then runs, each by ascending id, except that the runs of
    one site may come in any order once the site is locked. Any number of transactions that lock like this, some of them
    skipping locked rows, never wait for each other in a circle. */
module LockOrder {
  import opened Prelude

  const SITE := 0
  const CUSTOMER := 1
  const ACCOUNT := 2
  const RUN := 3

  /** A lockable row. */
  datatype Row = Row(table: nat, id: int)

  predicate Before(a: Row, b: Row) {
    a.table < b.table || (a.table == b.table && a.id < b.id)
  }

  /** The site of each run that targets a site; no run changes its target. */
  type Owners = map<int, int>

  /** A run that targets a site. */
  predicate Owned(owners: Owners, row: Row) {
    row.table == RUN && row.id in owners
  }

  function SiteOf(owners: Owners, row: Row): Row
    requires Owned(owners, row)
  {
    Row(SITE, owners[row.id])
  }

  predicate Siblings(owners: Owners, a: Row, b: Row) {
    a != b && Owned(owners, a) && Owned(owners, b) && SiteOf(owners, a) == SiteOf(owners, b)
  }

  /** Rows in the global order, but for runs of one site among themselves, which come after their site. */
  ghost predicate Ordered(owners: Owners, rows: seq<Row>) {
    && (forall i, j :: 0 <= i < j < |rows| ==> Before(rows[i], rows[j]) || Siblings(owners, rows[i], rows[j]))
    && (forall j :: 0 <= j < |rows| && Owned(owners, rows[j]) ==> SiteOf(owners, rows[j]) in rows[..j])
  }

  ghost predicate Ascending(ids: seq<int>) {
    forall i, j :: 0 <= i < j < |ids| ==> ids[i] < ids[j]
  }

  // -------------------------------------------------------------- sorted id lists

  /** How many leading ids are smaller. */
  function Position(ids: seq<int>, id: int, from: nat := 0): (p: nat)
    requires from <= |ids|
    requires forall i :: 0 <= i < from ==> ids[i] < id
    ensures p <= |ids| && (forall i :: 0 <= i < p ==> ids[i] < id) && (p < |ids| ==> ids[p] >= id)
    decreases |ids| - from
  {
    if from < |ids| && ids[from] < id then Position(ids, id, from + 1) else from
  }

  lemma InsertedAt(ids: seq<int>, id: int, p: nat)
    requires Ascending(ids) && p <= |ids|
    requires (forall i :: 0 <= i < p ==> ids[i] < id) && (p < |ids| ==> ids[p] > id)
    ensures Ascending(ids[..p] + [id] + ids[p..])
    ensures forall x :: x in ids[..p] + [id] + ids[p..] <==> x in ids || x == id
  {
  }

  /** Keeps an ascending list ascending and adds exactly the one positive id. */
  function Insert(ids: seq<int>, id: int): (r: seq<int>)
    requires Ascending(ids)
    ensures Ascending(r)
    ensures forall x :: x in r <==> x in ids || (x == id && id > 0)
  {
    var p := Position(ids, id);
    if id <= 0 then ids
    else if p < |ids| && ids[p] == id then ids
    else
      InsertedAt(ids, id, p);
      ids[..p] + [id] + ids[p..]
  }

  /** Walks to the first id that is not smaller and inserts there, unless that is the id itself. */
  method AppendUniqueSortedID(ids: seq<int>, id: int) returns (r: seq<int>)
    requires Ascending(ids)
    ensures r == Insert(ids, id)
  {
    if id <= 0 { return ids; }
    var position := 0;
    while position < |ids| && ids[position] < id
      invariant position <= |ids| && forall i :: 0 <= i < position ==> ids[i] < id
      invariant Position(ids, id, position) == Position(ids, id)
    {
      position := position + 1;
    }
    if position < |ids| && ids[position] == id { return ids; }
    r := ids[..position] + [id] + ids[position..];
  }

  /** Ids collected one by one, as the scope builders do. */
  function Collected(ids: seq<int>, n: nat := |ids|): (r: seq<int>)
    requires n <= |ids|
    ensures Ascending(r)
    ensures forall x :: x in r <==> x > 0 && x in ids[..n]
  {
    if n == 0 then []
    else
      assert ids[..n] == ids[..n - 1] + [ids[n - 1]];
      Insert(Collected(ids, n - 1), ids[n - 1])
  }

  /** The other builder: gather into a set, then sort. */
  method UniqueSorted(ids: seq<int>) returns (r: seq<int>)
    ensures Ascending(r) && forall x :: x in r <==> x in ids
    ensures (forall i :: 0 <= i < |ids| ==> ids[i] > 0) ==> r == Collected(ids)
  {
    assert ids[..|ids|] == ids;
    var rest := set i | 0 <= i < |ids| :: ids[i];
    r := [];
    while rest != {}
      invariant Ascending(r) && forall i, x :: 0 <= i < |r| && x in rest ==> r[i] < x
      invariant forall x :: x in ids <==> x in r || x in rest
      decreases rest
    {
      var id := LeastId(rest);
      rest := rest - {id};
      r := r + [id];
    }
    if forall i :: 0 <= i < |ids| ==> ids[i] > 0 { AscendingIsCanonical(r, Collected(ids)); }
  }

  /** An ascending list is determined by its members: both builders lock the same sites in the same order. */
  lemma {:induction false} AscendingIsCanonical(a: seq<int>, b: seq<int>)
    requires Ascending(a) && Ascending(b) && forall x :: x in a <==> x in b
    ensures a == b
  {
    assert b != [] ==> b[0] in b;
    if a != [] {
      assert a[0] in a && b != [];
      assert a[0] in b && b[0] in a;
      assert a[0] == b[0] && a[0] !in a[1..] && b[0] !in b[1..];
      forall x ensures x in a[1..] <==> x in b[1..] {
        assert x in a <==> x == a[0] || x in a[1..] by { assert a == [a[0]] + a[1..]; }
        assert x in b <==> x == b[0] || x in b[1..] by { assert b == [b[0]] + b[1..]; }
      }
      AscendingIsCanonical(a[1..], b[1..]);
      assert a == [a[0]] + a[1..] && b == [b[0]] + b[1..];
    }
  }

  // -------------------------------------------------------------- what each transaction locks

  datatype Ref = Ref(id: int, site: int, customer: int)

  /** The transactions over these rows, with the references they load before locking. */
  datatype Work =
    | AccountScope(ref: Ref, runs: seq<int>)                         // begin and complete restore, rebuild creation
    | CustomerScope(customer: int, refs: seq<Ref>, runs: seq<int>)   // disable, begin and complete enable
    | SiteTask(site: int, run: int, skips: bool)                     // claim, heartbeat, commit, release, recover, materialise
    | AccountTask(ref: Ref, runs: seq<int>, skips: bool)
    | CustomerTask(customer: int, refs: seq<Ref>, runs: seq<int>, skips: bool)
    | SiteFence(site: int, targets: seq<int>, refs: seq<Ref>, runs: seq<int>)
    | SiteSnapshot(site: int, accounts: seq<int>)
    | AccountOnly(account: int)                                      // missing, identity mismatch, archive
    | WindowRunCreation(site: int, active: seq<int>)                 // the overlapping runs come by start time

  function Sites(refs: seq<Ref>): seq<int> { seq(|refs|, i requires 0 <= i < |refs| => refs[i].site) }
  function Customers(refs: seq<Ref>): seq<int> { seq(|refs|, i requires 0 <= i < |refs| => refs[i].customer) }
  function Ids(refs: seq<Ref>): seq<int> { seq(|refs|, i requires 0 <= i < |refs| => refs[i].id) }

  /** No run of the list targets a site other than the given ones. */
  ghost predicate RunsOf(owners: Owners, runs: seq<int>, sites: set<int>) {
    forall i :: 0 <= i < |runs| && runs[i] in owners ==> owners[runs[i]] in sites
  }

  ghost predicate Distinct(ids: seq<int>) {
    forall i, j :: 0 <= i < j < |ids| ==> ids[i] != ids[j]
  }

  /** What is loaded comes by ascending id, but for the active runs of a site; runs of a site are only loaded with it. */
  ghost predicate Loaded(owners: Owners, w: Work) {
    match w
    case AccountScope(_, runs) => Ascending(runs) && RunsOf(owners, runs, {})
    case CustomerScope(_, refs, runs) => Ascending(Ids(refs)) && Ascending(runs) && RunsOf(owners, runs, {})
    case SiteTask(site, run, _) => RunsOf(owners, [run], {site})
    case AccountTask(_, runs, _) => Ascending(runs) && RunsOf(owners, runs, {})
    case CustomerTask(_, refs, runs, _) => Ascending(Ids(refs)) && Ascending(runs) && RunsOf(owners, runs, {})
    case SiteFence(site, _, refs, runs) => Ascending(Ids(refs)) && Ascending(runs) && RunsOf(owners, runs, {site})
    case SiteSnapshot(_, accounts) => Ascending(accounts)
    case AccountOnly(_) => true
    case WindowRunCreation(site, active) => Distinct(active) && forall i :: 0 <= i < |active| ==> active[i] in owners && owners[active[i]] == site
  }

  function Skips(w: Work): bool {
    (w.SiteTask? || w.AccountTask? || w.CustomerTask?) && w.skips
  }

  function RowsOf(table: nat, ids: seq<int>): seq<Row> { seq(|ids|, i requires 0 <= i < |ids| => Row(table, ids[i])) }

  function PlanFor(sites: seq<int>, customers: seq<int>, accounts: seq<int>, runs: seq<int>): seq<Row> {
    RowsOf(SITE, sites) + RowsOf(CUSTOMER, customers) + RowsOf(ACCOUNT, accounts) + RowsOf(RUN, runs)
  }

  function PlanOf(w: Work): seq<Row> {
    match w
    case AccountScope(ref, runs) => PlanFor([ref.site], [ref.customer], [ref.id], runs)
    case CustomerScope(customer, refs, runs) => PlanFor(Collected(Sites(refs)), [customer], Ids(refs), runs)
    case SiteTask(site, run, _) => PlanFor([site], [], [], [run])
    case AccountTask(ref, runs, _) => PlanFor([ref.site], [ref.customer], [ref.id], runs)
    case CustomerTask(customer, refs, runs, _) => PlanFor(Collected(Sites(refs)), [customer], Ids(refs), runs)
    case SiteFence(site, targets, refs, runs) => PlanFor([site], Collected(targets + Customers(refs)), Ids(refs), runs)
    case SiteSnapshot(site, accounts) => PlanFor([site], [], accounts, [])
    case AccountOnly(account) => PlanFor([], [], [account], [])
    case WindowRunCreation(site, active) => PlanFor([site], [], [], active)
  }

  lemma ListsMakeAnOrderedPlan(owners: Owners, sites: seq<int>, customers: seq<int>, accounts: seq<int>, runs: seq<int>)
    requires Ascending(sites) && Ascending(customers) && Ascending(accounts) && RunsOf(owners, runs, set x | x in sites)
    requires Ascending(runs) || (Distinct(runs) && |sites| == 1 && forall i :: 0 <= i < |runs| ==> runs[i] in owners)
    ensures Ordered(owners, PlanFor(sites, customers, accounts, runs))
  {
    var plan := PlanFor(sites, customers, accounts, runs);
    var first := |sites| + |customers| + |accounts|;
    forall j | 0 <= j < |plan| && Owned(owners, plan[j]) ensures SiteOf(owners, plan[j]) in plan[..j] {
      assert j >= first && plan[j] == Row(RUN, runs[j - first]);
      var i :| 0 <= i < |sites| && sites[i] == owners[runs[j - first]];
      assert plan[..j][i] == Row(SITE, sites[i]);
    }
    forall i, j | 0 <= i < j < |plan| ensures Before(plan[i], plan[j]) || Siblings(owners, plan[i], plan[j]) {
      if first <= i {
        assert plan[i] == Row(RUN, runs[i - first]) && plan[j] == Row(RUN, runs[j - first]);
      } else if j >= first {
        assert plan[i].table < RUN && plan[j].table == RUN;
      }
    }
  }

  /** Every transaction locks in the one global order. */
  lemma EveryPlanIsOrdered(owners: Owners, w: Work)
    requires Loaded(owners, w)
    ensures Ordered(owners, PlanOf(w))
  {
    match w
    case AccountScope(ref, runs) => ListsMakeAnOrderedPlan(owners, [ref.site], [ref.customer], [ref.id], runs);
    case CustomerScope(customer, refs, runs) => ListsMakeAnOrderedPlan(owners, Collected(Sites(refs)), [customer], Ids(refs), runs);
    case SiteTask(site, run, _) => ListsMakeAnOrderedPlan(owners, [site], [], [], [run]);
    case AccountTask(ref, runs, _) => ListsMakeAnOrderedPlan(owners, [ref.site], [ref.customer], [ref.id], runs);
    case CustomerTask(customer, refs, runs, _) => ListsMakeAnOrderedPlan(owners, Collected(Sites(refs)), [customer], Ids(refs), runs);
    case SiteFence(site, targets, refs, runs) => ListsMakeAnOrderedPlan(owners, [site], Collected(targets + Customers(refs)), Ids(refs), runs);
    case SiteSnapshot(site, accounts) => ListsMakeAnOrderedPlan(owners, [site], [], accounts, []);
    case AccountOnly(account) => ListsMakeAnOrderedPlan(owners, [], [], [account], []);
    case WindowRunCreation(site, active) => ListsMakeAnOrderedPlan(owners, [site], [], [], active);
  }

  // -------------------------------------------------------------- the lock manager

  /** A running transaction: its plan, how far it got, what it holds, and whether it had to skip a row. */
  datatype Tx = Tx(plan: seq<Row>, next: nat, held: set<Row>, skips: bool, missed: bool)

  type Locks = map<int, Tx>

  ghost predicate Taken(m: Locks, t: int, row: Row) {
    exists u :: u in m && u != t && row in m[u].held
  }

  datatype Action =
    | Begin(t: int, work: Work)
    | Advance(t: int)
    | End(t: int)     // commit or rollback, at any moment

  /** A query that had to skip a row returns too few, and the transaction rolls back. */
  predicate CameShort(tx: Tx) {
    tx.missed && 0 < tx.next <= |tx.plan| && (tx.next == |tx.plan| || tx.plan[tx.next].table != tx.plan[tx.next - 1].table)
  }

  /** A transaction asks for its next row: it gets it if free, skips it if it may, and waits otherwise. */
  ghost function Act(m: Locks, a: Action): Locks {
    match a
    case Begin(t, work) => if t in m then m else m[t := Tx(PlanOf(work), 0, {}, Skips(work), false)]
    case Advance(t) =>
      if t !in m then m
      else if CameShort(m[t]) then m - {t}
      else if m[t].next >= |m[t].plan| then m
      else
        var tx := m[t];
        var row := tx.plan[tx.next];
        if !Taken(m, t, row) then m[t := tx.(next := tx.next + 1, held := tx.held + {row})]
        else if tx.skips then m[t := tx.(next := tx.next + 1, missed := true)]
        else m
    case End(t) => m - {t}
  }

  ghost function History(actions: seq<Action>, n: nat := |actions|): Locks
    requires n <= |actions|
  {
    if n == 0 then map[] else Act(History(actions, n - 1), actions[n - 1])
  }

  ghost predicate AllLoaded(owners: Owners, actions: seq<Action>) {
    forall i :: 0 <= i < |actions| && actions[i].Begin? ==> Loaded(owners, actions[i].work)
  }

  /** A transaction holds every row it has passed, but for those it skipped in the last table it reached. */
  ghost predicate TxOk(owners: Owners, tx: Tx) {
    && Ordered(owners, tx.plan) && tx.next <= |tx.plan|
    && (forall row :: row in tx.held ==> row in tx.plan[..tx.next])
    && (tx.missed ==> tx.skips && tx.next > 0)
    && (forall i :: 0 <= i < tx.next && (tx.missed ==> tx.plan[i].table < tx.plan[tx.next - 1].table) ==> tx.plan[i] in tx.held)
  }

  ghost predicate Consistent(owners: Owners, m: Locks) {
    && (forall t :: t in m ==> TxOk(owners, m[t]))
    && (forall t, u :: t in m && u in m && t != u ==> m[t].held !! m[u].held)
  }

  lemma StepIsOk(owners: Owners, tx: Tx, gets: bool)
    requires TxOk(owners, tx) && tx.next < |tx.plan| && !CameShort(tx) && (!gets ==> tx.skips)
    ensures TxOk(owners, if gets then tx.(next := tx.next + 1, held := tx.held + {tx.plan[tx.next]}) else tx.(next := tx.next + 1, missed := true))
  {
    assert tx.plan[..tx.next + 1] == tx.plan[..tx.next] + [tx.plan[tx.next]];
    hide Ordered;
  }

  lemma ActKeepsConsistency(owners: Owners, m: Locks, a: Action)
    requires Consistent(owners, m) && (a.Begin? ==> Loaded(owners, a.work))
    ensures Consistent(owners, Act(m, a))
  {
    ActKeepsHeldApart(m, a);
    var next := Act(m, a);
    forall t | t in next ensures TxOk(owners, next[t]) {
      if t == a.t { ActKeepsOwnTx(owners, m, a); } else { assert next[t] == m[t]; }
    }
  }

  lemma ActKeepsOwnTx(owners: Owners, m: Locks, a: Action)
    requires (a.t in m ==> TxOk(owners, m[a.t])) && (a.Begin? ==> Loaded(owners, a.work))
    ensures a.t in Act(m, a) ==> TxOk(owners, Act(m, a)[a.t])
  {
    hide TxOk, PlanOf, Loaded, CameShort, Taken;
    if a.Begin? { NewTxIsOk(owners, a.work); }
    if a.Advance? && a.t in m && m[a.t].next < |m[a.t].plan| && !CameShort(m[a.t]) {
      StepIsOk(owners, m[a.t], true);
      if m[a.t].skips { StepIsOk(owners, m[a.t], false); }
    }
  }

  lemma NewTxIsOk(owners: Owners, w: Work)
    requires Loaded(owners, w)
    ensures TxOk(owners, Tx(PlanOf(w), 0, {}, Skips(w), false))
  {
    EveryPlanIsOrdered(owners, w);
  }

  lemma ActKeepsHeldApart(m: Locks, a: Action)
    requires forall t, u :: t in m && u in m && t != u ==> m[t].held !! m[u].held
    ensures forall t, u :: t in Act(m, a) && u in Act(m, a) && t != u ==> Act(m, a)[t].held !! Act(m, a)[u].held
  {
    hide PlanOf, CameShort;
    if a.Advance? && a.t in m && m[a.t].next < |m[a.t].plan| {
      var row := m[a.t].plan[m[a.t].next];
      assert forall u :: u in m && u != a.t && row in m[u].held ==> Taken(m, a.t, row);
    }
  }

  lemma {:induction false} HistoryIsConsistent(owners: Owners, actions: seq<Action>, n: nat)
    requires AllLoaded(owners, actions) && n <= |actions|
    ensures Consistent(owners, History(actions, n))
  {
    hide Act, Loaded;
    if n > 0 {
      HistoryIsConsistent(owners, actions, n - 1);
      ActKeepsConsistency(owners, History(actions, n - 1), actions[n - 1]);
    }
  }

  // -------------------------------------------------------------- no deadlock

  predicate Wants(m: Locks, t: int) {
    t in m && !m[t].skips && m[t].next < |m[t].plan|
  }

  function Wanted(m: Locks, t: int): Row
    requires Wants(m, t)
  {
    m[t].plan[m[t].next]
  }

  /** `t` waits for a row that `u` holds. */
  predicate WaitsFor(m: Locks, t: int, u: int) {
    u in m && t != u && Wants(m, t) && Wanted(m, t) in m[u].held
  }

  ghost predicate Blocked(m: Locks, t: int) {
    exists u :: WaitsFor(m, t, u)
  }

  ghost predicate Chain(m: Locks, path: seq<int>) {
    forall i :: 0 <= i < |path| - 1 ==> WaitsFor(m, path[i], path[i + 1])
  }

  /** Whoever has locked a run of a site, or waits for one, holds the site. */
  lemma RunsComeWithTheirSite(owners: Owners, tx: Tx, row: Row)
    requires TxOk(owners, tx) && Owned(owners, row)
    ensures row in tx.held ==> SiteOf(owners, row) in tx.held
    ensures !tx.skips && tx.next < |tx.plan| && tx.plan[tx.next] == row ==> SiteOf(owners, row) in tx.held
  {
    if row in tx.held { HeldRunsComeWithTheirSite(owners, tx, row); }
  }

  lemma HeldRunsComeWithTheirSite(owners: Owners, tx: Tx, row: Row)
    requires TxOk(owners, tx) && Owned(owners, row) && row in tx.held
    ensures SiteOf(owners, row) in tx.held
  {
    var j :| 0 <= j < tx.next && tx.plan[j] == row;
    var i :| 0 <= i < j && tx.plan[i] == SiteOf(owners, row);
    if tx.missed {
      assert j < tx.next - 1 ==> Before(tx.plan[j], tx.plan[tx.next - 1]) || Siblings(owners, tx.plan[j], tx.plan[tx.next - 1]);
    }
  }

  /** So nobody ever waits for one. */
  lemma NobodyWaitsForASiteRun(owners: Owners, m: Locks, t: int, u: int)
    requires Consistent(owners, m) && WaitsFor(m, t, u)
    ensures !Owned(owners, Wanted(m, t))
  {
    var row := Wanted(m, t);
    if Owned(owners, row) {
      RunsComeWithTheirSite(owners, m[t], row);
      RunsComeWithTheirSite(owners, m[u], row);
    }
  }

  /** What a waiting holder holds and others wait for comes before what it waits for itself. */
  lemma HeldComesBeforeWanted(owners: Owners, m: Locks, u: int, row: Row)
    requires Consistent(owners, m) && Wants(m, u) && row in m[u].held && !Owned(owners, row)
    ensures Before(row, Wanted(m, u))
  {
  }

  lemma BeforeIsTransitive(a: Row, b: Row, c: Row)
    requires Before(a, b) && Before(b, c)
    ensures Before(a, c) && a != c
  {
  }

  /** Along a chain of waits the wanted rows climb in the global order. */
  lemma {:induction false} WaitsClimb(owners: Owners, m: Locks, path: seq<int>, k: nat)
    requires Consistent(owners, m) && Chain(m, path) && 0 < k < |path| && Wants(m, path[k])
    ensures Wants(m, path[0]) && Before(Wanted(m, path[0]), Wanted(m, path[k]))
    decreases k
  {
    assert WaitsFor(m, path[0], path[1]);
    assert WaitsFor(m, path[k - 1], path[k]);
    NobodyWaitsForASiteRun(owners, m, path[k - 1], path[k]);
    HeldComesBeforeWanted(owners, m, path[k], Wanted(m, path[k - 1]));
    if k > 1 {
      WaitsClimb(owners, m, path, k - 1);
      BeforeIsTransitive(Wanted(m, path[0]), Wanted(m, path[k - 1]), Wanted(m, path[k]));
    }
  }

  /** In every reachable state the wait-for relation has no cycle. */
  lemma NoWaitCycle(owners: Owners, actions: seq<Action>, path: seq<int>)
    requires AllLoaded(owners, actions) && |path| >= 2 && Chain(History(actions), path)
    ensures path[0] != path[|path| - 1]
  {
    var m := History(actions);
    HistoryIsConsistent(owners, actions, |actions|);
    if path[0] == path[|path| - 1] {
      assert WaitsFor(m, path[0], path[1]);
      WaitsClimb(owners, m, path, |path| - 1);
      BeforeIsTransitive(Wanted(m, path[0]), Wanted(m, path[0]), Wanted(m, path[0]));
    }
  }

  /** The transactions that wait for something later than `t` does. */
  ghost function Later(m: Locks, t: int): set<int>
    requires Wants(m, t)
  {
    set u | u in m && Wants(m, u) && Before(Wanted(m, t), Wanted(m, u))
  }

  /** From any transaction, following the waits ends, after finitely many, at one that can go on: so as long as
      transactions that can go on eventually end, none waits for ever. */
  lemma {:induction false} EveryWaitEndsAtAMover(owners: Owners, m: Locks, t: int) returns (path: seq<int>)
    requires Consistent(owners, m) && t in m
    ensures path != [] && path[0] == t && Chain(m, path)
    ensures path[|path| - 1] in m && !Blocked(m, path[|path| - 1])
    decreases if Wants(m, t) then |Later(m, t)| + 1 else 0
  {
    hide Consistent, Wants;
    if !Blocked(m, t) {
      path := [t];
    } else {
      var u :| WaitsFor(m, t, u);
      if Wants(m, u) { FewerWantLater(owners, m, t, u); }
      var rest := EveryWaitEndsAtAMover(owners, m, u);
      path := [t] + rest;
      assert forall i :: 0 <= i < |rest| - 1 ==> WaitsFor(m, rest[i], rest[i + 1]);
      assert forall i :: 1 <= i < |path| - 1 ==> path[i] == rest[i - 1] && path[i + 1] == rest[i];
    }
  }

  lemma FewerWantLater(owners: Owners, m: Locks, t: int, u: int)
    requires Consistent(owners, m) && WaitsFor(m, t, u) && Wants(m, u)
    ensures |Later(m, u)| < |Later(m, t)|
  {
    NobodyWaitsForASiteRun(owners, m, t, u);
    HeldComesBeforeWanted(owners, m, u, Wanted(m, t));
    hide Consistent;
    forall v | v in Later(m, u) ensures v in Later(m, t) && v != u {
      BeforeIsTransitive(Wanted(m, t), Wanted(m, u), Wanted(m, v));
    }
    assert u in Later(m, t) && u !in Later(m, u);
    SmallerSet(Later(m, u), Later(m, t), u);
  }

  lemma SmallerSet(a: set<int>, b: set<int>, x: int)
    requires a <= b && x in b && x !in a
    ensures |a| < |b|
  {
    assert |b| == |a| + |b - a| by { assert b == a + (b - a); }
    assert x in b - a;
  }

  /** A transaction nobody blocks gets one row further whenever it asks, so it needs no more requests than rows; or it
      rolls back because a query came short. */
  ghost predicate Moves(m: Locks, t: int)
    requires t in m
  {
    var next := Act(m, Advance(t));
    if CameShort(m[t]) then t !in next else m[t].next < |m[t].plan| ==> t in next && next[t].next == m[t].next + 1
  }

  lemma MoverMoves(m: Locks, t: int)
    requires t in m && !Blocked(m, t)
    ensures Moves(m, t)
  {
    if m[t].next < |m[t].plan| {
      assert forall u :: u in m && u != t && m[t].plan[m[t].next] in m[u].held && !m[t].skips ==> WaitsFor(m, t, u);
    }
  }

  /** No reachable state is stuck: whoever waits, somebody it transitively waits for has its next row for the asking,
      has them all, or is about to roll back. */
  lemma NoDeadlock(owners: Owners, actions: seq<Action>, t: int) returns (path: seq<int>)
    requires AllLoaded(owners, actions) && t in History(actions)
    ensures path != [] && path[0] == t && Chain(History(actions), path)
    ensures path[|path| - 1] in History(actions) && Moves(History(actions), path[|path| - 1])
  {
    HistoryIsConsistent(owners, actions, |actions|);
    path := EveryWaitEndsAtAMover(owners, History(actions), t);
    MoverMoves(History(actions), path[|path| - 1]);
  }
}
