/** The sites, customers and accounts behind a run's target, and which runs contend for them. */
module CollectionScope {
  import opened Prelude
  import opened CollectionRun

  datatype AccountRef = AccountRef(site: int, customer: int)

  /** The scope a target resolves to; an account that does not exist has none. */
  predicate Resolvable(accounts: map<int, AccountRef>, target: Target) {
    target.AccountTarget? ==> target.id in accounts
  }

  function CustomerOf(accounts: map<int, AccountRef>, target: Target): Option<int> {
    match target
    case SiteTarget(_) => None
    case AccountTarget(id) => if id in accounts then Some(accounts[id].customer) else None
    case CustomerTarget(id) => Some(id)
  }

  /** Two runs that must not run together: the same site and task type, or the same customer and task
      type whether the customer is targeted directly or through one of its accounts. */
  predicate Contend(accounts: map<int, AccountRef>, a: Run, b: Run) {
    && a.task == b.task
    && if a.target.SiteTarget? then b.target == a.target
       else CustomerOf(accounts, a.target).Some? && CustomerOf(accounts, a.target) == CustomerOf(accounts, b.target)
  }

  lemma ContentionIsSymmetric(accounts: map<int, AccountRef>, a: Run, b: Run)
    ensures Contend(accounts, a, b) == Contend(accounts, b, a)
  {
  }

  /** The locked count of other running runs in the scope of run `id`. */
  predicate Busy(runs: map<int, Run>, accounts: map<int, AccountRef>, id: int)
    requires id in runs
  {
    exists other :: other in runs && other != id && runs[other].status.Running? && Contend(accounts, runs[id], runs[other])
  }
}
