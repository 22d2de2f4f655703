/** Publication of one day's resource statistics: prepare, site batches and publish, by any number of workers, while
    the underlying facts change. A site's bundle stands for its daily row together with its nodes' daily rows. */
module ResourcePublication {
  import opened Prelude

  /** `made` is the facts revision the bundle was computed under. */
  datatype Bundle = Bundle(final: bool, made: int)

  /** The maintenance state of the day, with its bundles by site. */
  datatype Day = Day(bundles: map<int, Bundle>, revision: int, cursor: int, complete: bool)

  /** A worker between its transactions: it has prepared, or it works through a list of sites. `rev` is the revision
      it listed under, `last` says that the list was not cut off. */
  datatype Worker = Prepared | Listed(rev: int, todo: seq<int>, last: bool)

  /** Revisions are never reused; `facts` is the current one, and each fixes its eligible sites. A revision hashes the
      sites with their pauses, instances and lifecycles, not the minute samples or the hourly rows: "current" here always
      means current as far as the revision can see. */
  datatype World = World(day: Day, facts: int, eligible: map<int, set<int>>, workers: map<int, Worker>)

  function Eligible(w: World): set<int> {
    if w.facts in w.eligible then w.eligible[w.facts] else {}
  }

  // -------------------------------------------------------------- transactions

  function Unpublished(bundles: map<int, Bundle>, sites: set<int>): map<int, Bundle> {
    map s | s in bundles :: if s in sites then bundles[s].(final := false) else bundles[s]
  }

  /** A new revision withdraws the day and starts over. */
  function PrepareDay(d: Day, facts: int, sites: set<int>): Day {
    if d.revision == facts then d else Day(Unpublished(d.bundles, sites), facts, 0, false)
  }

  /** One site's transaction; `passes` says whether its checks do. It looks at the cursor, not at the revision. */
  function FinalizeSite(d: Day, facts: int, sites: set<int>, site: int, passes: bool): Outcome<Day> {
    if d.complete || d.cursor >= site then Ok(d)
    else if site !in sites then Fail(ConfigChanged)
    else if !passes then Fail(NotReady)
    else Ok(d.(bundles := d.bundles[site := Bundle(false, facts)], cursor := site))
  }

  function PublishDay(d: Day, facts: int, sites: set<int>): Outcome<Day> {
    if d.revision != facts || d.complete then Fail(ConfigChanged)
    else if exists s :: s in sites && (s !in d.bundles || d.bundles[s].final) then Fail(Contract)
    else Ok(d.(bundles := map s | s in d.bundles :: if s in sites then d.bundles[s].(final := true) else d.bundles[s], complete := true))
  }

  // -------------------------------------------------------------- interleavings

  datatype Step =
    | Change(facts: int)
    | Prepare(worker: int)
    | List(worker: int, todo: seq<int>, last: bool)
    | Finalize(worker: int, passes: bool)
    | Publish(worker: int)
    | Stop(worker: int)   // finished, failed or crashed

  function Without(w: World, worker: int): World { w.(workers := w.workers - {worker}) }

  ghost predicate Ascending(ids: seq<int>) {
    forall i, j :: 0 <= i < j < |ids| ==> ids[i] < ids[j]
  }

  /** `WHERE id > cursor ORDER BY id LIMIT n`; `last` when the limit was not reached. */
  ghost predicate IsList(sites: set<int>, cursor: int, todo: seq<int>, last: bool) {
    && Ascending(todo)
    && (forall i :: 0 <= i < |todo| ==> todo[i] in sites && todo[i] > cursor)
    && (forall s :: s in sites && s > cursor && s !in todo ==> !last && forall i :: 0 <= i < |todo| ==> todo[i] < s)
  }

  ghost function Act(w: World, s: Step): World {
    match s
    case Change(facts) => if facts > w.facts then w.(facts := facts) else w
    case Prepare(t) =>
      if t in w.workers then w
      else
        var day := PrepareDay(w.day, w.facts, Eligible(w));
        if day.complete then w else w.(day := day, workers := w.workers[t := Prepared])
    case List(t, todo, last) =>
      if t !in w.workers || !w.workers[t].Prepared? then w
      else if w.day.revision != w.facts || w.day.complete || !IsList(Eligible(w), w.day.cursor, todo, last) then Without(w, t)
      else w.(workers := w.workers[t := Listed(w.facts, todo, last)])
    case Finalize(t, passes) =>
      if t !in w.workers || !w.workers[t].Listed? || w.workers[t].todo == [] then w
      else
        var reply := FinalizeSite(w.day, w.facts, Eligible(w), w.workers[t].todo[0], passes);
        if reply.Fail? then Without(w, t)
        else w.(day := reply.value, workers := w.workers[t := w.workers[t].(todo := w.workers[t].todo[1..])])
    case Publish(t) =>
      if t !in w.workers || !w.workers[t].Listed? || w.workers[t].todo != [] || !w.workers[t].last then w
      else
        var reply := PublishDay(w.day, w.facts, Eligible(w));
        if reply.Fail? then Without(w, t) else Without(w.(day := reply.value), t)
    case Stop(t) => Without(w, t)
  }

  ghost function Run(w: World, steps: seq<Step>, n: nat := |steps|): World
    requires n <= |steps|
  {
    if n == 0 then w else Act(Run(w, steps, n - 1), steps[n - 1])
  }

  lemma OneAct(w: World, steps: seq<Step>, n: nat)
    requires 0 < n <= |steps|
    ensures Run(w, steps, n) == Act(Run(w, steps, n - 1), steps[n - 1])
  {
  }

  /** The worker of a site or publish step listed under the revision the day is now prepared for. */
  predicate UpToDate(w: World, s: Step) {
    (s.Finalize? || s.Publish?) && s.worker in w.workers && w.workers[s.worker].Listed? ==> w.workers[s.worker].rev == w.day.revision
  }

  ghost predicate AlwaysUpToDate(w: World, steps: seq<Step>, n: nat)
    requires n <= |steps|
  {
    forall i :: 0 <= i < n ==> UpToDate(Run(w, steps, i), steps[i])
  }

  // -------------------------------------------------------------- invariants

  /** Every bundle the cursor has passed was made under the current facts. */
  ghost predicate Passed(w: World) {
    w.day.revision == w.facts ==> forall s :: s in Eligible(w) && s <= w.day.cursor ==> s in w.day.bundles && w.day.bundles[s].made == w.facts
  }

  /** Every eligible site shows its bundle of the current facts. */
  ghost predicate Whole(w: World) {
    forall s :: s in Eligible(w) ==> s in w.day.bundles && w.day.bundles[s] == Bundle(true, w.facts)
  }

  /** A completed day is published as a whole; a day that is not complete shows nothing final. */
  ghost predicate AllOrNothing(w: World) {
    w.day.revision == w.facts ==>
      if w.day.complete then Whole(w)
      else forall s :: s in Eligible(w) && s in w.day.bundles ==> !w.day.bundles[s].final
  }

  /** An up-to-date worker's list misses no site beyond the cursor. */
  ghost predicate ListOk(w: World, t: int)
    requires t in w.workers
  {
    var k := w.workers[t];
    k.Listed? && w.day.revision == w.facts && k.rev == w.facts && !w.day.complete ==>
      && Ascending(k.todo)
      && forall s :: s in Eligible(w) && s > w.day.cursor && s !in k.todo ==> !k.last && forall i :: 0 <= i < |k.todo| ==> k.todo[i] < s
  }

  ghost predicate PositiveIds(w: World) {
    forall r :: r in w.eligible ==> forall s :: s in w.eligible[r] ==> s > 0
  }

  ghost predicate Past(w: World) {
    && w.day.revision <= w.facts
    && PositiveIds(w)
    && (forall t :: t in w.workers && w.workers[t].Listed? ==> w.workers[t].rev <= w.day.revision)
  }

  ghost predicate Sound(w: World) {
    Past(w) && Passed(w) && AllOrNothing(w) && forall t :: t in w.workers ==> ListOk(w, t)
  }

  lemma ChangeKeepsSound(w: World, s: Step)
    requires Sound(w) && (s.Change? || s.Stop?)
    ensures Sound(Act(w, s))
  {
  }

  lemma PrepareKeepsSound(w: World, s: Step)
    requires Sound(w) && s.Prepare?
    ensures Sound(Act(w, s))
  {
  }

  lemma ListKeepsSound(w: World, s: Step)
    requires Sound(w) && s.List?
    ensures Sound(Act(w, s))
  {
  }

  lemma FinalizeKeepsLists(w: World, s: Step, t: int)
    requires Sound(w) && s.Finalize? && t in Act(w, s).workers
    ensures ListOk(Act(w, s), t)
  {
  }

  lemma FinalizeKeepsSound(w: World, s: Step)
    requires Sound(w) && s.Finalize? && UpToDate(w, s)
    ensures Sound(Act(w, s))
  {
    forall t | t in Act(w, s).workers ensures ListOk(Act(w, s), t) { FinalizeKeepsLists(w, s, t); }
    assert s.worker in w.workers ==> ListOk(w, s.worker);
    hide ListOk;
    if s.worker in w.workers && w.workers[s.worker].Listed? && w.workers[s.worker].todo != [] {
      assert w.day.revision == w.facts && !w.day.complete ==> NoneSkipped(w, w.workers[s.worker].todo) by { ListSkipsNone(w, s.worker); }
    }
  }

  /** Every eligible site before the head of the list is behind the cursor. */
  ghost predicate NoneSkipped(w: World, todo: seq<int>)
    requires todo != []
  {
    forall s :: s in Eligible(w) && s < todo[0] ==> s <= w.day.cursor
  }

  lemma ListSkipsNone(w: World, t: int)
    requires t in w.workers && ListOk(w, t) && w.workers[t].Listed? && w.workers[t].todo != []
    requires w.workers[t].rev == w.day.revision
    ensures w.day.revision == w.facts && !w.day.complete ==> NoneSkipped(w, w.workers[t].todo)
  {
  }

  lemma PublishKeepsSound(w: World, s: Step)
    requires Sound(w) && s.Publish? && UpToDate(w, s)
    ensures Sound(Act(w, s))
  {
  }

  /** For any number of workers and any changes of the facts in between: as long as every site and publish step is taken
      by an up-to-date worker, a day that is complete for the current facts shows exactly bundles made under them, all
      of them, and a day that is not complete shows none. */
  lemma {:induction false} PublishedDayIsWhole(w: World, steps: seq<Step>, n: nat)
    requires n <= |steps| && Sound(w) && AlwaysUpToDate(w, steps, n)
    ensures Sound(Run(w, steps, n))
  {
    hide Sound, Act;
    if n > 0 {
      PublishedDayIsWhole(w, steps, n - 1);
      var before, s := Run(w, steps, n - 1), steps[n - 1];
      assert UpToDate(before, s);
      match s
      case Change(_) => ChangeKeepsSound(before, s);
      case Stop(_) => ChangeKeepsSound(before, s);
      case Prepare(_) => PrepareKeepsSound(before, s);
      case List(_, _, _) => ListKeepsSound(before, s);
      case Finalize(_, _) => FinalizeKeepsSound(before, s);
      case Publish(_) => PublishKeepsSound(before, s);
    }
  }

  // -------------------------------------------------------------- whole exactly when nobody is skipped

  /** The site has a bundle made under the current facts. */
  predicate Current(w: World, x: int) {
    x in w.day.bundles && w.day.bundles[x].made == w.facts
  }

  /** Some eligible site beyond the cursor, and before `bound` if there is one, has no current bundle. */
  ghost predicate Lacking(w: World, bound: Option<int>) {
    exists x :: x in Eligible(w) && w.day.cursor < x && (bound.Some? ==> x < bound.value) && !Current(w, x)
  }

  /** The step commits and moves the cursor of the current revision to the head of the worker's list. */
  predicate Passes(w: World, s: Step) {
    && s.Finalize? && s.passes && s.worker in w.workers && w.workers[s.worker].Listed? && w.workers[s.worker].todo != []
    && !w.day.complete && w.day.revision == w.facts
    && w.workers[s.worker].todo[0] in Eligible(w) && w.workers[s.worker].todo[0] > w.day.cursor
  }

  /** The step commits and completes the day. */
  predicate Completes(w: World, s: Step) {
    && s.Publish? && s.worker in w.workers && w.workers[s.worker].Listed? && w.workers[s.worker].todo == [] && w.workers[s.worker].last
    && PublishDay(w.day, w.facts, Eligible(w)).Ok?
  }

  /** The step leaves an eligible site without a current bundle behind. */
  ghost predicate Skips(w: World, s: Step) {
    (Passes(w, s) && Lacking(w, Some(w.workers[s.worker].todo[0]))) || (Completes(w, s) && Lacking(w, None))
  }

  /** A site transaction keeps all bundles behind the cursor current exactly when it skips nobody. */
  lemma SiteStepKeepsPassedExactlyWhen(w: World, s: Step)
    requires Passed(w) && Passes(w, s)
    ensures Passed(Act(w, s)) <==> !Skips(w, s)
  {
    var site, next := w.workers[s.worker].todo[0], Act(w, s);
    assert next.day == Day(w.day.bundles[site := Bundle(false, w.facts)], w.day.revision, site, false);
    if x :| x in Eligible(w) && w.day.cursor < x < site && !Current(w, x) {
      assert x in Eligible(next) && !Current(next, x);
    }
  }

  /** A completing step leaves the day whole exactly when it skips nobody. */
  lemma CompletionIsWholeExactlyWhen(w: World, s: Step)
    requires Passed(w) && Completes(w, s)
    ensures Whole(Act(w, s)) <==> !Skips(w, s)
  {
    var next := Act(w, s);
    assert next.day == PublishDay(w.day, w.facts, Eligible(w)).value && Eligible(next) == Eligible(w);
    if x :| x in Eligible(w) && w.day.cursor < x && !Current(w, x) {
      assert x in Eligible(next) && !Current(next, x);
    }
  }

  ghost predicate NobodySkipped(w: World, steps: seq<Step>, n: nat)
    requires n <= |steps|
  {
    forall i :: 0 <= i < n && Run(w, steps, i).facts == Run(w, steps, n).facts ==> !Skips(Run(w, steps, i), steps[i])
  }

  /** The part of soundness that no worker's list matters for. */
  ghost predicate Published(w: World) {
    w.day.revision <= w.facts && Passed(w) && AllOrNothing(w)
  }

  lemma UnskippedStepKeepsPublished(w: World, s: Step)
    requires Published(w) && !Skips(w, s)
    requires PositiveIds(w)
    ensures Published(Act(w, s))
  {
    if Passes(w, s) { SiteStepKeepsPassedExactlyWhen(w, s); }
    if Completes(w, s) { CompletionIsWholeExactlyWhen(w, s); }
  }

  /** A site that was skipped has no current bundle until the facts change. */
  ghost predicate Missed(w: World, x: int) {
    w.day.revision == w.facts && x in Eligible(w) && !Current(w, x) && (w.day.complete || x <= w.day.cursor)
  }

  lemma SkippedIsMissed(w: World, s: Step) returns (x: int)
    requires Skips(w, s)
    ensures Missed(Act(w, s), x) && Act(w, s).facts == w.facts
  {
    if Passes(w, s) {
      var site := w.workers[s.worker].todo[0];
      x :| x in Eligible(w) && w.day.cursor < x < site && !Current(w, x);
    } else {
      x :| x in Eligible(w) && w.day.cursor < x && !Current(w, x);
    }
  }

  lemma FactsOnlyChange(w: World, s: Step)
    ensures Act(w, s).eligible == w.eligible && Act(w, s).facts >= w.facts
  {
  }

  lemma MissedStaysMissed(w: World, s: Step, x: int)
    requires Missed(w, x) && Act(w, s).facts == w.facts
    ensures Missed(Act(w, s), x)
  {
    FactsOnlyChange(w, s);
  }

  /** What holds of the world throughout: the eligible sites do not change, the facts only grow. */
  lemma {:induction false} FactsGrow(w: World, steps: seq<Step>, i: nat, n: nat)
    requires i <= n <= |steps|
    ensures Run(w, steps, n).eligible == w.eligible && Run(w, steps, i).facts <= Run(w, steps, n).facts
    decreases n
  {
    hide Act;
    if n > 0 { FactsOnlyChange(Run(w, steps, n - 1), steps[n - 1]); }
    if i < n { FactsGrow(w, steps, i, n - 1); } else if n > 0 { FactsGrow(w, steps, n - 1, n - 1); }
  }

  lemma {:induction false} UnskippedHistoryIsPublished(w: World, steps: seq<Step>, n: nat)
    requires n <= |steps| && Published(w) && NobodySkipped(w, steps, n)
    requires PositiveIds(w)
    ensures Published(Run(w, steps, n))
  {
    hide Act, Skips, Published;
    if n > 0 {
      var before, s := Run(w, steps, n - 1), steps[n - 1];
      FactsGrow(w, steps, n - 1, n - 1);
      FactsOnlyChange(before, s);
      if Act(before, s).facts == before.facts {
        UnskippedHistoryIsPublished(w, steps, n - 1);
        UnskippedStepKeepsPublished(before, s);
      } else {
        RevisionsAreOld(w, steps, n - 1);
        NewFactsHideTheDay(before, s);
      }
    }
  }

  lemma NewFactsHideTheDay(w: World, s: Step)
    requires w.day.revision <= w.facts && Act(w, s).facts != w.facts
    ensures Published(Act(w, s))
  {
  }

  lemma {:induction false} RevisionsAreOld(w: World, steps: seq<Step>, n: nat)
    requires n <= |steps| && Published(w)
    ensures Run(w, steps, n).day.revision <= Run(w, steps, n).facts
  {
    if n > 0 {
      RevisionsAreOld(w, steps, n - 1);
      RevisionStaysOld(Run(w, steps, n - 1), steps[n - 1]);
      hide Act;
    }
  }

  lemma RevisionStaysOld(w: World, s: Step)
    requires w.day.revision <= w.facts
    ensures Act(w, s).day.revision <= Act(w, s).facts
  {
  }

  lemma {:induction false} MissedUntilTheFactsChange(w: World, steps: seq<Step>, i: nat, n: nat, x: int)
    requires i <= n <= |steps| && Missed(Run(w, steps, i), x) && Run(w, steps, i).facts == Run(w, steps, n).facts
    ensures Missed(Run(w, steps, n), x)
    decreases n
  {
    hide Act, Missed;
    if i < n {
      FactsGrow(w, steps, i, n - 1);
      FactsGrow(w, steps, n - 1, n);
      MissedUntilTheFactsChange(w, steps, i, n - 1, x);
      MissedStaysMissed(Run(w, steps, n - 1), steps[n - 1], x);
    }
  }

  /** A day complete for the current facts shows all their bundles exactly when, since the facts last changed, no step
      has carried the cursor past an eligible site without a current bundle, or completed the day without one. */
  lemma PublishedDayIsWholeExactlyWhen(w: World, steps: seq<Step>, n: nat)
    requires n <= |steps| && Published(w) && PositiveIds(w)
    requires Run(w, steps, n).day.complete && Run(w, steps, n).day.revision == Run(w, steps, n).facts
    ensures Whole(Run(w, steps, n)) <==> NobodySkipped(w, steps, n)
  {
    if NobodySkipped(w, steps, n) { UnskippedHistoryIsPublished(w, steps, n); }
    if Whole(Run(w, steps, n)) { WholeMeansNobodySkipped(w, steps, n); }
  }

  lemma WholeMeansNobodySkipped(w: World, steps: seq<Step>, n: nat)
    requires n <= |steps| && Whole(Run(w, steps, n))
    ensures NobodySkipped(w, steps, n)
  {
    hide Act, Run, Skips, Whole;
    forall i | 0 <= i < n && Run(w, steps, i).facts == Run(w, steps, n).facts ensures !Skips(Run(w, steps, i), steps[i]) {
      if Skips(Run(w, steps, i), steps[i]) {
        SkipIsNeverMended(w, steps, i, n);
        assert false;
      }
    }
  }

  lemma SkipIsNeverMended(w: World, steps: seq<Step>, i: nat, n: nat)
    requires i < n <= |steps| && Run(w, steps, i).facts == Run(w, steps, n).facts && Skips(Run(w, steps, i), steps[i])
    ensures !Whole(Run(w, steps, n))
  {
    hide Act, Run, Skips, Whole, Missed;
    var before, s := Run(w, steps, i), steps[i];
    var x := SkippedIsMissed(before, s);
    OneAct(w, steps, i + 1);
    assert Run(w, steps, i + 1) == Act(before, s);
    MissedUntilTheFactsChange(w, steps, i + 1, n, x);
    MissedIsNotWhole(Run(w, steps, n), x);
  }

  lemma MissedIsNotWhole(w: World, x: int)
    ensures Missed(w, x) ==> !Whole(w)
  {
  }

  /** An up-to-date worker skips nobody. */
  lemma UpToDateSkipsNobody(w: World, s: Step)
    requires Sound(w) && UpToDate(w, s)
    ensures !Skips(w, s)
  {
    if Passes(w, s) || Completes(w, s) {
      assert ListOk(w, s.worker);
      if Passes(w, s) { ListSkipsNone(w, s.worker); }
    }
  }

  // -------------------------------------------------------------- one worker at a time

  predicate Serial(w: World) {
    forall t, u :: t in w.workers && u in w.workers ==> t == u
  }

  /** A lone worker's list is always up to date: only a prepare moves the day's revision. */
  ghost predicate LoneWorkerUpToDate(w: World) {
    forall t :: t in w.workers && w.workers[t].Listed? ==> w.workers[t].rev == w.day.revision
  }

  lemma LoneStep(w: World, s: Step)
    requires LoneWorkerUpToDate(w) && Serial(w) && Serial(Act(w, s))
    ensures LoneWorkerUpToDate(Act(w, s)) && UpToDate(w, s)
  {
    var next := Act(w, s);
    assert s.Prepare? ==> next == w || (s.worker !in w.workers && s.worker in next.workers && w.workers.Keys <= next.workers.Keys);
  }

  /** So when calls never overlap, whatever is interrupted and whatever changes meanwhile, publication is whole. */
  lemma {:induction false} SerialWorkersAreUpToDate(w: World, steps: seq<Step>, n: nat)
    requires n <= |steps| && LoneWorkerUpToDate(w) && forall i :: 0 <= i <= n ==> Serial(Run(w, steps, i))
    ensures LoneWorkerUpToDate(Run(w, steps, n)) && AlwaysUpToDate(w, steps, n)
  {
    hide Serial, LoneWorkerUpToDate, UpToDate, Act;
    if n > 0 {
      SerialWorkersAreUpToDate(w, steps, n - 1);
      assert Serial(Run(w, steps, n - 1)) && Serial(Run(w, steps, n));
      LoneStep(Run(w, steps, n - 1), steps[n - 1]);
    }
  }

  // -------------------------------------------------------------- overlapping workers

  const TwoSites := map[1 := {1, 2}, 2 := {1, 2}]
  const Before := World(Day(map[], 0, 0, false), 1, TwoSites, map[])
  const Overlap: seq<Step> := [
    Prepare(7), List(7, [1, 2], true), Finalize(7, true),   // the first worker has done site 1
    Change(2), Prepare(8),                                  // the facts change and a second worker starts the day over
    Finalize(7, true), Publish(7)]                          // the first worker carries on with its old list

  const Restarted := World(Day(map[1 := Bundle(false, 1)], 2, 0, false), 2, TwoSites, map[7 := Listed(1, [2], true), 8 := Prepared])

  const HalfDone := World(Day(map[1 := Bundle(false, 1)], 1, 1, false), 1, TwoSites, map[7 := Listed(1, [2], true)])

  lemma FirstWorkerIsHalfDone()
    ensures Run(Before, Overlap, 3) == HalfDone
  {
  }

  lemma SecondWorkerRestarts()
    ensures Run(Before, Overlap, 5) == Restarted
  {
    FirstWorkerIsHalfDone();
    OneAct(Before, Overlap, 4);
    OneAct(Before, Overlap, 5);
    hide Run, IsList, PublishDay, FinalizeSite;
    assert Run(Before, Overlap, 4) == HalfDone.(facts := 2);
  }

  const CarriedOn := World(
    Day(map[1 := Bundle(false, 1), 2 := Bundle(false, 2)], 2, 2, false), 2, TwoSites, map[7 := Listed(1, [], true), 8 := Prepared])

  lemma FinalizedByFirst()
    ensures Act(Restarted, Finalize(7, true)) == CarriedOn && !UpToDate(Restarted, Finalize(7, true))
  {
    hide IsList, PublishDay, PrepareDay;
    assert [2][1..] == [];
    assert Eligible(Restarted) == {1, 2};
  }

  lemma FirstWorkerCarriesOn()
    ensures Run(Before, Overlap, 6) == CarriedOn && !UpToDate(Run(Before, Overlap, 5), Overlap[5])
  {
    SecondWorkerRestarts();
    OneAct(Before, Overlap, 6);
    FinalizedByFirst();
    hide Run, Act, UpToDate;
  }

  /** The site transaction compares the cursor but not the revision, so a worker with an outdated list can carry the
      new revision's cursor past sites nobody has done again, and publish: site 1 is final but was made before the change. */
  lemma OutdatedWorkerPublishesStaleBundle()
    ensures var w := Run(Before, Overlap);
            && w.day.complete && w.day.revision == w.facts == 2 && Eligible(w) == {1, 2}
            && 1 in w.day.bundles && w.day.bundles[1] == Bundle(true, 1)
    ensures Sound(Before) && !UpToDate(Run(Before, Overlap, 5), Overlap[5]) && Skips(Run(Before, Overlap, 5), Overlap[5])
  {
    NothingYet();
    SecondWorkerRestarts();
    FirstWorkerCarriesOn();
    assert Skips(Restarted, Overlap[5]) by { FirstSiteIsSkipped(); }
    OneAct(Before, Overlap, 7);
    hide Run, IsList, Sound, UpToDate, FinalizeSite, PrepareDay, Act, Skips;
    var published := PublishDay(CarriedOn.day, 2, {1, 2});
    assert published.Ok? && published.value.complete && published.value.bundles[1] == Bundle(true, 1);
    assert Act(CarriedOn, Overlap[6]).day == published.value by { PublishedByFirst(); }
    assert Act(CarriedOn, Overlap[6]).facts == 2 && Act(CarriedOn, Overlap[6]).eligible == TwoSites by { PublishedByFirst(); }
  }

  lemma FirstSiteIsSkipped()
    ensures Skips(Restarted, Finalize(7, true))
  {
    assert 1 in Eligible(Restarted) && !Current(Restarted, 1);
  }

  lemma PublishedByFirst()
    ensures var next := Act(CarriedOn, Publish(7));
            && PublishDay(CarriedOn.day, 2, {1, 2}).Ok? && next.day == PublishDay(CarriedOn.day, 2, {1, 2}).value
            && next.facts == 2 && next.eligible == TwoSites
  {
  }

  lemma NothingYet()
    ensures Sound(Before)
  {
  }
}
