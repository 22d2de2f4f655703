/** The daily finalisation call as one worker makes it: prepare, a batch of sites by ascending id, and publication
    once the batch has reached the last site. */
module ResourceMaintenance {
  import opened Prelude
  import opened ResourcePublication

  class DailyMaintenance {
    var bundles: map<int, Bundle>
    var revision: int
    var cursor: int
    var complete: bool

    constructor ()
      ensures State() == Day(map[], 0, 0, false)
    {
      bundles, revision, cursor, complete := map[], 0, 0, false;
    }

    ghost function State(): Day
      reads this
    {
      Day(bundles, revision, cursor, complete)
    }

    /** For its own revision the day is whole up to the cursor, and published completely or not at all. */
    ghost predicate Whole(facts: int, sites: set<int>)
      reads this
    {
      revision == facts ==> forall s :: s in sites ==>
        && (s <= cursor || complete ==> s in bundles && bundles[s].made == facts)
        && (s in bundles ==> (bundles[s].final <==> complete))
    }

    ghost function Left(sites: set<int>): set<int>
      reads this
    {
      set s | s in sites && s > cursor
    }

    method Prepare(facts: int, sites: set<int>) returns (noOp: bool)
      modifies this
      ensures State() == PrepareDay(old(State()), facts, sites)
      ensures noOp <==> complete
    {
      if revision != facts {
        bundles := map s | s in bundles :: if s in sites then bundles[s].(final := false) else bundles[s];
        revision, cursor, complete := facts, 0, false;
      }
      noOp := complete;
    }

    method NextSites(sites: set<int>, limit: nat) returns (todo: seq<int>)
      ensures |todo| <= limit && IsList(sites, cursor, todo, |todo| < limit)
    {
      var rest := set s | s in sites && s > cursor;
      todo := [];
      while |todo| < limit && rest != {}
        invariant |todo| <= limit && Ascending(todo)
        invariant forall i :: 0 <= i < |todo| ==> todo[i] in sites && todo[i] > cursor
        invariant forall s :: s in rest ==> s in sites && s > cursor && forall i :: 0 <= i < |todo| ==> todo[i] < s
        invariant forall s :: s in sites && s > cursor ==> s in rest || s in todo
        decreases rest
      {
        var id := LeastId(rest);
        rest := rest - {id};
        todo := todo + [id];
      }
    }

    method RunSite(site: int, facts: int, sites: set<int>, passes: bool) returns (error: Option<Error>)
      modifies this
      ensures var reply := FinalizeSite(old(State()), facts, sites, site, passes);
              if reply.Ok? then error.None? && State() == reply.value else error == Some(reply.error) && State() == old(State())
    {
      error := None;
      if complete || cursor >= site { return; }
      if site !in sites { return Some(ConfigChanged); }
      if !passes { return Some(NotReady); }
      bundles := bundles[site := Bundle(false, facts)];
      cursor := site;
    }

    method Publish(facts: int, sites: set<int>) returns (error: Option<Error>)
      modifies this
      ensures var reply := PublishDay(old(State()), facts, sites);
              if reply.Ok? then error.None? && State() == reply.value else error == Some(reply.error) && State() == old(State())
    {
      if revision != facts || complete { return Some(ConfigChanged); }
      if exists s :: s in sites && s !in bundles { return Some(Contract); }
      if exists s :: s in sites && s in bundles && bundles[s].final { return Some(Contract); }
      bundles := map s | s in bundles :: if s in sites then bundles[s].(final := true) else bundles[s];
      complete := true;
      error := None;
    }

    /** One call. It ends the day for the given facts, advances by a full batch, or stops at the first site whose checks
        fail; whatever it does, readers see the whole day or nothing of it. */
    method FinalizeResourceDaily(facts: int, sites: set<int>, limit: int, passing: set<int>) returns (reply: Outcome<bool>)
      requires (forall s :: s in sites ==> s > 0) && Whole(facts, sites)
      modifies this
      ensures !(0 < limit <= MAX_BATCH) ==> reply == Outcome<bool>.Fail(Contract) && State() == old(State())
      ensures 0 < limit <= MAX_BATCH ==>
                && revision == facts && Whole(facts, sites) && (reply == Outcome<bool>.Ok(true) <==> complete)
                && (sites <= passing ==> reply.Ok?)
      ensures reply == Outcome<bool>.Ok(false) && old(revision) == facts ==> Left(sites) < old(Left(sites))
    {
      if limit <= 0 || limit > MAX_BATCH { return Outcome<bool>.Fail(Contract); }
      var noOp := Prepare(facts, sites);
      if noOp { return Outcome<bool>.Ok(true); }
      ghost var from := cursor;
      var todo := NextSites(sites, limit);
      var i := 0;
      while i < |todo|
        invariant 0 <= i <= |todo| && revision == facts && !complete
        invariant cursor == if i == 0 then from else todo[i - 1]
        invariant Whole(facts, sites)
      {
        var error := RunSite(todo[i], facts, sites, todo[i] in passing);
        if error.Some? { return Outcome<bool>.Fail(error.value); }
        i := i + 1;
      }
      if |todo| == limit {
        assert todo[|todo| - 1] in old(Left(sites)) || old(revision) != facts;
        return Outcome<bool>.Ok(false);
      }
      assert forall s :: s in sites ==> s <= cursor;
      var error := Publish(facts, sites);
      reply := if error.None? then Outcome<bool>.Ok(true) else Outcome<bool>.Fail(error.GetOr(Contract));
    }
  }
}
