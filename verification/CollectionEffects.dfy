/** What an accepted claim and an accepted report do to the windows, in the terms of the caller. */
module CollectionEffects {
  import opened Prelude
  import opened CollectionRun
  import opened CollectionHistory

  // ---------------------------------------------------------------- which windows a claim takes

  function AheadIn(all: set<Window>, w: Window): set<Window> {
    set v | v in all && Ahead(v, w)
  }

  /** The members with fewer than `limit` others ahead of them. */
  function Foremost(all: set<Window>, limit: int): set<Window> {
    set w | w in all && |AheadIn(all, w)| < limit
  }

  /** No two windows tie, as windows of one run never do. */
  ghost predicate Ranked(all: set<Window>) {
    forall v, w :: v in all && w in all && v != w ==> Ahead(v, w) || Ahead(w, v)
  }

  /** A member with everybody else ahead of it. */
  lemma {:induction false} Hindmost(all: set<Window>) returns (last: Window)
    requires all != {} && Ranked(all)
    ensures last in all && forall v :: v in all && v != last ==> Ahead(v, last)
    decreases |all|
  {
    var w :| w in all;
    var rest := all - {w};
    assert forall v :: v in all ==> v == w || v in rest;
    if rest == {} {
      last := w;
    } else {
      var other := Hindmost(rest);
      assert Ahead(w, other) || Ahead(other, w);
      last := if Ahead(w, other) then other else w;
      forall v | v in all && v != last ensures Ahead(v, last) {
        assert v == w || v == other || Ahead(v, other);
      }
    }
  }

  /** Taking the foremost `limit` members takes exactly that many, or all of them. */
  lemma {:induction false} ForemostCount(all: set<Window>, limit: nat)
    requires Ranked(all)
    ensures |Foremost(all, limit)| == Min(limit, |all|)
    decreases |all|
  {
    if all == {} {
      assert Foremost(all, limit) == {};
    } else {
      var last := Hindmost(all);
      var rest := all - {last};
      ForemostCount(rest, limit);
      assert AheadIn(all, last) == rest;
      forall w | w in rest ensures AheadIn(all, w) == AheadIn(rest, w) {
        assert Ahead(w, last);
      }
      assert Foremost(all, limit) == if |rest| < limit then Foremost(rest, limit) + {last} else Foremost(rest, limit);
    }
  }

  function TakeableRows(rows: seq<Window>, now: int, locked: set<int>): set<Window> {
    set w | w in rows && Takeable(w, now, locked)
  }

  lemma IdsNameRows(rows: seq<Window>)
    requires DistinctRows(rows)
    ensures forall v, w :: v in rows && w in rows && v.id == w.id ==> v == w
  {
    forall v, w | v in rows && w in rows && v.id == w.id ensures v == w {
      var i, j :| 0 <= i < |rows| && rows[i] == v && 0 <= j < |rows| && rows[j] == w;
    }
  }

  lemma ChosenAreTheForemost(rows: seq<Window>, now: int, locked: set<int>, limit: int)
    ensures Chosen(rows, now, locked, limit) == set w | w in Foremost(TakeableRows(rows, now, locked), limit) :: w.id
  {
    var all := TakeableRows(rows, now, locked);
    forall w | w in all ensures AheadIn(all, w) == set v | v in rows && Takeable(v, now, locked) && Ahead(v, w) {}
  }

  /** Every member of `done` is ahead of every other member of `all`. */
  ghost predicate Leads(done: set<Window>, all: set<Window>) {
    done <= all && forall v, w :: v in done && w in all && w !in done ==> Ahead(v, w)
  }

  /** The foremost of the rest is the next of the foremost. */
  lemma NextIsForemost(all: set<Window>, done: set<Window>, next: Window, limit: int)
    requires Leads(done, all) && |done| < limit && next in all && next !in done
    requires forall w :: w in all && w !in done && w != next ==> Ahead(next, w)
    ensures next in Foremost(all, limit) && Leads(done + {next}, all)
  {
    assert AheadIn(all, next) == done;
  }

  lemma LimitReached(all: set<Window>, done: set<Window>, limit: int)
    requires Leads(done, all) && done <= Foremost(all, limit) && (done == all || |done| >= limit)
    ensures done == Foremost(all, limit)
  {
    forall w | w in all && w !in done ensures w !in Foremost(all, limit) {
      SubsetIsNoLarger(done, AheadIn(all, w));
    }
  }

  /** A claim takes due unlocked windows only, the newest hours first and the higher id first within an hour, and as
      many as the limit allows. */
  lemma ClaimTakesTheNewestDue(rows: seq<Window>, now: int, locked: set<int>, limit: nat)
    requires DistinctRows(rows)
    ensures var chosen := Chosen(rows, now, locked, limit);
            && |chosen| == Min(limit, |TakeableRows(rows, now, locked)|)
            && (forall w :: w in rows && w.id in chosen ==> Due(w, now) && w.id !in locked)
            && (forall v, w :: v in rows && w in rows && w.id in chosen && Takeable(v, now, locked) && Ahead(v, w) ==> v.id in chosen)
  {
    var all, chosen := TakeableRows(rows, now, locked), Chosen(rows, now, locked, limit);
    IdsNameRows(rows);
    assert Ranked(all);
    ForemostCount(all, limit);
    ChosenAreTheForemost(rows, now, locked, limit);
    SameSize(Foremost(all, limit), chosen);
    forall v, w | v in rows && w in rows && w.id in chosen && Takeable(v, now, locked) && Ahead(v, w) ensures v.id in chosen {
      assert w in Foremost(all, limit);
      assert AheadIn(all, v) <= AheadIn(all, w);
      SubsetIsNoLarger(AheadIn(all, v), AheadIn(all, w));
      assert v in Foremost(all, limit);
    }
  }

  lemma SubsetIsNoLarger(a: set<Window>, b: set<Window>)
    requires a <= b
    ensures |a| <= |b|
  {
    assert |b| == |a| + |b - a| by { assert b == a + (b - a); }
  }

  lemma {:induction false} SameSize(windows: set<Window>, ids: set<int>)
    requires forall v, w :: v in windows && w in windows && v.id == w.id ==> v == w
    requires ids == set w | w in windows :: w.id
    ensures |ids| == |windows|
    decreases |windows|
  {
    if windows != {} {
      var w :| w in windows;
      var rest, others := windows - {w}, ids - {w.id};
      assert others == set v | v in rest :: v.id;
      SameSize(rest, others);
    }
  }

  // ---------------------------------------------------------------- what an accepted report stores

  ghost predicate Stored(o: WindowResult, w: Window, now: int) {
    && w.attempts == o.attempt && w.status == o.status && w.nextRetry == o.nextRetry
    && w.volume == o.volume && w.errorCode == o.errorCode && (w.finishedAt == if o.status.Terminal() then Some(now) else None)
  }

  /** An accepted commit puts every reported outcome on the window it names, and touches no other window. */
  lemma AcceptedReportsAreStored(r: Run, request: string, now: int, results: seq<WindowResult>, i: nat)
    requires CommitRun(r, request, now, results).Ok? && i < |r.rows|
    ensures var after := CommitRun(r, request, now, results).value.rows;
            && |after| == |r.rows| && after[i].id == r.rows[i].id
            && (forall k :: 0 <= k < |results| && results[k].windowId == r.rows[i].id ==> Stored(results[k], after[i], now))
            && ((forall k :: 0 <= k < |results| ==> results[k].windowId != r.rows[i].id) ==> after[i] == r.rows[i])
  {
    forall k | 0 <= k < |results| ensures results[k].windowId in ById(results) && ById(results)[results[k].windowId] == results[k] {
      ByIdKeepsResults(results, k);
    }
  }
}
