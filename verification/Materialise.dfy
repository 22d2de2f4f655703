/** Crash-safe creation of a run's windows: chunked inserts that ignore existing rows, and one final
    transaction that publishes the set only if it is exactly the expected one. */
module Materialise {
  import opened Prelude
  import opened CollectionRun

  const HOUR := 3600

  datatype Key = Key(site: int, hour: int)

  predicate KeyLess(a: Key, b: Key) {
    a.site < b.site || (a.site == b.site && a.hour < b.hour)
  }

  /** The part of a run that materialisation reads, and its window rows by unique (site, hour). */
  datatype Draft = Draft(status: Status, initialised: bool, total: int, rows: map<Key, Status>)

  // ---------------------------------------------------------------- the expected keys

  /** `hour_ts` values from `start` up to, not including, `end`. */
  function Hours(start: int, end: int): (hours: seq<int>)
    ensures forall i :: 0 <= i < |hours| ==> hours[i] == start + i * HOUR
    ensures |hours| == if end <= start then 0 else (end - start + HOUR - 1) / HOUR
    decreases end - start
  {
    if end <= start then [] else [start] + Hours(start + HOUR, end)
  }

  /** The keys of one site for the given hours. */
  function SiteKeys(site: int, hours: seq<int>): seq<Key> {
    seq(|hours|, i requires 0 <= i < |hours| => Key(site, hours[i]))
  }

  /** The keys of an account or customer run: every hour of every site of its scope. */
  function ScopeKeys(sites: seq<int>, hours: seq<int>, n: nat := |sites|): seq<Key>
    requires n <= |sites|
  {
    if n == 0 then [] else ScopeKeys(sites, hours, n - 1) + SiteKeys(sites[n - 1], hours)
  }

  /** The hours of a site run that only fills gaps: those whose fact is not settled yet. */
  function OpenHours(hours: seq<int>, settled: set<int>, n: nat := |hours|): seq<int>
    requires n <= |hours|
  {
    if n == 0 then []
    else
      var earlier := OpenHours(hours, settled, n - 1);
      if hours[n - 1] in settled then earlier else earlier + [hours[n - 1]]
  }

  ghost predicate Increasing(values: seq<int>) {
    forall i, j :: 0 <= i < j < |values| ==> values[i] < values[j]
  }

  ghost predicate Ascending(keys: seq<Key>) {
    forall i, j :: 0 <= i < j < |keys| ==> KeyLess(keys[i], keys[j])
  }

  /** Sites times whole-hour steps, each once, in (site, hour) order. */
  lemma {:induction false} ScopeKeysAreOrdered(sites: seq<int>, hours: seq<int>, n: nat := |sites|)
    requires n <= |sites| && Increasing(sites) && Increasing(hours)
    ensures var keys := ScopeKeys(sites, hours, n);
            && |keys| == n * |hours| && Ascending(keys)
            && (forall k :: 0 <= k < |keys| ==> exists j :: 0 <= j < n && keys[k].site == sites[j])
            && (forall site, hour :: Key(site, hour) in keys <==> site in sites[..n] && hour in hours)
  {
    if n == 0 {
      assert 0 * |hours| == 0;
    } else {
      ScopeKeysAreOrdered(sites, hours, n - 1);
      assert n * |hours| == (n - 1) * |hours| + |hours|;
      var earlier, last := ScopeKeys(sites, hours, n - 1), SiteKeys(sites[n - 1], hours);
      assert sites[..n] == sites[..n - 1] + [sites[n - 1]];
      forall site, hour ensures Key(site, hour) in last <==> site == sites[n - 1] && hour in hours {
        if site == sites[n - 1] && hour in hours {
          var i :| 0 <= i < |hours| && hours[i] == hour;
          assert last[i] == Key(site, hour);
        }
      }
    }
  }

  lemma {:induction false} OpenHoursAreTheUnsettledOnes(hours: seq<int>, settled: set<int>, n: nat := |hours|)
    requires n <= |hours| && Increasing(hours)
    ensures var open := OpenHours(hours, settled, n);
            Increasing(open) && forall hour :: hour in open <==> hour !in settled && exists i :: 0 <= i < n && hours[i] == hour
  {
    if n > 0 {
      OpenHoursAreTheUnsettledOnes(hours, settled, n - 1);
      var earlier, last := OpenHours(hours, settled, n - 1), hours[n - 1];
      forall k | 0 <= k < |earlier| ensures earlier[k] < last {
        assert earlier[k] in earlier;
      }
      assert OpenHours(hours, settled, n) == if last in settled then earlier else earlier + [last];
      hide OpenHours;
    }
  }

  function KeySet(keys: seq<Key>, n: nat := |keys|): set<Key>
    requires n <= |keys|
  {
    set i | 0 <= i < n :: keys[i]
  }

  lemma {:induction false} AscendingKeysAreDistinct(keys: seq<Key>, n: nat := |keys|)
    requires Ascending(keys) && n <= |keys|
    ensures |KeySet(keys, n)| == n
  {
    if n > 0 {
      AscendingKeysAreDistinct(keys, n - 1);
      OneMoreKey(keys, n);
      hide KeySet, Ascending;
    }
  }

  lemma OneMoreKey(keys: seq<Key>, n: nat)
    requires Ascending(keys) && 0 < n <= |keys|
    ensures KeySet(keys, n) == KeySet(keys, n - 1) + {keys[n - 1]} && keys[n - 1] !in KeySet(keys, n - 1)
  {
    forall i | 0 <= i < n - 1 ensures keys[i] != keys[n - 1] {
      assert KeyLess(keys[i], keys[n - 1]);
    }
  }

  // ---------------------------------------------------------------- the two transactions

  predicate Open(d: Draft) { d.status.Pending? && !d.initialised }

  /** Inserts one chunk, leaving rows that already exist as they are. */
  function Insert(rows: map<Key, Status>, chunk: set<Key>): map<Key, Status> {
    map key | key in rows.Keys + chunk :: if key in rows then rows[key] else Pending
  }

  /** `expected` was computed when the attempt began, `current` again under the locks. */
  function InsertChunk(d: Draft, expected: seq<Key>, current: seq<Key>, from: nat, to: nat): Outcome<Draft>
    requires from <= to <= |expected|
  {
    if !Open(d) then Fail(ClaimLost)
    else if expected != current then Fail(Contract)
    else Ok(d.(rows := Insert(d.rows, KeySet(expected, to) - KeySet(expected, from))))
  }

  predicate AllPending(rows: map<Key, Status>) {
    forall key :: key in rows ==> rows[key].Pending?
  }

  /** The final step publishes the rows only if they are exactly the expected keys, all pending. */
  function Publish(d: Draft, expected: seq<Key>, current: seq<Key>): Outcome<Draft> {
    if !Open(d) then Fail(ClaimLost)
    else if expected != current || |d.rows| != |expected| || d.rows.Keys != KeySet(expected) || !AllPending(d.rows) then Fail(Contract)
    else Ok(d.(initialised := true, total := |expected|))
  }

  // ---------------------------------------------------------------- any sequence of attempts

  /** A site fence fails the open run together with its open windows. */
  function AbortDraft(d: Draft): Draft {
    if !d.status.Pending? then d
    else d.(status := Failed, rows := map key | key in d.rows :: if d.rows[key].Pending? then Failed else d.rows[key])
  }

  /** One transaction of one attempt, or a fence; attempts of any number of workers may stop and overlap anywhere. */
  datatype Move =
    | AddChunk(expected: seq<Key>, current: seq<Key>, from: nat, to: nat)
    | Finish(expected: seq<Key>, current: seq<Key>)
    | Fence

  function Apply(d: Draft, m: Move): Draft {
    match m
    case AddChunk(expected, current, from, to) =>
      if from <= to <= |expected| && InsertChunk(d, expected, current, from, to).Ok?
      then InsertChunk(d, expected, current, from, to).value else d
    case Finish(expected, current) =>
      if Publish(d, expected, current).Ok? then Publish(d, expected, current).value else d
    case Fence => AbortDraft(d)
  }

  /** Every attempt is made under the expectation `keys`. */
  ghost predicate Under(keys: seq<Key>, moves: seq<Move>) {
    forall i :: 0 <= i < |moves| ==> moves[i].Fence? || moves[i].current == keys
  }

  function Play(d: Draft, moves: seq<Move>, n: nat := |moves|): Draft
    requires n <= |moves|
  {
    if n == 0 then d else Apply(Play(d, moves, n - 1), moves[n - 1])
  }

  predicate Blank(d: Draft) {
    d == Draft(Pending, false, 0, map[])
  }

  /** Whatever attempts are interrupted, repeated or interleaved, with any batch sizes, and whenever a fence fails the run:
      the rows stay among the expected keys, and pending until then, and an initialised run has all of them. */
  lemma {:induction false} MaterialisationIsCrashSafe(d: Draft, moves: seq<Move>, keys: seq<Key>, n: nat := |moves|)
    requires Blank(d) && n <= |moves| && Under(keys, moves)
    ensures var result := Play(d, moves, n);
            && result.rows.Keys <= KeySet(keys) && (result.status.Pending? ==> AllPending(result.rows))
            && (result.initialised ==> result.rows.Keys == KeySet(keys) && result.total == |keys|)
  {
    if n > 0 { MaterialisationIsCrashSafe(d, moves, keys, n - 1); }
  }

  /** Even when the expectation changes between transactions, what gets published is exactly the
      expectation of the publishing moment, and it never changes afterwards. */
  lemma {:induction false} PublishedSetIsExact(d: Draft, moves: seq<Move>, n: nat := |moves|)
    requires Blank(d) && n <= |moves| && Play(d, moves, n).initialised
    ensures exists i :: 0 <= i < n && moves[i].Finish? && Play(d, moves, n).rows.Keys == KeySet(moves[i].current)
                        && Play(d, moves, n).total == |moves[i].current|
    ensures Play(d, moves, n).status.Pending? ==> AllPending(Play(d, moves, n).rows)
  {
    if n > 0 && Play(d, moves, n - 1).initialised {
      PublishedSetIsExact(d, moves, n - 1);
    }
  }

  /** A row outside the current expectation is never removed, so no later attempt under that
      expectation can publish the run. */
  lemma {:induction false} StrayRowBlocksPublication(d: Draft, moves: seq<Move>, stray: Key, keys: seq<Key>, from: nat, n: nat := |moves|)
    requires from <= n <= |moves| && !Play(d, moves, from).initialised && stray in Play(d, moves, from).rows
    requires stray !in KeySet(keys) && forall i :: from <= i < |moves| ==> moves[i].Fence? || moves[i].current == keys
    ensures !Play(d, moves, n).initialised && stray in Play(d, moves, n).rows
    decreases n
  {
    if n > from { StrayRowBlocksPublication(d, moves, stray, keys, from, n - 1); }
  }

  /** Two hours are missing and inserted; then the first is settled, so that only the second is expected. However often the
      run is attempted from then on, it is never initialised. */
  lemma SettledHourBlocksPublication(moves: seq<Move>, n: nat)
    requires |moves| > 0 && moves[0] == AddChunk(TwoHours, TwoHours, 0, 2) && 0 < n <= |moves|
    requires forall i :: 1 <= i < |moves| ==> moves[i].Fence? || moves[i].current == SiteKeys(7, OpenHours([3600, 7200], {3600}))
    ensures !Play(NewDraft, moves, n).initialised && Key(7, 3600) in Play(NewDraft, moves, n).rows
    ensures Blank(NewDraft) && SiteKeys(7, OpenHours([3600, 7200], {})) == TwoHours
  {
    assert Play(NewDraft, moves, 0) == NewDraft;
    assert TwoHours[0] in KeySet(TwoHours, 2);
    assert Key(7, 3600) in Play(NewDraft, moves, 1).rows;
    OneHourStaysOpen();
    StrayRowBlocksPublication(NewDraft, moves, Key(7, 3600), [Key(7, 7200)], 1, n);
  }

  const NewDraft := Draft(Pending, false, 0, map[])
  const TwoHours := [Key(7, 3600), Key(7, 7200)]

  lemma OneHourStaysOpen()
    ensures SiteKeys(7, OpenHours([3600, 7200], {3600})) == [Key(7, 7200)]
    ensures SiteKeys(7, OpenHours([3600, 7200], {})) == TwoHours
  {
    var hours := [3600, 7200];
    assert OpenHours(hours, {3600}, 0) == [] && OpenHours(hours, {}, 0) == [];
    assert OpenHours(hours, {3600}, 1) == [] && OpenHours(hours, {}, 1) == [3600];
    assert OpenHours(hours, {3600}, 2) == [7200] && OpenHours(hours, {}, 2) == [3600, 7200];
  }

  // ---------------------------------------------------------------- the queue takes the published windows

  function Windows(keys: seq<Key>, ids: seq<int>): seq<Window>
    requires |ids| == |keys|
  {
    seq(|keys|, i requires 0 <= i < |keys| =>
      Window(ids[i], keys[i].site, keys[i].hour, Pending, 0, None, Nothing, "", None))
  }

  /** Publication makes the run claimable with one pending window per expected key, and finishes at
      once the run that has nothing to do. */
  lemma PublicationInitialisesTheRun(r: Run, now: int, keys: seq<Key>, ids: seq<int>)
    requires r.status.Pending? && !r.initialised && Windowed(r.task) && now > 0
    requires |ids| == |keys| && forall i, j :: 0 <= i < j < |ids| ==> ids[i] != ids[j]
    ensures InitialiseRun(r, now, Windows(keys, ids)).Ok?
    ensures var run := InitialiseRun(r, now, Windows(keys, ids)).value;
            && run.initialised && run.total == |keys| == |run.rows|
            && (forall i :: 0 <= i < |keys| ==> run.rows[i].site == keys[i].site && run.rows[i].hour == keys[i].hour)
            && (if keys == [] then run.status.Success? && !run.active else run.status.Pending? && run.nextAttempt == now)
  {
    var rows := Windows(keys, ids);
    CountsPartitionRows(rows);
    CountMeansPresence(rows, Success);
    CountMeansPresence(rows, Failed);
    CountMeansPresence(rows, Unavailable);
    CountMeansPresence(rows, Running);
    EarliestWakeIsTheLeastWake(rows, now);
  }

  // ---------------------------------------------------------------- one attempt as the program runs it

  lemma ChunksCompose(rows: map<Key, Status>, expected: seq<Key>, from: nat, to: nat)
    requires from <= to <= |expected|
    ensures Insert(Insert(rows, KeySet(expected, from)), KeySet(expected, to) - KeySet(expected, from)) == Insert(rows, KeySet(expected, to))
  {
  }

  /** After all chunks the final check passes exactly when no row was there that should not be. */
  lemma FinishPassesExactlyWhen(rows: map<Key, Status>, expected: seq<Key>)
    requires Ascending(expected)
    ensures var filled := Insert(rows, KeySet(expected));
            |filled| == |expected| && filled.Keys == KeySet(expected) && AllPending(filled) <==> rows.Keys <= KeySet(expected) && AllPending(rows)
  {
    var filled := Insert(rows, KeySet(expected));
    AscendingKeysAreDistinct(expected);
    assert |filled| == |filled.Keys|;
    assert filled.Keys == rows.Keys + KeySet(expected);
    if AllPending(filled) {
      forall key | key in rows ensures rows[key].Pending? { assert filled[key] == rows[key]; }
    }
  }

  class Materialiser {
    var draft: Draft

    constructor (draft: Draft)
      ensures this.draft == draft
    {
      this.draft := draft;
    }

    /** The keys of an account or customer run, site by site and hour by hour. */
    method ExpectedScopeKeys(sites: seq<int>, start: int, end: int) returns (keys: seq<Key>)
      ensures keys == ScopeKeys(sites, Hours(start, end))
    {
      keys := [];
      for i := 0 to |sites|
        invariant keys == ScopeKeys(sites, Hours(start, end), i)
      {
        var hour, step := start, 0;
        while hour < end
          invariant step <= |Hours(start, end)| && hour == start + step * HOUR
          invariant hour < end <==> step < |Hours(start, end)|
          invariant keys == ScopeKeys(sites, Hours(start, end), i) + SiteKeys(sites[i], Hours(start, end))[..step]
        {
          keys := keys + [Key(sites[i], hour)];
          hour, step := hour + HOUR, step + 1;
        }
        assert SiteKeys(sites[i], Hours(start, end))[..step] == SiteKeys(sites[i], Hours(start, end));
      }
    }

    /** One attempt while the expectation stays `expected`: inserts it in batches and publishes. The
        attempt may crash after `survives` batches; otherwise it succeeds exactly when the rows it
        found were all expected and pending. */
    method MaterializeRunWindows(expected: seq<Key>, requestedBatch: int, survives: nat) returns (reply: Outcome<Draft>, finished: bool)
      requires Ascending(expected)
      modifies this
      ensures finished ==> (reply.Ok? <==> Open(old(draft)) && old(draft.rows).Keys <= KeySet(expected) && AllPending(old(draft.rows)))
      ensures reply.Ok? ==> draft == reply.value && draft.initialised && draft.total == |expected| && draft.rows.Keys == KeySet(expected)
      ensures !reply.Ok? ==> draft.initialised == old(draft.initialised)
                             && old(draft.rows).Keys <= draft.rows.Keys <= old(draft.rows).Keys + KeySet(expected)
    {
      var batch := if requestedBatch <= 0 || requestedBatch > 1000 then 1000 else requestedBatch;
      finished := false;
      if !Open(draft) { return Fail(ClaimLost), true; }
      var offset, done := 0, 0;
      assert Insert(draft.rows, KeySet(expected, 0)) == draft.rows;
      while offset < |expected|
        invariant 0 <= offset && Open(draft) && draft == old(draft).(rows := Insert(old(draft.rows), KeySet(expected, Min(offset, |expected|))))
        decreases |expected| - offset
      {
        if done == survives { return Fail(NotReady), false; }
        var end := Min(offset + batch, |expected|);
        ChunksCompose(old(draft.rows), expected, offset, end);
        draft := InsertChunk(draft, expected, expected, offset, end).value;
        offset, done := offset + batch, done + 1;
      }
      if done == survives { return Fail(NotReady), false; }
      FinishPassesExactlyWhen(old(draft.rows), expected);
      reply, finished := Publish(draft, expected, expected), true;
      if reply.Ok? { draft := reply.value; }
    }
  }
}
