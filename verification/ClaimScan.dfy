/** The order in which runs are offered to a claim, and the keyset pages that walk through it. */
module ClaimScan {
  import opened Prelude
  import opened CollectionRun

  const MAX_INT64 := 9223372036854775807

  /** The non-null ascending sort components of a run, in order of significance. */
  datatype SortKey = SortKey(priority: int, initialStart: int, end: int, createdWithoutStart: int, nextAttempt: int, createdAt: int, id: int)

  /** The key the database sorts and compares by: the CASE expressions of the ORDER BY. */
  function SqlKey(id: int, r: Run): SortKey {
    SortKey(
      0 - r.priority,
      if r.priority == INITIAL_BACKFILL && r.start.Some? then r.start.value else -1,
      if r.priority != INITIAL_BACKFILL && r.end.Some? then 0 - r.end.value else MAX_INT64,
      if r.start.None? then r.createdAt else -1,
      r.nextAttempt, r.createdAt, id)
  }

  /** The cursor the program rebuilds from the last run of a page: defaults, then three overrides. */
  function CursorOf(id: int, r: Run): (key: SortKey)
    ensures key == SqlKey(id, r)
  {
    var base := SortKey(-r.priority, -1, MAX_INT64, -1, r.nextAttempt, r.createdAt, id);
    var started := if r.priority == INITIAL_BACKFILL && r.start.Some? then base.(initialStart := r.start.value) else base;
    var ended := if r.priority != INITIAL_BACKFILL && r.end.Some? then started.(end := -r.end.value) else started;
    if r.start.None? then ended.(createdWithoutStart := r.createdAt) else ended
  }

  /** Row-value comparison `(a1, ..., a7) < (b1, ..., b7)`. */
  predicate Less(a: SortKey, b: SortKey) {
    || a.priority < b.priority
    || (a.priority == b.priority &&
        (|| a.initialStart < b.initialStart
         || (a.initialStart == b.initialStart &&
             (|| a.end < b.end
              || (a.end == b.end &&
                  (|| a.createdWithoutStart < b.createdWithoutStart
                   || (a.createdWithoutStart == b.createdWithoutStart &&
                       (|| a.nextAttempt < b.nextAttempt
                        || (a.nextAttempt == b.nextAttempt &&
                            (a.createdAt < b.createdAt || (a.createdAt == b.createdAt && a.id < b.id)))))))))))
  }

  /** Keys of different runs are always strictly ordered one way. */
  lemma KeysAreStrictlyTotallyOrdered(a: SortKey, b: SortKey, c: SortKey)
    ensures !Less(a, a)
    ensures Less(a, b) && Less(b, c) ==> Less(a, c)
    ensures a.id != b.id ==> Less(a, b) != Less(b, a)
    ensures a == b || Less(a, b) || Less(b, a)
  {
  }

  datatype ClaimOptions = ClaimOptions(
    tasks: set<TaskType>, priority: Option<int>, excluded: Option<int>, now: int, request: string, maxWindow: int, scanLimit: int)

  /** The limits actually used, whatever the caller asked for. */
  function Normalised(o: ClaimOptions): (n: ClaimOptions)
    ensures 1 <= n.scanLimit <= 256
    ensures 1 <= n.maxWindow <= if o.priority == Some(INITIAL_BACKFILL) then 2048 else 24
  {
    var most := if o.priority == Some(INITIAL_BACKFILL) then 2048 else 24;
    o.(maxWindow := if o.maxWindow <= 0 || o.maxWindow > most then most else o.maxWindow,
       scanLimit := if o.scanLimit <= 0 || o.scanLimit > 256 then 64 else o.scanLimit)
  }

  predicate Matches(o: ClaimOptions, r: Run) {
    && r.status.Pending? && r.initialised && r.nextAttempt <= o.now && r.task in o.tasks
    && (o.priority.Some? ==> r.priority == o.priority.value)
    && (o.excluded.Some? ==> r.priority != o.excluded.value)
  }

  predicate After(cursor: Option<SortKey>, key: SortKey) {
    cursor.Some? ==> Less(cursor.value, key)
  }

  function Selected(runs: map<int, Run>, o: ClaimOptions, cursor: Option<SortKey>): set<int> {
    set id | id in runs && Matches(o, runs[id]) && After(cursor, SqlKey(id, runs[id]))
  }

  ghost predicate Sorted(runs: map<int, Run>, page: seq<int>) {
    && (forall i :: 0 <= i < |page| ==> page[i] in runs)
    && (forall i, j :: 0 <= i < j < |page| ==> Less(SqlKey(page[i], runs[page[i]]), SqlKey(page[j], runs[page[j]])))
  }

  /** What one page query returns: the first rows after the cursor, in key order, up to the limit. */
  ghost predicate IsPage(runs: map<int, Run>, o: ClaimOptions, cursor: Option<SortKey>, limit: nat, page: seq<int>) {
    && Sorted(runs, page) && |page| <= limit
    && (forall i :: 0 <= i < |page| ==> page[i] in Selected(runs, o, cursor))
    && (forall id :: id in Selected(runs, o, cursor) && id !in page ==>
          |page| == limit && forall i :: 0 <= i < |page| ==> Less(SqlKey(page[i], runs[page[i]]), SqlKey(id, runs[id])))
  }

  // ---------------------------------------------------------------- paging while the table changes

  function CursorBefore(tables: seq<map<int, Run>>, pages: seq<seq<int>>, i: nat): Option<SortKey>
    requires |tables| == |pages| && i < |pages|
  {
    if i == 0 || pages[i - 1] == [] then None
    else
      var last := pages[i - 1][|pages[i - 1]| - 1];
      if last in tables[i - 1] then Some(CursorOf(last, tables[i - 1][last])) else None
  }

  /** A whole scan: page `i` is read from the table as it is then; every page but the last is full. */
  ghost predicate IsScan(tables: seq<map<int, Run>>, o: ClaimOptions, limit: nat, pages: seq<seq<int>>) {
    && |tables| == |pages| > 0 && limit > 0
    && (forall i :: 0 <= i < |pages| ==> IsPage(tables[i], o, CursorBefore(tables, pages, i), limit, pages[i]))
    && (forall i :: 0 <= i < |pages| ==> (|pages[i]| == limit <==> i < |pages| - 1))
  }

  /** The run stays in the table, selectable and with one unchanged key, during the whole scan. */
  ghost predicate Stays(tables: seq<map<int, Run>>, o: ClaimOptions, id: int, key: SortKey) {
    forall i :: 0 <= i < |tables| ==> id in tables[i] && Matches(o, tables[i][id]) && SqlKey(id, tables[i][id]) == key
  }

  function KeyAt(tables: seq<map<int, Run>>, pages: seq<seq<int>>, i: nat, k: nat): SortKey
    requires |tables| == |pages| && i < |pages| && k < |pages[i]| && pages[i][k] in tables[i]
  {
    SqlKey(pages[i][k], tables[i][pages[i][k]])
  }

  /** The cursor after page `j` is the greatest key of that page and lies after the cursor before it. */
  ghost predicate EndsPage(tables: seq<map<int, Run>>, pages: seq<seq<int>>, j: nat)
    requires |tables| == |pages| && j + 1 < |pages|
  {
    var n := |pages[j]| - 1;
    && n >= 0 && pages[j][n] in tables[j]
    && CursorBefore(tables, pages, j + 1) == Some(KeyAt(tables, pages, j, n))
    && After(CursorBefore(tables, pages, j), KeyAt(tables, pages, j, n))
    && forall k :: 0 <= k < n ==> pages[j][k] in tables[j] && Less(KeyAt(tables, pages, j, k), KeyAt(tables, pages, j, n))
  }

  lemma CursorEndsPage(tables: seq<map<int, Run>>, o: ClaimOptions, limit: nat, pages: seq<seq<int>>, j: nat)
    requires IsScan(tables, o, limit, pages) && j + 1 < |pages|
    ensures EndsPage(tables, pages, j)
  {
  }

  /** A key that was returned is not after any later cursor. */
  lemma {:induction false} CursorsGrow(tables: seq<map<int, Run>>, pages: seq<seq<int>>, i: nat, j: nat, k: nat)
    requires |tables| == |pages| && forall m: nat :: m + 1 < |pages| ==> EndsPage(tables, pages, m)
    requires i < j < |pages| && k < |pages[i]| && pages[i][k] in tables[i]
    ensures CursorBefore(tables, pages, j).Some? && !Less(CursorBefore(tables, pages, j).value, KeyAt(tables, pages, i, k))
    decreases j
  {
    hide Less, SqlKey, CursorBefore;
    assert EndsPage(tables, pages, j - 1);
    var key, cursor := KeyAt(tables, pages, i, k), CursorBefore(tables, pages, j).value;
    if i < j - 1 {
      CursorsGrow(tables, pages, i, j - 1, k);
      KeysAreStrictlyTotallyOrdered(CursorBefore(tables, pages, j - 1).value, cursor, key);
    } else {
      KeysAreStrictlyTotallyOrdered(key, cursor, key);
    }
  }

  /** A run that stays is not returned again by a later page. */
  lemma NeverReturnedAgain(tables: seq<map<int, Run>>, o: ClaimOptions, limit: nat, pages: seq<seq<int>>, id: int, key: SortKey, i: nat, j: nat)
    requires IsScan(tables, o, limit, pages) && Stays(tables, o, id, key)
    requires i < j < |pages| && id in pages[i]
    ensures id !in pages[j]
  {
    hide Less, SqlKey, Matches;
    var k :| 0 <= k < |pages[i]| && pages[i][k] == id;
    forall m: nat | m + 1 < |pages| ensures EndsPage(tables, pages, m) { CursorEndsPage(tables, o, limit, pages, m); }
    CursorsGrow(tables, pages, i, j, k);
    assert IsPage(tables[j], o, CursorBefore(tables, pages, j), limit, pages[j]);
    assert id !in Selected(tables[j], o, CursorBefore(tables, pages, j));
  }

  lemma ReturnedOncePerPage(runs: map<int, Run>, page: seq<int>, k: nat, m: nat)
    requires Sorted(runs, page) && k < |page| && m < |page| && page[k] == page[m]
    ensures k == m
  {
  }

  /** A run that stays is returned at or after any page whose cursor has not passed it. */
  lemma {:induction false} VisitedEventually(tables: seq<map<int, Run>>, o: ClaimOptions, limit: nat, pages: seq<seq<int>>, id: int, key: SortKey, i: nat)
    requires IsScan(tables, o, limit, pages) && Stays(tables, o, id, key)
    requires i < |pages| && After(CursorBefore(tables, pages, i), key)
    ensures exists j :: i <= j < |pages| && id in pages[j]
    decreases |pages| - i
  {
    hide Less, SqlKey, Matches;
    assert IsPage(tables[i], o, CursorBefore(tables, pages, i), limit, pages[i]);
    assert id in Selected(tables[i], o, CursorBefore(tables, pages, i));
    if id !in pages[i] {
      assert |pages[i]| == limit && i < |pages| - 1;
      VisitedEventually(tables, o, limit, pages, id, key, i + 1);
    }
  }

  /** Paging with any limit returns every run that stays pending with an unchanged key exactly once,
      even while other runs leave, arrive or move between the pages. */
  lemma ScanVisitsExactlyOnce(tables: seq<map<int, Run>>, o: ClaimOptions, limit: nat, pages: seq<seq<int>>, id: int, key: SortKey)
      returns (i: nat, k: nat)
    requires IsScan(tables, o, limit, pages) && Stays(tables, o, id, key)
    ensures i < |pages| && k < |pages[i]| && pages[i][k] == id
    ensures forall j, m :: 0 <= j < |pages| && 0 <= m < |pages[j]| && pages[j][m] == id ==> j == i && m == k
  {
    hide Less, SqlKey, Matches;
    VisitedEventually(tables, o, limit, pages, id, key, 0);
    i :| 0 <= i < |pages| && id in pages[i];
    k :| 0 <= k < |pages[i]| && pages[i][k] == id;
    forall j, m | 0 <= j < |pages| && 0 <= m < |pages[j]| && pages[j][m] == id ensures j == i && m == k {
      if i < j {
        NeverReturnedAgain(tables, o, limit, pages, id, key, i, j);
      } else if j < i {
        NeverReturnedAgain(tables, o, limit, pages, id, key, j, i);
      } else {
        ReturnedOncePerPage(tables[i], pages[i], k, m);
      }
    }
  }
}
