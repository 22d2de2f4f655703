/** Repair of missing or outdated hourly rollup rows: the scan that finds them, the recheck before each repair,
    and the cursor that carries the scan from one batch to the next. */
module ResourceGap {
  import opened Prelude
  import opened ResourceRollup

  datatype Node = Node(lives: seq<Span>, samples: map<int, Sample>)

  /** A monitored site's minute facts; node names are numbered in their byte order. */
  datatype SiteFacts = SiteFacts(monitored: Span, pauses: seq<Span>, samples: map<int, Sample>, nodes: map<int, Node>)

  type Facts = map<int, SiteFacts>

  datatype Kind = InstanceHourly | SiteHourly

  /** An hourly row: of one node, or of the site as a whole (`node` is then 0). */
  datatype Key = Key(kind: Kind, site: int, node: int, bucket: int)

  predicate Known(facts: Facts, k: Key) {
    k.site in facts && (if k.kind.InstanceHourly? then k.node in facts[k.site].nodes else k.node == 0)
  }

  function SiteSubject(f: SiteFacts): Subject { Subject(f.monitored, f.pauses, None, f.samples) }

  function NodeSubject(f: SiteFacts, node: int): Subject
    requires node in f.nodes
  {
    Subject(f.monitored, f.pauses, Some(f.nodes[node].lives), f.nodes[node].samples)
  }

  function SubjectOf(facts: Facts, k: Key): Subject
    requires Known(facts, k)
  {
    if k.kind.InstanceHourly? then NodeSubject(facts[k.site], k.node) else SiteSubject(facts[k.site])
  }

  /** The three columns the scan and the recheck compare. */
  datatype Triple = Triple(samples: int, expected: int, status: DataStatus)

  function TripleOf(r: Row): Triple { Triple(r.samples, r.expected, r.status) }

  // -------------------------------------------------------------- recheck and scan

  /** The recheck looks at the sixty minutes of the bucket, each once. */
  function Truth(facts: Facts, k: Key): Triple
    requires Known(facts, k)
  {
    TripleOf(HourRow(SubjectOf(facts, k), k.bucket))
  }

  function Covering(lives: seq<Span>, t: int, n: nat := |lives|): nat
    requires n <= |lives|
  {
    if n == 0 then 0 else Covering(lives, t, n - 1) + if In(lives[n - 1], t) then 1 else 0
  }

  /** The scan joins minutes with lifecycle intervals, so a minute counts once per interval that holds it, and
      only minutes of the scanned range count at all. */
  function Weight(s: Subject, start: int, end: int, t: int): nat {
    if t < start || end <= t then 0
    else if s.lives.Some? then Covering(s.lives.value, t)
    else 1
  }

  function ScanCount(s: Subject, tally: Tally, start: int, end: int, bucket: int, n: nat := 60): nat {
    if n == 0 then 0
    else
      var t := bucket + 60 * (n - 1);
      ScanCount(s, tally, start, end, bucket, n - 1) + if Counts(s, tally, t) then Weight(s, start, end, t) else 0
  }

  function ScanTriple(s: Subject, start: int, end: int, bucket: int): Triple {
    var samples, expected := ScanCount(s, SampledMinutes, start, end, bucket), ScanCount(s, ExpectedMinutes, start, end, bucket);
    Triple(samples, expected, StatusOf(samples, expected))
  }

  lemma {:induction false} CoveringMeansAlive(lives: seq<Span>, t: int, n: nat)
    requires n <= |lives|
    ensures Covering(lives, t, n) > 0 <==> exists i :: 0 <= i < n && In(lives[i], t)
  {
    if n > 0 { CoveringMeansAlive(lives, t, n - 1); }
  }

  ghost predicate Disjoint(lives: seq<Span>) {
    forall i, j, t :: 0 <= i < j < |lives| && In(lives[i], t) ==> !In(lives[j], t)
  }

  lemma {:induction false} DisjointCoversOnce(lives: seq<Span>, t: int, n: nat)
    requires n <= |lives| && Disjoint(lives)
    ensures Covering(lives, t, n) <= 1
  {
    if n > 0 {
      DisjointCoversOnce(lives, t, n - 1);
      CoveringMeansAlive(lives, t, n - 1);
    }
  }

  /** Every expected minute of the bucket has weight one. */
  ghost predicate CountedOnce(s: Subject, start: int, end: int, bucket: int, n: nat := 60) {
    forall i :: 0 <= i < n && Expected(s, bucket + 60 * i) ==> Weight(s, start, end, bucket + 60 * i) == 1
  }

  lemma {:induction false} CountedOnceAgrees(s: Subject, tally: Tally, start: int, end: int, bucket: int, n: nat)
    requires CountedOnce(s, start, end, bucket, n)
    ensures ScanCount(s, tally, start, end, bucket, n) == Count(s, tally, bucket, n)
  {
    if n > 0 { CountedOnceAgrees(s, tally, start, end, bucket, n - 1); }
  }

  /** When no expected minute is over-counted, or none is under-counted, the expected count is right only if each counts once. */
  lemma {:induction false} OnlyCountedOnceAgrees(s: Subject, start: int, end: int, bucket: int, n: nat, over: bool)
    requires forall i :: 0 <= i < n && Expected(s, bucket + 60 * i) ==>
               if over then Weight(s, start, end, bucket + 60 * i) >= 1 else Weight(s, start, end, bucket + 60 * i) <= 1
    ensures if over then ScanCount(s, ExpectedMinutes, start, end, bucket, n) >= Count(s, ExpectedMinutes, bucket, n)
            else ScanCount(s, ExpectedMinutes, start, end, bucket, n) <= Count(s, ExpectedMinutes, bucket, n)
    ensures ScanCount(s, ExpectedMinutes, start, end, bucket, n) == Count(s, ExpectedMinutes, bucket, n) ==> CountedOnce(s, start, end, bucket, n)
  {
    if n > 0 { OnlyCountedOnceAgrees(s, start, end, bucket, n - 1, over); }
  }

  ghost predicate KnownOnce(s: Subject) {
    s.lives.Some? ==> Disjoint(s.lives.value)
  }

  /** For disjoint lifecycles the scan and the recheck agree on a bucket exactly when no expected minute of it lies
      outside the scanned range. */
  lemma ScanAgreesExactlyInside(s: Subject, start: int, end: int, bucket: int)
    requires KnownOnce(s)
    ensures ScanTriple(s, start, end, bucket) == TripleOf(HourRow(s, bucket)) <==>
              forall i :: 0 <= i < 60 && Expected(s, bucket + 60 * i) ==> start <= bucket + 60 * i < end
  {
    forall i | 0 <= i < 60 && Expected(s, bucket + 60 * i)
      ensures Weight(s, start, end, bucket + 60 * i) == if start <= bucket + 60 * i < end then 1 else 0
    {
      if s.lives.Some? {
        DisjointCoversOnce(s.lives.value, bucket + 60 * i, |s.lives.value|);
        CoveringMeansAlive(s.lives.value, bucket + 60 * i, |s.lives.value|);
      }
    }
    AgreesExactlyWhenCountedOnce(s, start, end, bucket, false);
    hide Expected, Weight, ScanTriple;
    if CountedOnce(s, start, end, bucket) {
      forall i | 0 <= i < 60 && Expected(s, bucket + 60 * i) ensures start <= bucket + 60 * i < end {
        assert Weight(s, start, end, bucket + 60 * i) == 1;
      }
    }
  }

  lemma AgreesExactlyWhenCountedOnce(s: Subject, start: int, end: int, bucket: int, over: bool)
    requires forall i :: 0 <= i < 60 && Expected(s, bucket + 60 * i) ==>
               if over then Weight(s, start, end, bucket + 60 * i) >= 1 else Weight(s, start, end, bucket + 60 * i) <= 1
    ensures ScanTriple(s, start, end, bucket) == TripleOf(HourRow(s, bucket)) <==> CountedOnce(s, start, end, bucket)
  {
    OnlyCountedOnceAgrees(s, start, end, bucket, 60, over);
    if CountedOnce(s, start, end, bucket) {
      CountedOnceAgrees(s, SampledMinutes, start, end, bucket, 60);
      CountedOnceAgrees(s, ExpectedMinutes, start, end, bucket, 60);
    }
    hide Expected, Weight, CountedOnce, ScanCount, Count;
  }

  predicate WholeBucket(start: int, end: int, bucket: int) {
    bucket % 3600 == 0 && start <= bucket && bucket + 3600 <= end
  }

  /** With whole-hour bounds they agree exactly when no expected minute is in two known lifecycle intervals. */
  lemma ScanAgreesExactlyDisjoint(s: Subject, start: int, end: int, bucket: int)
    requires WholeBucket(start, end, bucket)
    ensures ScanTriple(s, start, end, bucket) == TripleOf(HourRow(s, bucket)) <==>
              forall i :: 0 <= i < 60 && Expected(s, bucket + 60 * i) && s.lives.Some? ==> Covering(s.lives.value, bucket + 60 * i) == 1
  {
    forall i | 0 <= i < 60 && Expected(s, bucket + 60 * i)
      ensures Weight(s, start, end, bucket + 60 * i) >= 1
      ensures Weight(s, start, end, bucket + 60 * i) == if s.lives.Some? then Covering(s.lives.value, bucket + 60 * i) else 1
    {
      if s.lives.Some? { CoveringMeansAlive(s.lives.value, bucket + 60 * i, |s.lives.value|); }
    }
    AgreesExactlyWhenCountedOnce(s, start, end, bucket, true);
    hide Expected, Weight, ScanTriple, Covering;
    if CountedOnce(s, start, end, bucket) {
      forall i | 0 <= i < 60 && Expected(s, bucket + 60 * i) && s.lives.Some? ensures Covering(s.lives.value, bucket + 60 * i) == 1 {
        assert Weight(s, start, end, bucket + 60 * i) == 1;
      }
    }
  }

  // -------------------------------------------------------------- scope and order

  predicate CoveredIn(s: Subject, start: int, end: int, bucket: int) {
    exists i :: 0 <= i < 60 && start <= bucket + 60 * i < end && Covered(s, bucket + 60 * i)
  }

  /** The rows a scan of [start, end) can propose: buckets with a covered minute. */
  predicate InScope(facts: Facts, start: int, end: int, k: Key) {
    Known(facts, k) && k.bucket % 3600 == 0 && CoveredIn(SubjectOf(facts, k), start, end, k.bucket)
  }

  function ScopeKeys(facts: Facts, start: int, end: int): (keys: set<Key>)
    ensures forall k :: k in keys <==> InScope(facts, start, end, k)
  {
    var instances := set site, node, bucket |
      site in facts && node in facts[site].nodes && start - 3600 <= bucket < end && InScope(facts, start, end, Key(InstanceHourly, site, node, bucket)) ::
      Key(InstanceHourly, site, node, bucket);
    var sites := set site, bucket |
      site in facts && start - 3600 <= bucket < end && InScope(facts, start, end, Key(SiteHourly, site, 0, bucket)) ::
      Key(SiteHourly, site, 0, bucket);
    assert forall k :: InScope(facts, start, end, k) ==> start - 3600 <= k.bucket < end;
    assert forall k :: InScope(facts, start, end, k) && k.kind.InstanceHourly? ==> k == Key(InstanceHourly, k.site, k.node, k.bucket);
    assert forall k :: InScope(facts, start, end, k) && k.kind.SiteHourly? ==> k == Key(SiteHourly, k.site, 0, k.bucket);
    instances + sites
  }

  function Order(kind: Kind): int { if kind.InstanceHourly? then 0 else 1 }

  /** The cursor's order, compared field by field. */
  predicate KeyBefore(a: Key, b: Key) {
    if Order(a.kind) != Order(b.kind) then Order(a.kind) < Order(b.kind)
    else if a.site != b.site then a.site < b.site
    else if a.node != b.node then a.node < b.node
    else a.bucket < b.bucket
  }

  lemma KeysAreTotallyOrdered(a: Key, b: Key, c: Key)
    ensures !KeyBefore(a, a) && (a == b || KeyBefore(a, b) || KeyBefore(b, a))
    ensures !(KeyBefore(a, b) && KeyBefore(b, a))
    ensures KeyBefore(a, b) && KeyBefore(b, c) ==> KeyBefore(a, c)
  {
  }

  predicate Beyond(cursor: Option<Key>, k: Key) {
    cursor.None? || KeyBefore(cursor.value, k)
  }

  type Table = map<Key, Row>

  /** The scan proposes a row that is missing or whose triple differs from the scan's own count. */
  predicate Proposed(facts: Facts, start: int, end: int, table: Table, k: Key)
    requires Known(facts, k)
  {
    k !in table || TripleOf(table[k]) != ScanTriple(SubjectOf(facts, k), start, end, k.bucket)
  }

  /** The row is there and its triple is the recheck's. */
  predicate Right(facts: Facts, table: Table, k: Key)
    requires Known(facts, k)
  {
    k in table && TripleOf(table[k]) == Truth(facts, k)
  }

  ghost predicate Sorted(keys: seq<Key>) {
    forall i, j :: 0 <= i < j < |keys| ==> KeyBefore(keys[i], keys[j])
  }

  /** The first `limit` members of `from`, in cursor order. */
  ghost predicate IsPage(from: set<Key>, limit: nat, page: seq<Key>) {
    && |page| <= limit && Sorted(page)
    && (forall i :: 0 <= i < |page| ==> page[i] in from)
    && (|page| < limit ==> forall k :: k in from ==> k in page)
    && (forall i, k :: 0 <= i < |page| && k in from && k !in page ==> KeyBefore(page[i], k))
  }

  /** The scan and the recheck agree on every row in scope. */
  ghost predicate Agree(facts: Facts, start: int, end: int) {
    forall k :: InScope(facts, start, end, k) ==> ScanTriple(SubjectOf(facts, k), start, end, k.bucket) == Truth(facts, k)
  }

  /** Which holds for whole-hour bounds and disjoint known lifecycles. */
  lemma AlignedScansAgree(facts: Facts, start: int, end: int)
    requires start % 3600 == 0 && end % 3600 == 0
    requires forall site, node :: site in facts && node in facts[site].nodes ==> Disjoint(facts[site].nodes[node].lives)
    ensures Agree(facts, start, end)
  {
    forall k | InScope(facts, start, end, k) ensures ScanTriple(SubjectOf(facts, k), start, end, k.bucket) == Truth(facts, k) {
      var s := SubjectOf(facts, k);
      BucketIsWhole(start, end, k.bucket, s);
      ScanAgreesExactlyInside(s, start, end, k.bucket);
    }
  }

  lemma BucketIsWhole(start: int, end: int, bucket: int, s: Subject)
    requires start % 3600 == 0 && end % 3600 == 0 && bucket % 3600 == 0 && CoveredIn(s, start, end, bucket)
    ensures WholeBucket(start, end, bucket)
  {
    var i :| 0 <= i < 60 && start <= bucket + 60 * i < end && Covered(s, bucket + 60 * i);
  }

  // -------------------------------------------------------------- the batch driver

  /** Every row in scope that the cursor has passed is right. */
  ghost predicate Progress(facts: Facts, start: int, end: int, table: Table, cursor: Option<Key>) {
    forall k :: InScope(facts, start, end, k) && !Beyond(cursor, k) ==> Right(facts, table, k)
  }

  /** Only rows of the range that were not right change, and they become the computed ones. */
  ghost predicate OnlyRepairs(facts: Facts, start: int, end: int, before: Table, after: Table) {
    && (forall k :: k in before ==> k in after)
    && (forall k :: k in after ==>
          (k in before && after[k] == before[k]) ||
          (InScope(facts, start, end, k) && !Right(facts, before, k) && after[k] == HourRow(SubjectOf(facts, k), k.bucket)))
  }

  /** Every row in scope is there with the recheck's triple. */
  ghost predicate Repaired(facts: Facts, start: int, end: int, table: Table) {
    forall k :: InScope(facts, start, end, k) ==> Right(facts, table, k)
  }

  /** A row in scope ends up as the row computed from the minutes exactly if it was not right before, or was that row. */
  ghost predicate RecomputedExactlyWhenWrong(facts: Facts, start: int, end: int, before: Table, after: Table) {
    forall k :: InScope(facts, start, end, k) ==>
      k in after && (IsComputed(facts, after, k) <==> !Right(facts, before, k) || IsComputed(facts, before, k))
  }

  predicate IsComputed(facts: Facts, table: Table, k: Key)
    requires Known(facts, k)
  {
    k in table && table[k] == HourRow(SubjectOf(facts, k), k.bucket)
  }

  /** A completed repair leaves outdated readings exactly where the three compared columns happened to be right. */
  lemma RepairRecomputesExactly(facts: Facts, start: int, end: int, before: Table, after: Table)
    requires OnlyRepairs(facts, start, end, before, after) && Repaired(facts, start, end, after)
    ensures RecomputedExactlyWhenWrong(facts, start, end, before, after)
  {
    hide HourRow;
    forall k | InScope(facts, start, end, k)
      ensures k in after && (IsComputed(facts, after, k) <==> !Right(facts, before, k) || IsComputed(facts, before, k))
    {
      assert Right(facts, after, k);
    }
  }

  /** The rows a scan from the cursor on proposes. */
  function Wanted(facts: Facts, start: int, end: int, table: Table, cursor: Option<Key>): (keys: set<Key>)
    ensures forall k :: k in keys <==> InScope(facts, start, end, k) && Beyond(cursor, k) && Proposed(facts, start, end, table, k)
  {
    set k | k in ScopeKeys(facts, start, end) && Beyond(cursor, k) && Proposed(facts, start, end, table, k)
  }

  /** The site query's own comparison, from the cursor or from the beginning. */
  predicate SiteBeyond(cursor: Option<Key>, k: Key) {
    var after := if cursor.Some? && cursor.value.kind.SiteHourly? then (cursor.value.site, cursor.value.bucket) else (0, 0);
    k.site > after.0 || (k.site == after.0 && k.bucket > after.1)
  }

  predicate CursorOk(cursor: Option<Key>) {
    cursor.Some? && cursor.value.kind.SiteHourly? ==> cursor.value.node == 0
  }

  lemma SiteQueryFollowsTheCursor(facts: Facts, cursor: Option<Key>, k: Key)
    requires CursorOk(cursor) && Known(facts, k) && k.kind.SiteHourly? && forall site :: site in facts ==> site > 0
    ensures SiteBeyond(cursor, k) <==> Beyond(cursor, k)
  {
  }

  /** A full page of the first kind, or all of it followed by a page of the second, is a page of both. */
  lemma PagesJoin(first: set<Key>, second: set<Key>, limit: nat, p: seq<Key>, q: seq<Key>)
    requires IsPage(first, limit, p)
    requires forall a, b :: a in first && b in second ==> KeyBefore(a, b) && a != b
    ensures |p| == limit ==> IsPage(first + second, limit, p)
    ensures |p| < limit && IsPage(second, limit - |p|, q) ==> IsPage(first + second, limit, p + q)
  {
  }

  class GapRepair {
    const facts: Facts
    const start: int
    const end: int
    var table: Table
    var revision: int
    var cursor: Option<Key>
    var complete: bool

    constructor (facts: Facts, start: int, end: int, table: Table, revision: int, cursor: Option<Key>, complete: bool)
      ensures this.facts == facts && this.start == start && this.end == end
      ensures this.table == table && this.revision == revision && this.cursor == cursor && this.complete == complete
    {
      this.facts, this.start, this.end := facts, start, end;
      this.table, this.revision, this.cursor, this.complete := table, revision, cursor, complete;
    }

    method Page(from: set<Key>, limit: nat) returns (page: seq<Key>)
      ensures IsPage(from, limit, page)
    {
      page := [];
      var rest := from;
      while |page| < limit && rest != {}
        invariant |page| <= limit && Sorted(page) && rest <= from
        invariant forall i :: 0 <= i < |page| ==> page[i] in from
        invariant forall k :: k in from <==> k in rest || k in page
        invariant forall i, k :: 0 <= i < |page| && k in rest ==> KeyBefore(page[i], k)
        decreases rest
      {
        hide KeyBefore;
        var least := LeastKey(rest);
        rest := rest - {least};
        page := page + [least];
      }
    }

    method LeastKey(keys: set<Key>) returns (least: Key)
      requires keys != {}
      ensures least in keys && forall k :: k in keys && k != least ==> KeyBefore(least, k)
    {
      least := PickKey(keys);
      var rest := keys - {least};
      while rest != {}
        invariant rest <= keys && least in keys && least !in rest
        invariant forall k :: k in keys && k !in rest && k != least ==> KeyBefore(least, k)
        decreases rest
      {
        var k := PickKey(rest);
        rest := rest - {k};
        forall other ensures KeyBefore(k, least) && KeyBefore(least, other) ==> KeyBefore(k, other) {
          KeysAreTotallyOrdered(k, least, other);
        }
        KeysAreTotallyOrdered(k, least, k);
        if KeyBefore(k, least) { least := k; }
      }
    }

    method PickKey(keys: set<Key>) returns (k: Key)
      requires keys != {}
      ensures k in keys
    {
      assert (forall x: Key :: x !in keys) ==> keys == {};
      k :| k in keys;
    }

    /** Node rows first; site rows fill what is left of the page, from the start unless the cursor is already among them. */
    method NextCandidates(limit: nat) returns (keys: seq<Key>)
      requires CursorOk(cursor) && forall site :: site in facts ==> site > 0
      ensures IsPage(Wanted(facts, start, end, table, cursor), limit, keys)
    {
      hide ScanTriple, CoveredIn;
      var wanted := Wanted(facts, start, end, table, cursor);
      var scope := ScopeKeys(facts, start, end);
      var instances: set<Key> := {};
      keys := [];
      if cursor.None? || cursor.value.kind.InstanceHourly? {
        instances := set k | k in scope && k.kind.InstanceHourly? && Beyond(cursor, k) && Proposed(facts, start, end, table, k);
        keys := Page(instances, limit);
      }
      var sites := set k | k in scope && k.kind.SiteHourly? && SiteBeyond(cursor, k) && Proposed(facts, start, end, table, k);
      assert wanted == instances + sites by {
        forall k | k in scope && k.kind.SiteHourly? ensures SiteBeyond(cursor, k) <==> Beyond(cursor, k) {
          SiteQueryFollowsTheCursor(facts, cursor, k);
        }
      }
      assert forall a, b :: a in instances && b in sites ==> KeyBefore(a, b) && a != b;
      hide IsPage, Wanted, InScope, Proposed, KeyBefore, SiteBeyond, Beyond;
      assert IsPage(instances, limit, keys);
      if |keys| >= limit {
        PagesJoin(instances, sites, limit, keys, []);
        return;
      }
      var more := Page(sites, limit - |keys|);
      PagesJoin(instances, sites, limit, keys, more);
      keys := keys + more;
    }

    /** What the stored cursor and status mean for their own revision, given that scan and recheck agree. */
    ghost predicate Consistent()
      reads this
    {
      Agree(facts, start, end) ==> Progress(facts, start, end, table, cursor) && (complete ==> Repaired(facts, start, end, table))
    }

    /** One candidate's transaction: the cursor must still be before it, and the row is computed anew only if the
        recheck finds it missing or different. */
    method RepairCandidate(k: Key) returns (error: Option<Error>)
      requires Known(facts, k)
      modifies this`table, this`cursor
      ensures error == if Beyond(old(cursor), k) then None else Some(ConfigChanged)
      ensures error.Some? ==> table == old(table) && cursor == old(cursor)
      ensures error.None? ==>
                && cursor == Some(k)
                && table == if Right(facts, old(table), k) then old(table) else old(table)[k := HourRow(SubjectOf(facts, k), k.bucket)]
    {
      if !Beyond(cursor, k) { return Some(ConfigChanged); }
      hide HourRow;
      var expected := Truth(facts, k);
      if k !in table || TripleOf(table[k]) != expected {
        table := table[k := HourRow(SubjectOf(facts, k), k.bucket)];
      }
      cursor := Some(k);
      error := None;
    }

    /** One candidate's transaction after the other, in the page's order. */
    method RunCandidates(keys: seq<Key>, limit: nat)
      requires keys != [] && IsPage(Wanted(facts, start, end, table, cursor), limit, keys)
      modifies this`table, this`cursor
      ensures cursor == Some(keys[|keys| - 1]) && OnlyRepairs(facts, start, end, old(table), table)
      ensures Agree(facts, start, end) && Progress(facts, start, end, old(table), old(cursor)) ==> Progress(facts, start, end, table, cursor)
    {
      hide InScope, Right, HourRow, KeyBefore, IsPage, Beyond, Agree, OnlyRepairs, Progress, Wanted;
      ghost var from, before := cursor, table;
      ghost var good := Agree(facts, start, end) && Progress(facts, start, end, table, cursor);
      NothingRepairedYet(facts, start, end, table);
      var i := 0;
      while i < |keys|
        invariant 0 <= i <= |keys|
        invariant cursor == if i == 0 then from else Some(keys[i - 1])
        invariant OnlyRepairs(facts, start, end, before, table) && (good ==> Progress(facts, start, end, table, cursor))
      {
        PageMember(facts, start, end, before, from, limit, keys, i);
        ghost var reached := table;
        var error := RepairCandidate(keys[i]);
        assert error.None?;
        CandidateAdvances(facts, start, end, before, from, limit, keys, i, reached, table, good);
        i := i + 1;
      }
    }

    /** One batch. A new revision starts over; a batch without candidates completes; otherwise the cursor advances. */
    method RepairBatch(current: int, limit: int) returns (error: Option<Error>)
      requires CursorOk(cursor) && forall site :: site in facts ==> site > 0
      modifies this`table, this`cursor, this`revision, this`complete
      ensures error == if 0 < limit <= MAX_BATCH then None else Some(Contract)
      ensures error.Some? ==> table == old(table) && cursor == old(cursor) && revision == old(revision) && complete == old(complete)
      ensures CursorOk(cursor)
      ensures error.None? ==> revision == current && OnlyRepairs(facts, start, end, old(table), table)
      ensures error.None? && (current != old(revision) || old(Consistent())) ==> Consistent()
      ensures error.None? && current == old(revision) && old(complete) ==> complete && table == old(table)
      ensures error.None? && !complete && current == old(revision) ==> Remaining(facts, start, end, cursor) < Remaining(facts, start, end, old(cursor))
    {
      if limit <= 0 || limit > MAX_BATCH { return Some(Contract); }
      hide InScope, Right, HourRow, KeyBefore, IsPage, Beyond, Agree, OnlyRepairs, Progress, Wanted, Remaining;
      error := None;
      NothingRepairedYet(facts, start, end, table);
      if revision != current {
        revision, cursor, complete := current, None, false;
        NothingPassedYet(facts, start, end, table);
      }
      if complete { return; }
      var keys := NextCandidates(limit);
      if keys == [] {
        if Agree(facts, start, end) && Progress(facts, start, end, table, cursor) { NothingProposed(facts, start, end, table, cursor, limit); }
        complete := true;
        return;
      }
      PageMember(facts, start, end, table, cursor, limit, keys, |keys| - 1);
      CursorAdvanced(facts, start, end, table, cursor, limit, keys);
      RunCandidates(keys, limit);
    }

    /** Batches until one completes: it terminates from any stored state. If that state was consistent, or of another
        revision, and scan and recheck agree, every row in scope ends up right, and is then the computed row exactly if
        it was not right before or was that row already. */
    method RepairAll(current: int, limit: int) returns (error: Option<Error>)
      requires CursorOk(cursor) && forall site :: site in facts ==> site > 0
      modifies this`table, this`cursor, this`revision, this`complete
      ensures error == if 0 < limit <= MAX_BATCH then None else Some(Contract)
      ensures error.Some? ==> table == old(table) && cursor == old(cursor) && revision == old(revision) && complete == old(complete)
      ensures error.None? ==> complete && revision == current && OnlyRepairs(facts, start, end, old(table), table)
      ensures error.None? && Agree(facts, start, end) && (current != old(revision) || old(Consistent())) ==>
                Repaired(facts, start, end, table) && RecomputedExactlyWhenWrong(facts, start, end, old(table), table)
    {
      hide InScope, Right, HourRow, Beyond, Agree, OnlyRepairs, Repaired, Progress;
      ghost var good := current != revision || Consistent();
      error := RepairBatch(current, limit);
      if error.Some? { return; }
      while !complete
        invariant error.None? && CursorOk(cursor) && revision == current && OnlyRepairs(facts, start, end, old(table), table)
        invariant good ==> Consistent()
        decreases !complete, Remaining(facts, start, end, cursor)
      {
        ghost var reached := table;
        error := RepairBatch(current, limit);
        RepairsCompose(facts, start, end, old(table), reached, table);
      }
      if Agree(facts, start, end) && good {
        RepairRecomputesExactly(facts, start, end, old(table), table);
      }
    }
  }

  /** The rows in scope that the cursor has still to pass. */
  function Remaining(facts: Facts, start: int, end: int, cursor: Option<Key>): set<Key> {
    set k | k in ScopeKeys(facts, start, end) && Beyond(cursor, k)
  }

  lemma NothingPassedYet(facts: Facts, start: int, end: int, table: Table)
    ensures Progress(facts, start, end, table, None)
  {
  }

  lemma NothingRepairedYet(facts: Facts, start: int, end: int, table: Table)
    ensures OnlyRepairs(facts, start, end, table, table)
  {
  }

  lemma RepairsKeepRight(facts: Facts, start: int, end: int, before: Table, after: Table, k: Key)
    requires OnlyRepairs(facts, start, end, before, after) && Known(facts, k) && Right(facts, before, k)
    ensures Right(facts, after, k)
  {
  }

  lemma RepairsCompose(facts: Facts, start: int, end: int, a: Table, b: Table, c: Table)
    requires OnlyRepairs(facts, start, end, a, b) && OnlyRepairs(facts, start, end, b, c)
    ensures OnlyRepairs(facts, start, end, a, c)
  {
  }

  lemma OneRepair(facts: Facts, start: int, end: int, before: Table, reached: Table, after: Table, k: Key)
    requires OnlyRepairs(facts, start, end, before, reached) && InScope(facts, start, end, k)
    requires after == if Right(facts, reached, k) then reached else reached[k := HourRow(SubjectOf(facts, k), k.bucket)]
    ensures OnlyRepairs(facts, start, end, before, after)
  {
    hide HourRow;
    assert OnlyRepairs(facts, start, end, reached, after);
    RepairsCompose(facts, start, end, before, reached, after);
  }

  lemma NothingProposed(facts: Facts, start: int, end: int, table: Table, cursor: Option<Key>, limit: nat)
    requires limit > 0 && Agree(facts, start, end) && Progress(facts, start, end, table, cursor)
    requires IsPage(Wanted(facts, start, end, table, cursor), limit, [])
    ensures Repaired(facts, start, end, table)
  {
  }

  lemma PageMember(facts: Facts, start: int, end: int, table: Table, from: Option<Key>, limit: nat, keys: seq<Key>, i: nat)
    requires IsPage(Wanted(facts, start, end, table, from), limit, keys) && i < |keys|
    ensures InScope(facts, start, end, keys[i]) && Beyond(from, keys[i])
    ensures i > 0 ==> KeyBefore(keys[i - 1], keys[i])
    ensures Beyond(if i == 0 then from else Some(keys[i - 1]), keys[i])
    ensures CursorOk(Some(keys[i]))
  {
  }

  /** Passing one candidate passes only it and rows that were right all along, if scan and recheck agree (`good`). */
  lemma CandidateAdvances(facts: Facts, start: int, end: int, before: Table, from: Option<Key>, limit: nat, keys: seq<Key>, i: nat,
                          reached: Table, after: Table, good: bool)
    requires IsPage(Wanted(facts, start, end, before, from), limit, keys) && i < |keys|
    requires OnlyRepairs(facts, start, end, before, reached) && InScope(facts, start, end, keys[i])
    requires good ==> Agree(facts, start, end) && Progress(facts, start, end, reached, if i == 0 then from else Some(keys[i - 1]))
    requires after == if Right(facts, reached, keys[i]) then reached else reached[keys[i] := HourRow(SubjectOf(facts, keys[i]), keys[i].bucket)]
    ensures OnlyRepairs(facts, start, end, before, after)
    ensures good ==> Progress(facts, start, end, after, Some(keys[i]))
  {
    hide HourRow, ScanTriple, InScope;
    var cursor := if i == 0 then from else Some(keys[i - 1]);
    assert OnlyRepairs(facts, start, end, reached, after);
    OneRepair(facts, start, end, before, reached, after, keys[i]);
    if good {
      forall k | InScope(facts, start, end, k) && !Beyond(Some(keys[i]), k) ensures Right(facts, after, k) {
        assert Known(facts, k) by { ScopeIsKnown(facts, start, end, k); }
        if k == keys[i] {
        } else if !Beyond(cursor, k) {
          RepairsKeepRight(facts, start, end, reached, after, k);
        } else {
          SkippedIsNotWanted(facts, start, end, before, from, limit, keys, i, k);
          RepairsKeepRight(facts, start, end, before, after, k);
        }
      }
    }
  }

  lemma ScopeIsKnown(facts: Facts, start: int, end: int, k: Key)
    requires InScope(facts, start, end, k)
    ensures Known(facts, k)
  {
  }

  lemma SkippedIsNotWanted(facts: Facts, start: int, end: int, before: Table, from: Option<Key>, limit: nat, keys: seq<Key>, i: nat, k: Key)
    requires Agree(facts, start, end) && IsPage(Wanted(facts, start, end, before, from), limit, keys) && i < |keys|
    requires InScope(facts, start, end, k) && k != keys[i] && !KeyBefore(keys[i], k) && Beyond(if i == 0 then from else Some(keys[i - 1]), k)
    ensures Right(facts, before, k)
  {
    hide ScanTriple, CoveredIn;
    KeysAreTotallyOrdered(keys[i], k, k);
    PageMember(facts, start, end, before, from, limit, keys, i);
    if i > 0 && from.Some? {
      PageMember(facts, start, end, before, from, limit, keys, i - 1);
      KeysAreTotallyOrdered(from.value, keys[i - 1], k);
    }
    assert Beyond(from, k);
    if k in keys {
      var j :| 0 <= j < |keys| && keys[j] == k;
      NotBetween(keys, i, j);
    }
    assert k !in Wanted(facts, start, end, before, from);
  }

  lemma NotBetween(keys: seq<Key>, i: nat, j: nat)
    requires Sorted(keys) && i < |keys| && j < |keys| && j != i
    ensures j < i ==> i > 0 && (j == i - 1 || KeyBefore(keys[j], keys[i - 1])) && !KeyBefore(keys[i - 1], keys[j])
    ensures j > i ==> KeyBefore(keys[i], keys[j])
  {
  }

  lemma CursorAdvanced(facts: Facts, start: int, end: int, table: Table, from: Option<Key>, limit: nat, keys: seq<Key>)
    requires IsPage(Wanted(facts, start, end, table, from), limit, keys) && keys != []
    ensures Remaining(facts, start, end, Some(keys[|keys| - 1])) < Remaining(facts, start, end, from)
  {
    var last := keys[|keys| - 1];
    PageMember(facts, start, end, table, from, limit, keys, |keys| - 1);
    hide InScope;
    KeysAreTotallyOrdered(last, last, last);
    forall k | k in Remaining(facts, start, end, Some(last)) ensures k in Remaining(facts, start, end, from) {
      if from.Some? { KeysAreTotallyOrdered(from.value, last, k); }
    }
    assert last in Remaining(facts, start, end, from) && last !in Remaining(facts, start, end, Some(last));
  }

  // -------------------------------------------------------------- outdated readings

  /** The same minutes have samples, whatever these read. */
  ghost predicate SameMinutes(a: Subject, b: Subject) {
    a.monitored == b.monitored && a.pauses == b.pauses && a.lives == b.lives && a.samples.Keys == b.samples.Keys
  }

  lemma {:induction false} SameMinutesSameCount(a: Subject, b: Subject, tally: Tally, base: int, n: nat)
    requires SameMinutes(a, b) && (tally.ExpectedMinutes? || tally.SampledMinutes?)
    ensures Count(a, tally, base, n) == Count(b, tally, base, n)
  {
    if n > 0 { SameMinutesSameCount(a, b, tally, base, n - 1); }
  }

  /** Samples that are rewritten with other readings make no right row wrong and no wrong row right. */
  lemma CorrectionsAreInvisible(before: Facts, corrected: Facts, table: Table, k: Key)
    requires Known(before, k) && Known(corrected, k) && SameMinutes(SubjectOf(before, k), SubjectOf(corrected, k))
    ensures Right(before, table, k) <==> Right(corrected, table, k)
  {
    var a, b := SubjectOf(before, k), SubjectOf(corrected, k);
    SameMinutesSameCount(a, b, SampledMinutes, k.bucket, 60);
    SameMinutesSameCount(a, b, ExpectedMinutes, k.bucket, 60);
    hide Count, MaxOver, AvgOver, LastOver, InstanceMaxOver;
  }

  /** One site, monitored for one minute, with one sample of its disk. */
  function OneSample(disk: real): Facts {
    map[1 := SiteFacts(Span(0, Some(60)), [], map[0 := Sample(None, None, None, None, Some(disk), 1, true, Health.Ok)], map[])]
  }

  const FirstHour := Key(SiteHourly, 1, 0, 0)

  lemma {:induction false} OneSampleIsLast(disk: real, n: nat)
    requires n > 0
    ensures LastOver(SubjectOf(OneSample(disk), FirstHour), Disk, 0, n) == Some(disk)
  {
    var s := SubjectOf(OneSample(disk), FirstHour);
    if n > 1 { OneSampleIsLast(disk, n - 1); } else {
      assert Sampled(s, 0);
      assert ReadingAt(s, Disk, 0 + 60 * (n - 1)) == Some(disk);
    }
  }

  const OutdatedTable: Table := map[FirstHour := HourRow(SubjectOf(OneSample(50.0), FirstHour), 0)]

  lemma OutdatedRowIsRight()
    ensures Right(OneSample(60.0), OutdatedTable, FirstHour) && OutdatedTable[FirstHour].diskLast == Some(50.0)
    ensures HourRow(SubjectOf(OneSample(60.0), FirstHour), 0).diskLast == Some(60.0)
  {
    OneSampleIsLast(50.0, 60);
    OneSampleIsLast(60.0, 60);
    CorrectionsAreInvisible(OneSample(50.0), OneSample(60.0), OutdatedTable, FirstHour);
    hide Count, MaxOver, AvgOver, LastOver, InstanceMaxOver;
  }

  lemma RightRowsStay(facts: Facts, start: int, end: int, before: Table, after: Table, k: Key)
    requires OnlyRepairs(facts, start, end, before, after) && Known(facts, k) && Right(facts, before, k)
    ensures k in after && after[k] == before[k]
  {
  }

  /** The row was computed when the sample read 50; the sample was then corrected to 60. A full repair keeps the 50. */
  method OutdatedReadingExample() returns (table: Table)
    ensures FirstHour in table && table[FirstHour].diskLast == Some(50.0)
    ensures HourRow(SubjectOf(OneSample(60.0), FirstHour), 0).diskLast == Some(60.0)
  {
    hide *;
    OutdatedRowIsRight();
    var facts := OneSample(60.0);
    assert Known(facts, FirstHour) && (forall site :: site in facts ==> site > 0) by { OneKnownSite(); }
    var repair := new GapRepair(facts, 0, 3600, OutdatedTable, 1, None, false);
    assert CursorOk(None) by { NoCursorIsOk(); }
    var error := repair.RepairAll(2, 100);
    table := repair.table;
    RightRowsStay(facts, 0, 3600, OutdatedTable, table, FirstHour);
  }

  lemma OneKnownSite()
    ensures Known(OneSample(60.0), FirstHour) && forall site :: site in OneSample(60.0) ==> site > 0
  {
  }

  lemma NoCursorIsOk()
    ensures CursorOk(None)
  {
  }
}
