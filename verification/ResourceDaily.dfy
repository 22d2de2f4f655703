/** Daily finalisation of one site: the known node hours, the daily rows built from the hourly ones, and the six
    checks that must pass before the day may be published. */
module ResourceDaily {
  import opened Prelude
  import opened ResourceRollup
  import opened ResourceGap

  // -------------------------------------------------------------- known node hours

  /** A node and an hour. */
  datatype NodeHour = NodeHour(node: int, hour: int)

  /** The part of a lifecycle interval inside the site's monitored span and the day, by end points. */
  function FirstOf(f: SiteFacts, life: Span, start: int): int {
    Max(Max(life.from, start), f.monitored.from)
  }

  function LimitOf(f: SiteFacts, life: Span, end: int): int {
    var limit := if f.monitored.to.Some? then Min(f.monitored.to.value, end) else end;
    if life.to.Some? then Min(life.to.value, limit) else limit
  }

  /** The hour starts the loop visits for one interval. */
  predicate Visits(from: int, to: int, hour: int) {
    from < to && hour % 3600 == 0 && FloorHour(from) <= hour < to
  }

  predicate VisitedFor(f: SiteFacts, start: int, end: int, node: int, hour: int) {
    && node in f.nodes
    && (exists i :: 0 <= i < |f.nodes[node].lives|
                    && Visits(FirstOf(f, f.nodes[node].lives[i], start), LimitOf(f, f.nodes[node].lives[i], end), hour))
  }

  /** Walks every interval of every node hour by hour; an hour met twice is kept once. */
  method KnownNodeHours(f: SiteFacts, start: int, end: int) returns (nodes: set<int>, tuples: set<NodeHour>)
    ensures forall t :: t in tuples <==> VisitedFor(f, start, end, t.node, t.hour)
    ensures forall n :: n in nodes <==> exists t :: t in tuples && t.node == n
  {
    nodes, tuples := {}, {};
    var rest := f.nodes.Keys;
    while rest != {}
      invariant rest <= f.nodes.Keys
      invariant forall t :: t in tuples <==> t.node !in rest && VisitedFor(f, start, end, t.node, t.hour)
      invariant forall n :: n in nodes <==> exists t :: t in tuples && t.node == n
      decreases rest
    {
      var node := LeastId(rest);
      ghost var before := tuples;
      var hours := HoursOfNode(f, node, start, end);
      var found := set hour | hour in hours :: NodeHour(node, hour);
      rest, tuples := rest - {node}, tuples + found;
      if hours != {} {
        var hour := Pick(hours);
        assert NodeHour(node, hour) in tuples;
        nodes := nodes + {node};
      }
      forall t ensures t in tuples <==> t in before || (t.node == node && t.hour in hours) {
        assert t.node == node && t.hour in hours ==> t == NodeHour(node, t.hour);
      }
    }
  }

  method HoursOfNode(f: SiteFacts, node: int, start: int, end: int) returns (hours: set<int>)
    requires node in f.nodes
    ensures forall hour :: hour in hours <==> VisitedFor(f, start, end, node, hour)
  {
    hours := {};
    var lives := f.nodes[node].lives;
    for i := 0 to |lives|
      invariant forall hour :: hour in hours <==>
                  exists j :: 0 <= j < i && Visits(FirstOf(f, lives[j], start), LimitOf(f, lives[j], end), hour)
    {
      var from := lives[i].from;
      if from < start { from := start; }
      if from < f.monitored.from { from := f.monitored.from; }
      var to := end;
      if f.monitored.to.Some? && f.monitored.to.value < to { to := f.monitored.to.value; }
      if lives[i].to.Some? && lives[i].to.value < to { to := lives[i].to.value; }
      if from < to {
        var more := HoursOfRange(from, to);
        hours := hours + more;
      }
    }
  }

  method HoursOfRange(from: int, to: int) returns (hours: set<int>)
    requires from < to
    ensures forall hour :: hour in hours <==> Visits(from, to, hour)
  {
    hours := {};
    var hour := from - from % 3600;
    while hour < to
      invariant hour % 3600 == 0 && hour >= FloorHour(from)
      invariant forall h :: h in hours <==> Visits(from, to, h) && h < hour
    {
      hours := hours + {hour};
      assert forall h :: h % 3600 == 0 && h < hour + 3600 && h >= hour ==> h == hour;
      hour := hour + 3600;
    }
  }

  /** The first whole minute not before `t`. */
  function CeilMinute(t: int): (m: int)
    ensures m % 60 == 0 && t <= m < t + 60
  {
    if t % 60 == 0 then t else t - t % 60 + 60
  }

  predicate HasMinute(from: int, to: int, hour: int) {
    exists i :: 0 <= i < 60 && from <= hour + 60 * i < to
  }

  lemma MinuteOf(hour: int, t: int) returns (i: int)
    requires hour % 3600 == 0 && t % 60 == 0 && hour <= t < hour + 3600
    ensures 0 <= i < 60 && t == hour + 60 * i
  {
    i := (t - hour) / 60;
    assert (t - hour) % 60 == 0;
  }

  lemma WholeMinute(hour: int, i: int)
    requires hour % 3600 == 0
    ensures (hour + 60 * i) % 60 == 0
  {
  }

  lemma NoMinuteBefore(m: int, t: int)
    requires t % 60 == 0 && m % 60 == 0 && t < m + 60
    ensures t <= m
  {
  }

  lemma HourBounds(t: int)
    ensures FloorHour(t) % 3600 == 0 && FloorHour(t) <= t < FloorHour(t) + 3600
  {
  }

  lemma HoursStepByHours(a: int, b: int)
    requires a % 3600 == 0 && b % 3600 == 0 && a < b + 3600
    ensures a <= b
  {
  }

  /** An interval's loop visits exactly the hours with one of its minutes, but for one exception: the first hour, when
      the interval starts after that hour's last minute before it ends. */
  lemma VisitedHoursExactly(from: int, to: int, hour: int)
    requires hour % 3600 == 0
    ensures HasMinute(from, to, hour) <==> Visits(from, to, hour) && (hour == FloorHour(from) ==> CeilMinute(from) < Min(to, hour + 3600))
  {
    hide CeilMinute, FloorHour;
    HourBounds(from);
    var first := CeilMinute(from);
    if Visits(from, to, hour) && (hour == FloorHour(from) ==> first < Min(to, hour + 3600)) {
      VisitedHourHasAMinute(from, to, hour, first);
    }
    if HasMinute(from, to, hour) {
      var i :| 0 <= i < 60 && from <= hour + 60 * i < to;
      WholeMinute(hour, i);
      NoMinuteBefore(hour + 60 * i, first);
      HoursStepByHours(FloorHour(from), hour);
    }
  }

  lemma VisitedHourHasAMinute(from: int, to: int, hour: int, first: int)
    requires Visits(from, to, hour) && (hour == FloorHour(from) ==> first < Min(to, hour + 3600))
    requires first % 60 == 0 && from <= first
    ensures HasMinute(from, to, hour)
  {
    hide FloorHour;
    HourBounds(from);
    if hour == FloorHour(from) {
      var i := MinuteOf(hour, first);
      assert from <= hour + 60 * i < to;
    } else {
      if hour <= from { HoursStepByHours(hour, FloorHour(from)); }
      assert from <= hour + 60 * 0 < to;
    }
  }

  /** All recorded boundaries and the day's start are whole minutes. */
  ghost predicate WholeMinutes(f: SiteFacts, start: int) {
    && start % 60 == 0 && f.monitored.from % 60 == 0
    && forall node, i :: node in f.nodes && 0 <= i < |f.nodes[node].lives| ==> f.nodes[node].lives[i].from % 60 == 0
  }

  /** Then the loop yields exactly the hours in which the node has a covered minute of the day. */
  lemma KnownHoursAreTheCoveredOnes(f: SiteFacts, start: int, end: int, node: int, hour: int)
    requires WholeMinutes(f, start) && node in f.nodes && hour % 3600 == 0
    ensures VisitedFor(f, start, end, node, hour) <==> CoveredIn(NodeSubject(f, node), start, end, hour)
  {
    var lives := f.nodes[node].lives;
    forall i | 0 <= i < |lives| ensures Visits(FirstOf(f, lives[i], start), LimitOf(f, lives[i], end), hour) <==>
                                          HasMinute(FirstOf(f, lives[i], start), LimitOf(f, lives[i], end), hour) {
      var from, to := FirstOf(f, lives[i], start), LimitOf(f, lives[i], end);
      assert from % 60 == 0 && CeilMinute(from) == from;
      VisitedHoursExactly(from, to, hour);
    }
    hide Visits, FirstOf, LimitOf, In;
    if VisitedFor(f, start, end, node, hour) {
      var i :| 0 <= i < |lives| && Visits(FirstOf(f, lives[i], start), LimitOf(f, lives[i], end), hour);
      var j :| 0 <= j < 60 && FirstOf(f, lives[i], start) <= hour + 60 * j < LimitOf(f, lives[i], end);
      InsideInterval(f, lives[i], start, end, hour + 60 * j);
      assert Covered(NodeSubject(f, node), hour + 60 * j);
    }
    if CoveredIn(NodeSubject(f, node), start, end, hour) {
      var j :| 0 <= j < 60 && start <= hour + 60 * j < end && Covered(NodeSubject(f, node), hour + 60 * j);
      var i :| 0 <= i < |lives| && In(lives[i], hour + 60 * j);
      InsideInterval(f, lives[i], start, end, hour + 60 * j);
      assert HasMinute(FirstOf(f, lives[i], start), LimitOf(f, lives[i], end), hour);
    }
  }

  lemma InsideInterval(f: SiteFacts, life: Span, start: int, end: int, t: int)
    ensures FirstOf(f, life, start) <= t < LimitOf(f, life, end) <==> start <= t < end && In(f.monitored, t) && In(life, t)
  {
  }

  // -------------------------------------------------------------- daily rows from hourly rows

  function HourKey(site: int, t: NodeHour): Key { Key(InstanceHourly, site, t.node, t.hour) }

  /** The site-hour rows stored in the day. */
  function SiteHoursStored(table: Table, site: int, start: int, end: int): set<int> {
    set hour | start <= hour < end && Key(SiteHourly, site, 0, hour) in table
  }

  function SiteTable(table: Table, site: int, start: int, end: int): Hours {
    map hour | hour in SiteHoursStored(table, site, start, end) :: table[Key(SiteHourly, site, 0, hour)]
  }

  /** The hours of a node that are both known and stored. */
  function NodeHoursStored(table: Table, site: int, tuples: set<NodeHour>, node: int): set<int> {
    set t | t in tuples && t.node == node && HourKey(site, t) in table :: t.hour
  }

  function NodeTable(table: Table, site: int, tuples: set<NodeHour>, node: int): Hours {
    map hour | hour in NodeHoursStored(table, site, tuples, node) && HourKey(site, NodeHour(node, hour)) in table ::
      table[HourKey(site, NodeHour(node, hour))]
  }

  /** The daily table's rows for one site and date. */
  datatype Daily = Daily(site: Option<Row>, nodes: map<int, Row>)

  /** Daily rows are computed anew where there is an hourly row to compute them from; others stay as they were. */
  function Rebuild(table: Table, site: int, tuples: set<NodeHour>, earlier: Daily, start: int, k: nat): Daily {
    var end := start + 3600 * k;
    var stored := set t | t in tuples && HourKey(site, t) in table :: t.node;
    Daily(
      if SiteHoursStored(table, site, start, end) != {} then Some(DailyRow(SiteTable(table, site, start, end), start, k)) else earlier.site,
      map n | n in earlier.nodes.Keys + stored :: if n in stored then DailyRow(NodeTable(table, site, tuples, n), start, k) else earlier.nodes[n])
  }

  // -------------------------------------------------------------- the six checks

  /** The hours of the day with a monitored minute. */
  function MonitoredHours(f: SiteFacts, start: int, end: int): set<int> {
    set hour | start - 3600 <= hour < end && hour % 3600 == 0 && CoveredIn(SiteSubject(f), start, end, hour)
  }

  /** A stored daily row without hourly rows behind it, or with another triple than they add up to. */
  predicate SiteMismatch(table: Table, site: int, daily: Daily, start: int, k: nat) {
    var end := start + 3600 * k;
    daily.site.Some? && (SiteHoursStored(table, site, start, end) == {}
                         || TripleOf(daily.site.value) != TripleOf(DailyRow(SiteTable(table, site, start, end), start, k)))
  }

  predicate NodeMismatch(table: Table, site: int, tuples: set<NodeHour>, daily: Daily, start: int, k: nat, n: int) {
    n in daily.nodes && (NodeHoursStored(table, site, tuples, n) == {}
                         || TripleOf(daily.nodes[n]) != TripleOf(DailyRow(NodeTable(table, site, tuples, n), start, k)))
  }

  function TuplesStored(table: Table, site: int, tuples: set<NodeHour>): set<NodeHour> { set t | t in tuples && HourKey(site, t) in table }

  function NodesWithRow(nodes: set<int>, daily: Daily): set<int> { set n | n in nodes && n in daily.nodes }

  function NodesMismatched(table: Table, site: int, nodes: set<int>, tuples: set<NodeHour>, daily: Daily, start: int, k: nat): set<int> {
    set n | n in nodes && NodeMismatch(table, site, tuples, daily, start, k, n)
  }

  predicate ChecksPass(f: SiteFacts, table: Table, site: int, nodes: set<int>, tuples: set<NodeHour>, daily: Daily, start: int, k: nat) {
    var end := start + 3600 * k;
    && daily.site.Some?
    && |SiteHoursStored(table, site, start, end)| == |MonitoredHours(f, start, end)|
    && !SiteMismatch(table, site, daily, start, k)
    && |TuplesStored(table, site, tuples)| == |tuples|
    && |NodesWithRow(nodes, daily)| == |nodes|
    && |NodesMismatched(table, site, nodes, tuples, daily, start, k)| == 0
  }

  lemma FullSubset<T>(a: set<T>, b: set<T>)
    requires a <= b
    ensures |a| == |b| <==> a == b
  {
    assert |b| == |a| + |b - a| by { assert b == a + (b - a); }
  }

  ghost predicate AllStored(table: Table, site: int, tuples: set<NodeHour>) {
    forall t :: t in tuples ==> HourKey(site, t) in table
  }

  /** The site has hourly rows, as many as monitored hours, and every known node hour has its row. */
  ghost predicate DayStored(f: SiteFacts, table: Table, site: int, tuples: set<NodeHour>, start: int, k: nat) {
    var stored := SiteHoursStored(table, site, start, start + 3600 * k);
    stored != {} && |stored| == |MonitoredHours(f, start, start + 3600 * k)| && AllStored(table, site, tuples)
  }

  /** Right after the rebuild the two mismatch checks can only fail for want of hourly rows. The six checks pass exactly
      when the site has an hourly row, as many of them as monitored hours, and every known node hour has its row: the
      site's hours are only counted, so a stray row can stand in for a missing one. */
  lemma ChecksPassExactlyWhen(f: SiteFacts, table: Table, site: int, nodes: set<int>, tuples: set<NodeHour>, earlier: Daily, start: int, k: nat)
    requires forall n :: n in nodes <==> exists t :: t in tuples && t.node == n
    ensures ChecksPass(f, table, site, nodes, tuples, Rebuild(table, site, tuples, earlier, start, k), start, k) <==>
              DayStored(f, table, site, tuples, start, k)
  {
    hide DailyRow;
    var daily := Rebuild(table, site, tuples, earlier, start, k);
    var found := TuplesStored(table, site, tuples);
    FullSubset(found, tuples);
    assert AllStored(table, site, tuples) <==> found == tuples;
    if AllStored(table, site, tuples) {
      forall n | n in nodes ensures n in daily.nodes && !NodeMismatch(table, site, tuples, daily, start, k, n) {
        var t :| t in tuples && t.node == n;
        assert t.hour in NodeHoursStored(table, site, tuples, n);
      }
      NothingMismatched(table, site, nodes, tuples, daily, start, k);
    }
  }

  lemma NothingMismatched(table: Table, site: int, nodes: set<int>, tuples: set<NodeHour>, daily: Daily, start: int, k: nat)
    requires forall n :: n in nodes ==> n in daily.nodes && !NodeMismatch(table, site, tuples, daily, start, k, n)
    ensures NodesWithRow(nodes, daily) == nodes && NodesMismatched(table, site, nodes, tuples, daily, start, k) == {}
  {
    hide NodeMismatch;
    forall n ensures n in NodesWithRow(nodes, daily) <==> n in nodes {
      if n in nodes { assert n in daily.nodes; }
    }
  }

  /** The daily rows of the site and of each known node are computed from the stored hours; rows of other nodes stay. */
  ghost predicate ComputedFromHours(table: Table, site: int, nodes: set<int>, tuples: set<NodeHour>, earlier: Daily, daily: Daily, start: int, k: nat) {
    && daily.site == Some(DailyRow(SiteTable(table, site, start, start + 3600 * k), start, k))
    && daily.nodes.Keys == earlier.nodes.Keys + nodes
    && (forall n :: n in nodes ==> daily.nodes[n] == DailyRow(NodeTable(table, site, tuples, n), start, k))
    && (forall n :: n in earlier.nodes && n !in nodes ==> daily.nodes[n] == earlier.nodes[n])
  }

  lemma RebuiltFromHours(f: SiteFacts, table: Table, site: int, nodes: set<int>, tuples: set<NodeHour>, earlier: Daily, start: int, k: nat)
    requires forall n :: n in nodes <==> exists t :: t in tuples && t.node == n
    requires DayStored(f, table, site, tuples, start, k)
    ensures ComputedFromHours(table, site, nodes, tuples, earlier, Rebuild(table, site, tuples, earlier, start, k), start, k)
  {
    hide DailyRow, SiteHoursStored, MonitoredHours, SiteTable, NodeTable;
    var stored := set t | t in tuples && HourKey(site, t) in table :: t.node;
    forall n ensures n in stored <==> n in nodes {
      if n in nodes {
        var t :| t in tuples && t.node == n;
        assert HourKey(site, t) in table;
      }
    }
  }

  lemma ComputedOnce(table: Table, site: int, nodes: set<int>, tuples: set<NodeHour>, earlier: Daily, a: Daily, b: Daily, start: int, k: nat)
    requires ComputedFromHours(table, site, nodes, tuples, earlier, a, start, k) && ComputedFromHours(table, site, nodes, tuples, earlier, b, start, k)
    ensures a == b
  {
    hide DailyRow, SiteTable, NodeTable;
    forall n | n in a.nodes ensures a.nodes[n] == b.nodes[n] {}
    assert a.nodes == b.nodes;
  }

  /** Rebuilds the site's daily rows and takes the six counts; when one of them is off the transaction rolls back. */
  method FinalizeSite(f: SiteFacts, table: Table, site: int, earlier: Daily, start: int, k: nat)
    returns (passed: bool, daily: Daily, nodes: set<int>, tuples: set<NodeHour>)
    ensures forall t :: t in tuples <==> VisitedFor(f, start, start + 3600 * k, t.node, t.hour)
    ensures forall n :: n in nodes <==> exists t :: t in tuples && t.node == n
    ensures passed <==> DayStored(f, table, site, tuples, start, k)
    ensures passed ==> ComputedFromHours(table, site, nodes, tuples, earlier, daily, start, k)
    ensures !passed ==> daily == earlier
  {
    hide Rebuild, SiteHoursStored, MonitoredHours, SiteMismatch, NodesWithRow, NodesMismatched, TuplesStored, VisitedFor, DayStored, ComputedFromHours;
    var end := start + 3600 * k;
    nodes, tuples := KnownNodeHours(f, start, end);
    var rebuilt := Rebuild(table, site, tuples, earlier, start, k);
    var siteExpectedHours := |MonitoredHours(f, start, end)|;
    var siteMismatch := SiteMismatch(table, site, rebuilt, start, k);
    var siteDailyCount := if rebuilt.site.Some? then 1 else 0;
    var siteHourCount := |SiteHoursStored(table, site, start, end)|;
    var instanceMismatch := if tuples == {} then 0 else |NodesMismatched(table, site, nodes, tuples, rebuilt, start, k)|;
    var instanceDailyCount := if nodes == {} then 0 else |NodesWithRow(nodes, rebuilt)|;
    var instanceHourCount := if tuples == {} then 0 else |TuplesStored(table, site, tuples)|;
    passed := siteDailyCount == 1 && siteHourCount == siteExpectedHours && !siteMismatch
              && instanceHourCount == |tuples| && instanceDailyCount == |nodes| && instanceMismatch == 0;
    daily := if passed then rebuilt else earlier;
    NothingKnown(table, site, nodes, tuples, rebuilt, start, k);
    ChecksPassExactlyWhen(f, table, site, nodes, tuples, earlier, start, k);
    if passed { RebuiltFromHours(f, table, site, nodes, tuples, earlier, start, k); }
  }

  /** Without known node hours the instance counts are zero. */
  lemma NothingKnown(table: Table, site: int, nodes: set<int>, tuples: set<NodeHour>, daily: Daily, start: int, k: nat)
    requires forall n :: n in nodes <==> exists t :: t in tuples && t.node == n
    ensures tuples == {} ==> |NodesMismatched(table, site, nodes, tuples, daily, start, k)| == 0 && |TuplesStored(table, site, tuples)| == 0
    ensures nodes == {} ==> |NodesWithRow(nodes, daily)| == 0
  {
    if tuples == {} {
      assert nodes == {} by { assert forall n :: n !in nodes; }
      assert NodesMismatched(table, site, nodes, tuples, daily, start, k) == {};
      assert TuplesStored(table, site, tuples) == {};
    }
    if nodes == {} { assert NodesWithRow(nodes, daily) == {}; }
  }

  const LateSite := SiteFacts(Span(90000, None), [], map[], map[])
  const OneHourStored: Table := map[Key(SiteHourly, 1, 0, 86400) := HourRow(SiteSubject(LateSite), 86400)]

  /** A site monitored from the second hour of a two-hour range on, with a row for the first hour only: all six checks
      pass, because the row nobody expects makes up the number. */
  method StrayHourStandsIn() returns (passed: bool)
    ensures passed && 90000 in MonitoredHours(LateSite, 86400, 93600) && Key(SiteHourly, 1, 0, 90000) !in OneHourStored
  {
    SecondHourIsMonitored();
    FirstHourIsStored();
    hide HourRow, MonitoredHours, SiteHoursStored, CoveredIn;
    var daily, nodes, tuples;
    passed, daily, nodes, tuples := FinalizeSite(LateSite, OneHourStored, 1, Daily(None, map[]), 86400, 2);
    assert AllStored(OneHourStored, 1, tuples);
  }

  lemma SecondHourIsMonitored()
    ensures MonitoredHours(LateSite, 86400, 93600) == {90000}
  {
    var s := SiteSubject(LateSite);
    assert Covered(s, 90000 + 60 * 0);
    assert CoveredIn(s, 86400, 93600, 90000);
    forall hour | 82800 <= hour < 93600 && hour % 3600 == 0 && CoveredIn(s, 86400, 93600, hour) ensures hour == 90000 {
      assert hour == 82800 || hour == 86400 || hour == 90000;
    }
  }

  lemma FirstHourIsStored()
    ensures SiteHoursStored(OneHourStored, 1, 86400, 93600) == {86400}
  {
  }

  // -------------------------------------------------------------- repair enables finalisation

  /** The triple the day's minutes have, computed directly. */
  function DirectTriple(s: Subject, start: int, k: nat): Triple { TripleOf(RowOver(s, start, 60 * k)) }

  /** Hour by hour the table has the right triple, or no row where nothing is covered. */
  ghost predicate TriplesRight(s: Subject, hours: Hours, start: int, k: nat) {
    forall j :: 0 <= j < k ==>
      var hour := start + 3600 * j;
      if hour in hours then TripleOf(hours[hour]) == TripleOf(HourRow(s, hour)) else !HasCoveredMinute(s, hour)
  }

  lemma RightTriplesAddUp(s: Subject, hours: Hours, start: int, k: nat)
    requires TriplesRight(s, hours, start, k)
    ensures TripleOf(DailyRow(hours, start, k)) == DirectTriple(s, start, k)
  {
    forall j | 0 <= j < k
      ensures CellAt(hours, SamplesColumn, start + 3600 * j) == Count(s, SampledMinutes, start + 3600 * j, 60)
      ensures CellAt(hours, ExpectedColumn, start + 3600 * j) == Count(s, ExpectedMinutes, start + 3600 * j, 60)
    {
      var hour := start + 3600 * j;
      if hour in hours {
        assert TripleOf(hours[hour]) == TripleOf(HourRow(s, hour));
      } else {
        UncoveredHourIsEmpty(s, hour);
      }
    }
    ColumnSums(s, hours, start, k, SamplesColumn);
    ColumnSums(s, hours, start, k, ExpectedColumn);
  }

  /** Inside whole hours, being covered at all and being covered within the range are the same. */
  lemma CoveredInWholeHour(s: Subject, start: int, end: int, bucket: int)
    requires start <= bucket && bucket + 3600 <= end
    ensures CoveredIn(s, start, end, bucket) <==> HasCoveredMinute(s, bucket)
  {
  }

  lemma WiderScopeCovers(facts: Facts, from: int, to: int, start: int, end: int, k: Key)
    requires from <= start && end <= to && InScope(facts, start, end, k)
    ensures InScope(facts, from, to, k)
  {
  }

  ghost predicate NoStraySiteHours(f: SiteFacts, table: Table, site: int, start: int, end: int) {
    SiteHoursStored(table, site, start, end) <= MonitoredHours(f, start, end)
  }

  lemma MonitoredHourIsRight(facts: Facts, table: Table, site: int, from: int, to: int, start: int, end: int, hour: int)
    requires site in facts && start % 3600 == 0 && from <= start && end <= to && Repaired(facts, from, to, table)
    requires hour in MonitoredHours(facts[site], start, end)
    ensures hour in SiteHoursStored(table, site, start, end) && Right(facts, table, Key(SiteHourly, site, 0, hour))
  {
    hide HourRow, Covered;
    WiderScopeCovers(facts, from, to, start, end, Key(SiteHourly, site, 0, hour));
    var i :| 0 <= i < 60 && start <= hour + 60 * i < end && Covered(SiteSubject(facts[site]), hour + 60 * i);
    StartsNoEarlier(start, hour, i);
  }

  lemma HourOfDay(start: int, k: nat, j: nat)
    requires start % 3600 == 0 && j < k
    ensures (start + 3600 * j) % 3600 == 0 && start <= start + 3600 * j && start + 3600 * j + 3600 <= start + 3600 * k
  {
  }

  lemma HourOfDayIsMonitored(f: SiteFacts, start: int, k: nat, j: nat)
    requires start % 3600 == 0 && j < k
    ensures start + 3600 * j in MonitoredHours(f, start, start + 3600 * k) <==> HasCoveredMinute(SiteSubject(f), start + 3600 * j)
  {
  }

  lemma SiteHoursAreComplete(facts: Facts, table: Table, site: int, from: int, to: int, start: int, end: int)
    requires site in facts && start % 3600 == 0 && from <= start && end <= to && Repaired(facts, from, to, table)
    requires NoStraySiteHours(facts[site], table, site, start, end)
    ensures SiteHoursStored(table, site, start, end) == MonitoredHours(facts[site], start, end)
  {
    hide MonitoredHours, SiteHoursStored, Repaired;
    forall hour | hour in MonitoredHours(facts[site], start, end) ensures hour in SiteHoursStored(table, site, start, end) {
      MonitoredHourIsRight(facts, table, site, from, to, start, end, hour);
    }
  }

  lemma SiteDayIsRight(facts: Facts, table: Table, site: int, from: int, to: int, start: int, k: nat)
    requires site in facts && start % 3600 == 0 && from <= start && start + 3600 * k <= to && Repaired(facts, from, to, table)
    requires NoStraySiteHours(facts[site], table, site, start, start + 3600 * k)
    ensures TriplesRight(SiteSubject(facts[site]), SiteTable(table, site, start, start + 3600 * k), start, k)
  {
    hide HourRow, MonitoredHours, SiteHoursStored, Repaired, HasCoveredMinute, TripleOf, SiteSubject;
    var end, s := start + 3600 * k, SiteSubject(facts[site]);
    SiteHoursAreComplete(facts, table, site, from, to, start, end);
    var hours := SiteTable(table, site, start, end);
    assert forall hour :: hour in hours <==> hour in MonitoredHours(facts[site], start, end);
    forall j | 0 <= j < k
      ensures var hour := start + 3600 * j;
              if hour in hours then TripleOf(hours[hour]) == TripleOf(HourRow(s, hour)) else !HasCoveredMinute(s, hour)
    {
      HourOfDayIsMonitored(facts[site], start, k, j);
      if start + 3600 * j in hours {
        MonitoredHourIsRight(facts, table, site, from, to, start, end, start + 3600 * j);
      }
    }
  }

  lemma StartsNoEarlier(start: int, hour: int, i: int)
    requires start % 3600 == 0 && hour % 3600 == 0 && 0 <= i < 60 && start <= hour + 60 * i
    ensures start <= hour
  {
  }

  lemma KnownHourIsRight(facts: Facts, table: Table, site: int, from: int, to: int, start: int, end: int, t: NodeHour)
    requires site in facts && WholeMinutes(facts[site], start) && from <= start && end <= to && Repaired(facts, from, to, table)
    requires VisitedFor(facts[site], start, end, t.node, t.hour)
    ensures t.node in facts[site].nodes && Right(facts, table, HourKey(site, t))
  {
    VisitedIsAnHour(facts[site], start, end, t.node, t.hour);
    hide HourRow, Covered, CoveredIn, VisitedFor;
    KnownHoursAreTheCoveredOnes(facts[site], start, end, t.node, t.hour);
    WiderScopeCovers(facts, from, to, start, end, HourKey(site, t));
  }

  lemma HourOfDayIsKnown(f: SiteFacts, node: int, start: int, k: nat, j: nat)
    requires node in f.nodes && WholeMinutes(f, start) && start % 3600 == 0 && j < k
    ensures VisitedFor(f, start, start + 3600 * k, node, start + 3600 * j) <==> HasCoveredMinute(NodeSubject(f, node), start + 3600 * j)
  {
    hide CoveredIn, HasCoveredMinute, VisitedFor, WholeMinutes, NodeSubject;
    var hour := start + 3600 * j;
    HourOfDay(start, k, j);
    KnownHoursAreTheCoveredOnes(f, start, start + 3600 * k, node, hour);
    CoveredInWholeHour(NodeSubject(f, node), start, start + 3600 * k, hour);
  }

  lemma NodeDayIsRight(facts: Facts, table: Table, site: int, tuples: set<NodeHour>, node: int, from: int, to: int, start: int, k: nat)
    requires site in facts && node in facts[site].nodes && WholeMinutes(facts[site], start)
    requires start % 3600 == 0 && from <= start && start + 3600 * k <= to && Repaired(facts, from, to, table)
    requires forall t :: t in tuples <==> VisitedFor(facts[site], start, start + 3600 * k, t.node, t.hour)
    ensures forall t :: t in tuples && t.node == node ==> HourKey(site, t) in table
    ensures TriplesRight(NodeSubject(facts[site], node), NodeTable(table, site, tuples, node), start, k)
  {
    var f, end, s := facts[site], start + 3600 * k, NodeSubject(facts[site], node);
    hide HourRow, HasCoveredMinute, VisitedFor, WholeMinutes, Repaired, TripleOf, NodeSubject;
    forall t | t in tuples && t.node == node ensures Right(facts, table, HourKey(site, t)) {
      KnownHourIsRight(facts, table, site, from, to, start, end, t);
    }
    forall hour ensures hour in NodeHoursStored(table, site, tuples, node) <==> NodeHour(node, hour) in tuples {
      if NodeHour(node, hour) in tuples { assert HourKey(site, NodeHour(node, hour)) in table; }
    }
    var hours := NodeTable(table, site, tuples, node);
    assert forall hour :: hour in hours <==> NodeHour(node, hour) in tuples;
    forall j | 0 <= j < k
      ensures var hour := start + 3600 * j;
              if hour in hours then TripleOf(hours[hour]) == TripleOf(HourRow(s, hour)) else !HasCoveredMinute(s, hour)
    {
      var hour := start + 3600 * j;
      HourOfDayIsKnown(f, node, start, k, j);
      if hour in hours {
        assert Right(facts, table, HourKey(site, NodeHour(node, hour)));
      }
    }
  }

  lemma VisitedIsAnHour(f: SiteFacts, start: int, end: int, node: int, hour: int)
    requires VisitedFor(f, start, end, node, hour)
    ensures hour % 3600 == 0 && node in f.nodes
  {
  }

  /** A known node's rebuilt daily row. */
  lemma KnownNodeIsRight(facts: Facts, table: Table, site: int, tuples: set<NodeHour>, t: NodeHour, from: int, to: int, earlier: Daily, start: int, k: nat)
    requires site in facts && WholeMinutes(facts[site], start) && start % 3600 == 0
    requires from <= start && start + 3600 * k <= to && Repaired(facts, from, to, table)
    requires forall u :: u in tuples <==> VisitedFor(facts[site], start, start + 3600 * k, u.node, u.hour)
    requires t in tuples
    ensures HourKey(site, t) in table && t.node in facts[site].nodes
    ensures var daily := Rebuild(table, site, tuples, earlier, start, k);
            t.node in daily.nodes && TripleOf(daily.nodes[t.node]) == DirectTriple(NodeSubject(facts[site], t.node), start, k)
  {
    hide DailyRow, DirectTriple, WholeMinutes, Repaired, TriplesRight;
    VisitedIsAnHour(facts[site], start, start + 3600 * k, t.node, t.hour);
    NodeDayIsRight(facts, table, site, tuples, t.node, from, to, start, k);
    RightTriplesAddUp(NodeSubject(facts[site], t.node), NodeTable(table, site, tuples, t.node), start, k);
    hide VisitedFor;
  }

  /** Once the gap repair over a range that holds the day has completed, the day of every monitored site without stray
      hourly rows passes all six checks, and the daily rows hold the counts and status of the day's own minutes. */
  lemma RepairEnablesFinalisation(facts: Facts, table: Table, site: int, from: int, to: int, nodes: set<int>, tuples: set<NodeHour>,
                                  earlier: Daily, start: int, k: nat)
    requires site in facts && WholeMinutes(facts[site], start) && start % 3600 == 0
    requires from <= start && start + 3600 * k <= to && Repaired(facts, from, to, table)
    requires NoStraySiteHours(facts[site], table, site, start, start + 3600 * k) && MonitoredHours(facts[site], start, start + 3600 * k) != {}
    requires forall t :: t in tuples <==> VisitedFor(facts[site], start, start + 3600 * k, t.node, t.hour)
    requires forall n :: n in nodes <==> exists t :: t in tuples && t.node == n
    ensures var daily := Rebuild(table, site, tuples, earlier, start, k);
            && ChecksPass(facts[site], table, site, nodes, tuples, daily, start, k)
            && daily.site.Some? && TripleOf(daily.site.value) == DirectTriple(SiteSubject(facts[site]), start, k)
            && forall n :: n in nodes ==>
                 n in facts[site].nodes && n in daily.nodes && TripleOf(daily.nodes[n]) == DirectTriple(NodeSubject(facts[site], n), start, k)
  {
    hide DailyRow, DirectTriple, ChecksPass, MonitoredHours, WholeMinutes, Repaired, VisitedFor, TriplesRight;
    var f := facts[site];
    SiteHoursAreComplete(facts, table, site, from, to, start, start + 3600 * k);
    SiteDayIsRight(facts, table, site, from, to, start, k);
    RightTriplesAddUp(SiteSubject(f), SiteTable(table, site, start, start + 3600 * k), start, k);
    ChecksPassExactlyWhen(f, table, site, nodes, tuples, earlier, start, k);
    var daily := Rebuild(table, site, tuples, earlier, start, k);
    assert daily.site == Some(DailyRow(SiteTable(table, site, start, start + 3600 * k), start, k));
    hide Rebuild, SiteHoursStored, NoStraySiteHours;
    forall t | t in tuples
      ensures HourKey(site, t) in table && t.node in f.nodes && t.node in daily.nodes
      ensures TripleOf(daily.nodes[t.node]) == DirectTriple(NodeSubject(f, t.node), start, k)
    {
      KnownNodeIsRight(facts, table, site, tuples, t, from, to, earlier, start, k);
    }
  }

  /** A repair adds no site hour that is not monitored. */
  lemma RepairAddsNoStrays(facts: Facts, from: int, to: int, before: Table, after: Table, site: int, start: int, k: nat)
    requires site in facts && start % 3600 == 0 && from <= start && start + 3600 * k <= to
    requires OnlyRepairs(facts, from, to, before, after) && NoStraySiteHours(facts[site], before, site, start, start + 3600 * k)
    ensures NoStraySiteHours(facts[site], after, site, start, start + 3600 * k)
  {
    var f, end := facts[site], start + 3600 * k;
    hide HourRow, Covered, MonitoredHours;
    forall hour | hour in SiteHoursStored(after, site, start, end) ensures hour in MonitoredHours(f, start, end) {
      var key := Key(SiteHourly, site, 0, hour);
      if key in before {
        assert hour in SiteHoursStored(before, site, start, end);
      } else {
        assert InScope(facts, from, to, key);
        ScopedHourIsMonitored(f, from, to, start, k, hour);
      }
    }
  }

  lemma ScopedHourIsMonitored(f: SiteFacts, from: int, to: int, start: int, k: nat, hour: int)
    requires start % 3600 == 0 && hour % 3600 == 0 && start <= hour < start + 3600 * k && CoveredIn(SiteSubject(f), from, to, hour)
    ensures hour in MonitoredHours(f, start, start + 3600 * k)
  {
    hide Covered;
    var i :| 0 <= i < 60 && from <= hour + 60 * i < to && Covered(SiteSubject(f), hour + 60 * i);
    HoursStepByHours(hour + 3600, start + 3600 * k);
    assert start <= hour + 60 * i < start + 3600 * k;
  }

  /** The node has a known hour in the range. */
  ghost predicate KnownBetween(f: SiteFacts, start: int, end: int, node: int) {
    exists hour :: VisitedFor(f, start, end, node, hour)
  }

  lemma KnownHour(f: SiteFacts, start: int, end: int, node: int) returns (hour: int)
    requires KnownBetween(f, start, end, node)
    ensures VisitedFor(f, start, end, node, hour)
  {
    hour :| VisitedFor(f, start, end, node, hour);
  }

  /** Repairing everything and then finalising a day of the repaired range: the day passes, and its daily rows hold the
      counts and status of its own minutes. */
  method RepairAndFinalise(repair: GapRepair, current: int, limit: int, site: int, earlier: Daily, start: int, k: nat)
    returns (passed: bool, daily: Daily)
    requires 0 < limit <= MAX_BATCH && CursorOk(repair.cursor) && forall s :: s in repair.facts ==> s > 0
    requires current != repair.revision || repair.Consistent()
    requires Agree(repair.facts, repair.start, repair.end)
    requires site in repair.facts && WholeMinutes(repair.facts[site], start) && start % 3600 == 0
    requires repair.start <= start && start + 3600 * k <= repair.end
    requires MonitoredHours(repair.facts[site], start, start + 3600 * k) != {}
    requires NoStraySiteHours(repair.facts[site], repair.table, site, start, start + 3600 * k)
    modifies repair`table, repair`cursor, repair`revision, repair`complete
    ensures passed && daily.site.Some? && TripleOf(daily.site.value) == DirectTriple(SiteSubject(repair.facts[site]), start, k)
    ensures forall n :: n in repair.facts[site].nodes && KnownBetween(repair.facts[site], start, start + 3600 * k, n) ==>
              n in daily.nodes && TripleOf(daily.nodes[n]) == DirectTriple(NodeSubject(repair.facts[site], n), start, k)
  {
    hide DailyRow, DirectTriple, MonitoredHours, WholeMinutes, Repaired, VisitedFor, OnlyRepairs, Agree, SiteHoursStored, NoStraySiteHours, ComputedFromHours, Rebuild, ChecksPass, DayStored, KnownBetween, AllStored;
    var facts, from, to := repair.facts, repair.start, repair.end;
    ghost var before := repair.table;
    var error := repair.RepairAll(current, limit);
    RepairAddsNoStrays(facts, from, to, before, repair.table, site, start, k);
    var nodes, tuples;
    passed, daily, nodes, tuples := FinalizeSite(facts[site], repair.table, site, earlier, start, k);
    RepairEnablesFinalisation(facts, repair.table, site, from, to, nodes, tuples, earlier, start, k);
    ChecksPassExactlyWhen(facts[site], repair.table, site, nodes, tuples, earlier, start, k);
    RebuiltFromHours(facts[site], repair.table, site, nodes, tuples, earlier, start, k);
    ComputedOnce(repair.table, site, nodes, tuples, earlier, daily, Rebuild(repair.table, site, tuples, earlier, start, k), start, k);
    forall n | n in facts[site].nodes && KnownBetween(facts[site], start, start + 3600 * k, n) ensures n in nodes {
      var hour := KnownHour(facts[site], start, start + 3600 * k, n);
      assert NodeHour(n, hour) in tuples;
    }
  }
}
