/** Resource statistics: how minute samples roll up to hours and hours to days, and what the two-level rollup
    has in common with a direct one. Times are Unix seconds; minutes are multiples of sixty. */
module ResourceRollup {
  import opened Prelude

  /** A half-open interval of time, possibly still open. */
  datatype Span = Span(from: int, to: Option<int>)

  predicate In(s: Span, t: int) {
    s.from <= t && (s.to.None? || t < s.to.value)
  }

  datatype Health = Ok | Warning | Critical | Unavailable

  /** One minute's sample; every metric is nullable. Node samples use one reading for peak and mean. */
  datatype Sample = Sample(
    cpuPeak: Option<real>, cpuMean: Option<real>, memoryPeak: Option<real>, memoryMean: Option<real>, disk: Option<real>,
    instances: nat, online: bool, health: Health)

  datatype Metric = CpuPeak | CpuMean | MemoryPeak | MemoryMean | Disk

  function Reading(m: Sample, which: Metric): Option<real> {
    match which
    case CpuPeak => m.cpuPeak
    case CpuMean => m.cpuMean
    case MemoryPeak => m.memoryPeak
    case MemoryMean => m.memoryMean
    case Disk => m.disk
  }

  /** What is aggregated: a site, or one node of it, which counts only inside its known lifecycle intervals. */
  datatype Subject = Subject(monitored: Span, pauses: seq<Span>, lives: Option<seq<Span>>, samples: map<int, Sample>)

  predicate Alive(lives: seq<Span>, t: int) {
    exists i :: 0 <= i < |lives| && In(lives[i], t)
  }

  predicate Paused(s: Subject, t: int) {
    exists i :: 0 <= i < |s.pauses| && In(s.pauses[i], t)
  }

  predicate Covered(s: Subject, t: int) {
    In(s.monitored, t) && (s.lives.Some? ==> Alive(s.lives.value, t))
  }

  predicate Expected(s: Subject, t: int) {
    Covered(s, t) && !Paused(s, t)
  }

  /** An expected minute that has a sample. */
  predicate Sampled(s: Subject, t: int) {
    Expected(s, t) && t in s.samples
  }

  // -------------------------------------------------------------- aggregates over the minutes base, base + 60, ...

  datatype Tally = ExpectedMinutes | SampledMinutes | OnlineMinutes | AbnormalMinutes | UnhealthyMinutes | CriticalMinutes | WarningMinutes | Present(metric: Metric)

  predicate Counts(s: Subject, tally: Tally, t: int) {
    match tally
    case ExpectedMinutes => Expected(s, t)
    case SampledMinutes => Sampled(s, t)
    case OnlineMinutes => Sampled(s, t) && s.samples[t].online
    case AbnormalMinutes => Sampled(s, t) && !s.samples[t].online
    case UnhealthyMinutes => Sampled(s, t) && !s.samples[t].health.Ok?
    case CriticalMinutes => Sampled(s, t) && s.samples[t].health.Critical?
    case WarningMinutes => Sampled(s, t) && s.samples[t].health.Warning?
    case Present(metric) => Sampled(s, t) && Reading(s.samples[t], metric).Some?
  }

  function Count(s: Subject, tally: Tally, base: int, n: nat): (c: nat)
    ensures c <= n
  {
    if n == 0 then 0 else Count(s, tally, base, n - 1) + if Counts(s, tally, base + 60 * (n - 1)) then 1 else 0
  }

  function ReadingAt(s: Subject, which: Metric, t: int): Option<real> {
    if Sampled(s, t) then Reading(s.samples[t], which) else None
  }

  /** `MAX` ignores nulls. */
  function Higher(a: Option<real>, b: Option<real>): Option<real> {
    if a.None? then b else if b.None? || b.value <= a.value then a else b
  }

  function MaxOver(s: Subject, which: Metric, base: int, n: nat): Option<real> {
    if n == 0 then None else Higher(MaxOver(s, which, base, n - 1), ReadingAt(s, which, base + 60 * (n - 1)))
  }

  function SumOver(s: Subject, which: Metric, base: int, n: nat): real {
    if n == 0 then 0.0 else SumOver(s, which, base, n - 1) + ReadingAt(s, which, base + 60 * (n - 1)).GetOr(0.0)
  }

  function Divide(sum: real, n: int): real
    requires n != 0
  {
    sum / n as real
  }

  /** `AVG` over the minutes that have a reading. */
  function AvgOver(s: Subject, which: Metric, base: int, n: nat): Option<real> {
    var present := Count(s, Present(which), base, n);
    if present == 0 then None else Some(Divide(SumOver(s, which, base, n), present))
  }

  /** The reading of the latest minute that has one. */
  function LastOver(s: Subject, which: Metric, base: int, n: nat): Option<real> {
    if n == 0 then None
    else
      var last := ReadingAt(s, which, base + 60 * (n - 1));
      if last.Some? then last else LastOver(s, which, base, n - 1)
  }

  function InstancesAt(s: Subject, t: int): nat {
    if Sampled(s, t) then s.samples[t].instances else 0
  }

  function InstanceMaxOver(s: Subject, base: int, n: nat): int {
    if n == 0 then 0 else Max(InstanceMaxOver(s, base, n - 1), InstancesAt(s, base + 60 * (n - 1)))
  }

  datatype DataStatus = PausedData | MissingData | PartialData | CompleteData

  function StatusOf(samples: int, expected: int): DataStatus {
    if expected == 0 then PausedData else if samples == 0 then MissingData else if samples < expected then PartialData else CompleteData
  }

  function HealthOf(samples: int, expected: int, critical: bool, warning: bool): Health {
    if expected == 0 || samples == 0 then Unavailable else if critical then Critical else if warning then Warning else Health.Ok
  }

  /** One rollup row; a table simply lacks the columns it does not store. */
  datatype Row = Row(
    samples: int, expected: int, status: DataStatus,
    online: int, abnormal: int, unhealthy: int, health: Health, instances: int,
    cpuMax: Option<real>, cpuAvg: Option<real>, memoryMax: Option<real>, memoryAvg: Option<real>, diskMax: Option<real>, diskLast: Option<real>)

  /** The row computed straight from `n` minutes. */
  function RowOver(s: Subject, base: int, n: nat): Row {
    var samples, expected := Count(s, SampledMinutes, base, n), Count(s, ExpectedMinutes, base, n);
    Row(samples, expected, StatusOf(samples, expected),
        Count(s, OnlineMinutes, base, n), Count(s, AbnormalMinutes, base, n), Count(s, UnhealthyMinutes, base, n),
        HealthOf(samples, expected, Count(s, CriticalMinutes, base, n) > 0, Count(s, WarningMinutes, base, n) > 0),
        InstanceMaxOver(s, base, n),
        MaxOver(s, CpuPeak, base, n), AvgOver(s, CpuMean, base, n), MaxOver(s, MemoryPeak, base, n), AvgOver(s, MemoryMean, base, n),
        MaxOver(s, Disk, base, n), LastOver(s, Disk, base, n))
  }

  function HourRow(s: Subject, hour: int): Row { RowOver(s, hour, 60) }

  // -------------------------------------------------------------- days from hourly rows

  datatype Column = SamplesColumn | ExpectedColumn | OnlineColumn | AbnormalColumn | UnhealthyColumn | CriticalRows | WarningRows

  function Cell(r: Row, column: Column): int {
    match column
    case SamplesColumn => r.samples
    case ExpectedColumn => r.expected
    case OnlineColumn => r.online
    case AbnormalColumn => r.abnormal
    case UnhealthyColumn => r.unhealthy
    case CriticalRows => if r.health.Critical? then 1 else 0
    case WarningRows => if r.health.Warning? then 1 else 0
  }

  /** The hourly rows of one subject, by hour. */
  type Hours = map<int, Row>

  function CellAt(table: Hours, column: Column, hour: int): int {
    if hour in table then Cell(table[hour], column) else 0
  }

  function SumRows(table: Hours, column: Column, start: int, k: nat): int {
    if k == 0 then 0 else SumRows(table, column, start, k - 1) + CellAt(table, column, start + 3600 * (k - 1))
  }

  function PeakCell(r: Row, which: Metric): Option<real> {
    match which
    case CpuPeak => r.cpuMax
    case CpuMean => r.cpuAvg
    case MemoryPeak => r.memoryMax
    case MemoryMean => r.memoryAvg
    case Disk => r.diskMax
  }

  function MaxRows(table: Hours, which: Metric, start: int, k: nat): Option<real> {
    if k == 0 then None
    else
      var hour := start + 3600 * (k - 1);
      Higher(MaxRows(table, which, start, k - 1), if hour in table then PeakCell(table[hour], which) else None)
  }

  function LastRows(table: Hours, start: int, k: nat): Option<real> {
    if k == 0 then None
    else
      var hour := start + 3600 * (k - 1);
      if hour in table && table[hour].diskLast.Some? then table[hour].diskLast else LastRows(table, start, k - 1)
  }

  function InstanceMaxRows(table: Hours, start: int, k: nat): int {
    if k == 0 then 0
    else
      var hour := start + 3600 * (k - 1);
      Max(InstanceMaxRows(table, start, k - 1), if hour in table then table[hour].instances else 0)
  }

  /** `SUM(avg * sample_count)`, in which hours without an average drop out. */
  function WeightedSum(table: Hours, which: Metric, start: int, k: nat): real {
    if k == 0 then 0.0
    else
      var hour := start + 3600 * (k - 1);
      WeightedSum(table, which, start, k - 1) +
        if hour in table && PeakCell(table[hour], which).Some? then PeakCell(table[hour], which).value * table[hour].samples as real else 0.0
  }

  predicate AnyAverage(table: Hours, which: Metric, start: int, k: nat) {
    exists j :: 0 <= j < k && HasAverage(table, which, start + 3600 * j)
  }

  /** `SUM(avg * sample_count) / NULLIF(SUM(sample_count), 0)`. */
  function WeightedAverage(table: Hours, which: Metric, start: int, k: nat): Option<real> {
    var samples := SumRows(table, SamplesColumn, start, k);
    if samples == 0 || !AnyAverage(table, which, start, k) then None else Some(Divide(WeightedSum(table, which, start, k), samples))
  }

  /** The daily row built from the hourly rows in the table. */
  function DailyRow(table: Hours, start: int, k: nat): Row {
    var samples, expected := SumRows(table, SamplesColumn, start, k), SumRows(table, ExpectedColumn, start, k);
    Row(samples, expected, StatusOf(samples, expected),
        SumRows(table, OnlineColumn, start, k), SumRows(table, AbnormalColumn, start, k), SumRows(table, UnhealthyColumn, start, k),
        HealthOf(samples, expected, SumRows(table, CriticalRows, start, k) > 0, SumRows(table, WarningRows, start, k) > 0),
        InstanceMaxRows(table, start, k),
        MaxRows(table, CpuPeak, start, k), WeightedAverage(table, CpuMean, start, k),
        MaxRows(table, MemoryPeak, start, k), WeightedAverage(table, MemoryMean, start, k),
        MaxRows(table, Disk, start, k), LastRows(table, start, k))
  }

  // -------------------------------------------------------------- splitting a range of minutes

  lemma {:induction false} CountSplits(s: Subject, tally: Tally, base: int, m: nat, n: nat)
    ensures Count(s, tally, base, m + n) == Count(s, tally, base, m) + Count(s, tally, base + 60 * m, n)
  {
    if n > 0 {
      CountSplits(s, tally, base, m, n - 1);
      assert base + 60 * m + 60 * (n - 1) == base + 60 * (m + n - 1);
    }
  }

  lemma {:induction false} ReadingsSplit(s: Subject, which: Metric, base: int, m: nat, n: nat)
    ensures MaxOver(s, which, base, m + n) == Higher(MaxOver(s, which, base, m), MaxOver(s, which, base + 60 * m, n))
    ensures SumOver(s, which, base, m + n) == SumOver(s, which, base, m) + SumOver(s, which, base + 60 * m, n)
    ensures LastOver(s, which, base, m + n) ==
              if LastOver(s, which, base + 60 * m, n).Some? then LastOver(s, which, base + 60 * m, n) else LastOver(s, which, base, m)
  {
    if n > 0 {
      ReadingsSplit(s, which, base, m, n - 1);
      assert base + 60 * m + 60 * (n - 1) == base + 60 * (m + n - 1);
    }
  }

  lemma {:induction false} InstancesSplit(s: Subject, base: int, m: nat, n: nat)
    ensures InstanceMaxOver(s, base, m + n) == Max(InstanceMaxOver(s, base, m), InstanceMaxOver(s, base + 60 * m, n))
  {
    if n == 0 {
      InstancesAreNatural(s, base, m);
    } else {
      InstancesSplit(s, base, m, n - 1);
      assert base + 60 * m + 60 * (n - 1) == base + 60 * (m + n - 1);
    }
  }

  lemma InstancesAreNatural(s: Subject, base: int, n: nat)
    ensures InstanceMaxOver(s, base, n) >= 0
  {
  }

  /** Every sampled or otherwise counted minute is expected; a counted condition is a sampled minute. */
  lemma {:induction false} CountsAreNested(s: Subject, tally: Tally, base: int, n: nat)
    ensures Count(s, SampledMinutes, base, n) <= Count(s, ExpectedMinutes, base, n)
    ensures !tally.ExpectedMinutes? ==> Count(s, tally, base, n) <= Count(s, SampledMinutes, base, n)
  {
    if n > 0 { CountsAreNested(s, tally, base, n - 1); }
  }

  // -------------------------------------------------------------- hierarchical equals direct

  predicate HasCoveredMinute(s: Subject, hour: int) {
    exists i :: 0 <= i < 60 && Covered(s, hour + 60 * i)
  }

  /** The table holds the computed row of every hour that has a covered minute, and no other row in the range than computed ones. */
  ghost predicate Rolled(s: Subject, table: Hours, start: int, k: nat) {
    forall j :: 0 <= j < k ==>
      var hour := start + 3600 * j;
      (hour in table ==> table[hour] == HourRow(s, hour)) && (HasCoveredMinute(s, hour) ==> hour in table)
  }

  lemma {:induction false} UncoveredReadings(s: Subject, which: Metric, hour: int, n: nat)
    requires n <= 60 && !HasCoveredMinute(s, hour)
    ensures MaxOver(s, which, hour, n).None? && SumOver(s, which, hour, n) == 0.0 && LastOver(s, which, hour, n).None?
  {
    if n > 0 {
      UncoveredReadings(s, which, hour, n - 1);
      assert !Covered(s, hour + 60 * (n - 1));
    }
  }

  lemma {:induction false} UncoveredCounts(s: Subject, tally: Tally, hour: int, n: nat)
    requires n <= 60 && !HasCoveredMinute(s, hour)
    ensures Count(s, tally, hour, n) == 0 && InstanceMaxOver(s, hour, n) == 0
  {
    if n > 0 {
      UncoveredCounts(s, tally, hour, n - 1);
      assert !Covered(s, hour + 60 * (n - 1));
    }
  }

  /** A row that need not exist would have been empty. */
  lemma UncoveredHourIsEmpty(s: Subject, hour: int)
    requires !HasCoveredMinute(s, hour)
    ensures forall tally :: Count(s, tally, hour, 60) == 0
    ensures forall which :: MaxOver(s, which, hour, 60).None? && SumOver(s, which, hour, 60) == 0.0 && LastOver(s, which, hour, 60).None?
    ensures InstanceMaxOver(s, hour, 60) == 0
  {
    UncoveredCounts(s, SampledMinutes, hour, 60);
    forall tally ensures Count(s, tally, hour, 60) == 0 { UncoveredCounts(s, tally, hour, 60); }
    forall which ensures MaxOver(s, which, hour, 60).None? && SumOver(s, which, hour, 60) == 0.0 && LastOver(s, which, hour, 60).None? {
      UncoveredReadings(s, which, hour, 60);
    }
  }

  function TallyOf(column: Column): Tally
    requires !column.CriticalRows? && !column.WarningRows?
  {
    match column
    case SamplesColumn => SampledMinutes
    case ExpectedColumn => ExpectedMinutes
    case OnlineColumn => OnlineMinutes
    case AbnormalColumn => AbnormalMinutes
    case UnhealthyColumn => UnhealthyMinutes
  }

  /** The column holds, hour by hour, what the minutes say; a missing row stands for zero. */
  ghost predicate ColumnRight(s: Subject, table: Hours, column: Column, start: int, k: nat)
    requires !column.CriticalRows? && !column.WarningRows?
  {
    forall j :: 0 <= j < k ==> CellAt(table, column, start + 3600 * j) == Count(s, TallyOf(column), start + 3600 * j, 60)
  }

  lemma {:induction false} ColumnSums(s: Subject, table: Hours, start: int, k: nat, column: Column)
    requires !column.CriticalRows? && !column.WarningRows? && ColumnRight(s, table, column, start, k)
    ensures SumRows(table, column, start, k) == Count(s, TallyOf(column), start, 60 * k)
  {
    hide Cell, Count, CellAt;
    if k == 0 {
      NoMinutes(s, TallyOf(column), start);
    } else {
      ColumnSums(s, table, start, k - 1, column);
      CountSplits(s, TallyOf(column), start, 60 * (k - 1), 60);
      assert 60 * (k - 1) + 60 == 60 * k && start + 60 * (60 * (k - 1)) == start + 3600 * (k - 1);
    }
  }

  lemma NoMinutes(s: Subject, tally: Tally, base: int)
    ensures Count(s, tally, base, 0) == 0
  {
  }

  lemma SumsAgree(s: Subject, table: Hours, start: int, k: nat, column: Column)
    requires Rolled(s, table, start, k) && !column.CriticalRows? && !column.WarningRows?
    ensures SumRows(table, column, start, k) == Count(s, TallyOf(column), start, 60 * k)
  {
    forall j | 0 <= j < k ensures CellAt(table, column, start + 3600 * j) == Count(s, TallyOf(column), start + 3600 * j, 60) {
      var hour := start + 3600 * j;
      assert hour in table ==> table[hour] == HourRow(s, hour);
      if hour !in table { UncoveredHourIsEmpty(s, hour); }
    }
    ColumnSums(s, table, start, k, column);
  }

  lemma {:induction false} MaximaAgree(s: Subject, table: Hours, start: int, k: nat, which: Metric)
    requires Rolled(s, table, start, k) && (which.CpuPeak? || which.MemoryPeak? || which.Disk?)
    ensures MaxRows(table, which, start, k) == MaxOver(s, which, start, 60 * k)
  {
    if k > 0 {
      var hour := start + 3600 * (k - 1);
      assert Rolled(s, table, start, k - 1);
      MaximaAgree(s, table, start, k - 1, which);
      ReadingsSplit(s, which, start, 60 * (k - 1), 60);
      assert start + 60 * (60 * (k - 1)) == hour;
      if hour !in table { UncoveredHourIsEmpty(s, hour); }
    }
  }

  lemma {:induction false} LastReadingsAgree(s: Subject, table: Hours, start: int, k: nat)
    requires Rolled(s, table, start, k)
    ensures LastRows(table, start, k) == LastOver(s, Disk, start, 60 * k)
  {
    if k > 0 {
      var hour := start + 3600 * (k - 1);
      assert Rolled(s, table, start, k - 1);
      LastReadingsAgree(s, table, start, k - 1);
      ReadingsSplit(s, Disk, start, 60 * (k - 1), 60);
      assert start + 60 * (60 * (k - 1)) == hour;
      if hour !in table { UncoveredHourIsEmpty(s, hour); }
    }
  }

  lemma {:induction false} InstanceMaximaAgree(s: Subject, table: Hours, start: int, k: nat)
    requires Rolled(s, table, start, k)
    ensures InstanceMaxRows(table, start, k) == InstanceMaxOver(s, start, 60 * k)
  {
    if k > 0 {
      var hour := start + 3600 * (k - 1);
      assert Rolled(s, table, start, k - 1);
      InstanceMaximaAgree(s, table, start, k - 1);
      InstancesSplit(s, start, 60 * (k - 1), 60);
      assert start + 60 * (60 * (k - 1)) == hour;
      if hour in table { InstancesAreNatural(s, hour, 60); } else { UncoveredHourIsEmpty(s, hour); InstancesAreNatural(s, start, 60 * (k - 1)); }
    }
  }

  /** An hour is critical exactly when one of its minutes is; it is at warning only if one is and none is critical. */
  lemma HourHealth(s: Subject, hour: int)
    ensures HourRow(s, hour).health.Critical? <==> Count(s, CriticalMinutes, hour, 60) > 0
    ensures HourRow(s, hour).health.Warning? <==> Count(s, WarningMinutes, hour, 60) > 0 && Count(s, CriticalMinutes, hour, 60) == 0
  {
    CountsAreNested(s, CriticalMinutes, hour, 60);
    CountsAreNested(s, WarningMinutes, hour, 60);
  }

  lemma HourHealthCells(s: Subject, table: Hours, hour: int)
    requires (hour in table ==> table[hour] == HourRow(s, hour)) && (HasCoveredMinute(s, hour) ==> hour in table)
    ensures CellAt(table, CriticalRows, hour) >= 0 && CellAt(table, WarningRows, hour) >= 0
    ensures CellAt(table, CriticalRows, hour) > 0 <==> Count(s, CriticalMinutes, hour, 60) > 0
    ensures CellAt(table, WarningRows, hour) > 0 <==> Count(s, WarningMinutes, hour, 60) > 0 && Count(s, CriticalMinutes, hour, 60) == 0
  {
    if hour !in table { UncoveredHourIsEmpty(s, hour); }
    HourHealth(s, hour);
    hide Count, HourRow;
  }

  lemma {:induction false} HealthCountsAgree(s: Subject, table: Hours, start: int, k: nat)
    requires Rolled(s, table, start, k)
    ensures SumRows(table, CriticalRows, start, k) >= 0 && SumRows(table, WarningRows, start, k) >= 0
    ensures SumRows(table, CriticalRows, start, k) > 0 <==> Count(s, CriticalMinutes, start, 60 * k) > 0
    ensures SumRows(table, WarningRows, start, k) > 0 ==> Count(s, WarningMinutes, start, 60 * k) > 0
    ensures Count(s, WarningMinutes, start, 60 * k) > 0 ==> SumRows(table, WarningRows, start, k) > 0 || SumRows(table, CriticalRows, start, k) > 0
  {
    hide HourRow, HasCoveredMinute, Cell;
    if k > 0 {
      var hour := start + 3600 * (k - 1);
      RolledPrefix(s, table, start, k);
      HealthCountsAgree(s, table, start, k - 1);
      HourHealthCells(s, table, hour);
      hide Count, Rolled;
      CountSplits(s, CriticalMinutes, start, 60 * (k - 1), 60);
      CountSplits(s, WarningMinutes, start, 60 * (k - 1), 60);
      assert 60 * (k - 1) + 60 == 60 * k && start + 60 * (60 * (k - 1)) == hour;
    }
  }

  /** The daily row built from the hourly rows equals the row computed straight from the day's minutes, in every
      column but the averages: counts, status, health, maxima, and the last disk reading. */
  lemma HierarchicalEqualsDirect(s: Subject, table: Hours, start: int, k: nat)
    requires Rolled(s, table, start, k)
    ensures var daily, direct := DailyRow(table, start, k), RowOver(s, start, 60 * k);
            daily.(cpuAvg := direct.cpuAvg, memoryAvg := direct.memoryAvg) == direct
  {
    SumsAgree(s, table, start, k, SamplesColumn);
    SumsAgree(s, table, start, k, ExpectedColumn);
    SumsAgree(s, table, start, k, OnlineColumn);
    SumsAgree(s, table, start, k, AbnormalColumn);
    SumsAgree(s, table, start, k, UnhealthyColumn);
    MaximaAgree(s, table, start, k, CpuPeak);
    MaximaAgree(s, table, start, k, MemoryPeak);
    MaximaAgree(s, table, start, k, Disk);
    LastReadingsAgree(s, table, start, k);
    InstanceMaximaAgree(s, table, start, k);
    HealthCountsAgree(s, table, start, k);
  }

  // -------------------------------------------------------------- averages

  predicate IsMean(which: Metric) { which.CpuMean? || which.MemoryMean? }

  function SampledIn(s: Subject, start: int, j: int): nat { Count(s, SampledMinutes, start + 3600 * j, 60) }

  function PresentIn(s: Subject, which: Metric, start: int, j: int): nat { Count(s, Present(which), start + 3600 * j, 60) }

  /** Hour `j` has the same share of its sampled minutes with a reading as the whole day. */
  predicate SameShare(s: Subject, which: Metric, start: int, k: nat, j: int) {
    SampledIn(s, start, j) * Count(s, Present(which), start, 60 * k) == PresentIn(s, which, start, j) * Count(s, SampledMinutes, start, 60 * k)
  }

  ghost predicate EvenlyPresent(s: Subject, which: Metric, start: int, k: nat) {
    forall j :: 0 <= j < k && PresentIn(s, which, start, j) > 0 ==> SameShare(s, which, start, k, j)
  }

  /** A sum over minutes without readings is zero. */
  lemma {:induction false} NothingPresentSumsToZero(s: Subject, which: Metric, base: int, n: nat)
    requires Count(s, Present(which), base, n) == 0
    ensures SumOver(s, which, base, n) == 0.0
  {
    if n > 0 { NothingPresentSumsToZero(s, which, base, n - 1); }
  }

  function Times(a: real, b: real): real { a * b }

  function Ratio(a: int, b: int): real
    requires b > 0
  {
    a as real / b as real
  }

  lemma TimesDistributes(r: real, a: real, b: real)
    ensures Times(r, a + b) == Times(r, a) + Times(r, b) && Times(r, 0.0) == 0.0
  {
  }

  /** An hour's contribution to `SUM(avg * sample_count)`, from its readings. */
  function Term(sum: real, present: int, sampled: int): real
    requires present >= 0
  {
    if present == 0 then 0.0 else Divide(sum, present) * sampled as real
  }

  lemma ScaledTerm(sum: real, present: int, sampled: int, ratio: real)
    requires present >= 0 && (present == 0 ==> sum == 0.0)
    requires present > 0 ==> sampled as real == Times(ratio, present as real)
    ensures Term(sum, present, sampled) == Times(ratio, sum)
  {
  }

  lemma TermValue(sum: real, present: int, sampled: int)
    requires present >= 0
    ensures present > 0 && sum == present as real ==> Term(sum, present, sampled) == sampled as real
    ensures sum == 0.0 ==> Term(sum, present, sampled) == 0.0
  {
    if present > 0 {
      assert sum == present as real ==> sum / present as real == 1.0;
      assert sum == 0.0 ==> sum / present as real == 0.0;
    }
  }

  /** An hour's term in `SUM(avg * sample_count)`. */
  function TermOf(table: Hours, which: Metric, hour: int): real {
    if hour in table && PeakCell(table[hour], which).Some? then PeakCell(table[hour], which).value * table[hour].samples as real else 0.0
  }

  /** Sampled minutes are `ratio` times the minutes with a reading, in an hour that has any. */
  predicate InRatio(s: Subject, which: Metric, start: int, j: int, ratio: real) {
    PresentIn(s, which, start, j) > 0 ==> SampledIn(s, start, j) as real == Times(ratio, PresentIn(s, which, start, j) as real)
  }

  lemma ComputedTerm(s: Subject, table: Hours, which: Metric, hour: int)
    requires IsMean(which) && hour in table && table[hour] == HourRow(s, hour)
    ensures TermOf(table, which, hour) ==
              Term(SumOver(s, which, hour, 60), Count(s, Present(which), hour, 60), Count(s, SampledMinutes, hour, 60))
  {
  }

  lemma HourTerm(s: Subject, table: Hours, which: Metric, start: int, j: nat, ratio: real)
    requires Rolled(s, table, start, j + 1) && IsMean(which) && InRatio(s, which, start, j, ratio)
    ensures TermOf(table, which, start + 3600 * j) == Times(ratio, SumOver(s, which, start + 3600 * j, 60))
  {
    var hour := start + 3600 * j;
    TimesDistributes(ratio, 0.0, 0.0);
    if hour !in table {
      UncoveredHourIsEmpty(s, hour);
    } else {
      assert table[hour] == HourRow(s, hour);
      hide Rolled, HourRow, Times, Term, TermOf, Count, SumOver;
      ComputedTerm(s, table, which, hour);
      if PresentIn(s, which, start, j) == 0 { NothingPresentSumsToZero(s, which, hour, 60); }
      ScaledTerm(SumOver(s, which, hour, 60), PresentIn(s, which, start, j), SampledIn(s, start, j), ratio);
    }
  }

  lemma {:induction false} WeightedSumScales(s: Subject, table: Hours, which: Metric, start: int, m: nat, ratio: real)
    requires Rolled(s, table, start, m) && IsMean(which)
    requires forall j :: 0 <= j < m ==> InRatio(s, which, start, j, ratio)
    ensures WeightedSum(table, which, start, m) == Times(ratio, SumOver(s, which, start, 60 * m))
  {
    hide Times, InRatio, Rolled, TermOf;
    if m == 0 {
      TimesDistributes(ratio, 0.0, 0.0);
    } else {
      var hour := start + 3600 * (m - 1);
      RolledPrefix(s, table, start, m);
      WeightedSumScales(s, table, which, start, m - 1, ratio);
      HourTerm(s, table, which, start, m - 1, ratio);
      assert WeightedSum(table, which, start, m) == WeightedSum(table, which, start, m - 1) + TermOf(table, which, hour) by {
        LastTerm(table, which, start, m);
      }
      hide SumOver, WeightedSum;
      ReadingsSplit(s, which, start, 60 * (m - 1), 60);
      assert 60 * (m - 1) + 60 == 60 * m && start + 60 * (60 * (m - 1)) == hour;
      TimesDistributes(ratio, SumOver(s, which, start, 60 * (m - 1)), SumOver(s, which, hour, 60));
    }
  }

  lemma LastTerm(table: Hours, which: Metric, start: int, m: nat)
    requires m > 0
    ensures WeightedSum(table, which, start, m) == WeightedSum(table, which, start, m - 1) + TermOf(table, which, start + 3600 * (m - 1))
  {
  }

  lemma RolledPrefix(s: Subject, table: Hours, start: int, k: nat)
    requires Rolled(s, table, start, k) && k > 0
    ensures Rolled(s, table, start, k - 1)
  {
  }

  predicate HasAverage(table: Hours, which: Metric, hour: int) {
    hour in table && PeakCell(table[hour], which).Some?
  }

  lemma HourHasAverage(s: Subject, table: Hours, which: Metric, hour: int)
    requires IsMean(which) && (hour in table ==> table[hour] == HourRow(s, hour)) && (HasCoveredMinute(s, hour) ==> hour in table)
    ensures HasAverage(table, which, hour) <==> Count(s, Present(which), hour, 60) > 0
  {
    if hour !in table { UncoveredHourIsEmpty(s, hour); }
    hide Count, SumOver, Divide;
  }

  /** Some hourly average exists exactly when some minute of the day has a reading. */
  lemma {:induction false} AnyAverageExactly(s: Subject, table: Hours, which: Metric, start: int, k: nat)
    requires Rolled(s, table, start, k) && IsMean(which)
    ensures AnyAverage(table, which, start, k) <==> Count(s, Present(which), start, 60 * k) > 0
  {
    hide PeakCell, HasCoveredMinute, HourRow;
    if k > 0 {
      var hour := start + 3600 * (k - 1);
      RolledPrefix(s, table, start, k);
      AnyAverageExactly(s, table, which, start, k - 1);
      HourHasAverage(s, table, which, hour);
      hide Count, Rolled;
      CountSplits(s, Present(which), start, 60 * (k - 1), 60);
      assert 60 * (k - 1) + 60 == 60 * k && start + 60 * (60 * (k - 1)) == hour;
      AnyAverageOneMore(table, which, start, k);
    }
  }

  lemma AnyAverageOneMore(table: Hours, which: Metric, start: int, k: nat)
    requires k > 0
    ensures AnyAverage(table, which, start, k) <==> AnyAverage(table, which, start, k - 1) || HasAverage(table, which, start + 3600 * (k - 1))
  {
  }

  lemma RatioFromShare(sampled: int, present: int, allSampled: int, allPresent: int)
    requires allPresent > 0 && sampled * allPresent == present * allSampled
    ensures sampled as real == Times(Ratio(allSampled, allPresent), present as real)
  {
  }

  lemma AverageOfScaled(sum: real, sampled: int, present: int)
    requires sampled > 0 && present > 0
    ensures Divide(Times(Ratio(sampled, present), sum), sampled) == Divide(sum, present)
  {
  }

  /** The sample-weighted daily average is the direct average whenever every hour has the day's share of readings. */
  lemma WeightedAverageIsDirect(s: Subject, table: Hours, which: Metric, start: int, k: nat)
    requires Rolled(s, table, start, k) && IsMean(which) && EvenlyPresent(s, which, start, k)
    ensures WeightedAverage(table, which, start, k) == AvgOver(s, which, start, 60 * k)
  {
    var N, P := Count(s, SampledMinutes, start, 60 * k), Count(s, Present(which), start, 60 * k);
    SumsAgree(s, table, start, k, SamplesColumn);
    AnyAverageExactly(s, table, which, start, k);
    CountsAreNested(s, Present(which), start, 60 * k);
    hide Count, SumRows, SumOver, WeightedSum, AnyAverage, Times, Ratio, Divide;
    if P > 0 {
      forall j | 0 <= j < k ensures InRatio(s, which, start, j, Ratio(N, P)) {
        if PresentIn(s, which, start, j) > 0 {
          assert SameShare(s, which, start, k, j);
          RatioFromShare(SampledIn(s, start, j), PresentIn(s, which, start, j), N, P);
        }
      }
      WeightedSumScales(s, table, which, start, k, Ratio(N, P));
      AverageOfScaled(SumOver(s, which, start, 60 * k), N, P);
    }
  }

  /** With a reading in every sampled minute the two-level rollup loses nothing at all. */
  lemma FullPresenceMakesTheWholeRowEqual(s: Subject, table: Hours, start: int, k: nat)
    requires Rolled(s, table, start, k)
    requires forall i :: 0 <= i < 60 * k && Sampled(s, start + 60 * i) ==>
               s.samples[start + 60 * i].cpuMean.Some? && s.samples[start + 60 * i].memoryMean.Some?
    ensures DailyRow(table, start, k) == RowOver(s, start, 60 * k)
  {
    HierarchicalEqualsDirect(s, table, start, k);
    forall which | IsMean(which) ensures EvenlyPresent(s, which, start, k) {
      FullPresenceIsEven(s, which, start, k);
    }
    WeightedAverageIsDirect(s, table, CpuMean, start, k);
    WeightedAverageIsDirect(s, table, MemoryMean, start, k);
  }

  lemma {:induction false} AllPresent(s: Subject, which: Metric, base: int, n: nat)
    requires forall i :: 0 <= i < n && Sampled(s, base + 60 * i) ==> Reading(s.samples[base + 60 * i], which).Some?
    ensures Count(s, Present(which), base, n) == Count(s, SampledMinutes, base, n)
  {
    if n > 0 { AllPresent(s, which, base, n - 1); }
  }

  lemma FullPresenceIsEven(s: Subject, which: Metric, start: int, k: nat)
    requires IsMean(which)
    requires forall i :: 0 <= i < 60 * k && Sampled(s, start + 60 * i) ==>
               s.samples[start + 60 * i].cpuMean.Some? && s.samples[start + 60 * i].memoryMean.Some?
    ensures EvenlyPresent(s, which, start, k)
  {
    AllPresent(s, which, start, 60 * k);
    forall j | 0 <= j < k ensures SameShare(s, which, start, k, j) {
      forall i | 0 <= i < 60 && Sampled(s, start + 3600 * j + 60 * i) ensures Reading(s.samples[start + 3600 * j + 60 * i], which).Some? {
        assert start + 3600 * j + 60 * i == start + 60 * (60 * j + i);
      }
      AllPresent(s, which, start + 3600 * j, 60);
    }
  }

  // -------------------------------------------------------------- and only then

  function SetMean(m: Sample, which: Metric, v: real): Sample {
    if Reading(m, which).None? then m
    else if which.CpuMean? then m.(cpuMean := Some(v))
    else if which.MemoryMean? then m.(memoryMean := Some(v))
    else m
  }

  /** The same minutes, pauses, lifecycles and presence of readings; only the values of one mean may differ. */
  ghost predicate SamePresence(s: Subject, w: Subject, which: Metric) {
    && w.monitored == s.monitored && w.pauses == s.pauses && w.lives == s.lives && w.samples.Keys == s.samples.Keys
    && forall t :: t in s.samples ==> exists v :: w.samples[t] == SetMean(s.samples[t], which, v)
  }

  /** Reads one inside [lo, hi) and zero outside it. */
  function Probe(s: Subject, which: Metric, lo: int, hi: int): Subject {
    s.(samples := map t | t in s.samples :: SetMean(s.samples[t], which, if lo <= t < hi then 1.0 else 0.0))
  }

  lemma {:induction false} ProbeCounts(s: Subject, which: Metric, lo: int, hi: int, base: int, n: nat)
    requires IsMean(which)
    ensures Count(Probe(s, which, lo, hi), SampledMinutes, base, n) == Count(s, SampledMinutes, base, n)
    ensures Count(Probe(s, which, lo, hi), Present(which), base, n) == Count(s, Present(which), base, n)
  {
    if n > 0 { ProbeCounts(s, which, lo, hi, base, n - 1); }
  }

  lemma {:induction false} ProbeSums(s: Subject, which: Metric, lo: int, hi: int, base: int, n: nat)
    requires IsMean(which) && ((lo <= base && base + 60 * n <= hi) || base + 60 * n <= lo || hi <= base)
    ensures SumOver(Probe(s, which, lo, hi), which, base, n) ==
              if lo <= base && base + 60 * n <= hi then Count(s, Present(which), base, n) as real else 0.0
  {
    if n > 0 {
      ProbeSums(s, which, lo, hi, base, n - 1);
    }
  }

  function HourTable(s: Subject, start: int, k: nat): Hours {
    if k == 0 then map[] else HourTable(s, start, k - 1)[start + 3600 * (k - 1) := HourRow(s, start + 3600 * (k - 1))]
  }

  lemma {:induction false} HourTableIsRolled(s: Subject, start: int, k: nat)
    ensures forall j :: 0 <= j < k ==>
              start + 3600 * j in HourTable(s, start, k) && HourTable(s, start, k)[start + 3600 * j] == HourRow(s, start + 3600 * j)
    ensures Rolled(s, HourTable(s, start, k), start, k)
  {
    hide HourRow, HasCoveredMinute;
    if k > 0 { HourTableIsRolled(s, start, k - 1); }
  }

  lemma ProbeTerm(s: Subject, which: Metric, start: int, k: nat, j: nat, i: nat)
    requires IsMean(which) && j < k && i < k && PresentIn(s, which, start, j) > 0
    ensures var w := Probe(s, which, start + 3600 * j, start + 3600 * j + 3600);
            TermOf(HourTable(w, start, k), which, start + 3600 * i) == (if i == j then SampledIn(s, start, j) as real else 0.0)
  {
    hide HourTable, Rolled, HourRow, Count, SumOver, Probe, TermOf, Term;
    var lo, hour := start + 3600 * j, start + 3600 * i;
    var w := Probe(s, which, lo, lo + 3600);
    HourTableIsRolled(w, start, k);
    ProbeSums(s, which, lo, lo + 3600, hour, 60);
    ProbeCounts(s, which, lo, lo + 3600, hour, 60);
    ComputedTerm(w, HourTable(w, start, k), which, hour);
    TermValue(SumOver(w, which, hour, 60), Count(w, Present(which), hour, 60), Count(w, SampledMinutes, hour, 60));
  }

  /** With the probe on hour `j`, only that hour contributes to either sum. */
  lemma {:induction false} ProbeTotals(s: Subject, which: Metric, start: int, k: nat, j: nat, m: nat)
    requires IsMean(which) && j < k && m <= k && PresentIn(s, which, start, j) > 0
    ensures var w := Probe(s, which, start + 3600 * j, start + 3600 * j + 3600);
            && SumOver(w, which, start, 60 * m) == (if m > j then PresentIn(s, which, start, j) as real else 0.0)
            && WeightedSum(HourTable(w, start, k), which, start, m) == (if m > j then SampledIn(s, start, j) as real else 0.0)
  {
    hide Probe, HourTable, TermOf, PresentIn;
    if m > 0 {
      ProbeTotals(s, which, start, k, j, m - 1);
      var lo, hour := start + 3600 * j, start + 3600 * (m - 1);
      var w := Probe(s, which, lo, lo + 3600);
      ReadingsSplit(w, which, start, 60 * (m - 1), 60);
      assert 60 * (m - 1) + 60 == 60 * m && start + 60 * (60 * (m - 1)) == hour;
      ProbeTerm(s, which, start, k, j, m - 1);
      LastTerm(HourTable(w, start, k), which, start, m);
      ProbeSums(s, which, lo, lo + 3600, hour, 60);
      assert Count(s, Present(which), lo, 60) == PresentIn(s, which, start, j) by { PresentInIs(s, which, start, j); }
      hide WeightedSum, SumOver, Count;
    }
  }

  lemma PresentInIs(s: Subject, which: Metric, start: int, j: nat)
    ensures Count(s, Present(which), start + 3600 * j, 60) == PresentIn(s, which, start, j)
  {
  }

  lemma ProbeKeepsPresence(s: Subject, which: Metric, lo: int, hi: int)
    ensures SamePresence(s, Probe(s, which, lo, hi), which)
  {
  }

  /** If one hour's share of readings differs from the day's, there are readings, in those very minutes, for which the
      weighted daily average and the direct average differ. */
  lemma UnevenSharesDisagree(s: Subject, which: Metric, start: int, k: nat, j: nat) returns (w: Subject, table: Hours)
    requires IsMean(which) && j < k && PresentIn(s, which, start, j) > 0 && !SameShare(s, which, start, k, j)
    ensures SamePresence(s, w, which) && Rolled(w, table, start, k)
    ensures WeightedAverage(table, which, start, k) != AvgOver(w, which, start, 60 * k)
  {
    hide Probe, HourTable, Rolled, Count, SumOver, WeightedSum, SumRows, AnyAverage, SamePresence, Divide;
    var lo := start + 3600 * j;
    w := Probe(s, which, lo, lo + 3600);
    table := HourTable(w, start, k);
    HourTableIsRolled(w, start, k);
    ProbeKeepsPresence(s, which, lo, lo + 3600);
    ProbeCounts(s, which, lo, lo + 3600, start, 60 * k);
    ProbeTotals(s, which, start, k, j, k);
    SumsAgree(w, table, start, k, SamplesColumn);
    AnyAverageExactly(w, table, which, start, k);
    CountsAreNested(s, Present(which), start, 60 * k);
    HourWithinDay(s, Present(which), start, k, j);
    EqualQuotients(SampledIn(s, start, j), Count(s, SampledMinutes, start, 60 * k), PresentIn(s, which, start, j), Count(s, Present(which), start, 60 * k));
  }

  lemma HourWithinDay(s: Subject, tally: Tally, start: int, k: nat, j: nat)
    requires j < k
    ensures Count(s, tally, start + 3600 * j, 60) <= Count(s, tally, start, 60 * k)
  {
    CountSplits(s, tally, start, 60 * j, 60 * (k - j));
    CountSplits(s, tally, start + 3600 * j, 60, 60 * (k - j - 1));
    assert start + 60 * (60 * j) == start + 3600 * j;
    assert 60 * j + 60 * (k - j) == 60 * k && 60 + 60 * (k - j - 1) == 60 * (k - j);
  }

  lemma EqualQuotients(a: int, n: int, b: int, p: int)
    requires n > 0 && p > 0
    ensures Divide(a as real, n) == Divide(b as real, p) ==> a * p == b * n
  {
  }
}
