/** From an aggregated metric to the datums that are uploaded: one row of datums per dimension set, each row with one
    datum per chunk of the distribution. */
module Datums {
  import opened Common
  import opened Buckets
  import opened Samples
  import opened Distributions
  import opened Resizing
  import opened Rollups
  import opened Otel
  import opened Statistics
  import Aggregation

  const TIMESTAMP_SIZE := 57
  const DIMENSION_OVERHEADS := 97
  const METRIC_NAME_OVERHEADS := 34
  const HIGH_RESOLUTION_OVERHEADS := 42
  const VALUES_COUNTS_OVERHEADS := 104
  const STATISTICS_SIZE := 246
  const VALUE_OVERHEADS := 47
  const UNIT_OVERHEADS := 42

  datatype StatisticSet = StatisticSet(maximum: real, minimum: real, sampleCount: real, sum: real)

  /** The values and counts of a datum are given by the buckets they come from. */
  datatype MetricDatum = MetricDatum(
    name: Option<string>,
    dimensions: seq<Dimension>,
    unit: Option<string>,
    storageResolution: Option<int>,
    value: Option<real>,
    buckets: map<Bucket, real>,
    statistics: Option<StatisticSet>)

  ghost function DimensionsSize(dims: seq<Dimension>): nat {
    if dims == [] then 0
    else
      var last := dims[|dims| - 1];
      DimensionsSize(dims[..|dims| - 1]) + |last.name| + |last.value| + DIMENSION_OVERHEADS
  }

  /** The estimated encoded size of a datum. */
  ghost function PayloadSize(d: MetricDatum): nat {
    TIMESTAMP_SIZE + DimensionsSize(d.dimensions)
    + (if d.name.Some? then |d.name.value| + METRIC_NAME_OVERHEADS else 0)
    + (if d.storageResolution.Some? then HIGH_RESOLUTION_OVERHEADS else 0)
    + (if d.buckets != map[] then |d.buckets| * VALUES_COUNTS_OVERHEADS + STATISTICS_SIZE else VALUE_OVERHEADS)
    + (if d.unit.Some? then UNIT_OVERHEADS else 0)
  }

  method Payload(d: MetricDatum) returns (size: int)
    ensures size == PayloadSize(d)
  {
    size := TIMESTAMP_SIZE;
    for i := 0 to |d.dimensions|
      invariant size == TIMESTAMP_SIZE + DimensionsSize(d.dimensions[..i])
    {
      assert d.dimensions[..i + 1][..i] == d.dimensions[..i];
      size := size + |d.dimensions[i].name| + |d.dimensions[i].value| + DIMENSION_OVERHEADS;
    }
    assert d.dimensions[..|d.dimensions|] == d.dimensions;
    if d.name.Some? {
      size := size + |d.name.value| + METRIC_NAME_OVERHEADS;
    }
    if d.storageResolution.Some? {
      size := size + HIGH_RESOLUTION_OVERHEADS;
    }
    var valuesCounts := |d.buckets|;
    if valuesCounts != 0 {
      size := size + valuesCounts * VALUES_COUNTS_OVERHEADS + STATISTICS_SIZE;
    } else {
      size := size + VALUE_OVERHEADS;
    }
    if d.unit.Some? {
      size := size + UNIT_OVERHEADS;
    }
  }

  /** What each part of a datum adds to its size, starting from a bare one. */
  lemma PayloadParts(d: MetricDatum, name: string, dim: Dimension, unit: string, resolution: int,
                     buckets: map<Bucket, real>)
    ensures d.name.None? && d.dimensions == [] && d.unit.None? && d.storageResolution.None? && d.buckets == map[] ==>
              PayloadSize(d) == 104
    ensures PayloadSize(d.(dimensions := d.dimensions + [dim])) == PayloadSize(d) + 97 + |dim.name| + |dim.value|
    ensures d.name.None? ==> PayloadSize(d.(name := Some(name))) == PayloadSize(d) + 34 + |name|
    ensures d.storageResolution.None? ==> PayloadSize(d.(storageResolution := Some(resolution))) == PayloadSize(d) + 42
    ensures d.unit.None? ==> PayloadSize(d.(unit := Some(unit))) == PayloadSize(d) + 42
    ensures d.buckets == map[] && buckets != map[] ==>
              PayloadSize(d.(buckets := buckets)) == PayloadSize(d) - 47 + 246 + 104 * |buckets|
  {
    assert (d.dimensions + [dim])[..|d.dimensions|] == d.dimensions;
  }

  /** A metric as it leaves the aggregator. */
  datatype Metric = Metric(
    name: string, dimensions: seq<Dimension>, unit: Option<string>, storageResolution: Option<int>, value: Option<real>)

  /** What one datum reports of a chunk. */
  datatype Report = Report(buckets: map<Bucket, real>, statistics: StatisticSet)

  function ReportDatum(metric: Metric, dims: seq<Dimension>, r: Report): MetricDatum {
    MetricDatum(Some(metric.name), dims, metric.unit, metric.storageResolution, None, r.buckets, Some(r.statistics))
  }

  function ValueDatum(metric: Metric, dims: seq<Dimension>): MetricDatum {
    MetricDatum(Some(metric.name), dims, metric.unit, metric.storageResolution, metric.value, map[], None)
  }

  /** What every datum of a metric carries for a dimension set. */
  ghost predicate Labelled(d: MetricDatum, metric: Metric, dims: seq<Dimension>) {
    d.name == Some(metric.name) && d.dimensions == dims && d.unit == metric.unit &&
    d.storageResolution == metric.storageResolution
  }

  /** The datum for the r-th dimension set and the i-th report stands in the r-th of as many rows as there are dimension
      sets, and carries that report. */
  ghost predicate ReportedAt(datums: seq<MetricDatum>, metric: Metric, rows: seq<seq<Dimension>>, reports: seq<Report>,
                             r: nat, i: nat)
    requires r < |rows| && i < |reports|
  {
    var k := r * |reports| + i;
    && k < |datums| && Labelled(datums[k], metric, rows[r])
    && datums[k].value == None && datums[k].buckets == reports[i].buckets
    && datums[k].statistics == Some(reports[i].statistics)
  }

  /** Row after row, every report. */
  ghost predicate ReportedRows(datums: seq<MetricDatum>, metric: Metric, rows: seq<seq<Dimension>>,
                               reports: seq<Report>) {
    && |datums| == |rows| * |reports|
    && forall r, i :: 0 <= r < |rows| && 0 <= i < |reports| ==> ReportedAt(datums, metric, rows, reports, r, i)
  }

  /** One datum with the metric's own value for every dimension set. */
  ghost predicate ValueRows(datums: seq<MetricDatum>, metric: Metric, rows: seq<seq<Dimension>>) {
    && |datums| == |rows|
    && forall r :: 0 <= r < |rows| ==>
         Labelled(datums[r], metric, rows[r]) && datums[r].value == metric.value && datums[r].buckets == map[] &&
         datums[r].statistics == None
  }

  /** The samples that n datums report. */
  ghost function DatumCount(datums: seq<MetricDatum>, start: nat, n: nat): real
    requires start + n <= |datums|
  {
    if n == 0 then 0.0
    else
      var s := datums[start + n - 1].statistics;
      DatumCount(datums, start, n - 1) + if s.Some? then s.value.sampleCount else 0.0
  }

  ghost function DatumSum(datums: seq<MetricDatum>, start: nat, n: nat): real
    requires start + n <= |datums|
  {
    if n == 0 then 0.0
    else
      var s := datums[start + n - 1].statistics;
      DatumSum(datums, start, n - 1) + if s.Some? then s.value.sum else 0.0
  }

  /** Each row by itself reports so many samples and such a sum. */
  ghost predicate RowTotals(datums: seq<MetricDatum>, rows: nat, n: nat, count: real, sum: real) {
    forall r :: 0 <= r < rows ==> RowTotal(datums, r, n, count, sum)
  }

  ghost predicate RowTotal(datums: seq<MetricDatum>, r: nat, n: nat, count: real, sum: real) {
    && r * n + n <= |datums|
    && DatumCount(datums, r * n, n) == count && DatumSum(datums, r * n, n) == sum
  }

  ghost function ReportedCount(reports: seq<Report>): real {
    if reports == [] then 0.0
    else ReportedCount(reports[..|reports| - 1]) + reports[|reports| - 1].statistics.sampleCount
  }

  ghost function ReportedSum(reports: seq<Report>): real {
    if reports == [] then 0.0 else ReportedSum(reports[..|reports| - 1]) + reports[|reports| - 1].statistics.sum
  }

  /** Reading the statistics of the chunks. */
  method Reports(list: seq<Distribution>) returns (reports: seq<Report>)
    ensures |reports| == |list|
    ensures forall i :: 0 <= i < |list| ==>
              reports[i] == ReportOf(list[i].View())
  {
    reports := [];
    for i := 0 to |list|
      invariant |reports| == i
      invariant forall j :: 0 <= j < i ==>
                  reports[j] == ReportOf(list[j].View())
    {
      var d := list[i];
      reports := reports + [Report(d.buckets, StatisticSet(d.maximum, d.minimum, d.sampleCount, d.sum))];
    }
  }

  ghost predicate ReportsOn(s: StatisticSet, chunk: seq<Entry>) {
    Describes(chunk, s.maximum, s.minimum, s.sampleCount, s.sum)
  }

  /** The reports say what the chunks hold. */
  ghost predicate Reporting(reports: seq<Report>, chunks: seq<seq<Entry>>) {
    && |reports| == |chunks|
    && forall i :: 0 <= i < |chunks| ==>
         && ReportsOn(reports[i].statistics, chunks[i])
         && Counts(reports[i].buckets, Seh1, chunks[i])
  }

  lemma {:induction false} ReportedTotals(reports: seq<Report>, chunks: seq<seq<Entry>>)
    requires Reporting(reports, chunks)
    ensures ReportedCount(reports) == SumOver(Count, chunks) && ReportedSum(reports) == SumOver(Value, chunks)
  {
    hide Counts, IsMaximum, IsMinimum, Accepted, Sum;
    if chunks != [] {
      var n := |chunks| - 1;
      ReportedTotals(reports[..n], chunks[..n]);
      assert ReportsOn(reports[n].statistics, chunks[n]);
    }
  }

  /** What is reported of a distribution as it is. */
  ghost function ReportOf(s: Stats): Report {
    Report(s.buckets, StatisticSet(s.maximum, s.minimum, s.count, s.sum))
  }

  /** The reports of a distribution: of an SEH1 distribution as it is, of a regular one chunk by chunk. */
  ghost predicate Reported(reports: seq<Report>, kind: Kind, s: Stats, chunks: seq<seq<Entry>>, values: seq<real>,
                           maxValues: int) {
    match kind
    case Seh1 => reports == [ReportOf(s)]
    case Regular => Reporting(reports, chunks) && Chunking(chunks, values, s.buckets, maxValues)
  }

  ghost predicate SupportedMetric(metric: Metric) {
    metric.value.Some? && -MAX_VALUE <= metric.value.value <= MAX_VALUE
  }

  /** A regular distribution of which no value is taken: resizing leaves nothing of it. */
  ghost predicate LeavesNothing(kind: Kind, buckets: map<Bucket, real>, maxValues: int) {
    kind == Regular && maxValues >= 1 && forall b <- buckets :: b.Exact? ==> !Taken(buckets, b.value)
  }

  /** BuildMetricDatum.  Every dimension set gets a row of datums with the same reports, and each row accounts for the
      whole distribution if that was built from entries.  Where resizing leaves nothing of a distribution, the metric is
      sent with its own value.  `sent` is the metric with the distribution's unit, `rows` are the dimension sets. */
  method BuildMetricDatum(metric: Metric, dist: Distribution?, targets: seq<seq<string>>, dropping: bool,
                          maxValues: int)
    returns (datums: seq<MetricDatum>, ghost sent: Metric, ghost rows: seq<seq<Dimension>>, ghost reports: seq<Report>,
             ghost chunks: seq<seq<Entry>>, ghost values: seq<real>)
    requires dist != null ==> dist.Typed() && Resizable(dist.buckets)
    ensures sent == metric.(unit := if dist != null && dist.unit != "" then Some(dist.unit) else metric.unit)
    ensures rows == (if dropping then [] else [metric.dimensions]) + Extras(targets, metric.dimensions)
    ensures dist != null && dist.buckets == map[] ==> datums == []
    ensures reports != [] ==> ReportedRows(datums, sent, rows, reports)
    ensures reports == [] && (dist == null || dist.buckets != map[]) ==>
              if SupportedMetric(metric) then ValueRows(datums, sent, rows) else datums == []
    ensures reports == [] <==>
              dist == null || dist.buckets == map[] || LeavesNothing(dist.kind, dist.buckets, maxValues)
    ensures dist != null && dist.buckets != map[] ==>
              && Reported(reports, dist.kind, dist.View(), chunks, values, maxValues)
              && (dist.Valid() && reports != [] ==>
                    RowTotals(datums, |rows|, |reports|, dist.sampleCount, dist.sum))
              && (dist.Valid() && reports == [] ==> dist.sampleCount == dist.sum == 0.0)
              && (dist.kind == Regular && maxValues >= 1 ==> forall r <- reports :: 1 <= |r.buckets| <= maxValues)
  {
    hide Reported, Distribution.Valid, Distribution.Typed, Resizable, LeavesNothing, ReportedRows, ValueRows, RowTotals;
    datums, reports, chunks, values := [], [], [], [];
    sent := metric.(unit := if dist != null && dist.unit != "" then Some(dist.unit) else metric.unit);
    rows := (if dropping then [] else [metric.dimensions]) + Extras(targets, metric.dimensions);
    var current, all := metric, [];
    if dist != null {
      if |dist.buckets| == 0 {
        return;
      }
      if dist.unit != "" {
        current := current.(unit := Some(dist.unit));
      }
      all, chunks, values := ReportsOf(dist, maxValues);
      reports := all;
    }
    var full := ProcessRollup(targets, metric.dimensions);
    var sets := if dropping then full[1..] else full;
    assert sets == rows && current == sent;
    if |all| == 0 {
      datums := ValueDatums(current, sets);
    } else {
      datums := CrossRows(current, sets, all);
      EveryRowTotal(datums, current, sets, all);
    }
  }

  /** Resize, then read off the statistics of every chunk. */
  method ReportsOf(dist: Distribution, maxValues: int)
    returns (reports: seq<Report>, ghost chunks: seq<seq<Entry>>, ghost values: seq<real>)
    requires dist.Typed() && Resizable(dist.buckets)
    ensures Reported(reports, dist.kind, dist.View(), chunks, values, maxValues)
    ensures dist.buckets != map[] ==> (reports == [] <==> LeavesNothing(dist.kind, dist.buckets, maxValues))
    ensures dist.Valid() ==> ReportedCount(reports) == dist.sampleCount && ReportedSum(reports) == dist.sum
    ensures dist.kind == Regular && maxValues >= 1 ==> forall r <- reports :: 1 <= |r.buckets| <= maxValues
  {
    hide Describes, Counts, Chunking, Finite;
    var list;
    list, values, chunks := Resize(dist, maxValues);
    reports := Reports(list);
    if dist.kind == Seh1 {
      assert reports[..0] == [];
    } else {
      forall i | 0 <= i < |chunks|
        ensures ReportsOn(reports[i].statistics, chunks[i]) && Counts(reports[i].buckets, Seh1, chunks[i])
      {
        assert list[i] in list && list[i].Valid();
      }
      if dist.buckets != map[] { NoChunk(chunks, values, dist, maxValues); }
      if dist.Valid() {
        ReportedTotals(reports, chunks);
        ChunkingTotals(chunks, values, dist, maxValues);
      }
      if maxValues >= 1 {
        ReportSizes(reports, chunks, values, dist.buckets, maxValues);
      }
    }
  }

  /** Exactly when resizing leaves nothing of a distribution with buckets. */
  lemma NoChunk(chunks: seq<seq<Entry>>, values: seq<real>, dist: Distribution, maxValues: int)
    requires dist.Typed() && dist.kind == Regular && dist.buckets != map[] &&
               Chunking(chunks, values, dist.buckets, maxValues)
    ensures chunks == [] <==> LeavesNothing(Regular, dist.buckets, maxValues)
  {
    hide Separated, Size, Keyed;
    var b :| b in dist.buckets;
    assert Keyed(Regular, b);
    KeyedExact(b);
    assert b.value in values;
    KeptNothing(values, dist.buckets);
    if chunks != [] && maxValues >= 1 {
      SizeZero(chunks[|chunks| - 1]);
    }
  }

  lemma KeyedExact(b: Bucket)
    requires Keyed(Regular, b)
    ensures b == Exact(b.value)
  {}

  lemma ChunkingTotals(chunks: seq<seq<Entry>>, values: seq<real>, dist: Distribution, limit: int)
    requires dist.Valid() && dist.kind == Regular && Chunking(chunks, values, dist.buckets, limit)
    ensures SumOver(Count, chunks) == dist.sampleCount && SumOver(Value, chunks) == dist.sum
  {
    hide Chunking;
    EntriesConserved(Count, chunks, values, dist, limit);
    EntriesConserved(Value, chunks, values, dist, limit);
  }

  /** What is reported of any regular distribution are the values taken, so the count is the distribution's exactly when
      that is the count of the values taken. */
  lemma ReportedExactly(reports: seq<Report>, s: Stats, chunks: seq<seq<Entry>>, values: seq<real>, maxValues: int)
    requires Reported(reports, Regular, s, chunks, values, maxValues)
    ensures ReportedCount(reports) == Sum(Count, Kept(values, s.buckets)) &&
              ReportedSum(reports) == Sum(Value, Kept(values, s.buckets))
    ensures ReportedCount(reports) == s.count <==> s.count == Sum(Count, Kept(values, s.buckets))
  {
    hide Chunking, Sum, Kept;
    ReportedTotals(reports, chunks);
    ChunkingConserves(Count, chunks, values, s.buckets, maxValues);
    ChunkingConserves(Value, chunks, values, s.buckets, maxValues);
  }

  lemma ReportSizes(reports: seq<Report>, chunks: seq<seq<Entry>>, values: seq<real>, buckets: map<Bucket, real>,
                    limit: int)
    requires Reporting(reports, chunks) && Chunking(chunks, values, buckets, limit) && limit >= 1
    ensures forall r <- reports :: 1 <= |r.buckets| <= limit
  {
    hide Describes, Separated, ListsKeys, Kept;
    forall i | 0 <= i < |reports| ensures 1 <= |reports[i].buckets| <= limit {
      assert Counts(reports[i].buckets, Seh1, chunks[i]);
      assert |reports[i].buckets| == |reports[i].buckets.Keys|;
      assert 1 <= Size(chunks[i]) <= limit;
    }
  }

  method ValueDatums(metric: Metric, rows: seq<seq<Dimension>>) returns (datums: seq<MetricDatum>)
    ensures if SupportedMetric(metric) then ValueRows(datums, metric, rows) else datums == []
  {
    datums := [];
    for i := 0 to |rows|
      invariant if SupportedMetric(metric) then ValueRows(datums, metric, rows[..i]) else datums == []
    {
      if metric.value.None? || !(-MAX_VALUE <= metric.value.value <= MAX_VALUE) {
        continue;
      }
      datums := datums + [ValueDatum(metric, rows[i])];
    }
    assert rows[..|rows|] == rows;
  }

  method CrossRows(metric: Metric, rows: seq<seq<Dimension>>, reports: seq<Report>) returns (datums: seq<MetricDatum>)
    ensures ReportedRows(datums, metric, rows, reports)
  {
    hide ReportedAt;
    datums := [];
    for i := 0 to |rows|
      invariant |datums| == i * |reports|
      invariant forall r, j :: 0 <= r < i && 0 <= j < |reports| ==> ReportedAt(datums, metric, rows, reports, r, j)
    {
      for j := 0 to |reports|
        invariant |datums| == i * |reports| + j
        invariant forall r, k :: 0 <= r < i && 0 <= k < |reports| ==> ReportedAt(datums, metric, rows, reports, r, k)
        invariant forall k :: 0 <= k < j ==> ReportedAt(datums, metric, rows, reports, i, k)
      {
        ghost var before := datums;
        datums := datums + [ReportDatum(metric, rows[i], reports[j])];
        ReportedNext(before, datums[|before|], metric, rows, reports, i, j);
      }
      NextProduct(i, |reports|);
    }
  }

  lemma NextProduct(i: nat, n: nat)
    ensures (i + 1) * n == i * n + n
  {}

  /** A further datum stands where it should and leaves the ones before it where they are. */
  lemma ReportedNext(before: seq<MetricDatum>, d: MetricDatum, metric: Metric, rows: seq<seq<Dimension>>,
                     reports: seq<Report>, i: nat, j: nat)
    requires i < |rows| && j < |reports| && |before| == i * |reports| + j
    requires Labelled(d, metric, rows[i]) && d.value == None
    requires d.buckets == reports[j].buckets && d.statistics == Some(reports[j].statistics)
    ensures ReportedAt(before + [d], metric, rows, reports, i, j)
    ensures forall r, k :: 0 <= r < |rows| && 0 <= k < |reports| && ReportedAt(before, metric, rows, reports, r, k) ==>
              ReportedAt(before + [d], metric, rows, reports, r, k)
  {
    hide Labelled;
    forall r, k | 0 <= r < |rows| && 0 <= k < |reports| && ReportedAt(before, metric, rows, reports, r, k)
      ensures ReportedAt(before + [d], metric, rows, reports, r, k)
    {
      ReportedStill(before, d, metric, rows, reports, r, k);
    }
  }

  lemma ReportedStill(before: seq<MetricDatum>, d: MetricDatum, metric: Metric, rows: seq<seq<Dimension>>,
                      reports: seq<Report>, r: nat, k: nat)
    requires r < |rows| && k < |reports| && ReportedAt(before, metric, rows, reports, r, k)
    ensures ReportedAt(before + [d], metric, rows, reports, r, k)
  {
    hide Labelled;
    var at := r * |reports| + k;
    assert (before + [d])[at] == before[at];
  }

  /** In a row stand all reports, so it reports their totals. */
  lemma EveryRowTotal(datums: seq<MetricDatum>, metric: Metric, rows: seq<seq<Dimension>>, reports: seq<Report>)
    requires ReportedRows(datums, metric, rows, reports)
    ensures RowTotals(datums, |rows|, |reports|, ReportedCount(reports), ReportedSum(reports))
  {
    hide ReportedAt;
    forall r | 0 <= r < |rows|
      ensures RowTotal(datums, r, |reports|, ReportedCount(reports), ReportedSum(reports))
    {
      RowFits(|rows|, |reports|, r);
      PartOfRow(datums, metric, rows, reports, r, |reports|);
      assert reports[..|reports|] == reports;
    }
  }

  lemma {:induction false} RowFits(rows: nat, n: nat, r: nat)
    requires r < rows
    ensures r * n + n <= rows * n
  {
    NextProduct(rows - 1, n);
    if r < rows - 1 {
      RowFits(rows - 1, n, r);
    }
  }

  lemma {:induction false} PartOfRow(datums: seq<MetricDatum>, metric: Metric, rows: seq<seq<Dimension>>,
                                     reports: seq<Report>, r: nat, n: nat)
    requires r < |rows| && n <= |reports| && r * |reports| + n <= |datums|
    requires forall i :: 0 <= i < |reports| ==> ReportedAt(datums, metric, rows, reports, r, i)
    ensures DatumCount(datums, r * |reports|, n) == ReportedCount(reports[..n])
    ensures DatumSum(datums, r * |reports|, n) == ReportedSum(reports[..n])
  {
    if n > 0 {
      PartOfRow(datums, metric, rows, reports, r, n - 1);
      assert ReportedAt(datums, metric, rows, reports, r, n - 1);
      assert reports[..n][..n - 1] == reports[..n - 1];
    }
  }

  // ----- a stale value -----

  /** An unsupported value, then a restored distribution whose buckets have lost their fractions, both for one series:
      the aggregate counts one sample and has buckets, but resizing leaves nothing of it, and the value that the
      distribution had refused is sent. */
  method StaleValueSent(name: string) returns (kept: Aggregation.Datum, datums: seq<MetricDatum>)
    ensures kept.value == Some(-5.0) && kept.distribution != null && kept.distribution.sampleCount == 1.0
    ensures |datums| == 1 && datums[0].value == Some(-5.0)
  {
    hide Distribution.Valid, Reported, Finite;
    kept := StaleAggregate(name);
    SmallFinite();
    NothingLeft();
    var metric := Metric(name, [], kept.unit, None, kept.value);
    ghost var sent, rows, reports, chunks, values;
    datums, sent, rows, reports, chunks, values := BuildMetricDatum(metric, kept.distribution, [], false, 10);
  }

  lemma NothingLeft()
    ensures LeavesNothing(Regular, map[Exact(1.0) := 0.0, Exact(2.0) := 0.0], 10)
  {}

  method StaleAggregate(name: string) returns (kept: Aggregation.Datum)
    ensures kept.value == Some(-5.0)
    ensures kept.distribution != null && kept.distribution.Typed() && kept.distribution.kind == Regular
    ensures kept.distribution.sampleCount == 1.0
    ensures kept.distribution.buckets == map[Exact(1.0) := 0.0, Exact(2.0) := 0.0]
  {
    hide Distribution.Valid, Distribution.Typed, Joined, Floored;
    var half := HalfSamples();
    HalvesConvertible(half.View());
    var back := RoundTrip(half);
    kept := new Aggregation.Datum(name, Some(0), Some(name), Some("Count"), Some(-5.0), null);
    var later := new Aggregation.Datum(name, Some(0), Some(name), Some("Count"), None, back);
    var sent := Aggregation.TwoAggregated(kept, later, Regular, 60);
    HalvesJoined(half.View());
  }

  lemma HalvesConvertible(s: Stats)
    requires s.count == 1.0 && s.buckets == map[Exact(1.0) := 0.5, Exact(2.0) := 0.5]
    ensures Convertible(s)
  {}

  lemma HalvesJoined(s: Stats)
    requires s.count == 1.0 && s.buckets == map[Exact(1.0) := 0.5, Exact(2.0) := 0.5]
    ensures var j := Joined(EMPTY, Floored(s));
            j.count == 1.0 && j.buckets == map[Exact(1.0) := 0.0, Exact(2.0) := 0.0]
  {
    var zeros := map[Exact(1.0) := 0.0, Exact(2.0) := 0.0];
    assert Floored(s).buckets == zeros;
    var none: map<Bucket, real> := map[];
    assert AddedBuckets(none, zeros, 1.0) == zeros;
  }
}
