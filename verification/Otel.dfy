/** Distributions as OpenTelemetry histogram points, and back. */
module Otel {
  import opened Common
  import opened Buckets
  import opened Samples
  import opened Distributions

  /** Counts are uint64 in a histogram point. */
  const TWO_TO_64: real := 18446744073709551616.0

  datatype HistogramPoint = HistogramPoint(
    maximum: real, minimum: real, count: nat, sum: real, bounds: seq<real>, counts: seq<nat>)

  function Bound(b: Bucket): real {
    match b
    case Exact(v) => v
    case Numbered(n) => n as real
  }

  function FromBound(kind: Kind, x: real): Bucket {
    match kind
    case Regular => Exact(x)
    case Seh1 => Numbered(Int16(Truncate(x)))
  }

  /** Conversion to uint64 of a value in range drops the fraction. */
  function ToUint64(x: real): nat
    requires 0.0 <= x < TWO_TO_64
  {
    x.Floor
  }

  /** The point lists the buckets in the order in which the map was visited. */
  ghost predicate Listed(dp: HistogramPoint, order: seq<Bucket>, buckets: map<Bucket, real>) {
    && Distinct(order) && (forall b :: b in order <==> b in buckets)
    && |dp.bounds| == |dp.counts| == |order|
    && forall i :: 0 <= i < |order| ==>
         order[i] in buckets && dp.bounds[i] == Bound(order[i]) && dp.counts[i] == buckets[order[i]].Floor
  }

  /** The counts fit into unsigned integers. */
  ghost predicate Convertible(s: Stats) {
    0.0 <= s.count < TWO_TO_64 && forall b <- s.buckets :: 0.0 <= s.buckets[b] < TWO_TO_64
  }

  method ConvertToOtel(d: Distribution) returns (dp: HistogramPoint, ghost order: seq<Bucket>)
    requires Convertible(d.View())
    ensures dp.maximum == d.maximum && dp.minimum == d.minimum && dp.sum == d.sum && dp.count == d.sampleCount.Floor
    ensures Listed(dp, order, d.buckets)
  {
    var bounds: seq<real>, counts: seq<nat> := [], [];
    order := [];
    var todo := d.buckets.Keys;
    while todo != {}
      invariant todo <= d.buckets.Keys
      invariant Listed(HistogramPoint(0.0, 0.0, 0, 0.0, bounds, counts), order,
                  map b <- d.buckets | b !in todo :: d.buckets[b])
      decreases |todo|
    {
      var b :| b in todo;
      bounds, counts := bounds + [Bound(b)], counts + [ToUint64(d.buckets[b])];
      order, todo := order + [b], todo - {b};
    }
    assert (map b <- d.buckets | b !in todo :: d.buckets[b]) == d.buckets;
    dp := HistogramPoint(d.maximum, d.minimum, ToUint64(d.sampleCount), d.sum, bounds, counts);
  }

  /** A distribution built from entries is convertible as long as its sample count is in range. */
  lemma CountInRange(d: Distribution)
    requires d.Valid() && d.sampleCount < TWO_TO_64
    ensures Convertible(d.View())
  {
    SumPositive(d.entries);
    forall b <- d.buckets ensures 0.0 <= d.buckets[b] <= d.sampleCount {
      WithinPositive(d.kind, b, d.entries);
      WithinAtMost(d.kind, b, d.entries);
    }
  }

  lemma {:induction false} WithinAtMost(kind: Kind, b: Bucket, es: seq<Entry>)
    requires Accepted(es)
    ensures Sum(Within(kind, b), es) <= Sum(Count, es)
  {
    if es != [] {
      WithinAtMost(kind, b, es[..|es| - 1]);
      assert es[|es| - 1] in es;
    }
  }

  /** Bounds overwrite the buckets that are already there. */
  function Overwritten(buckets: map<Bucket, real>, kind: Kind, bounds: seq<real>, counts: seq<nat>): map<Bucket, real>
    requires |bounds| <= |counts|
  {
    if bounds == [] then buckets
    else
      var n := |bounds| - 1;
      Overwritten(buckets, kind, bounds[..n], counts[..n])[FromBound(kind, bounds[n]) := counts[n] as real]
  }

  method ConvertFromOtel(d: Distribution, dp: HistogramPoint, unit: string)
    requires |dp.bounds| <= |dp.counts|
    modifies d
    ensures d.maximum == dp.maximum && d.minimum == dp.minimum && d.sum == dp.sum && d.sampleCount == dp.count as real
    ensures d.unit == unit
    ensures d.buckets == Overwritten(old(d.buckets), d.kind, dp.bounds, dp.counts)
    ensures old(d.Typed()) ==> d.Typed()
  {
    d.maximum, d.minimum, d.sampleCount, d.sum, d.unit := dp.maximum, dp.minimum, dp.count as real, dp.sum, unit;
    for i := 0 to |dp.bounds|
      invariant d.maximum == dp.maximum && d.minimum == dp.minimum && d.sum == dp.sum &&
                  d.sampleCount == dp.count as real
      invariant d.unit == unit && (old(d.Typed()) ==> d.Typed())
      invariant d.buckets == Overwritten(old(d.buckets), d.kind, dp.bounds[..i], dp.counts[..i])
    {
      assert dp.bounds[..i + 1][..i] == dp.bounds[..i] && dp.counts[..i + 1][..i] == dp.counts[..i];
      d.buckets := d.buckets[FromBound(d.kind, dp.bounds[i]) := dp.counts[i] as real];
    }
    assert dp.bounds[..|dp.bounds|] == dp.bounds;
    OverwrittenPrefix(old(d.buckets), d.kind, dp.bounds, dp.counts);
  }

  /** The last bound of a bucket decides its count, and a bucket without a bound, for which `last` is -1, stays. */
  lemma {:induction false} LastBoundDecides(buckets: map<Bucket, real>, kind: Kind, bounds: seq<real>,
                                            counts: seq<nat>, b: Bucket, last: int)
    requires -1 <= last < |bounds| <= |counts| && (last >= 0 ==> FromBound(kind, bounds[last]) == b)
    requires forall j :: last < j < |bounds| ==> FromBound(kind, bounds[j]) != b
    ensures var r := Overwritten(buckets, kind, bounds, counts);
            if last >= 0 then b in r && r[b] == counts[last] as real
            else (b in r <==> b in buckets) && (b in buckets ==> r[b] == buckets[b])
  {
    hide FromBound;
    var n := |bounds| - 1;
    if n > last {
      LastBoundDecides(buckets, kind, bounds[..n], counts[..n], b, last);
    }
  }

  /** Further counts are not read. */
  lemma OverwrittenPrefix(buckets: map<Bucket, real>, kind: Kind, bounds: seq<real>, counts: seq<nat>)
    requires |bounds| <= |counts|
    ensures Overwritten(buckets, kind, bounds, counts[..|bounds|]) == Overwritten(buckets, kind, bounds, counts)
  {
    if bounds != [] {
      var n := |bounds| - 1;
      assert counts[..|bounds|][..n] == counts[..n];
    }
  }

  /** Every bucket key comes back from its bound. */
  lemma BoundBack(kind: Kind, b: Bucket)
    requires Keyed(kind, b)
    ensures FromBound(kind, Bound(b)) == b
  {
    if kind.Seh1? {
      assert Truncate(b.number as real) == b.number;
    }
  }

  /** Exactly these buckets, with their counts rounded down. */
  ghost predicate Restores(r: map<Bucket, real>, buckets: map<Bucket, real>, order: seq<Bucket>) {
    && (forall b :: b in r <==> b in order)
    && forall b <- r :: b in buckets && r[b] == buckets[b].Floor as real
  }

  lemma RestoresNext(r: map<Bucket, real>, buckets: map<Bucket, real>, order: seq<Bucket>, b: Bucket)
    requires Restores(r, buckets, order) && b in buckets
    ensures Restores(r[b := buckets[b].Floor as real], buckets, order + [b])
  {}

  lemma {:induction false} OverwrittenFresh(kind: Kind, buckets: map<Bucket, real>, order: seq<Bucket>,
                                            bounds: seq<real>, counts: seq<nat>)
    requires |bounds| == |counts| == |order|
    requires forall i :: 0 <= i < |order| ==>
               order[i] in buckets && Keyed(kind, order[i]) && bounds[i] == Bound(order[i]) &&
                   counts[i] == buckets[order[i]].Floor
    ensures Restores(Overwritten(map[], kind, bounds, counts), buckets, order)
  {
    if order != [] {
      hide Restores, Keyed, Bound, FromBound;
      var n := |order| - 1;
      OverwrittenFresh(kind, buckets, order[..n], bounds[..n], counts[..n]);
      BoundBack(kind, order[n]);
      RestoresNext(Overwritten(map[], kind, bounds[..n], counts[..n]), buckets, order[..n], order[n]);
      assert order == order[..n] + [order[n]];
    }
  }

  /** What survives the conversion: everything but the fractions of the counts. */
  ghost function Floored(s: Stats): Stats {
    Stats(s.maximum, s.minimum, s.count.Floor as real, s.sum, map b <- s.buckets :: s.buckets[b].Floor as real)
  }

  ghost predicate WholeBuckets(buckets: map<Bucket, real>) {
    forall b <- buckets :: buckets[b] == buckets[b].Floor as real
  }

  /** To a histogram point and back into a new distribution: everything but the fractions of the counts survives. A
      distribution of entries with whole counts comes back as it was. */
  method RoundTrip(d: Distribution) returns (back: Distribution)
    requires d.Typed() && Convertible(d.View())
    ensures fresh(back) && back.kind == d.kind && back.unit == d.unit && back.Typed()
    ensures back.View() == Floored(d.View())
    ensures d.Valid() && WholeBuckets(d.buckets) ==>
              back.View() == d.View() && back.Valid() && back.entries == d.entries
  {
    hide Distribution.Valid;
    var dp;
    ghost var order;
    dp, order := ConvertToOtel(d);
    back := new Distribution(d.kind);
    ConvertFromOtel(back, dp, d.unit);
    forall i | 0 <= i < |order| ensures Keyed(d.kind, order[i]) { assert order[i] in order; }
    OverwrittenFresh(d.kind, d.buckets, order, dp.bounds, dp.counts);
    assert back.buckets == map b <- d.buckets :: d.buckets[b].Floor as real;
    if d.Valid() && WholeBuckets(d.buckets) {
      WholeIsFloored(d);
      back.entries := d.entries;
      assert back.Valid() by { SameValid(d, back); }
    }
  }

  lemma SameValid(d: Distribution, back: Distribution)
    requires d.Valid() && back.kind == d.kind && back.View() == d.View() && back.entries == d.entries
    ensures back.Valid()
  {}

  // ----- how far the counts drift apart -----

  ghost function CountTotal(order: seq<Bucket>, buckets: map<Bucket, real>): real
    requires forall b <- order :: b in buckets
  {
    if order == [] then 0.0
    else
      assert order[|order| - 1] in order;
      CountTotal(order[..|order| - 1], buckets) + buckets[order[|order| - 1]]
  }

  ghost function FloorTotal(order: seq<Bucket>, buckets: map<Bucket, real>): int
    requires forall b <- order :: b in buckets
  {
    if order == [] then 0
    else
      assert order[|order| - 1] in order;
      FloorTotal(order[..|order| - 1], buckets) + buckets[order[|order| - 1]].Floor
  }

  /** Rounding each bucket down loses less than one per bucket; the total is never below, and at most n-1 above, the
      sum. */
  lemma {:induction false} FloorTotals(order: seq<Bucket>, buckets: map<Bucket, real>)
    requires forall b <- order :: b in buckets
    ensures FloorTotal(order, buckets) as real <= CountTotal(order, buckets)
    ensures order != [] ==> CountTotal(order, buckets) < (FloorTotal(order, buckets) + |order|) as real
    ensures order != [] ==> 0 <= CountTotal(order, buckets).Floor - FloorTotal(order, buckets) <= |order| - 1
  {
    if order != [] {
      FloorTotals(order[..|order| - 1], buckets);
    }
  }

  ghost function WithinTotal(kind: Kind, order: seq<Bucket>, es: seq<Entry>): real {
    if order == [] then 0.0
    else WithinTotal(kind, order[..|order| - 1], es) + Sum(Within(kind, order[|order| - 1]), es)
  }

  lemma {:induction false} WithinTotalNothing(kind: Kind, order: seq<Bucket>)
    ensures WithinTotal(kind, order, []) == 0.0
  {
    if order != [] { WithinTotalNothing(kind, order[..|order| - 1]); }
  }

  lemma {:induction false} WithinTotalSnoc(kind: Kind, order: seq<Bucket>, es: seq<Entry>, e: Entry)
    requires Distinct(order)
    ensures WithinTotal(kind, order, es + [e])
         == WithinTotal(kind, order, es) + if BucketOf(kind, e.value) in order then e.weight else 0.0
  {
    if order != [] {
      var front, last := order[..|order| - 1], order[|order| - 1];
      WithinTotalSnoc(kind, front, es, e);
      SumConcat(Within(kind, last), es, [e]);
      SumSingle(Within(kind, last), e);
      assert order == front + [last];
    }
  }

  /** The buckets account for the whole sample count. */
  lemma {:induction false} WithinTotalIsCount(kind: Kind, order: seq<Bucket>, es: seq<Entry>)
    requires Distinct(order) && forall e <- es :: BucketOf(kind, e.value) in order
    ensures WithinTotal(kind, order, es) == Sum(Count, es)
  {
    if es == [] {
      WithinTotalNothing(kind, order);
    } else {
      var front, last := es[..|es| - 1], es[|es| - 1];
      assert es == front + [last];
      assert forall e <- front :: e in es;
      WithinTotalIsCount(kind, order, front);
      WithinTotalSnoc(kind, order, front, last);
      assert last in es;
    }
  }

  lemma {:induction false} CountTotalIsWithin(d: Distribution, order: seq<Bucket>)
    requires d.Valid() && forall b <- order :: b in d.buckets
    ensures CountTotal(order, d.buckets) == WithinTotal(d.kind, order, d.entries)
  {
    if order != [] {
      assert forall b <- order[..|order| - 1] :: b in order;
      assert order[|order| - 1] in order;
      CountTotalIsWithin(d, order[..|order| - 1]);
    }
  }

  lemma ListedTotals(d: Distribution, order: seq<Bucket>)
    requires d.Valid() && Distinct(order) && forall b :: b in order <==> b in d.buckets
    ensures CountTotal(order, d.buckets) == d.sampleCount
    ensures d.entries != [] ==> order != []
  {
    forall e <- d.entries ensures BucketOf(d.kind, e.value) in order {
      assert BucketOf(d.kind, e.value) in BucketSet(d.kind, d.entries);
    }
    WithinTotalIsCount(d.kind, order, d.entries);
    CountTotalIsWithin(d, order);
    assert d.entries != [] ==> d.entries[0] in d.entries;
  }

  /** The sample count of a restored distribution exceeds its buckets together by at most one less than their number. */
  lemma RestoredDrift(d: Distribution, back: Distribution, order: seq<Bucket>)
    requires d.Valid() && d.entries != [] && back.View() == Floored(d.View())
    requires Distinct(order) && forall b :: b in order <==> b in d.buckets
    ensures 0.0 <= back.sampleCount - CountTotal(order, back.buckets) <= (|order| - 1) as real
  {
    hide Distribution.Valid, CountTotal, FloorTotal;
    ListedTotals(d, order);
    FloorTotals(order, d.buckets);
    FlooredTotal(order, d.buckets, back.buckets);
  }

  lemma {:induction false} FlooredTotal(order: seq<Bucket>, buckets: map<Bucket, real>, floored: map<Bucket, real>)
    requires floored == map b <- buckets :: buckets[b].Floor as real
    requires forall b <- order :: b in buckets
    ensures CountTotal(order, floored) == FloorTotal(order, buckets) as real
  {
    if order != [] {
      assert order[|order| - 1] in order;
      FlooredTotal(order[..|order| - 1], buckets, floored);
    }
  }

  lemma {:induction false} Enumerated(s: set<Bucket>) returns (order: seq<Bucket>)
    ensures Distinct(order) && forall b :: b in order <==> b in s
  {
    if b :| b in s {
      order := Enumerated(s - {b});
      order := order + [b];
    } else {
      order := [];
    }
  }

  /** Entries whose buckets have whole counts have a whole count altogether. */
  lemma WholeIsFloored(d: Distribution)
    requires d.Valid() && WholeBuckets(d.buckets)
    ensures Floored(d.View()) == d.View()
  {
    hide Distribution.Valid, CountTotal, FloorTotal;
    var order := Enumerated(d.buckets.Keys);
    ListedTotals(d, order);
    WholeTotals(order, d.buckets);
    assert (map b <- d.buckets :: d.buckets[b].Floor as real) == d.buckets;
  }

  lemma {:induction false} WholeTotals(order: seq<Bucket>, buckets: map<Bucket, real>)
    requires forall b <- order :: b in buckets
    requires WholeBuckets(buckets)
    ensures CountTotal(order, buckets) == FloorTotal(order, buckets) as real
  {
    if order != [] {
      assert order[|order| - 1] in order;
      WholeTotals(order[..|order| - 1], buckets);
    }
  }
}
