/** Weighted value distributions.  The regular and the SEH1 distribution run the same code over
    different bucket keys (the value itself, or its bucket number), so both are one class whose
    kind says which key it uses.  View() is what a distribution holds, however it came about; the ghost
    field `entries` remembers what was accepted, and Valid() says that the statistics and the buckets are
    exactly those of the entries, as they are unless the distribution was restored from a histogram point. */
module Distributions {
  import opened Common
  import opened Reals
  import opened Buckets
  import opened Samples

  /** math.MaxFloat64, the minimum of an empty distribution. */
  const MAX_FLOAT64: real := 179769313486231570814527423731704356798070567525844996598917476803157260780028538760589558632766878171540458953514382464234321326889464182768467546703537516986049910576551282076245490090389328944075868508455133942304583236903222948165808559332123348274797826204144723168738177180919299881250404026184124858368.0

  datatype Outcome = Added | UnsupportedWeight | UnsupportedValue

  ghost predicate IsMinimum(es: seq<Entry>, x: real) {
    if es == [] then x == MAX_FLOAT64 else (exists e <- es :: e.value == x) && forall e <- es :: x <= e.value
  }

  ghost predicate IsMaximum(es: seq<Entry>, x: real) {
    if es == [] then x == 0.0 else (exists e <- es :: e.value == x) && forall e <- es :: e.value <= x
  }

  /** The statistics are those of the entries. */
  ghost predicate Describes(es: seq<Entry>, maximum: real, minimum: real, count: real, sum: real) {
    && Accepted(es)
    && IsMaximum(es, maximum)
    && IsMinimum(es, minimum)
    && count == Sum(Count, es)
    && sum == Sum(Value, es)
  }

  /** The buckets hold the weight of the entries that fall into them, and nothing else. */
  ghost predicate Counts(buckets: map<Bucket, real>, kind: Kind, es: seq<Entry>) {
    && buckets.Keys == BucketSet(kind, es)
    && forall b <- buckets :: buckets[b] == Sum(Within(kind, b), es)
  }

  /** `now` is `base` with the buckets in `done` increased by their weighted count in `from`. */
  ghost predicate Merged(now: map<Bucket, real>, base: map<Bucket, real>, from: map<Bucket, real>,
                         done: set<Bucket>, w: real)
  {
    && done <= from.Keys
    && now.Keys == base.Keys + done
    && (forall b <- done :: now[b] == CountIn(base, b) + Times(from[b], w))
    && (forall b <- base :: b !in done ==> now[b] == base[b])
  }

  function CountIn(m: map<Bucket, real>, b: Bucket): real {
    if b in m then m[b] else 0.0
  }

  function Larger(x: real, y: real): real {
    if y > x then y else x
  }

  function Smaller(x: real, y: real): real {
    if y < x then y else x
  }

  /** What a distribution holds. */
  datatype Stats = Stats(maximum: real, minimum: real, count: real, sum: real, buckets: map<Bucket, real>)

  const EMPTY := Stats(0.0, MAX_FLOAT64, 0.0, 0.0, map[])

  ghost function WithEntry(s: Stats, kind: Kind, v: real, w: real): Stats {
    var b := BucketOf(kind, v);
    Stats(Larger(s.maximum, v), Smaller(s.minimum, v), s.count + w, s.sum + Times(v, w),
          s.buckets[b := CountIn(s.buckets, b) + w])
  }

  ghost function AddedBuckets(x: map<Bucket, real>, y: map<Bucket, real>, w: real): map<Bucket, real> {
    map b | b in x.Keys + y.Keys :: CountIn(x, b) + Times(CountIn(y, b), w)
  }

  /** Counts, sums and buckets add up, and extremes combine. */
  ghost function Combined(s: Stats, o: Stats, w: real): Stats {
    Stats(Larger(s.maximum, o.maximum), Smaller(s.minimum, o.minimum),
          s.count + Times(o.count, w), s.sum + Times(o.sum, w), AddedBuckets(s.buckets, o.buckets, w))
  }

  /** The statistics and the buckets are exactly those of the entries. */
  ghost predicate Fits(s: Stats, kind: Kind, es: seq<Entry>) {
    Describes(es, s.maximum, s.minimum, s.count, s.sum) && Counts(s.buckets, kind, es)
  }

  /** The keys are of the type that the kind uses. */
  ghost predicate Keyed(kind: Kind, b: Bucket) {
    match kind
    case Regular => b.Exact?
    case Seh1 => b.Numbered? && -32768 <= b.number < 32768
  }

  class Distribution {
    const kind: Kind
    var maximum: real
    var minimum: real
    var sampleCount: real
    var sum: real
    var buckets: map<Bucket, real>
    var unit: string
    ghost var entries: seq<Entry>

    ghost function View(): Stats
      reads this
    {
      Stats(maximum, minimum, sampleCount, sum, buckets)
    }

    ghost predicate Typed()
      reads this
    {
      forall b <- buckets :: Keyed(kind, b)
    }

    ghost predicate Valid()
      reads this
    {
      Fits(View(), kind, entries)
    }

    constructor (kind: Kind)
      ensures Valid() && Typed() && View() == EMPTY && entries == [] && unit == "" && this.kind == kind
    {
      this.kind := kind;
      maximum, minimum, sampleCount, sum := 0.0, MAX_FLOAT64, 0.0, 0.0;
      buckets, unit, entries := map[], "", [];
    }

    method AddEntryWithUnit(value: real, weight: real, newUnit: string) returns (outcome: Outcome)
      modifies this
      ensures outcome == if weight <= 0.0 then UnsupportedWeight
                         else if 0.0 <= value <= MAX_VALUE then Added else UnsupportedValue
      ensures outcome.Added? ==> View() == WithEntry(old(View()), kind, value, weight)
      ensures outcome.Added? ==> entries == old(entries) + [Entry(value, weight)]
      ensures outcome.Added? ==> unit == if old(unit) == "" then newUnit else old(unit)
      ensures !outcome.Added? ==> unchanged(this)
      ensures (old(Valid()) ==> Valid()) && (old(Typed()) ==> Typed())
    {
      hide Fits, Times, CountIn, BucketOf, Keyed;
      if weight <= 0.0 {
        return UnsupportedWeight;
      }
      if !(0.0 <= value <= MAX_VALUE) {
        return UnsupportedValue;
      }
      if Valid() { EntryFits(View(), kind, entries, value, weight); }
      sampleCount := sampleCount + weight;
      sum := sum + Times(value, weight);
      Widen(value, value);
      var b := BucketOf(kind, value);
      KeyedBucket(kind, value);
      buckets := buckets[b := CountIn(buckets, b) + weight];
      TakeUnit(newUnit);
      entries := entries + [Entry(value, weight)];
      return Added;
    }

    method Widen(low: real, high: real)
      modifies this`minimum, this`maximum
      ensures minimum == Smaller(old(minimum), low) && maximum == Larger(old(maximum), high)
    {
      if low < minimum { minimum := low; }
      if high > maximum { maximum := high; }
    }

    /** The first unit stays. */
    method TakeUnit(newUnit: string)
      modifies this`unit
      ensures unit == if old(unit) == "" then newUnit else old(unit)
    {
      if unit == "" { unit := newUnit; }
    }

    /** Merging a distribution without samples, or of the other kind, is logged and ignored. */
    method AddDistributionWithWeight(other: Distribution, weight: real)
      modifies this
      ensures other.kind == kind && Times(old(other.sampleCount), weight) > 0.0 ==>
                && View() == Combined(old(View()), old(other.View()), weight)
                && entries == old(entries) + Scaled(old(other.entries), weight)
                && unit == if old(unit) == "" then old(other.unit) else old(unit)
      ensures !(other.kind == kind && Times(old(other.sampleCount), weight) > 0.0) ==> unchanged(this)
      ensures old(Valid() && other.Valid()) ==>
                Valid() && (Times(old(other.sampleCount), weight) > 0.0 <==> old(other.entries) != [] && weight > 0.0)
      ensures old(Typed() && other.Typed()) ==> Typed()
    {
      hide Fits, Merged, Times, CountIn, Scaled, AddedBuckets, Keyed;
      ghost var s, o := View(), other.View();
      if Valid() && other.Valid() && other.kind == kind { MergeFits(s, entries, o, other.entries, weight, kind); }
      if other.Valid() { FitsPositive(o, other.kind, other.entries, weight); }
      if Times(other.sampleCount, weight) > 0.0 {
        if other.kind != kind {
          return;
        }
        AddBuckets(other, weight);
        MergedIsAdded(buckets, s.buckets, o.buckets, weight);
        MergedKeys(buckets, s.buckets, o.buckets, weight);
        sampleCount := sampleCount + Times(other.sampleCount, weight);
        sum := sum + Times(other.sum, weight);
        Widen(other.minimum, other.maximum);
        TakeUnit(other.unit);
        entries := entries + Scaled(other.entries, weight);
      }
    }

    /** The loop over the other distribution's buckets, in whatever order the map is visited;
        the other distribution may be this one. */
    method AddBuckets(other: Distribution, weight: real)
      modifies this`buckets
      ensures Merged(buckets, old(buckets), old(other.buckets), old(other.buckets).Keys, weight)
    {
      hide Times, CountIn, Merged;
      MergedNothing(buckets, other.buckets, weight);
      var todo := other.buckets.Keys;
      while todo != {}
        invariant todo <= old(other.buckets).Keys
        invariant Merged(buckets, old(buckets), old(other.buckets), old(other.buckets).Keys - todo, weight)
        invariant forall b <- todo :: b in other.buckets && other.buckets[b] == old(other.buckets)[b]
        decreases |todo|
      {
        var b :| b in todo;
        MergedStep(buckets, old(buckets), old(other.buckets), old(other.buckets).Keys - todo, b, weight);
        assert old(other.buckets).Keys - todo + {b} == old(other.buckets).Keys - (todo - {b});
        buckets := buckets[b := CountIn(buckets, b) + Times(other.buckets[b], weight)];
        todo := todo - {b};
      }
      assert old(other.buckets).Keys - todo == old(other.buckets).Keys;
    }

    method CanAdd(value: real, sizeLimit: int) returns (ok: bool)
      ensures ok <==> |buckets| < sizeLimit || BucketOf(kind, value) in buckets
    {
      if |buckets| < sizeLimit {
        return true;
      }
      return BucketOf(kind, value) in buckets;
    }

    /** The values of a regular distribution, in whatever order the map is visited. */
    method Values() returns (values: seq<real>)
      requires Typed() && kind == Regular
      ensures Distinct(values)
      ensures forall v :: v in values <==> Exact(v) in buckets
    {
      values := [];
      var todo := buckets.Keys;
      while todo != {}
        invariant todo <= buckets.Keys
        invariant Distinct(values)
        invariant forall v :: v in values <==> Exact(v) in buckets.Keys - todo
        decreases |todo|
      {
        var b :| b in todo;
        assert b.Exact?;
        values := values + [b.value];
        todo := todo - {b};
      }
    }

    method AddDistribution(other: Distribution)
      modifies this
      ensures other.kind == kind && old(other.sampleCount) > 0.0 ==>
                View() == Combined(old(View()), old(other.View()), 1.0)
      ensures !(other.kind == kind && old(other.sampleCount) > 0.0) ==> unchanged(this)
      ensures old(Valid() && other.Valid()) ==>
                Valid() && (other.kind == kind ==> entries == old(entries) + old(other.entries))
      ensures old(Typed() && other.Typed()) ==> Typed()
    {
      hide Combined;
      ScaledByOne(other.entries);
      assert Times(other.sampleCount, 1.0) == other.sampleCount;
      AddDistributionWithWeight(other, 1.0);
    }
  }

  lemma EntryFits(s: Stats, kind: Kind, es: seq<Entry>, v: real, w: real)
    requires Fits(s, kind, es) && Supported(v) && w > 0.0
    ensures Fits(WithEntry(s, kind, v, w), kind, es + [Entry(v, w)])
  {
    hide Describes, Counts, Times, CountIn, BucketOf;
    EntryKeeps(es, s.maximum, s.minimum, s.count, s.sum, s.buckets, kind, v, w);
  }

  lemma FitsPositive(s: Stats, kind: Kind, es: seq<Entry>, w: real)
    requires Fits(s, kind, es)
    ensures Times(s.count, w) > 0.0 <==> es != [] && w > 0.0
  {
    PositiveFactor(es, s.maximum, s.minimum, s.count, s.sum, w);
  }

  lemma MergeFits(s: Stats, es: seq<Entry>, o: Stats, fs: seq<Entry>, w: real, kind: Kind)
    requires Fits(s, kind, es) && Fits(o, kind, fs)
    ensures Times(o.count, w) > 0.0 ==> Fits(Combined(s, o, w), kind, es + Scaled(fs, w))
  {
    hide Describes, Counts, Times, Scaled, AddedBuckets;
    FitsPositive(o, kind, fs, w);
    if Times(o.count, w) > 0.0 {
      AddedIsMerged(s.buckets, o.buckets, w);
      MergeKeeps(s, es, o, fs, w, kind, AddedBuckets(s.buckets, o.buckets, w));
    }
  }

  lemma AddedIsMerged(x: map<Bucket, real>, y: map<Bucket, real>, w: real)
    ensures Merged(AddedBuckets(x, y, w), x, y, y.Keys, w)
  {}

  lemma KeyedBucket(kind: Kind, v: real)
    ensures Keyed(kind, BucketOf(kind, v))
  {}

  /** What merging does to the statistics and the buckets of entries. */
  lemma MergeKeeps(s: Stats, es: seq<Entry>, o: Stats, fs: seq<Entry>, w: real, kind: Kind, buckets: map<Bucket, real>)
    requires Describes(es, s.maximum, s.minimum, s.count, s.sum) && Counts(s.buckets, kind, es)
    requires Describes(fs, o.maximum, o.minimum, o.count, o.sum) && Counts(o.buckets, kind, fs)
    requires fs != [] && w > 0.0 && Merged(buckets, s.buckets, o.buckets, o.buckets.Keys, w)
    ensures Describes(es + Scaled(fs, w), Larger(s.maximum, o.maximum), Smaller(s.minimum, o.minimum),
                      s.count + Times(o.count, w), s.sum + Times(o.sum, w))
    ensures Counts(buckets, kind, es + Scaled(fs, w))
  {
    hide Describes, Counts, Merged, Times, Scaled;
    ScaledDescribed(fs, o.maximum, o.minimum, o.count, o.sum, w);
    MergeDescribed(es, s.maximum, s.minimum, s.count, s.sum,
                   Scaled(fs, w), o.maximum, o.minimum, Times(o.count, w), Times(o.sum, w));
    PositiveFactor(es, s.maximum, s.minimum, s.count, s.sum, w);
    PositiveFactor(fs, o.maximum, o.minimum, o.count, o.sum, w);
    CountsMerged(s.buckets, es, o.buckets, fs, w, kind, buckets);
  }

  lemma MergedIsAdded(m: map<Bucket, real>, x: map<Bucket, real>, y: map<Bucket, real>, w: real)
    requires Merged(m, x, y, y.Keys, w)
    ensures m == AddedBuckets(x, y, w)
  {
    hide Times, Merged;
    assert m.Keys == x.Keys + y.Keys by { MergedKeys(m, x, y, w); }
    forall b <- m ensures m[b] == CountIn(x, b) + Times(CountIn(y, b), w) { MergedAt(m, x, y, w, b); }
  }

  lemma MergedKeys(m: map<Bucket, real>, x: map<Bucket, real>, y: map<Bucket, real>, w: real)
    requires Merged(m, x, y, y.Keys, w)
    ensures m.Keys == x.Keys + y.Keys
  {}

  /** What merging a non-empty list of entries does to the statistics. */
  lemma MergeDescribed(a: seq<Entry>, amax: real, amin: real, ac: real, asum: real,
                       b: seq<Entry>, bmax: real, bmin: real, bc: real, bsum: real)
    requires Describes(a, amax, amin, ac, asum) && Describes(b, bmax, bmin, bc, bsum) && b != []
    ensures Describes(a + b, Larger(amax, bmax), Smaller(amin, bmin), ac + bc, asum + bsum)
  {
    SumConcat(Count, a, b);
    SumConcat(Value, a, b);
    ExtremesMerged(a, amax, amin, b, bmax, bmin);
  }

  lemma ExtremesMerged(a: seq<Entry>, amax: real, amin: real, b: seq<Entry>, bmax: real, bmin: real)
    requires Accepted(a) && Accepted(b) && b != []
    requires IsMaximum(a, amax) && IsMinimum(a, amin) && IsMaximum(b, bmax) && IsMinimum(b, bmin)
    ensures IsMaximum(a + b, Larger(amax, bmax)) && IsMinimum(a + b, Smaller(amin, bmin))
  {
    var top: Entry :| top in b && top.value == bmax;
    var low: Entry :| low in b && low.value == bmin;
    assert top in a + b && low in a + b;
    if a != [] {
      var top' :| top' in a && top'.value == amax;
      var low' :| low' in a && low'.value == amin;
      assert top' in a + b && low' in a + b;
    }
  }

  /** What one accepted entry does to the statistics and the buckets. */
  lemma EntryKeeps(es: seq<Entry>, maximum: real, minimum: real, count: real, sum: real,
                   buckets: map<Bucket, real>, kind: Kind, v: real, w: real)
    requires Describes(es, maximum, minimum, count, sum) && Counts(buckets, kind, es)
    requires Supported(v) && w > 0.0
    ensures Describes(es + [Entry(v, w)], Larger(maximum, v), Smaller(minimum, v), count + w, sum + Times(v, w))
    ensures var b := BucketOf(kind, v);
            Counts(buckets[b := CountIn(buckets, b) + w], kind, es + [Entry(v, w)])
  {
    SingleDescribed(v, w);
    MergeDescribed(es, maximum, minimum, count, sum, [Entry(v, w)], v, v, w, Times(v, w));
    CountsEntry(buckets, kind, es, v, w);
  }

  lemma SingleDescribed(v: real, w: real)
    requires Supported(v) && w > 0.0
    ensures Describes([Entry(v, w)], v, v, w, Times(v, w))
  {
    var e := Entry(v, w);
    assert e in [e];
    SumSingle(Count, e);
    SumSingle(Value, e);
  }

  lemma CountsEntry(buckets: map<Bucket, real>, kind: Kind, es: seq<Entry>, v: real, w: real)
    requires Counts(buckets, kind, es) && Accepted(es)
    ensures var b := BucketOf(kind, v);
            Counts(buckets[b := CountIn(buckets, b) + w], kind, es + [Entry(v, w)])
  {
    hide BucketOf, Accepted;
    var e, b := Entry(v, w), BucketOf(kind, v);
    var next := buckets[b := CountIn(buckets, b) + w];
    assert BucketSet(kind, es + [e]) == BucketSet(kind, es) + {b};
    WithinPositive(kind, b, es);
    forall k <- next ensures next[k] == Sum(Within(kind, k), es + [e]) {
      assert (es + [e])[..|es|] == es;
    }
  }

  lemma ScaledDescribed(es: seq<Entry>, maximum: real, minimum: real, count: real, sum: real, w: real)
    requires Describes(es, maximum, minimum, count, sum) && w > 0.0
    ensures Describes(Scaled(es, w), maximum, minimum, Times(count, w), Times(sum, w))
  {
    SumScaled(Count, es, w);
    SumScaled(Value, es, w);
    ScaledAccepted(es, w);
    ScaledExtremes(es, maximum, minimum, w);
  }

  lemma ScaledAccepted(es: seq<Entry>, w: real)
    requires Accepted(es) && w > 0.0
    ensures Accepted(Scaled(es, w))
  {
    forall i | 0 <= i < |es| ensures Times(es[i].weight, w) > 0.0 {
      assert es[i] in es;
      TimesLess(0.0, es[i].weight, w);
    }
  }

  lemma ScaledExtremes(es: seq<Entry>, maximum: real, minimum: real, w: real)
    requires IsMaximum(es, maximum) && IsMinimum(es, minimum)
    ensures IsMaximum(Scaled(es, w), maximum) && IsMinimum(Scaled(es, w), minimum)
  {
    hide Times;
    var r := Scaled(es, w);
    if es != [] {
      var i :| 0 <= i < |es| && es[i].value == maximum;
      var j :| 0 <= j < |es| && es[j].value == minimum;
      assert r[i] in r && r[j] in r;
    }
  }

  /** Adding another distribution's weighted buckets counts its weighted entries too. */
  lemma CountsMerged(x: map<Bucket, real>, a: seq<Entry>, y: map<Bucket, real>, b: seq<Entry>, w: real,
                     kind: Kind, m: map<Bucket, real>)
    requires Counts(x, kind, a) && Counts(y, kind, b) && Merged(m, x, y, y.Keys, w)
    requires Accepted(a) && Accepted(b)
    ensures Counts(m, kind, a + Scaled(b, w))
  {
    hide Sum, Accepted, CountIn, Times, Scaled;
    var s := Scaled(b, w);
    ScaledBuckets(kind, b, w);
    assert BucketSet(kind, a + s) == BucketSet(kind, a) + BucketSet(kind, s);
    forall k <- m ensures m[k] == Sum(Within(kind, k), a + s) {
      CountsAt(x, kind, a, k);
      CountsAt(y, kind, b, k);
      SumConcat(Within(kind, k), a, s);
      SumScaled(Within(kind, k), b, w);
      MergedAt(m, x, y, w, k);
    }
  }

  lemma CountsAt(x: map<Bucket, real>, kind: Kind, es: seq<Entry>, k: Bucket)
    requires Counts(x, kind, es) && Accepted(es)
    ensures CountIn(x, k) == Sum(Within(kind, k), es)
  {
    WithinPositive(kind, k, es);
  }

  lemma MergedAt(m: map<Bucket, real>, x: map<Bucket, real>, y: map<Bucket, real>, w: real, k: Bucket)
    requires Merged(m, x, y, y.Keys, w) && k in m
    ensures m[k] == CountIn(x, k) + Times(CountIn(y, k), w)
  {}

  lemma MergedNothing(x: map<Bucket, real>, y: map<Bucket, real>, w: real)
    ensures Merged(x, x, y, y.Keys - y.Keys, w)
  {}

  lemma MergedStep(now: map<Bucket, real>, x: map<Bucket, real>, y: map<Bucket, real>,
                   done: set<Bucket>, k: Bucket, w: real)
    requires Merged(now, x, y, done, w) && k in y && k !in done
    ensures Merged(now[k := CountIn(now, k) + Times(y[k], w)], x, y, done + {k}, w)
  {}

  lemma ScaledBuckets(kind: Kind, es: seq<Entry>, w: real)
    ensures BucketSet(kind, Scaled(es, w)) == BucketSet(kind, es)
  {
    var r := Scaled(es, w);
    forall b <- BucketSet(kind, es) ensures b in BucketSet(kind, r) {
      var i :| 0 <= i < |es| && BucketOf(kind, es[i].value) == b;
      assert r[i] in r;
    }
  }

  lemma PositiveFactor(es: seq<Entry>, maximum: real, minimum: real, count: real, sum: real, w: real)
    requires Describes(es, maximum, minimum, count, sum)
    ensures Times(count, w) > 0.0 <==> es != [] && w > 0.0
    ensures Accepted(es)
  {
    SumPositive(es);
  }

  lemma ScaledByOne(es: seq<Entry>)
    ensures Scaled(es, 1.0) == es
  {}

  ghost predicate SameWeights(es: seq<Entry>, fs: seq<Entry>) {
    forall v: real :: Weight(es, v) == Weight(fs, v)
  }

  ghost function ValueSet(es: seq<Entry>): set<real> {
    set e <- es :: e.value
  }

  lemma {:induction false} Enumerate(s: set<real>) returns (values: seq<real>)
    ensures Distinct(values)
    ensures forall v :: v in values <==> v in s
  {
    if v :| v in s {
      values := Enumerate(s - {v});
      values := values + [v];
    } else {
      values := [];
    }
  }

  /** Every sum is fixed by the weight of each value. */
  lemma SumsDetermined(m: Measure, es: seq<Entry>, fs: seq<Entry>)
    requires SameWeights(es, fs)
    ensures Sum(m, es) == Sum(m, fs)
  {
    hide Sum;
    var values := Enumerate(ValueSet(es + fs));
    assert Covers(values, es) && Covers(values, fs) by {
      assert forall e <- es :: e in es + fs;
      assert forall e <- fs :: e in es + fs;
    }
    assert Listing(values, es) == Listing(values, fs);
    ListingSum(m, values, es);
    ListingSum(m, values, fs);
  }

  lemma ValuesDetermined(es: seq<Entry>, fs: seq<Entry>)
    requires Accepted(es) && Accepted(fs) && SameWeights(es, fs)
    ensures ValueSet(es) <= ValueSet(fs)
  {
    hide Sum;
    forall e <- es ensures e.value in ValueSet(fs) {
      assert BucketOf(Regular, e.value) == Exact(e.value);
      WithinPositive(Regular, Exact(e.value), es);
      WithinPositive(Regular, Exact(e.value), fs);
      assert Weight(es, e.value) == Weight(fs, e.value);
      assert Exact(e.value) in BucketSet(Regular, fs);
    }
  }

  /** Everything a distribution keeps is fixed by the weight of each value: neither the order in which
      entries and distributions arrived nor how they were grouped can be told afterwards. */
  lemma StateDetermined(a: Distribution, b: Distribution)
    requires a.Valid() && b.Valid() && a.kind == b.kind
    requires SameWeights(a.entries, b.entries)
    ensures a.sampleCount == b.sampleCount && a.sum == b.sum
    ensures a.maximum == b.maximum && a.minimum == b.minimum
    ensures a.buckets == b.buckets
  {
    hide Sum, SameWeights, IsMaximum, IsMinimum, BucketSet, Accepted, ValueSet;
    var es, fs := a.entries, b.entries;
    SumsDetermined(Count, es, fs);
    SumsDetermined(Value, es, fs);
    ValuesDetermined(es, fs);
    WeightsSymmetric(es, fs);
    ValuesDetermined(fs, es);
    ExtremesDetermined(es, fs, a.maximum, a.minimum, b.maximum, b.minimum);
    BucketsDetermined(es, fs, a.kind);
    BucketsDetermined(fs, es, a.kind);
    forall k <- a.buckets ensures a.buckets[k] == b.buckets[k] {
      SumsDetermined(Within(a.kind, k), es, fs);
    }
  }

  lemma WeightsSymmetric(es: seq<Entry>, fs: seq<Entry>)
    requires SameWeights(es, fs)
    ensures SameWeights(fs, es)
  {}

  lemma ExtremesDetermined(es: seq<Entry>, fs: seq<Entry>, amax: real, amin: real, bmax: real, bmin: real)
    requires ValueSet(es) == ValueSet(fs)
    requires IsMaximum(es, amax) && IsMinimum(es, amin) && IsMaximum(fs, bmax) && IsMinimum(fs, bmin)
    ensures amax == bmax && amin == bmin
  {
    assert fs != [] ==> fs[0].value in ValueSet(fs);
    assert es != [] ==> es[0].value in ValueSet(es);
    if es != [] {
      assert amax in ValueSet(fs) && amin in ValueSet(fs) && bmax in ValueSet(es) && bmin in ValueSet(es);
    }
  }

  lemma BucketsDetermined(es: seq<Entry>, fs: seq<Entry>, kind: Kind)
    requires ValueSet(es) <= ValueSet(fs)
    ensures BucketSet(kind, es) <= BucketSet(kind, fs)
  {
    forall k <- BucketSet(kind, es) ensures k in BucketSet(kind, fs) {
      var e :| e in es && BucketOf(kind, e.value) == k;
      assert e.value in ValueSet(fs);
    }
  }

  /** Merging is commutative and associative as far as the weights go. */
  lemma MergeOrderIrrelevant(a: seq<Entry>, b: seq<Entry>, c: seq<Entry>)
    ensures SameWeights(a + b, b + a)
    ensures SameWeights((a + b) + c, a + (b + c))
  {
    hide Sum;
    forall v: real ensures Weight(a + b, v) == Weight(b + a, v) {
      SumConcat(Within(Regular, Exact(v)), a, b);
      SumConcat(Within(Regular, Exact(v)), b, a);
    }
    assert (a + b) + c == a + (b + c);
  }

  /** Merging with weight w is the same as adding each source value once, with its count times w. */
  lemma MergeIsAddingEachValue(a: seq<Entry>, b: seq<Entry>, values: seq<real>, w: real)
    requires Distinct(values) && Covers(values, b)
    ensures SameWeights(a + Scaled(b, w), a + Scaled(Listing(values, b), w))
  {
    hide Sum;
    forall v: real ensures Weight(a + Scaled(b, w), v) == Weight(a + Scaled(Listing(values, b), w), v) {
      var m := Within(Regular, Exact(v));
      SumConcat(m, a, Scaled(b, w));
      SumConcat(m, a, Scaled(Listing(values, b), w));
      SumScaled(m, b, w);
      SumScaled(m, Listing(values, b), w);
      ListingSum(m, values, b);
    }
  }
}
