/** Weighted samples and the quantities summed over them. */
module Samples {
  import opened Common
  import opened Reals
  import opened Buckets

  /** A value seen with some weight. */
  datatype Entry = Entry(value: real, weight: real)

  /** Which of the two distribution types keeps the samples. */
  datatype Kind = Regular | Seh1

  /** The key under which a distribution counts a value. */
  datatype Bucket = Exact(value: real) | Numbered(number: int)

  function BucketOf(kind: Kind, v: real): Bucket {
    match kind
    case Regular => Exact(v)
    case Seh1 => Numbered(BucketNumber(v))
  }

  /** What is summed: sample count, sum of values, or the count in one bucket. */
  datatype Measure = Count | Value | Within(kind: Kind, bucket: Bucket)

  function Amount(m: Measure, e: Entry): real {
    match m
    case Count => e.weight
    case Value => Times(e.value, e.weight)
    case Within(kind, b) => if BucketOf(kind, e.value) == b then e.weight else 0.0
  }

  function Sum(m: Measure, es: seq<Entry>): real {
    if es == [] then 0.0 else Sum(m, es[..|es| - 1]) + Amount(m, es[|es| - 1])
  }

  function Scaled(es: seq<Entry>, w: real): (r: seq<Entry>)
    ensures |r| == |es|
    ensures forall i :: 0 <= i < |es| ==> r[i] == Entry(es[i].value, Times(es[i].weight, w))
  {
    if es == [] then []
    else Scaled(es[..|es| - 1], w) + [Entry(es[|es| - 1].value, Times(es[|es| - 1].weight, w))]
  }

  /** The buckets that hold at least one entry. */
  function BucketSet(kind: Kind, es: seq<Entry>): set<Bucket> {
    set e <- es :: BucketOf(kind, e.value)
  }

  lemma {:induction false} SumConcat(m: Measure, a: seq<Entry>, b: seq<Entry>)
    ensures Sum(m, a + b) == Sum(m, a) + Sum(m, b)
    decreases |b|
  {
    if b == [] {
      assert a + b == a;
    } else {
      assert (a + b)[..|a + b| - 1] == a + b[..|b| - 1];
      SumConcat(m, a, b[..|b| - 1]);
    }
  }

  lemma SumSingle(m: Measure, e: Entry)
    ensures Sum(m, [e]) == Amount(m, e)
  {
    assert [e][..0] == [];
  }

  lemma {:induction false} SumScaled(m: Measure, es: seq<Entry>, w: real)
    ensures Sum(m, Scaled(es, w)) == Times(Sum(m, es), w)
  {
    if es != [] {
      var front, last := es[..|es| - 1], es[|es| - 1];
      SumScaled(m, front, w);
      assert Scaled(es, w)[..|es| - 1] == Scaled(front, w);
      AmountScaled(m, last, w);
      TimesDistributes(Sum(m, front), Amount(m, last), w);
    }
  }

  lemma AmountScaled(m: Measure, e: Entry, w: real)
    ensures Amount(m, Entry(e.value, Times(e.weight, w))) == Times(Amount(m, e), w)
  {}

  /** Sums do not depend on the order of the entries. */
  lemma {:induction false} SumPermutation(m: Measure, a: seq<Entry>, b: seq<Entry>)
    requires multiset(a) == multiset(b)
    ensures Sum(m, a) == Sum(m, b)
    decreases |a|
  {
    hide Sum, Amount;
    if a == [] {
      assert |multiset(b)| == 0;
    } else {
      var front, last := a[..|a| - 1], a[|a| - 1];
      assert a == front + [last];
      assert last in multiset(b);
      var i :| 0 <= i < |b| && b[i] == last;
      assert b == b[..i] + [last] + b[i + 1..];
      assert multiset(front) == multiset(a) - multiset{last};
      assert multiset(b[..i] + b[i + 1..]) == multiset(b) - multiset{last};
      SumPermutation(m, front, b[..i] + b[i + 1..]);
      SumConcat(m, front, [last]);
      SumConcat(m, b[..i], b[i + 1..]);
      SumConcat(m, b[..i] + [last], b[i + 1..]);
      SumConcat(m, b[..i], [last]);
    }
  }

  ghost predicate Accepted(es: seq<Entry>) {
    forall e <- es :: Supported(e.value) && e.weight > 0.0
  }

  lemma {:induction false} SumPositive(es: seq<Entry>)
    requires Accepted(es)
    ensures Sum(Count, es) >= 0.0
    ensures es != [] ==> Sum(Count, es) > 0.0
  {
    if es != [] {
      SumPositive(es[..|es| - 1]);
      assert es[|es| - 1] in es;
    }
  }

  /** A bucket has weight exactly when some entry falls into it. */
  lemma {:induction false} WithinPositive(kind: Kind, b: Bucket, es: seq<Entry>)
    requires Accepted(es)
    ensures Sum(Within(kind, b), es) >= 0.0
    ensures b in BucketSet(kind, es) <==> Sum(Within(kind, b), es) > 0.0
  {
    if es != [] {
      var front, last := es[..|es| - 1], es[|es| - 1];
      WithinPositive(kind, b, front);
      assert es == front + [last];
      assert last in es;
    }
  }

  function Weight(es: seq<Entry>, v: real): real {
    Sum(Within(Regular, Exact(v)), es)
  }

  /** One entry per listed value, with the whole weight of that value. */
  ghost function Listing(values: seq<real>, es: seq<Entry>): (r: seq<Entry>)
    ensures |r| == |values|
    ensures forall i :: 0 <= i < |r| ==> r[i] == Entry(values[i], Weight(es, values[i]))
  {
    seq(|values|, i requires 0 <= i < |values| => Entry(values[i], Weight(es, values[i])))
  }

  ghost predicate Covers(values: seq<real>, es: seq<Entry>) {
    forall e <- es :: e.value in values
  }

  /** Grouping the entries by value changes no sum. */
  lemma {:induction false} ListingSum(m: Measure, values: seq<real>, es: seq<Entry>)
    requires Distinct(values) && Covers(values, es)
    ensures Sum(m, Listing(values, es)) == Sum(m, es)
  {
    hide Sum, Amount;
    if es == [] {
      ListingNothing(m, values);
    } else {
      var front, e := es[..|es| - 1], es[|es| - 1];
      assert es == front + [e];
      ListingSum(m, values, front);
      assert e in es;
      var i :| 0 <= i < |values| && values[i] == e.value;
      ListingSnoc(values, front, e, i);
      BumpSum(m, Listing(values, front), i, e.weight);
      SumConcat(m, front, [e]);
      SumSingle(m, e);
    }
  }

  lemma {:induction false} ListingNothing(m: Measure, values: seq<real>)
    ensures Sum(m, Listing(values, [])) == 0.0 == Sum(m, [])
  {
    if values != [] {
      var front := values[..|values| - 1];
      ListingNothing(m, front);
      assert Listing(values, [])[..|front|] == Listing(front, []);
      TimesDistributes(0.0, 0.0, values[|front|]);
    }
  }

  lemma ListingSnoc(values: seq<real>, front: seq<Entry>, e: Entry, i: nat)
    requires Distinct(values) && i < |values| && values[i] == e.value
    ensures Listing(values, front + [e])
         == var l := Listing(values, front); l[i := Entry(l[i].value, l[i].weight + e.weight)]
  {
    forall j | 0 <= j < |values|
      ensures Weight(front + [e], values[j]) == Weight(front, values[j]) + if j == i then e.weight else 0.0
    {
      assert (front + [e])[..|front|] == front;
    }
  }

  lemma BumpSum(m: Measure, es: seq<Entry>, i: nat, w: real)
    requires i < |es|
    ensures Sum(m, es[i := Entry(es[i].value, es[i].weight + w)]) == Sum(m, es) + Amount(m, Entry(es[i].value, w))
  {
    hide Sum;
    var old', new' := es[i], Entry(es[i].value, es[i].weight + w);
    assert es == es[..i] + [old'] + es[i + 1..];
    assert es[i := new'] == es[..i] + [new'] + es[i + 1..];
    SumConcat(m, es[..i] + [old'], es[i + 1..]);
    SumConcat(m, es[..i], [old']);
    SumConcat(m, es[..i] + [new'], es[i + 1..]);
    SumConcat(m, es[..i], [new']);
    SumSingle(m, old');
    SumSingle(m, new');
    TimesDistributes(old'.weight, w, old'.value);
  }

  /** A sum over several lists of entries. */
  ghost function SumOver(m: Measure, parts: seq<seq<Entry>>): real {
    if parts == [] then 0.0 else SumOver(m, parts[..|parts| - 1]) + Sum(m, parts[|parts| - 1])
  }

  lemma {:induction false} SumFlatten(m: Measure, parts: seq<seq<Entry>>)
    ensures Sum(m, Flatten(parts)) == SumOver(m, parts)
  {
    if parts != [] {
      SumFlatten(m, parts[..|parts| - 1]);
      SumConcat(m, Flatten(parts[..|parts| - 1]), parts[|parts| - 1]);
    }
  }
}
