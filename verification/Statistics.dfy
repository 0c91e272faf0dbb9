/** What distributions hold, added up: totals, and folds of what an aggregate received.  Nothing here asks how the
    statistics came about, so it covers distributions restored from histogram points too. */
module Statistics {
  import opened Common
  import opened Reals
  import opened Buckets
  import opened Samples
  import opened Distributions

  /** Sample count, sum of values, or the count in one bucket. */
  ghost function Total(m: Measure, s: Stats): real {
    match m
    case Count => s.count
    case Value => s.sum
    case Within(_, b) => CountIn(s.buckets, b)
  }

  /** For a distribution that was built from entries these are the sums over them. */
  lemma ValidTotal(m: Measure, d: Distribution)
    requires d.Valid() && (m.Within? ==> m.kind == d.kind)
    ensures Total(m, d.View()) == Sum(m, d.entries)
  {
    if m.Within? {
      CountsAt(d.buckets, d.kind, d.entries, m.bucket);
    }
  }

  /** Merging s2 into s1. */
  ghost function Plus(s1: Stats, s2: Stats): Stats {
    Combined(s1, s2, 1.0)
  }

  lemma AddedAt(x: map<Bucket, real>, y: map<Bucket, real>, b: Bucket)
    ensures CountIn(AddedBuckets(x, y, 1.0), b) == CountIn(x, b) + CountIn(y, b)
    ensures AddedBuckets(x, y, 1.0).Keys == x.Keys + y.Keys
  {}

  lemma PlusTotal(m: Measure, s: Stats, o: Stats)
    ensures Total(m, Plus(s, o)) == Total(m, s) + Total(m, o)
  {
    if m.Within? { AddedAt(s.buckets, o.buckets, m.bucket); }
  }

  lemma SameBuckets(x: map<Bucket, real>, y: map<Bucket, real>)
    requires x.Keys == y.Keys && forall b :: CountIn(x, b) == CountIn(y, b)
    ensures x == y
  {
    forall b <- x ensures x[b] == y[b] { assert CountIn(x, b) == CountIn(y, b); }
  }

  lemma PlusCommutes(s: Stats, o: Stats)
    ensures Plus(s, o) == Plus(o, s)
  {
    hide AddedBuckets, CountIn;
    var x, y := AddedBuckets(s.buckets, o.buckets, 1.0), AddedBuckets(o.buckets, s.buckets, 1.0);
    forall b: Bucket ensures x.Keys == y.Keys && CountIn(x, b) == CountIn(y, b) {
      AddedAt(s.buckets, o.buckets, b);
      AddedAt(o.buckets, s.buckets, b);
    }
    assert x.Keys == y.Keys by { AddedAt(s.buckets, o.buckets, Exact(0.0)); AddedAt(o.buckets, s.buckets, Exact(0.0)); }
    SameBuckets(x, y);
  }

  lemma PlusAssociates(s: Stats, o: Stats, p: Stats)
    ensures Plus(Plus(s, o), p) == Plus(s, Plus(o, p))
  {
    hide AddedBuckets, CountIn;
    var so, op := AddedBuckets(s.buckets, o.buckets, 1.0), AddedBuckets(o.buckets, p.buckets, 1.0);
    var x, y := AddedBuckets(so, p.buckets, 1.0), AddedBuckets(s.buckets, op, 1.0);
    forall b: Bucket ensures x.Keys == y.Keys && CountIn(x, b) == CountIn(y, b) {
      AddedAt(s.buckets, o.buckets, b);
      AddedAt(o.buckets, p.buckets, b);
      AddedAt(so, p.buckets, b);
      AddedAt(s.buckets, op, b);
    }
    assert x.Keys == y.Keys by {
      AddedAt(s.buckets, o.buckets, Exact(0.0));
      AddedAt(o.buckets, p.buckets, Exact(0.0));
      AddedAt(so, p.buckets, Exact(0.0));
      AddedAt(s.buckets, op, Exact(0.0));
    }
    SameBuckets(x, y);
  }

  /** The extremes are no less inclusive than those of an empty distribution. */
  ghost predicate Ranged(s: Stats) {
    s.maximum >= 0.0 && s.minimum <= MAX_FLOAT64
  }

  lemma PlusEmpty(s: Stats)
    requires Ranged(s)
    ensures Plus(s, EMPTY) == s
  {
    hide AddedBuckets, CountIn;
    var none: map<Bucket, real> := map[];
    var x := AddedBuckets(s.buckets, none, 1.0);
    forall b: Bucket ensures CountIn(x, b) == CountIn(s.buckets, b) {
      AddedAt(s.buckets, none, b);
      NothingAt(b);
    }
    AddedAt(s.buckets, none, Exact(0.0));
    SameBuckets(x, s.buckets);
  }

  lemma NothingAt(b: Bucket)
    ensures CountIn(map[], b) == 0.0
  {}

  // ----- what an aggregate makes of its contributions -----

  /** Merging leaves out what has no samples. */
  ghost function Joined(s: Stats, c: Stats): Stats {
    if c.count > 0.0 then Plus(s, c) else s
  }

  /** The first contribution is kept as it is, and the others are merged into it. */
  ghost function Fold(cs: seq<Stats>): Stats
    requires cs != []
  {
    if |cs| == 1 then cs[0] else Joined(Fold(cs[..|cs| - 1]), cs[|cs| - 1])
  }

  lemma FoldSnoc(cs: seq<Stats>, c: Stats)
    ensures Fold(cs + [c]) == if cs == [] then c else Joined(Fold(cs), c)
  {
    assert (cs + [c])[..|cs|] == cs;
  }

  /** A contribution that has samples, or holds nothing at all. */
  ghost predicate Countable(c: Stats) {
    c == EMPTY || (c.count > 0.0 && Ranged(c))
  }

  /** All contributions have samples; or some hold nothing, and the others are no less inclusive than that. */
  ghost predicate Mergeable(cs: seq<Stats>) {
    (forall c <- cs :: c.count > 0.0) || (forall c <- cs :: Countable(c))
  }

  ghost function PlusAll(cs: seq<Stats>): Stats
    requires cs != []
  {
    if |cs| == 1 then cs[0] else Plus(PlusAll(cs[..|cs| - 1]), cs[|cs| - 1])
  }

  lemma {:induction false} PlusAllRanged(cs: seq<Stats>)
    requires cs != [] && forall c <- cs :: Ranged(c)
    ensures Ranged(PlusAll(cs))
  {
    var front, last := cs[..|cs| - 1], cs[|cs| - 1];
    assert last in cs && forall c <- front :: c in cs;
    if front != [] { PlusAllRanged(front); }
  }

  /** Nothing is left out, so the fold is a plain sum. */
  lemma {:induction false} FoldIsPlusAll(cs: seq<Stats>)
    requires cs != [] && Mergeable(cs)
    ensures Fold(cs) == PlusAll(cs)
  {
    hide Plus;
    var front, last := cs[..|cs| - 1], cs[|cs| - 1];
    assert last in cs && forall c <- front :: c in cs;
    if front != [] {
      FoldIsPlusAll(front);
      if last == EMPTY {
        assert forall c <- front :: Countable(c);
        PlusAllRanged(front);
        PlusEmpty(PlusAll(front));
      }
    }
  }

  lemma PlusAllSnoc(cs: seq<Stats>, x: Stats)
    requires cs != []
    ensures PlusAll(cs + [x]) == Plus(PlusAll(cs), x)
  {
    assert (cs + [x])[..|cs|] == cs;
  }

  lemma {:induction false} PlusAllConcat(a: seq<Stats>, b: seq<Stats>)
    requires a != [] && b != []
    ensures PlusAll(a + b) == Plus(PlusAll(a), PlusAll(b))
    decreases |b|
  {
    hide Plus, PlusAll;
    var front, last := b[..|b| - 1], b[|b| - 1];
    assert b == front + [last];
    if front == [] {
      PlusAllSnoc(a, last);
      PlusAllOne(last);
    } else {
      assert a + b == (a + front) + [last];
      PlusAllSnoc(a + front, last);
      PlusAllSnoc(front, last);
      PlusAllConcat(a, front);
      PlusAssociates(PlusAll(a), PlusAll(front), last);
    }
  }

  lemma PlusAllOne(x: Stats)
    ensures PlusAll([x]) == x
  {}

  ghost function Without(cs: seq<Stats>, i: nat): seq<Stats>
    requires i < |cs|
  {
    cs[..i] + cs[i + 1..]
  }

  lemma PlusAllWithout(cs: seq<Stats>, i: nat)
    requires i < |cs| && |cs| > 1
    ensures PlusAll(cs) == Plus(PlusAll(Without(cs, i)), cs[i])
  {
    hide Plus, PlusAll;
    var front, x, back := cs[..i], cs[i], cs[i + 1..];
    assert cs == front + [x] + back && cs == front + ([x] + back);
    PlusAllOne(x);
    if back != [] {
      PlusAllConcat([x], back);
      PlusCommutes(x, PlusAll(back));
    }
    if front == [] {
      assert Without(cs, i) == back && cs == [x] + back;
    } else if back == [] {
      assert Without(cs, i) == front && cs == front + [x];
      PlusAllConcat(front, [x]);
    } else {
      PlusAllConcat(front, [x] + back);
      PlusAllConcat(front, back);
      PlusAssociates(PlusAll(front), PlusAll(back), x);
    }
  }

  lemma {:induction false} PlusAllPermuted(a: seq<Stats>, b: seq<Stats>)
    requires a != [] && multiset(a) == multiset(b)
    ensures b != [] && PlusAll(a) == PlusAll(b)
    decreases |a|
  {
    hide Plus, PlusAll, Without;
    assert |a| == |multiset(a)| == |multiset(b)| == |b|;
    assert a[0] in multiset(b);
    var i :| 0 <= i < |b| && b[i] == a[0];
    if |a| == 1 {
      assert a == b;
    } else {
      OneOut(a, 0);
      OneOut(b, i);
      PlusAllPermuted(Without(a, 0), Without(b, i));
      PlusAllWithout(a, 0);
      PlusAllWithout(b, i);
    }
  }

  lemma OneOut(s: seq<Stats>, i: nat)
    requires i < |s|
    ensures |Without(s, i)| == |s| - 1 && multiset(Without(s, i)) == multiset(s) - multiset{s[i]}
  {
    assert s == s[..i] + [s[i]] + s[i + 1..];
  }

  /** An aggregate does not depend on the order of arrival: count, sum, extremes and buckets. */
  lemma FoldPermuted(a: seq<Stats>, b: seq<Stats>)
    requires a != [] && multiset(a) == multiset(b) && Mergeable(a)
    ensures b != [] && Fold(a) == Fold(b)
  {
    hide Fold, PlusAll;
    forall c <- b ensures c in a { assert c in multiset(b); }
    PlusAllPermuted(a, b);
    FoldIsPlusAll(a);
    FoldIsPlusAll(b);
  }

  /** A distribution that holds one value. */
  lemma SingleJoins(s: Stats, kind: Kind, v: real)
    requires Supported(v)
    ensures Joined(s, WithEntry(EMPTY, kind, v, 1.0)) == WithEntry(s, kind, v, 1.0)
    ensures Countable(WithEntry(EMPTY, kind, v, 1.0))
  {
    hide BucketOf, AddedBuckets, CountIn;
    var none: map<Bucket, real> := map[];
    var b := BucketOf(kind, v);
    var one := none[b := CountIn(none, b) + 1.0];
    var x, y := AddedBuckets(s.buckets, one, 1.0), s.buckets[b := CountIn(s.buckets, b) + 1.0];
    forall k: Bucket ensures CountIn(x, k) == CountIn(y, k) {
      AddedAt(s.buckets, one, k);
      OneMore(none, b, 1.0, k);
      OneMore(s.buckets, b, 1.0, k);
      NothingAt(k);
    }
    AddedAt(s.buckets, one, b);
    SameBuckets(x, y);
  }

  lemma OneMore(m: map<Bucket, real>, b: Bucket, w: real, k: Bucket)
    ensures CountIn(m[b := CountIn(m, b) + w], k) == CountIn(m, k) + if k == b then w else 0.0
  {}
}
