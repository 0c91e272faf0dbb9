/** Splitting a regular distribution into SEH1 distributions of a bounded number of buckets.  The distribution may hold
    any statistics and buckets; a bucket without count, or with a value that is not supported, is not taken over. */
module Resizing {
  import opened Common
  import opened Reals
  import opened Buckets
  import opened Samples
  import opened Distributions
  import opened Otel

  ghost predicate Ascending(values: seq<real>) {
    forall i, j :: 0 <= i < j < |values| ==> values[i] < values[j]
  }

  /** sort.Float64s */
  function Sorted(values: seq<real>): (r: seq<real>)
    requires Distinct(values)
    ensures Ascending(r)
    ensures forall v :: v in r <==> v in values
  {
    if values == [] then [] else Insert(values[0], Sorted(values[1..]))
  }

  function Insert(v: real, values: seq<real>): (r: seq<real>)
    requires Ascending(values) && v !in values
    ensures Ascending(r)
    ensures forall w :: w in r <==> w == v || w in values
  {
    if values == [] then [v]
    else if v < values[0] then [v] + values
    else
      var rest := Insert(v, values[1..]);
      PrependAscending(values[0], rest);
      [values[0]] + rest
  }

  lemma PrependAscending(v: real, values: seq<real>)
    requires Ascending(values) && forall w <- values :: v < w
    ensures Ascending([v] + values)
  {
    var r := [v] + values;
    forall i, j | 0 <= i < j < |r| ensures r[i] < r[j] {
      assert r[j] == values[j - 1] && values[j - 1] in values;
      if i > 0 { assert r[i] == values[i - 1]; }
    }
  }

  /** Every value of `a` lies in a lower bucket than every value of `b`. */
  ghost predicate Below(a: seq<Entry>, b: seq<Entry>) {
    forall e, f :: e in a && f in b ==> BucketNumber(e.value) < BucketNumber(f.value)
  }

  ghost predicate Separated(chunks: seq<seq<Entry>>) {
    forall i, j :: 0 <= i < j < |chunks| ==> Below(chunks[i], chunks[j])
  }

  function Effective(limit: int): nat {
    if limit < 1 then 1 else limit
  }

  ghost function Size(chunk: seq<Entry>): nat {
    |BucketSet(Seh1, chunk)|
  }

  /** The value is accepted with its count. */
  ghost predicate Taken(buckets: map<Bucket, real>, v: real) {
    Exact(v) in buckets && buckets[Exact(v)] > 0.0 && Supported(v)
  }

  /** One entry for every value that is taken, with its whole count. */
  ghost function Kept(values: seq<real>, buckets: map<Bucket, real>): seq<Entry> {
    if values == [] then []
    else
      var rest, v := Kept(values[..|values| - 1], buckets), values[|values| - 1];
      if Taken(buckets, v) then rest + [Entry(v, buckets[Exact(v)])] else rest
  }

  ghost predicate AllTaken(values: seq<real>, buckets: map<Bucket, real>) {
    forall v <- values :: Taken(buckets, v)
  }

  /** The values of the buckets, in ascending order. */
  ghost predicate ListsKeys(values: seq<real>, buckets: map<Bucket, real>) {
    Ascending(values) && forall v :: v in values <==> Exact(v) in buckets
  }

  /** The chunks list each value that is taken once, with its whole count, in ascending order; no bucket is split; all
      chunks but the last are full, and none is empty. A limit below one gives every bucket a chunk of its own after an
      empty one. */
  ghost predicate Chunking(chunks: seq<seq<Entry>>, values: seq<real>, buckets: map<Bucket, real>, limit: int) {
    && ListsKeys(values, buckets)
    && Flatten(chunks) == Kept(values, buckets)
    && Separated(chunks)
    && ChunkSizes(chunks, limit, values != [], AllTaken(values, buckets))
  }

  /** `some` says that there are values, and `all` that all of them are taken. */
  ghost predicate ChunkSizes(chunks: seq<seq<Entry>>, limit: int, some: bool, all: bool) {
    && (forall i :: 0 <= i < |chunks| ==> Size(chunks[i]) <= Effective(limit))
    && (limit >= 1 ==> forall i :: 0 <= i < |chunks| ==> Size(chunks[i]) >= if i < |chunks| - 1 then limit else 1)
    && (limit < 1 && some ==> chunks != [] && chunks[0] == [])
    && (limit < 1 && all ==> forall i :: 1 <= i < |chunks| ==> Size(chunks[i]) == 1)
  }

  /** What holds of the closed chunks and the open one after the first `n` values. */
  ghost predicate Filling(closed: seq<seq<Entry>>, open: seq<Entry>, values: seq<real>, buckets: map<Bucket, real>,
                          limit: int, n: nat)
    requires n <= |values|
  {
    && Flatten(closed) + open == Kept(values[..n], buckets)
    && Separated(closed + [open])
    && (n == 0 ==> closed == [] && open == [])
    && (n > 0 ==> AllBelow(closed, values[n - 1]))
    && Sizes(closed, open, limit, n, AllTaken(values[..n], buckets))
  }

  /** `all` says that all values so far were taken. */
  ghost predicate Sizes(closed: seq<seq<Entry>>, open: seq<Entry>, limit: int, n: nat, all: bool) {
    && (forall i :: 0 <= i < |closed| ==> Size(closed[i]) <= Effective(limit)) && Size(open) <= Effective(limit)
    && (limit >= 1 ==> forall i :: 0 <= i < |closed| ==> Size(closed[i]) == limit)
    && (limit < 1 && n > 0 ==> closed != [] && closed[0] == [])
    && (limit < 1 && n > 0 && all ==> open != [] && forall i :: 1 <= i < |closed| ==> Size(closed[i]) == 1)
  }

  /** Everything in the chunks lies in a lower bucket than the value. */
  ghost predicate AllBelow(chunks: seq<seq<Entry>>, v: real) {
    forall i, e :: 0 <= i < |chunks| && e in chunks[i] ==> BucketNumber(e.value) < BucketNumber(v)
  }

  /** The chunks on the list are new, well formed, and hold these entries. */
  twostate predicate Closed(new list: seq<Distribution>, chunks: seq<seq<Entry>>)
    reads list
  {
    && |chunks| == |list|
    && forall j :: 0 <= j < |list| ==>
         fresh(list[j]) && list[j].Valid() && list[j].kind == Seh1 && list[j].entries == chunks[j]
  }

  ghost predicate Resizable(buckets: map<Bucket, real>) {
    forall b <- buckets :: b.Exact? ==> Finite(b.value)
  }

  /** Distributions built from float64 values can be resized, and be converted as long as the sample count is in
      range. */
  lemma EntriesUsable(d: Distribution)
    requires d.Valid() && forall e <- d.entries :: Representable(e.value)
    ensures d.Typed() && Resizable(d.buckets)
    ensures d.sampleCount < TWO_TO_64 ==> Convertible(d.View())
  {
    hide Finite, Representable, Describes, Keyed;
    forall b <- d.buckets ensures Keyed(d.kind, b) && (b.Exact? ==> Finite(b.value)) {
      var e :| e in d.entries && BucketOf(d.kind, e.value) == b;
      KeyedBucket(d.kind, e.value);
      AcceptedSupported(d, e);
      SupportedFinite(e.value);
    }
    if d.sampleCount < TWO_TO_64 { CountInRange(d); }
  }

  lemma AcceptedSupported(d: Distribution, e: Entry)
    requires d.Valid() && e in d.entries
    ensures Supported(e.value)
  {}

  method Resize(dist: Distribution, limit: int)
    returns (list: seq<Distribution>, ghost values: seq<real>, ghost chunks: seq<seq<Entry>>)
    requires dist.Typed() && Resizable(dist.buckets)
    ensures dist.kind == Seh1 ==> list == [dist]
    ensures dist.kind == Regular ==> Closed(list, chunks) && Chunking(chunks, values, dist.buckets, limit)
  {
    if dist.kind == Seh1 {
      return [dist], [], [];
    }
    list, values, chunks := Split(dist, limit);
  }

  method Split(dist: Distribution, limit: int)
    returns (list: seq<Distribution>, ghost values: seq<real>, ghost chunks: seq<seq<Entry>>)
    requires dist.Typed() && Resizable(dist.buckets) && dist.kind == Regular
    ensures Closed(list, chunks) && Chunking(chunks, values, dist.buckets, limit)
  {
    hide Filling, Chunking, Fits, BucketSet, Ascending, Finite;
    var raw := dist.Values();
    var sorted := Sorted(raw);
    assert Ordered(sorted);
    var current;
    list, current, chunks := Fill(dist, sorted, limit);
    SizeOf(current);
    FillingDone(chunks, current.entries, sorted, dist.buckets, limit);
    values := sorted;
    if |current.buckets| > 0 {
      list, chunks := list + [current], chunks + [current.entries];
    }
  }

  ghost predicate Ordered(values: seq<real>) {
    Ascending(values) && forall v <- values :: Finite(v)
  }

  /** The loop over the sorted values, up to the last, still open, chunk. */
  method Fill(dist: Distribution, sorted: seq<real>, limit: int)
    returns (list: seq<Distribution>, current: Distribution, ghost closed: seq<seq<Entry>>)
    requires Ordered(sorted) && forall v <- sorted :: Exact(v) in dist.buckets
    ensures Closed(list, closed)
    ensures current.Valid() && current.kind == Seh1 && fresh(current) && current !in list
    ensures Filling(closed, current.entries, sorted, dist.buckets, limit, |sorted|)
  {
    hide Filling, Distribution.Valid, Ordered, BucketSet, Distribution.Typed, Distribution.View, Size;
    list, closed := [], [];
    current := new Distribution(Seh1);
    FillingNothing(sorted, dist.buckets, limit);
    for i := 0 to |sorted|
      invariant Closed(list, closed)
      invariant current.Valid() && current.kind == Seh1 && fresh(current) && current !in list
      invariant Filling(closed, current.entries, sorted, dist.buckets, limit, i)
    {
      var weight := dist.buckets[Exact(sorted[i])];
      ghost var open := current.entries;
      SizeOf(current);
      var ok := current.CanAdd(sorted[i], limit);
      FillingNext(closed, open, sorted, dist.buckets, limit, i, !ok);
      if !ok {
        list, closed, open := list + [current], closed + [open], [];
        current := new Distribution(Seh1);
      }
      assert Closed(list, closed);
      var outcome := current.AddEntryWithUnit(sorted[i], weight, "");
      assert current.entries == open + Next(dist.buckets, sorted[i]);
    }
  }

  lemma SizeOf(d: Distribution)
    requires d.Valid() && d.kind == Seh1
    ensures d.buckets.Keys == BucketSet(Seh1, d.entries) && |d.buckets| == Size(d.entries)
    ensures d.buckets == map[] <==> d.entries == []
  {
    if d.entries != [] { assert BucketOf(Seh1, d.entries[0].value) in BucketSet(Seh1, d.entries); }
    assert |d.buckets| == |d.buckets.Keys|;
  }

  lemma FillingNothing(values: seq<real>, buckets: map<Bucket, real>, limit: int)
    ensures Filling([], [], values, buckets, limit, 0)
  {
    assert BucketSet(Seh1, []) == {};
  }

  /** What a value adds to its chunk. */
  ghost function Next(buckets: map<Bucket, real>, v: real): seq<Entry> {
    if Taken(buckets, v) then [Entry(v, buckets[Exact(v)])] else []
  }

  lemma KeptNext(values: seq<real>, buckets: map<Bucket, real>, n: nat)
    requires n < |values|
    ensures Kept(values[..n + 1], buckets) == Kept(values[..n], buckets) + Next(buckets, values[n])
    ensures AllTaken(values[..n + 1], buckets) <==> AllTaken(values[..n], buckets) && Taken(buckets, values[n])
  {
    assert values[..n + 1][..n] == values[..n];
    assert values[..n + 1] == values[..n] + [values[n]];
  }

  lemma {:induction false} KeptMember(values: seq<real>, buckets: map<Bucket, real>, e: Entry)
    requires e in Kept(values, buckets)
    ensures e.value in values && Taken(buckets, e.value) && e.weight == buckets[Exact(e.value)]
  {
    var front := values[..|values| - 1];
    if e in Kept(front, buckets) {
      KeptMember(front, buckets, e);
    }
  }

  lemma {:induction false} KeptNothing(values: seq<real>, buckets: map<Bucket, real>)
    ensures Kept(values, buckets) == [] <==> forall v <- values :: !Taken(buckets, v)
  {
    if values != [] {
      var front, v := values[..|values| - 1], values[|values| - 1];
      KeptNothing(front, buckets);
      assert v in values && forall w <- values :: w in front || w == v;
    }
  }

  /** The next value: `renew` says that it closes the open chunk. */
  lemma FillingNext(closed: seq<seq<Entry>>, open: seq<Entry>, values: seq<real>, buckets: map<Bucket, real>,
                    limit: int, n: nat, renew: bool)
    requires n < |values| && Filling(closed, open, values, buckets, limit, n) && Ordered(values)
    requires renew <==> Size(open) >= limit && BucketOf(Seh1, values[n]) !in BucketSet(Seh1, open)
    ensures var closed' := if renew then closed + [open] else closed;
            var open' := (if renew then [] else open) + Next(buckets, values[n]);
            Filling(closed', open', values, buckets, limit, n + 1)
  {
    hide Below, Separated, Ordered, Next, AllBelow, AllTaken, Kept, Sizes, Size, Flatten, BucketOf, BucketSet;
    ContentsNext(closed, open, values, buckets, limit, n, renew);
    ClosedBelow(closed, open, values, buckets, limit, n, renew);
    SeparatedNext(closed, open, values, buckets, limit, n, renew);
    KeptNext(values, buckets, n);
    SizesNext(closed, open, buckets, values[n], limit, n, AllTaken(values[..n], buckets), renew);
  }

  lemma ContentsNext(closed: seq<seq<Entry>>, open: seq<Entry>, values: seq<real>, buckets: map<Bucket, real>,
                     limit: int, n: nat, renew: bool)
    requires n < |values| && Flatten(closed) + open == Kept(values[..n], buckets)
    ensures var closed' := if renew then closed + [open] else closed;
            var open' := (if renew then [] else open) + Next(buckets, values[n]);
            Flatten(closed') + open' == Kept(values[..n + 1], buckets)
  {
    hide Kept, Next, Flatten;
    KeptNext(values, buckets, n);
    FlattenSnoc(closed, open);
    assert Flatten(closed) + open + Next(buckets, values[n]) == Flatten(closed) + (open + Next(buckets, values[n]));
    assert [] + Next(buckets, values[n]) == Next(buckets, values[n]);
  }

  lemma SizesNext(closed: seq<seq<Entry>>, open: seq<Entry>, buckets: map<Bucket, real>, v: real, limit: int, n: nat,
                  all: bool, renew: bool)
    requires Sizes(closed, open, limit, n, all) && (n == 0 ==> closed == [] && open == [])
    requires renew <==> Size(open) >= limit && BucketOf(Seh1, v) !in BucketSet(Seh1, open)
    ensures var closed' := if renew then closed + [open] else closed;
            var open' := (if renew then [] else open) + Next(buckets, v);
            Sizes(closed', open', limit, n + 1, all && Taken(buckets, v))
  {
    OpenSize(open, buckets, v, limit, renew);
    hide Size, Next, BucketSet, BucketOf, Taken;
    SizeZero([]);
    if Taken(buckets, v) { NextTaken(if renew then [] else open, buckets, v); }
  }

  lemma NextTaken(base: seq<Entry>, buckets: map<Bucket, real>, v: real)
    requires Taken(buckets, v)
    ensures base + Next(buckets, v) != []
  {}

  /** How the size of the open chunk develops. */
  lemma OpenSize(open: seq<Entry>, buckets: map<Bucket, real>, v: real, limit: int, renew: bool)
    requires Size(open) <= Effective(limit)
    requires renew <==> Size(open) >= limit && BucketOf(Seh1, v) !in BucketSet(Seh1, open)
    ensures Size((if renew then [] else open) + Next(buckets, v)) <= Effective(limit)
    ensures limit < 1 && !renew ==> open != []
    ensures open != [] ==> Size(open) >= 1
    ensures limit >= 1 && renew ==> Size(open) == limit
  {
    var base := if renew then [] else open;
    SizeZero(open);
    SizeZero([]);
    if Taken(buckets, v) {
      SizeNext(base, Entry(v, buckets[Exact(v)]));
    } else {
      assert base + [] == base;
    }
  }

  /** Nothing in the open chunk lies in a higher bucket than the next value. */
  lemma OpenAtMost(closed: seq<seq<Entry>>, open: seq<Entry>, values: seq<real>, buckets: map<Bucket, real>,
                   limit: int, n: nat, o: Entry)
    requires n < |values| && Filling(closed, open, values, buckets, limit, n) && Ordered(values)
    requires o in open
    ensures BucketNumber(o.value) <= BucketNumber(values[n])
  {
    hide Finite, BucketNumber, Separated, AllBelow, AllTaken, Kept;
    assert o in Flatten(closed) + open;
    KeptMember(values[..n], buckets, o);
    var k :| 0 <= k < n && values[k] == o.value;
    assert values[k] in values && values[n] in values;
    BucketNumberMonotone(values[k], values[n]);
  }

  lemma ClosedBelow(closed: seq<seq<Entry>>, open: seq<Entry>, values: seq<real>, buckets: map<Bucket, real>,
                    limit: int, n: nat, renew: bool)
    requires n < |values| && Filling(closed, open, values, buckets, limit, n) && Ordered(values)
    requires renew ==> BucketOf(Seh1, values[n]) !in BucketSet(Seh1, open)
    ensures AllBelow(if renew then closed + [open] else closed, values[n])
  {
    hide Finite, BucketNumber, Separated, AllTaken, Kept, Size;
    var closed' := if renew then closed + [open] else closed;
    if n > 0 {
      assert values[n - 1] in values && values[n] in values;
      BucketNumberMonotone(values[n - 1], values[n]);
    }
    forall i, e: Entry | 0 <= i < |closed'| && e in closed'[i] ensures BucketNumber(e.value) < BucketNumber(values[n]) {
      if i < |closed| {
        assert e in closed[i];
      } else {
        OpenAtMost(closed, open, values, buckets, limit, n, e);
        assert BucketOf(Seh1, e.value) in BucketSet(Seh1, open);
      }
    }
  }

  lemma SeparatedNext(closed: seq<seq<Entry>>, open: seq<Entry>, values: seq<real>, buckets: map<Bucket, real>,
                      limit: int, n: nat, renew: bool)
    requires n < |values| && Filling(closed, open, values, buckets, limit, n) && Ordered(values)
    requires renew ==> BucketOf(Seh1, values[n]) !in BucketSet(Seh1, open)
    ensures var closed' := if renew then closed + [open] else closed;
            Separated(closed' + [(if renew then [] else open) + Next(buckets, values[n])])
  {
    hide BucketNumber, Separated, AllTaken, Kept, Size, Ordered;
    ClosedBelow(closed, open, values, buckets, limit, n, renew);
    if renew {
      assert [] + Next(buckets, values[n]) == Next(buckets, values[n]);
      forall i | 0 <= i < |closed + [open]| ensures Below((closed + [open])[i], Next(buckets, values[n])) {}
      SeparatedSnoc(closed + [open], Next(buckets, values[n]));
    } else {
      forall i | 0 <= i < |closed| ensures Below(closed[i], open + Next(buckets, values[n])) {
        assert Below(closed[i], open) by { SeparatedLast(closed, open, i); }
      }
      assert Separated(closed) by { SeparatedFront(closed, open); }
      SeparatedSnoc(closed, open + Next(buckets, values[n]));
    }
  }

  lemma SeparatedLast(closed: seq<seq<Entry>>, open: seq<Entry>, i: nat)
    requires Separated(closed + [open]) && i < |closed|
    ensures Below(closed[i], open)
  {
    assert (closed + [open])[i] == closed[i] && (closed + [open])[|closed|] == open;
  }

  lemma SeparatedFront(closed: seq<seq<Entry>>, open: seq<Entry>)
    requires Separated(closed + [open])
    ensures Separated(closed)
  {
    hide Below;
    forall i, j | 0 <= i < j < |closed| ensures Below(closed[i], closed[j]) {
      assert (closed + [open])[i] == closed[i] && (closed + [open])[j] == closed[j];
    }
  }

  lemma SeparatedSnoc(chunks: seq<seq<Entry>>, last: seq<Entry>)
    requires Separated(chunks)
    requires forall i :: 0 <= i < |chunks| ==> Below(chunks[i], last)
    ensures Separated(chunks + [last])
  {
    hide Below;
  }

  lemma SizeNext(chunk: seq<Entry>, e: Entry)
    ensures BucketSet(Seh1, chunk + [e]) == BucketSet(Seh1, chunk) + {BucketOf(Seh1, e.value)}
    ensures Size(chunk + [e]) == Size(chunk) + if BucketOf(Seh1, e.value) in BucketSet(Seh1, chunk) then 0 else 1
  {
    assert BucketSet(Seh1, chunk + [e]) == BucketSet(Seh1, chunk) + {BucketOf(Seh1, e.value)};
  }

  lemma FillingDone(closed: seq<seq<Entry>>, open: seq<Entry>, values: seq<real>, buckets: map<Bucket, real>,
                    limit: int)
    requires Filling(closed, open, values, buckets, limit, |values|)
    requires ListsKeys(values, buckets)
    ensures Chunking(if open == [] then closed else closed + [open], values, buckets, limit)
  {
    hide ListsKeys, Separated, AllBelow, Kept, AllTaken, Sizes, ChunkSizes, Flatten;
    assert values[..|values|] == values;
    SizesDone(closed, open, limit, |values|, AllTaken(values, buckets));
    if open == [] {
      SeparatedFront(closed, open);
      assert Flatten(closed) + [] == Flatten(closed);
    } else {
      FlattenSnoc(closed, open);
    }
  }

  lemma SizesDone(closed: seq<seq<Entry>>, open: seq<Entry>, limit: int, n: nat, all: bool)
    requires Sizes(closed, open, limit, n, all) && (n == 0 ==> closed == [] && open == [])
    ensures ChunkSizes(if open == [] then closed else closed + [open], limit, n > 0, all)
  {
    hide Size;
    SizeZero(open);
  }

  // ----- what the chunks conserve -----

  /** Sample count, sum of values and the weight of every bucket over the chunks are those of the values taken. */
  lemma ChunkingConserves(m: Measure, chunks: seq<seq<Entry>>, values: seq<real>, buckets: map<Bucket, real>,
                          limit: int)
    requires Chunking(chunks, values, buckets, limit)
    ensures SumOver(m, chunks) == Sum(m, Kept(values, buckets))
  {
    SumFlatten(m, chunks);
  }

  /** The sample count is conserved exactly when the distribution's own count is that of the values taken. */
  lemma CountConservedExactly(chunks: seq<seq<Entry>>, values: seq<real>, s: Stats, limit: int)
    requires Chunking(chunks, values, s.buckets, limit)
    ensures SumOver(Count, chunks) == s.count <==> s.count == Sum(Count, Kept(values, s.buckets))
    ensures SumOver(Value, chunks) == s.sum <==> s.sum == Sum(Value, Kept(values, s.buckets))
  {
    hide Chunking;
    ChunkingConserves(Count, chunks, values, s.buckets, limit);
    ChunkingConserves(Value, chunks, values, s.buckets, limit);
  }

  /** Of a distribution built from entries every value is taken, so everything is conserved. */
  lemma EntriesConserved(m: Measure, chunks: seq<seq<Entry>>, values: seq<real>, d: Distribution, limit: int)
    requires d.Valid() && d.kind == Regular && Chunking(chunks, values, d.buckets, limit)
    ensures SumOver(m, chunks) == Sum(m, d.entries)
    ensures AllTaken(values, d.buckets) && ValueSet(Flatten(chunks)) == ValueSet(d.entries)
  {
    hide Separated, Sum, Size, Describes;
    ChunkingConserves(m, chunks, values, d.buckets, limit);
    ValuesAreEntries(d, values);
    KeptIsListing(values, d.buckets, d.entries);
    ListingSum(m, values, d.entries);
    ListingValues(values, d.entries);
  }

  lemma ValuesAreEntries(d: Distribution, values: seq<real>)
    requires d.Valid() && d.kind == Regular && ListsKeys(values, d.buckets)
    ensures Distinct(values) && forall v :: v in values <==> v in ValueSet(d.entries)
    ensures AllTaken(values, d.buckets) && forall v <- values :: d.buckets[Exact(v)] == Weight(d.entries, v)
  {
    forall v <- values
      ensures Taken(d.buckets, v) && d.buckets[Exact(v)] == Weight(d.entries, v) && v in ValueSet(d.entries)
    {
      WithinPositive(Regular, Exact(v), d.entries);
    }
    forall v | v in ValueSet(d.entries) ensures v in values {
      var e :| e in d.entries && e.value == v;
      assert BucketOf(Regular, e.value) == Exact(v);
    }
  }

  lemma {:induction false} KeptIsListing(values: seq<real>, buckets: map<Bucket, real>, es: seq<Entry>)
    requires AllTaken(values, buckets) && forall v <- values :: buckets[Exact(v)] == Weight(es, v)
    ensures Kept(values, buckets) == Listing(values, es)
  {
    if values != [] {
      hide Sum;
      var front, v := values[..|values| - 1], values[|values| - 1];
      assert v in values && forall w <- front :: w in values;
      KeptIsListing(front, buckets, es);
    }
  }

  lemma ListingValues(values: seq<real>, es: seq<Entry>)
    requires forall v :: v in values <==> v in ValueSet(es)
    ensures Covers(values, es) && ValueSet(Listing(values, es)) == ValueSet(es)
  {
    hide Sum;
    forall e <- es ensures e.value in values { assert e.value in ValueSet(es); }
    forall v <- ValueSet(es) ensures v in ValueSet(Listing(values, es)) {
      var i :| 0 <= i < |values| && values[i] == v;
      assert Listing(values, es)[i] in Listing(values, es);
    }
    forall v <- ValueSet(Listing(values, es)) ensures v in ValueSet(es) {
      var i :| 0 <= i < |values| && Listing(values, es)[i].value == v;
      assert values[i] in values;
    }
  }

  /** The smallest and the largest value over all chunks are those of the distribution. */
  lemma ChunkingExtremes(chunks: seq<seq<Entry>>, values: seq<real>, d: Distribution, limit: int)
    requires d.Valid() && d.kind == Regular && Chunking(chunks, values, d.buckets, limit)
    ensures IsMaximum(Flatten(chunks), d.maximum) && IsMinimum(Flatten(chunks), d.minimum)
  {
    hide Chunking;
    EntriesConserved(Count, chunks, values, d, limit);
    ExtremesByValues(d.entries, Flatten(chunks), d.maximum);
    ExtremesByValues(d.entries, Flatten(chunks), d.minimum);
  }

  lemma ExtremesByValues(es: seq<Entry>, fs: seq<Entry>, x: real)
    requires ValueSet(es) == ValueSet(fs)
    ensures IsMaximum(es, x) ==> IsMaximum(fs, x)
    ensures IsMinimum(es, x) ==> IsMinimum(fs, x)
  {
    assert fs != [] ==> fs[0].value in ValueSet(fs);
    assert es != [] ==> es[0].value in ValueSet(es);
    assert forall f <- fs :: f.value in ValueSet(es);
    assert x in ValueSet(es) ==> x in ValueSet(fs);
  }

  /** Later chunks hold larger values. */
  lemma ChunkRangesAscend(chunks: seq<seq<Entry>>, i: nat, j: nat, e: Entry, f: Entry)
    requires Separated(chunks) && i < j < |chunks| && e in chunks[i] && f in chunks[j]
    requires Finite(e.value) && Finite(f.value)
    ensures e.value < f.value
    ensures BucketNumber(e.value) != BucketNumber(f.value)
  {
    assert Below(chunks[i], chunks[j]);
    if f.value <= e.value {
      BucketNumberMonotone(f.value, e.value);
    }
  }

  /** Half a sample in each of two buckets, sent through a histogram point: the point counts one sample, the buckets
      none, and after resizing nothing is left to report. */
  method FractionsLost() returns (back: Distribution, list: seq<Distribution>)
    ensures back.sampleCount == 1.0 && list == []
  {
    hide Distribution.Valid, Chunking, Finite;
    var d := HalfSamples();
    back := RoundTrip(d);
    SmallFinite();
    ghost var values, chunks;
    list, values, chunks := Resize(back, 10);
    NothingTaken(values, chunks, back.buckets, 10);
  }

  method HalfSamples() returns (d: Distribution)
    ensures fresh(d) && d.kind == Regular && d.Typed() && d.sampleCount == 1.0
    ensures d.buckets == map[Exact(1.0) := 0.5, Exact(2.0) := 0.5]
  {
    hide Distribution.Valid, WithEntry;
    d := new Distribution(Regular);
    var first := d.AddEntryWithUnit(1.0, 0.5, "");
    var second := d.AddEntryWithUnit(2.0, 0.5, "");
    TwoHalves();
  }

  lemma TwoHalves()
    ensures var s := WithEntry(WithEntry(EMPTY, Regular, 1.0, 0.5), Regular, 2.0, 0.5);
            s.count == 1.0 && s.buckets == map[Exact(1.0) := 0.5, Exact(2.0) := 0.5]
  {
    assert WithEntry(EMPTY, Regular, 1.0, 0.5).buckets == map[Exact(1.0) := 0.5];
  }

  lemma SmallFinite()
    ensures Finite(1.0) && Finite(2.0)
  {
    var e: nat := 0;
    assert Times(1.0, Two(e)) >= 1.0 && Times(2.0, Two(e)) >= 1.0;
    assert 1.0 < Two(e + 2) && 2.0 < Two(e + 2);
  }

  lemma NothingTaken(values: seq<real>, chunks: seq<seq<Entry>>, buckets: map<Bucket, real>, limit: int)
    requires Chunking(chunks, values, buckets, limit) && limit >= 1
    requires forall b <- buckets :: buckets[b] == 0.0
    ensures chunks == []
  {
    hide Separated;
    if Kept(values, buckets) != [] {
      KeptMember(values, buckets, Kept(values, buckets)[0]);
    }
    if chunks != [] {
      SizeZero(chunks[|chunks| - 1]);
    }
  }

  // ----- how many chunks -----

  ghost function SumSizes(chunks: seq<seq<Entry>>): nat {
    if chunks == [] then 0 else SumSizes(chunks[..|chunks| - 1]) + Size(chunks[|chunks| - 1])
  }

  /** No bucket is in two chunks, so the bucket counts add up. */
  lemma {:induction false} FlattenSize(chunks: seq<seq<Entry>>)
    requires Separated(chunks)
    ensures Size(Flatten(chunks)) == SumSizes(chunks)
  {
    if chunks == [] {
      assert BucketSet(Seh1, []) == {};
    } else {
      var front, last := chunks[..|chunks| - 1], chunks[|chunks| - 1];
      assert Separated(front) by {
        forall i, j | 0 <= i < j < |front| ensures Below(front[i], front[j]) {
          assert front[i] == chunks[i] && front[j] == chunks[j];
        }
      }
      FlattenSize(front);
      var a, b := BucketSet(Seh1, Flatten(front)), BucketSet(Seh1, last);
      assert BucketSet(Seh1, Flatten(front) + last) == a + b;
      assert a !! b by { BucketsDisjoint(chunks); }
    }
  }

  lemma BucketsDisjoint(chunks: seq<seq<Entry>>)
    requires Separated(chunks) && chunks != []
    ensures BucketSet(Seh1, Flatten(chunks[..|chunks| - 1])) !! BucketSet(Seh1, chunks[|chunks| - 1])
  {
    hide BucketNumber;
    var front, last := chunks[..|chunks| - 1], chunks[|chunks| - 1];
    forall e: Entry, f: Entry | e in Flatten(front) && f in last
      ensures BucketOf(Seh1, e.value) != BucketOf(Seh1, f.value)
    {
      FlattenMember(front, e);
      var i :| 0 <= i < |front| && e in front[i];
      assert Below(chunks[i], chunks[|chunks| - 1]);
    }
  }

  lemma {:induction false} SizesBetween(chunks: seq<seq<Entry>>, skip: nat, limit: nat, k: nat)
    requires skip <= k <= |chunks|
    requires forall i :: 0 <= i < skip ==> Size(chunks[i]) == 0
    requires forall i :: skip <= i < k ==> Size(chunks[i]) == limit
    ensures SumSizes(chunks[..k]) == (k - skip) * limit
  {
    if k > skip {
      SizesBetween(chunks, skip, limit, k - 1);
      assert chunks[..k][..k - 1] == chunks[..k - 1];
      assert (k - skip) * limit == (k - 1 - skip) * limit + limit;
    } else if k > 0 {
      SizesBetween(chunks[..k - 1], k - 1, limit, k - 1);
      assert chunks[..k][..k - 1] == chunks[..k - 1] == chunks[..k - 1][..k - 1];
    }
  }

  /** The number of chunks is the number of distinct SEH1 buckets of the values taken divided by the limit, rounded up.
      A limit below one gives each bucket its own chunk after an empty one. */
  lemma ChunkCount(chunks: seq<seq<Entry>>, values: seq<real>, buckets: map<Bucket, real>, limit: int)
    requires Chunking(chunks, values, buckets, limit)
    ensures var n, d := |chunks|, Size(Kept(values, buckets));
            && (limit >= 1 ==> if d == 0 then n == 0 else (n - 1) * limit < d <= n * limit)
            && (limit < 1 && AllTaken(values, buckets) && values != [] ==> n == d + 1)
  {
    hide Separated, Size, Kept, AllTaken;
    FlattenSize(chunks);
    SizeZero([]);
    if limit >= 1 {
      SizesRoundUp(chunks, 0, limit);
    } else if AllTaken(values, buckets) && values != [] {
      SizesBetween(chunks, 1, 1, |chunks|);
      assert chunks[..|chunks|] == chunks;
    }
  }

  lemma SizeZero(es: seq<Entry>)
    ensures Size(es) == 0 <==> es == []
  {
    assert es != [] ==> BucketOf(Seh1, es[0].value) in BucketSet(Seh1, es);
  }

  lemma SizesRoundUp(chunks: seq<seq<Entry>>, skip: nat, l: nat)
    requires skip <= |chunks|
    requires forall i :: 0 <= i < skip ==> Size(chunks[i]) == 0
    requires forall i :: skip <= i < |chunks| ==> 1 <= Size(chunks[i]) <= l
    requires forall i :: skip <= i < |chunks| - 1 ==> Size(chunks[i]) == l
    ensures var n := |chunks| - skip;
            if n == 0 then SumSizes(chunks) == 0 else (n - 1) * l < SumSizes(chunks) <= n * l
  {
    hide Size, SumSizes;
    var n := |chunks| - skip;
    if n == 0 {
      SizesBetween(chunks, skip, l, |chunks|);
      assert chunks[..|chunks|] == chunks;
    } else {
      var k := |chunks| - 1;
      SizesBetween(chunks, skip, l, k);
      SumSizesLast(chunks);
      RoundsUp(n, l, Size(chunks[k]));
    }
  }

  lemma SumSizesLast(chunks: seq<seq<Entry>>)
    requires chunks != []
    ensures SumSizes(chunks) == SumSizes(chunks[..|chunks| - 1]) + Size(chunks[|chunks| - 1])
  {}

  lemma RoundsUp(n: int, l: nat, last: nat)
    requires 1 <= last <= l
    ensures (n - 1) * l < (n - 1) * l + last <= n * l
  {
    assert n * l == (n - 1) * l + l;
  }
}
