/** Packing datums into bounded upload batches, partitioned by entity. */
module Batching {
  import opened Common
  import opened Datums

  const PAYLOAD_THRESHOLD := 999000

  /** A datum with the entity text it is filed under. */
  datatype Item = Item(entity: string, datum: MetricDatum)

  /** The datums of one entity, in order. */
  ghost function Of(items: seq<Item>, entity: string): seq<MetricDatum> {
    if items == [] then []
    else
      var rest, last := Of(items[..|items| - 1], entity), items[|items| - 1];
      if last.entity == entity then rest + [last.datum] else rest
  }

  function Filed(m: map<string, seq<MetricDatum>>, entity: string): seq<MetricDatum> {
    if entity in m then m[entity] else []
  }

  /** A partition holds exactly these items. */
  ghost predicate Files(m: map<string, seq<MetricDatum>>, items: seq<Item>) {
    forall e :: Filed(m, e) == Of(items, e) && (e in m <==> Of(items, e) != [])
  }

  ghost function SizeOf(items: seq<Item>, base: int): int {
    if items == [] then base else SizeOf(items[..|items| - 1], base) + PayloadSize(items[|items| - 1].datum)
  }

  /** The partition map; a batch on the channel is a reference to one. */
  class Partition {
    var entries: map<string, seq<MetricDatum>>

    constructor ()
      ensures entries == map[]
    {
      entries := map[];
    }
  }

  class MetricDatumBatch {
    const maxDatumsPerCall: int
    const perRequestConstSize: int
    var partition: Partition
    var size: int
    var count: int
    ghost var items: seq<Item>

    ghost predicate Valid()
      reads this, partition
    {
      && Files(partition.entries, items)
      && count == |items|
      && size == SizeOf(items, perRequestConstSize)
    }

    constructor (maxDatumsPerCall: int, perRequestConstSize: int)
      ensures Valid() && items == [] && fresh(partition)
      ensures this.maxDatumsPerCall == maxDatumsPerCall && this.perRequestConstSize == perRequestConstSize
    {
      this.maxDatumsPerCall, this.perRequestConstSize := maxDatumsPerCall, perRequestConstSize;
      partition := new Partition();
      size, count, items := perRequestConstSize, 0, [];
    }

    /** A new map takes the place of the one that was handed over. */
    method Clear()
      modifies this
      ensures Valid() && items == [] && fresh(partition)
    {
      partition := new Partition();
      size, count, items := perRequestConstSize, 0, [];
    }

    predicate IsFull()
      reads this
    {
      count >= maxDatumsPerCall || size >= PAYLOAD_THRESHOLD
    }

    method Append(entity: string, datum: MetricDatum)
      requires Valid()
      modifies this, partition
      ensures Valid() && items == old(items) + [Item(entity, datum)] && partition == old(partition)
    {
      hide Files;
      FilesNext(partition.entries, items, Item(entity, datum));
      partition.entries := partition.entries[entity := Filed(partition.entries, entity) + [datum]];
      var payload := Payload(datum);
      size := size + payload;
      count := count + 1;
      assert (items + [Item(entity, datum)])[..|items|] == items;
      items := items + [Item(entity, datum)];
    }
  }

  lemma OfNext(items: seq<Item>, x: Item, e: string)
    ensures Of(items + [x], e) == if x.entity == e then Of(items, e) + [x.datum] else Of(items, e)
  {
    assert (items + [x])[..|items|] == items;
  }

  lemma FilesNext(m: map<string, seq<MetricDatum>>, items: seq<Item>, x: Item)
    requires Files(m, items)
    ensures Files(m[x.entity := Filed(m, x.entity) + [x.datum]], items + [x])
  {
    var next := m[x.entity := Filed(m, x.entity) + [x.datum]];
    forall e ensures Filed(next, e) == Of(items + [x], e) && (e in next <==> Of(items + [x], e) != []) {
      OfNext(items, x, e);
    }
  }

  ghost predicate Full(items: seq<Item>, max: int, base: int) {
    |items| >= max || SizeOf(items, base) >= PAYLOAD_THRESHOLD
  }

  /** A batch that was sent: something is in it, and before its last datum it was not full. */
  ghost predicate SentOk(items: seq<Item>, max: int, base: int) {
    items != [] && (|items| > 1 ==> !Full(items[..|items| - 1], max, base))
  }

  class Pusher {
    const batch: MetricDatumBatch
    var sent: seq<Partition>
    ghost var batches: seq<seq<Item>>  // what was in each batch when it was sent
    ghost var log: seq<Item>           // everything that arrived

    ghost predicate Valid()
      reads this, batch, batch.partition, sent
    {
      && batch.Valid() && batch.partition !in sent
      && (batch.items != [] ==> !Full(batch.items, batch.maxDatumsPerCall, batch.perRequestConstSize))
      && Archived()
      && log == Flatten(batches) + batch.items
    }

    /** What was sent is still what was in the batches, and these were within the limits. */
    ghost predicate Archived()
      reads this`sent, this`batches, sent
    {
      && |sent| == |batches|
      && forall i :: 0 <= i < |sent| ==>
           Files(sent[i].entries, batches[i]) && SentOk(batches[i], batch.maxDatumsPerCall, batch.perRequestConstSize)
    }

    /** The batches from the n-th on went out because they were full. */
    ghost predicate SentFull(n: nat)
      reads this
    {
      forall i :: n <= i < |batches| ==> Full(batches[i], batch.maxDatumsPerCall, batch.perRequestConstSize)
    }

    constructor (batch: MetricDatumBatch)
      requires batch.Valid() && batch.items == []
      ensures Valid() && this.batch == batch && sent == [] && log == []
    {
      this.batch := batch;
      sent, batches, log := [], [], [];
    }

    /** The partition goes to the channel and a new one is started. */
    method Send()
      requires batch.Valid() && batch.partition !in sent && Archived()
      requires SentOk(batch.items, batch.maxDatumsPerCall, batch.perRequestConstSize)
      requires log == Flatten(batches) + batch.items
      modifies this, batch
      ensures Valid() && log == old(log) && sent == old(sent) + [old(batch.partition)]
      ensures batches == old(batches) + [old(batch.items)] && fresh(batch.partition)
    {
      hide Files, SentOk;
      FlattenSnoc(batches, batch.items);
      sent, batches := sent + [batch.partition], batches + [batch.items];
      batch.Clear();
    }

    /** The loop over the datums of one metric. */
    method Push(entity: string, datums: seq<MetricDatum>)
      requires Valid()
      modifies this, batch, batch.partition
      ensures Valid()
      ensures old(sent) <= sent && old(batches) <= batches
      ensures log == old(log) + Items(entity, datums)
      ensures forall i :: |old(batches)| <= i < |batches| ==>
                |batches[i]| >= batch.maxDatumsPerCall || SizeOf(batches[i], batch.perRequestConstSize) >= 999000
      ensures batch.partition == old(batch.partition) || fresh(batch.partition)
    {
      hide Files, SentOk;
      for i := 0 to |datums|
        invariant Valid() && (batch.partition == old(batch.partition) || fresh(batch.partition))
        invariant old(sent) <= sent && old(batches) <= batches
        invariant log == old(log) + Items(entity, datums[..i])
        invariant SentFull(|old(batches)|)
      {
        PushOne(entity, datums[i]);
        assert datums[..i + 1] == datums[..i] + [datums[i]];
      }
      assert datums[..|datums|] == datums;
    }

    method PushOne(entity: string, datum: MetricDatum)
      requires Valid()
      modifies this, batch, batch.partition
      ensures Valid() && (batch.partition == old(batch.partition) || fresh(batch.partition))
      ensures old(sent) <= sent && old(batches) <= batches
      ensures log == old(log) + [Item(entity, datum)]
      ensures batches == old(batches) || SentFull(|old(batches)|)
    {
      hide Files, SizeOf, Flatten, Archived;
      ghost var before := batch.items;
      batch.Append(entity, datum);
      log := log + [Item(entity, datum)];
      assert batch.items[..|batch.items| - 1] == before;
      if batch.IsFull() {
        Send();
      }
    }

    /** The ticker: a batch that is not empty goes out when the flush interval has passed. */
    method Tick(due: bool)
      requires Valid()
      modifies this, batch
      ensures Valid() && log == old(log)
      ensures old(sent) <= sent && old(batches) <= batches
      ensures due ==> batch.items == []
      ensures !due ==> sent == old(sent) && batches == old(batches)
      ensures batch.partition == old(batch.partition) || fresh(batch.partition)
    {
      PartitionEmpty(batch.partition.entries, batch.items);
      if |batch.partition.entries| > 0 && due {
        NotFullPrefix(batch.items, batch.maxDatumsPerCall, batch.perRequestConstSize);
        Send();
      }
    }
  }

  /** What the push loop's select receives. */
  datatype Arrival = Metric(entity: string, datums: seq<MetricDatum>) | Ticker(due: bool)

  ghost function Arrived(arrivals: seq<Arrival>): seq<Item> {
    if arrivals == [] then []
    else
      var rest := Arrived(arrivals[..|arrivals| - 1]);
      match arrivals[|arrivals| - 1]
      case Metric(entity, datums) => rest + Items(entity, datums)
      case Ticker(_) => rest
  }

  /** pushMetricDatum over everything it receives: for every entity, the batches sent and then the current one hold all
      its datums in the order of arrival. */
  method PushMetricDatum(p: Pusher, arrivals: seq<Arrival>)
    requires p.Valid() && p.log == []
    modifies p, p.batch, p.batch.partition
    ensures p.Valid() && p.log == Arrived(arrivals)
    ensures forall e :: OfAll(p.batches, e) + Filed(p.batch.partition.entries, e) == Of(Arrived(arrivals), e)
  {
    for i := 0 to |arrivals|
      invariant p.Valid() && (p.batch.partition == old(p.batch.partition) || fresh(p.batch.partition))
      invariant p.log == Arrived(arrivals[..i])
    {
      assert arrivals[..i + 1][..i] == arrivals[..i];
      match arrivals[i]
      case Metric(entity, datums) => p.Push(entity, datums);
      case Ticker(due) => p.Tick(due);
    }
    assert arrivals[..|arrivals|] == arrivals;
    forall e ensures OfAll(p.batches, e) + Filed(p.batch.partition.entries, e) == Of(p.log, e) {
      ArrivalOrderKept(p, e);
    }
  }

  /** What arrived before, with and after any one arrival. */
  lemma {:induction false} ArrivedAt(arrivals: seq<Arrival>, i: nat)
    requires i < |arrivals|
    ensures match arrivals[i]
            case Metric(entity, datums) =>
              Arrived(arrivals) == Arrived(arrivals[..i]) + Items(entity, datums) + Arrived(arrivals[i + 1..])
            case Ticker(_) => Arrived(arrivals) == Arrived(arrivals[..i]) + Arrived(arrivals[i + 1..])
    decreases |arrivals|
  {
    var front := arrivals[..|arrivals| - 1];
    if i < |front| {
      ArrivedAt(front, i);
      assert arrivals[i + 1..][..|arrivals| - i - 2] == front[i + 1..];
      assert front[..i] == arrivals[..i];
    }
  }

  ghost function Items(entity: string, datums: seq<MetricDatum>): (r: seq<Item>)
    ensures |r| == |datums| && forall i :: 0 <= i < |r| ==> r[i] == Item(entity, datums[i])
  {
    seq(|datums|, i requires 0 <= i < |datums| => Item(entity, datums[i]))
  }

  lemma PartitionEmpty(m: map<string, seq<MetricDatum>>, items: seq<Item>)
    requires Files(m, items)
    ensures |m| == 0 <==> items == []
  {
    if items != [] {
      var e := items[|items| - 1].entity;
      assert Of(items, e) != [];
      assert e in m;
    } else {
      assert m.Keys == {};
    }
  }

  /** A batch that is not full was not full before its last datum either. */
  lemma NotFullPrefix(items: seq<Item>, max: int, base: int)
    requires items != [] && !Full(items, max, base)
    ensures SentOk(items, max, base)
  {}

  /** Every batch is within the limits: no more datums than allowed, and below the size threshold without its last
      datum. */
  lemma BatchLimits(items: seq<Item>, max: int, base: int)
    requires SentOk(items, max, base)
    ensures items != []
    ensures max >= 1 ==> |items| <= max
    ensures base < 999000 ==> SizeOf(items[..|items| - 1], base) < 999000
  {}

  /** The size of a batch is what it starts from and what every datum adds. */
  lemma {:induction false} SizeAdds(a: seq<Item>, b: seq<Item>, base: int)
    ensures SizeOf(a + b, base) == SizeOf(a, base) + SizeOf(b, 0)
    ensures SizeOf([], base) == base
    ensures |b| == 1 ==> SizeOf(b, base) == base + PayloadSize(b[0].datum)
  {
    if b == [] {
      assert a + b == a;
    } else {
      assert (a + b)[..|a + b| - 1] == a + b[..|b| - 1];
      SizeAdds(a, b[..|b| - 1], base);
    }
  }

  lemma {:induction false} OfConcat(a: seq<Item>, b: seq<Item>, e: string)
    ensures Of(a + b, e) == Of(a, e) + Of(b, e)
    decreases |b|
  {
    if b == [] {
      assert a + b == a;
    } else {
      assert (a + b)[..|a + b| - 1] == a + b[..|b| - 1];
      OfConcat(a, b[..|b| - 1], e);
    }
  }

  /** The datums of an entity over several batches, in the order of sending. */
  ghost function OfAll(batches: seq<seq<Item>>, e: string): seq<MetricDatum> {
    if batches == [] then [] else OfAll(batches[..|batches| - 1], e) + Of(batches[|batches| - 1], e)
  }

  lemma {:induction false} OfFlatten(batches: seq<seq<Item>>, e: string)
    ensures Of(Flatten(batches), e) == OfAll(batches, e)
  {
    if batches != [] {
      OfFlatten(batches[..|batches| - 1], e);
      OfConcat(Flatten(batches[..|batches| - 1]), batches[|batches| - 1], e);
    }
  }

  /** For every entity, the batches sent and then the current one hold its datums in the order of arrival. */
  lemma ArrivalOrderKept(p: Pusher, e: string)
    requires p.Valid()
    ensures OfAll(p.batches, e) + Filed(p.batch.partition.entries, e) == Of(p.log, e)
    ensures forall i :: 0 <= i < |p.sent| ==> Filed(p.sent[i].entries, e) == Of(p.batches[i], e)
  {
    OfFlatten(p.batches, e);
    OfConcat(Flatten(p.batches), p.batch.items, e);
  }
}
