/** Aggregation of metric datums per series and time window between two flushes. */
module Aggregation {
  import opened Common
  import opened Buckets
  import opened Samples
  import opened Distributions
  import opened Statistics
  import opened Otel

  /** The aggregation key: the metric with its dimensions, and the start of the time window. */
  datatype Key = Key(series: string, window: int)

  function Multiple(k: int, duration: int): int {
    k * duration
  }

  /** A whole number of durations. */
  ghost predicate Aligned(t: int, duration: int) {
    exists k :: t == Multiple(k, duration)
  }

  /** time.Truncate to a whole number of durations since the zero time. */
  function Truncated(t: int, duration: int): (window: int)
    requires duration > 0
    ensures Aligned(window, duration) && window <= t < window + duration
  {
    assert t - t % duration == Multiple(t / duration, duration);
    t - t % duration
  }

  class Datum {
    var series: string
    var timestamp: Option<int>
    var name: Option<string>
    var unit: Option<string>
    var value: Option<real>
    var distribution: Distribution?

    constructor (series: string, timestamp: Option<int>, name: Option<string>, unit: Option<string>,
                 value: Option<real>, distribution: Distribution?)
      ensures this.series == series && this.timestamp == timestamp && this.name == name && this.unit == unit
      ensures this.value == value && this.distribution == distribution
    {
      this.series, this.timestamp, this.name, this.unit := series, timestamp, name, unit;
      this.value, this.distribution := value, distribution;
    }

    predicate Complete()
      reads this
    {
      timestamp.Some? && name.Some? && unit.Some?
    }

    /** What the aggregator demands of a datum: some data, of its own kind of distribution. */
    ghost predicate Acceptable(kind: Kind)
      reads this, distribution
    {
      if distribution == null then value.Some? else distribution.kind == kind && distribution.Typed()
    }

    /** What the datum adds: its distribution, whatever that holds, or its value once if that is supported. */
    ghost function Contribution(kind: Kind): (c: Stats)
      reads this, distribution
      requires Acceptable(kind)
      ensures distribution == null && Supported(value.value) ==>
                c.count == 1.0 && c.sum == value.value && c.maximum == c.minimum == value.value &&
                c.buckets == map[BucketOf(kind, value.value) := 1.0]
      ensures distribution == null && !Supported(value.value) ==> c.count == c.sum == 0.0 && c.buckets == map[]
    {
      hide BucketOf;
      if distribution != null then distribution.View()
      else if 0.0 <= value.value <= MAX_VALUE then WithEntry(EMPTY, kind, value.value, 1.0)
      else EMPTY
    }
  }

  /** The datum is of the series, and its time lies in the window, which begins at a whole number of durations. */
  ghost predicate InWindow(m: Datum, key: Key, duration: int)
    reads m
    requires duration > 0
  {
    && m.Complete() && m.series == key.series
    && Aligned(key.window, duration) && key.window <= m.timestamp.value < key.window + duration
  }

  /** No datum lies in two windows. */
  lemma OneWindow(m: Datum, key: Key, other: Key, duration: int)
    requires duration > 0 && InWindow(m, key, duration) && InWindow(m, other, duration)
    ensures key == other
  {
    Multiples(key.window, other.window, duration);
  }

  lemma Multiples(v: int, w: int, duration: int)
    requires duration > 0 && Aligned(v, duration) && Aligned(w, duration)
    ensures v < w ==> v + duration <= w
    ensures w < v ==> w + duration <= v
  {
    var i :| v == Multiple(i, duration);
    var j :| w == Multiple(j, duration);
    MultiplesApart(i, j, duration);
    MultiplesApart(j, i, duration);
  }

  lemma MultiplesApart(i: int, j: int, duration: int)
    requires duration > 0
    ensures i < j ==> Multiple(i, duration) + duration <= Multiple(j, duration)
    ensures i == j ==> Multiple(i, duration) == Multiple(j, duration)
  {
    hide Multiple;
    if i < j {
      MultiplePlus(i, j - i - 1, duration);
      MultipleNat(j - i - 1, duration);
    }
  }

  lemma MultiplePlus(i: int, k: int, duration: int)
    ensures Multiple(i + 1 + k, duration) == Multiple(i, duration) + duration + Multiple(k, duration)
  {}

  lemma MultipleNat(k: nat, duration: nat)
    ensures Multiple(k, duration) >= 0
  {}

  type Held = map<Key, Stats>

  /** The first contribution for a key is kept; a later one is merged in if it has samples. */
  ghost function Received(held: Held, key: Key, c: Stats): Held {
    held[key := if key in held then Joined(held[key], c) else c]
  }

  /** Under which key each distribution is kept. */
  type Owners = map<Distribution, Key>

  /** The datum is kept under the key of its series and time: its distribution holds what it should and belongs to no
      other key. */
  ghost predicate Kept(d: Datum, k: Key, kind: Kind, duration: int, held: Held, owner: Owners, repr: set<object>)
    reads d, d.distribution
  {
    && d in repr && d.distribution != null && d.distribution in repr
    && d.distribution.Typed() && d.distribution.kind == kind
    && k in held && d.distribution.View() == held[k]
    && d.distribution in owner && owner[d.distribution] == k
    && duration > 0 && InWindow(d, k, duration)
  }

  ghost predicate AllKept(metricMap: map<Key, Datum>, kind: Kind, duration: int, held: Held, owner: Owners,
                          repr: set<object>)
    reads metricMap.Values, set d <- metricMap.Values | d.distribution != null :: d.distribution
  {
    held.Keys == metricMap.Keys && forall k <- metricMap :: Kept(metricMap[k], k, kind, duration, held, owner, repr)
  }

  /** The distribution of a key belongs to no other. */
  lemma KeptApart(metricMap: map<Key, Datum>, kind: Kind, duration: int, held: Held, owner: Owners, repr: set<object>,
                  key: Key)
    requires AllKept(metricMap, kind, duration, held, owner, repr) && key in metricMap
    ensures Kept(metricMap[key], key, kind, duration, held, owner, repr)
    ensures forall k <- metricMap :: k != key ==> metricMap[k].distribution != metricMap[key].distribution
  {
    forall k <- metricMap ensures Kept(metricMap[k], k, kind, duration, held, owner, repr) {}
  }

  lemma OneMoreKept(metricMap: map<Key, Datum>, kind: Kind, duration: int, held: Held, owner: Owners,
                    repr: set<object>, m: Datum, key: Key, c: Stats)
    requires AllKept(metricMap, kind, duration, held, owner, repr) && key !in metricMap
    requires m.distribution != null && m.distribution !in repr && m.distribution.Typed() && m.distribution.kind == kind
    requires m.distribution.View() == c && duration > 0 && InWindow(m, key, duration)
    ensures AllKept(metricMap[key := m], kind, duration, Received(held, key, c), owner[m.distribution := key],
                    repr + {m, m.distribution})
  {
    hide Distribution.Typed, Distribution.View, Joined;
    var next, later, owners := metricMap[key := m], Received(held, key, c), owner[m.distribution := key];
    assert Kept(m, key, kind, duration, later, owners, repr + {m, m.distribution});
    hide Kept;
    forall k <- next ensures Kept(next[k], k, kind, duration, later, owners, repr + {m, m.distribution}) {
      if k != key { StillKept(metricMap[k], k, kind, duration, held, owner, repr, m, key, c); }
    }
  }

  /** Keeping another datum does not change that. */
  lemma StillKept(d: Datum, k: Key, kind: Kind, duration: int, held: Held, owner: Owners, repr: set<object>,
                  m: Datum, key: Key, c: Stats)
    requires Kept(d, k, kind, duration, held, owner, repr) && k != key && m.distribution != null &&
               m.distribution !in repr
    ensures Kept(d, k, kind, duration, Received(held, key, c), owner[m.distribution := key], repr + {m, m.distribution})
  {
    hide Distribution.Typed, Distribution.View, Joined;
  }

  class DurationAggregator {
    const duration: int
    const kind: Kind
    var metricMap: map<Key, Datum>
    ghost var held: Held  // what each kept distribution holds
    ghost var owner: Owners  // no distribution is kept under two keys
    ghost var Repr: set<object>

    ghost predicate Valid()
      reads this, Repr
    {
      && duration > 0
      && this in Repr
      && (forall d <- metricMap.Values :: d in Repr && (d.distribution != null ==> d.distribution in Repr))
      && AllKept(metricMap, kind, duration, held, owner, Repr)
    }

    constructor (duration: int, kind: Kind)
      requires duration > 0
      ensures Valid() && fresh(Repr) && Repr == {this} && metricMap == map[] && held == map[]
      ensures this.duration == duration && this.kind == kind
    {
      this.duration, this.kind := duration, kind;
      metricMap, held, owner, Repr := map[], map[], map[], {this};
    }

    /** The datum and its distribution are new to the aggregator. */
    ghost predicate New(m: Datum)
      reads this, m
    {
      m !in Repr && (m.distribution != null ==> m.distribution !in Repr)
    }

    function KeyOf(m: Datum): (key: Key)
      reads m
      requires m.Complete() && duration > 0
      ensures InWindow(m, key, duration)
    {
      Key(m.series, Truncated(m.timestamp.value, duration))
    }

    /** One datum from the channel; partial ones are logged and ignored. The first datum of a key stays the one that is
        kept, with everything in it but its distribution. */
    method Aggregate(m: Datum)
      requires Valid() && New(m) && m.Acceptable(kind)
      modifies Repr, m
      ensures Valid()
      ensures metricMap == if old(m.Complete() && KeyOf(m) !in metricMap) then old(metricMap[KeyOf(m) := m])
                           else old(metricMap)
      ensures old(m.timestamp.None? || m.name.None? || m.unit.None?) ==>
                metricMap == old(metricMap) && held == old(held)
      ensures old(m.timestamp.Some? && m.name.Some? && m.unit.Some?) ==>
                exists k :: k in metricMap && old(InWindow(m, k, duration))
      ensures unchanged(m`series, m`timestamp, m`name, m`unit, m`value)
      ensures forall k <- old(metricMap) :: unchanged(old(metricMap)[k])
      ensures forall o <- Repr :: o in old(Repr) || fresh(o) || o == m || o == old(m.distribution)
      ensures !old(m.Complete()) ==> held == old(held)
      ensures old(m.Complete()) ==>
                held == Received(old(held), old(KeyOf(m)), old(m.Contribution(kind)))
    {
      hide AllKept, Received, Datum.Contribution, Datum.Acceptable, KeyOf, Truncated, InWindow;
      if !m.Complete() {
        return;
      }
      var key := KeyOf(m);
      if key !in metricMap {
        First(m, key);
      } else {
        Update(m, key);
      }
    }

    /** First entry for the key: the datum itself is kept. */
    method First(m: Datum, key: Key)
      requires Valid() && New(m) && m.Acceptable(kind) && InWindow(m, key, duration) && key !in metricMap
      modifies this, m`distribution
      ensures Valid() && held == Received(old(held), key, old(m.Contribution(kind)))
      ensures metricMap == old(metricMap)[key := m]
      ensures forall o <- Repr :: o in old(Repr) || fresh(o) || o == m || o == old(m.distribution)
    {
      ghost var c := m.Contribution(kind);
      if m.distribution == null {
        var d := OfValue(m.value.value, m.unit.value);
        m.distribution := d;
      }
      Keep(m, key, c);
    }

    /** A new distribution that holds one value, or nothing if the value is not supported. */
    method OfValue(value: real, unit: string) returns (d: Distribution)
      ensures fresh(d) && d.Typed() && d.kind == kind
      ensures d.View() == if 0.0 <= value <= MAX_VALUE then WithEntry(EMPTY, kind, value, 1.0) else EMPTY
    {
      hide WithEntry, Distribution.Valid;
      d := new Distribution(kind);
      var outcome := d.AddEntryWithUnit(value, 1.0, unit);
    }

    method Keep(m: Datum, key: Key, ghost c: Stats)
      requires Valid() && m !in Repr && key !in metricMap
      requires m.distribution != null && m.distribution !in Repr && m.distribution.Typed() &&
                 m.distribution.kind == kind
      requires m.distribution.View() == c && InWindow(m, key, duration)
      modifies this
      ensures Valid() && held == Received(old(held), key, c) && Repr == old(Repr) + {m, m.distribution}
      ensures metricMap == old(metricMap)[key := m]
    {
      hide Distribution.Typed, Distribution.View, Received, AllKept;
      OneMoreKept(metricMap, kind, duration, held, owner, Repr, m, key, c);
      metricMap, held, owner := metricMap[key := m], Received(held, key, c), owner[m.distribution := key];
      Repr := Repr + {m, m.distribution};
    }

    /** An existing entry: its distribution takes the new data in. */
    method Update(m: Datum, key: Key)
      requires Valid() && New(m) && m.Acceptable(kind) && m.Complete() && key in metricMap
      modifies Repr
      ensures Valid() && held == Received(old(held), key, old(m.Contribution(kind))) && Repr == old(Repr)
      ensures metricMap == old(metricMap) && forall k <- metricMap :: unchanged(metricMap[k])
    {
      hide Distribution.Typed, Distribution.View, Joined, Datum.Contribution, Datum.Acceptable, InWindow;
      var kept := metricMap[key].distribution;
      KeptApart(metricMap, kind, duration, held, owner, Repr, key);
      Absorb(kept, m);
      held := Received(held, key, old(m.Contribution(kind)));
      assert Kept(metricMap[key], key, kind, duration, held, owner, Repr);
      forall k <- metricMap | k != key ensures Kept(metricMap[k], k, kind, duration, held, owner, Repr) {
        assert old(Kept(metricMap[k], k, kind, duration, held, owner, Repr));
      }
    }

    method Absorb(kept: Distribution, m: Datum)
      requires kept.Typed() && kept.kind == kind && m.Acceptable(kind) && m.unit.Some? && m.distribution != kept
      modifies kept
      ensures kept.Typed() && kept.View() == Joined(old(kept.View()), old(m.Contribution(kind)))
    {
      hide WithEntry, Distribution.Typed, Distribution.Valid;
      if m.distribution == null {
        if Supported(m.value.value) { SingleJoins(kept.View(), kind, m.value.value); }
        var outcome := kept.AddEntryWithUnit(m.value.value, 1.0, m.unit.value);
      } else {
        kept.AddDistribution(m.distribution);
      }
    }

    /** Everything held is sent on, in some order, and the map starts over; what was sent is not touched again. */
    method Flush() returns (sent: seq<Datum>, ghost order: seq<Key>)
      requires Valid()
      modifies this
      ensures Valid() && held == map[] && Repr == {this}
      ensures Delivers(sent, order, old(held), duration)
      ensures forall i :: 0 <= i < |order| ==>
                order[i] in old(metricMap) && sent[i] == old(metricMap)[order[i]] && sent[i].distribution.kind == kind
      ensures forall i :: 0 <= i < |sent| ==> {sent[i], sent[i].distribution} <= old(Repr) - {this}
    {
      hide Distribution.Typed, Distribution.View, InWindow;
      sent, order := ListHeld();
      metricMap, held := map[], map[];
      Repr := {this};
    }

    method ListHeld() returns (sent: seq<Datum>, ghost order: seq<Key>)
      ensures |sent| == |order| && Distinct(order) && forall k :: k in order <==> k in metricMap
      ensures forall i :: 0 <= i < |order| ==> order[i] in metricMap && sent[i] == metricMap[order[i]]
    {
      sent, order := [], [];
      var todo := metricMap.Keys;
      while todo != {}
        invariant todo <= metricMap.Keys
        invariant |sent| == |order| && Distinct(order) && forall k :: k in order <==> k in metricMap && k !in todo
        invariant forall i :: 0 <= i < |order| ==> order[i] in metricMap && sent[i] == metricMap[order[i]]
        decreases |todo|
      {
        var k :| k in todo;
        sent, order, todo := sent + [metricMap[k]], order + [k], todo - {k};
      }
    }
  }

  /** The datums carry what was held, each key once: a datum of the key's series and time. */
  ghost predicate Delivers(sent: seq<Datum>, order: seq<Key>, held: Held, duration: int)
    reads sent, set d <- sent | d.distribution != null :: d.distribution
  {
    && |sent| == |order| && Distinct(order) && (forall k :: k in order <==> k in held)
    && forall i :: 0 <= i < |order| ==>
         && order[i] in held && sent[i].distribution != null && sent[i].distribution.Typed()
         && sent[i].distribution.View() == held[order[i]] && duration > 0 && InWindow(sent[i], order[i], duration)
  }

  // ----- whole runs -----

  /** What the aggregating loop receives: the contribution of a complete datum, or a tick (or the shutdown) that
      flushes. */
  datatype Event = Data(key: Key, contribution: Stats) | FlushAll

  /** What is held, and what was flushed so far. */
  datatype Progress = Progress(held: Held, flushed: seq<Held>)

  ghost function Advance(p: Progress, e: Event): Progress {
    match e
    case Data(key, c) => p.(held := Received(p.held, key, c))
    case FlushAll => Progress(map[], p.flushed + [p.held])
  }

  ghost function After(events: seq<Event>): Progress {
    if events == [] then Progress(map[], []) else Advance(After(events[..|events| - 1]), events[|events| - 1])
  }

  ghost function EventOf(m: Datum, kind: Kind, duration: int): seq<Event>
    reads m, m.distribution
    requires m.Acceptable(kind) && duration > 0
  {
    if m.Complete() then [Data(Key(m.series, Truncated(m.timestamp.value, duration)), m.Contribution(kind))] else []
  }

  /** What the loop's select receives. */
  datatype Input = Arrival(datum: Datum) | Tick

  ghost function DatumsOf(inputs: seq<Input>): set<Datum> {
    set x <- inputs | x.Arrival? :: x.datum
  }

  ghost function DistributionsOf(inputs: seq<Input>): set<Distribution>
    reads DatumsOf(inputs)
  {
    set d <- DatumsOf(inputs) | d.distribution != null :: d.distribution
  }

  ghost predicate AllAcceptable(inputs: seq<Input>, kind: Kind)
    reads DatumsOf(inputs), DistributionsOf(inputs)
  {
    forall d <- DatumsOf(inputs) :: d.Acceptable(kind)
  }

  /** The events that each input stands for. */
  ghost function PartsOf(inputs: seq<Input>, kind: Kind, duration: int): (parts: seq<seq<Event>>)
    reads DatumsOf(inputs), DistributionsOf(inputs)
    requires duration > 0 && AllAcceptable(inputs, kind)
    ensures |parts| == |inputs|
  {
    if inputs == [] then []
    else
      var front, last := inputs[..|inputs| - 1], inputs[|inputs| - 1];
      assert last in inputs && forall x <- front :: x in inputs;
      assert last.Arrival? ==> last.datum in DatumsOf(inputs);
      PartsOf(front, kind, duration) + [if last.Tick? then [FlushAll] else EventOf(last.datum, kind, duration)]
  }

  lemma {:induction false} PartOf(inputs: seq<Input>, kind: Kind, duration: int, j: nat)
    requires duration > 0 && AllAcceptable(inputs, kind) && j < |inputs|
    ensures inputs[j].Tick? ==> PartsOf(inputs, kind, duration)[j] == [FlushAll]
    ensures inputs[j].Arrival? ==>
              && inputs[j].datum in DatumsOf(inputs) && inputs[j].datum.Acceptable(kind)
              && PartsOf(inputs, kind, duration)[j] == EventOf(inputs[j].datum, kind, duration)
  {
    hide EventOf, Datum.Acceptable;
    var front := inputs[..|inputs| - 1];
    assert inputs[j] in inputs && forall x <- front :: x in inputs;
    if j < |front| {
      PartOf(front, kind, duration, j);
    }
  }

  /** The inputs of a run as events. */
  ghost function EventsOf(inputs: seq<Input>, kind: Kind, duration: int): seq<Event>
    reads DatumsOf(inputs), DistributionsOf(inputs)
    requires duration > 0 && AllAcceptable(inputs, kind)
  {
    Flatten(PartsOf(inputs, kind, duration))
  }

  /** The datum is none of the objects and does not refer to one. */
  ghost predicate Untouched(m: Datum, objects: set<object>)
    reads m
  {
    m !in objects && (m.distribution != null ==> m.distribution !in objects)
  }

  /** No object comes in twice. */
  ghost predicate Unaliased(inputs: seq<Input>)
    reads DatumsOf(inputs)
  {
    forall i, j :: 0 <= i < j < |inputs| && inputs[i].Arrival? && inputs[j].Arrival? ==>
      assert inputs[i] in inputs && inputs[j] in inputs;
      assert inputs[i].datum in DatumsOf(inputs) && inputs[j].datum in DatumsOf(inputs);
      && inputs[i].datum != inputs[j].datum
      && (inputs[i].datum.distribution != null ==> inputs[i].datum.distribution != inputs[j].datum.distribution)
  }

  /** The aggregating loop over all its inputs: what it holds and what it sent is what the events say. */
  method Aggregating(agg: DurationAggregator, inputs: seq<Input>)
    returns (sents: seq<seq<Datum>>, ghost orders: seq<seq<Key>>)
    requires agg.Valid() && agg.held == map[] && Unaliased(inputs) && AllAcceptable(inputs, agg.kind)
    requires forall d <- DatumsOf(inputs) :: Untouched(d, agg.Repr)
    modifies agg.Repr, DatumsOf(inputs), DistributionsOf(inputs)
    ensures agg.Valid()
    ensures var p := After(old(EventsOf(inputs, agg.kind, agg.duration)));
            && agg.held == p.held && |sents| == |orders| == |p.flushed|
            && forall f :: 0 <= f < |sents| ==> Delivers(sents[f], orders[f], p.flushed[f], agg.duration)
  {
    hide Given, Delivers, Datum.Acceptable, Datum.Contribution, EventOf, AllKept, Received, After, Truncated,
      Datum.Complete, Flatten, PartsOf, DurationAggregator.KeyOf, InWindow;
    NothingYet();
    ghost var kind, duration, parts := agg.kind, agg.duration, PartsOf(inputs, agg.kind, agg.duration);
    forall j | 0 <= j < |inputs|
      ensures inputs[j].Tick? ==> parts[j] == [FlushAll]
      ensures inputs[j].Arrival? ==> Pending(inputs[j].datum, agg.Repr, kind, duration, parts[j])
    {
      PartOf(inputs, kind, duration, j);
    }
    ghost var events: seq<Event> := [];
    ghost var mine: set<object> := agg.Repr + DatumsOf(inputs) + DistributionsOf(inputs);
    ghost var gone: set<object> := {};
    sents, orders := [], [];
    for i := 0 to |inputs|
      invariant agg.Valid() && (forall o <- agg.Repr :: o in mine || fresh(o)) && gone !! agg.Repr
      invariant events == Flatten(parts[..i])
      invariant After(events).held == agg.held
      invariant |sents| == |orders| == |After(events).flushed|
      invariant forall f :: 0 <= f < |sents| ==> Given(sents[f], orders[f], After(events).flushed[f], duration, gone)
      invariant forall j :: i <= j < |inputs| && inputs[j].Arrival? ==>
                  Pending(inputs[j].datum, agg.Repr + gone, kind, duration, parts[j])
      invariant forall j :: i <= j < |inputs| && inputs[j].Arrival? ==>
                  inputs[j].datum.distribution == old(inputs[j].datum.distribution)
    {
      assert parts[..i + 1] == parts[..i] + [parts[i]];
      FlattenSnoc(parts[..i], parts[i]);
      assert inputs[i] in inputs;
      match inputs[i]
      case Tick =>
        ghost var more := agg.Repr - {agg};
        var sent;
        ghost var order;
        sent, order := FlushApart(agg, sents, orders, After(events).flushed, gone);
        gone := gone + more;
        AfterNext(events, FlushAll);
        events := events + [FlushAll];
        sents, orders := sents + [sent], orders + [order];
      case Arrival(m) =>
        ReceiveApart(agg, m, events, sents, orders, gone);
        events := events + parts[i];
    }
    assert parts[..|inputs|] == parts;
    forall f | 0 <= f < |sents| ensures Delivers(sents[f], orders[f], After(events).flushed[f], duration) {
      GivenDelivers(sents[f], orders[f], After(events).flushed[f], duration, gone);
    }
  }

  /** The datum was not touched yet and still stands for these events. */
  ghost predicate Pending(m: Datum, objects: set<object>, kind: Kind, duration: int, part: seq<Event>)
    reads m, m.distribution
  {
    Untouched(m, objects) && m.Acceptable(kind) && duration > 0 && part == EventOf(m, kind, duration)
  }

  lemma GivenDelivers(sent: seq<Datum>, order: seq<Key>, held: Held, duration: int, gone: set<object>)
    requires Given(sent, order, held, duration, gone)
    ensures Delivers(sent, order, held, duration)
  {}

  lemma NothingYet()
    ensures After([]) == Progress(map[], []) && Flatten<Event>([]) == []
  {}

  lemma AfterArrival(events: seq<Event>, m: Datum, kind: Kind, duration: int)
    requires m.Acceptable(kind) && duration > 0
    ensures var p := After(events);
            var key := if m.Complete() then Key(m.series, Truncated(m.timestamp.value, duration)) else Key("", 0);
            After(events + EventOf(m, kind, duration)) ==
            if m.Complete() then p.(held := Received(p.held, key, m.Contribution(kind))) else p
  {
    if m.Complete() {
      AfterNext(events, EventOf(m, kind, duration)[0]);
    } else {
      assert events + [] == events;
    }
  }

  lemma AfterNext(events: seq<Event>, e: Event)
    ensures After(events + [e]) == Advance(After(events), e)
  {
    assert (events + [e])[..|events|] == events;
  }

  /** The datums carry what was held, and they and their distributions are among the objects given away. */
  ghost predicate Given(sent: seq<Datum>, order: seq<Key>, held: Held, duration: int, gone: set<object>)
    reads sent, set d <- sent | d.distribution != null :: d.distribution
  {
    && Delivers(sent, order, held, duration)
    && forall i :: 0 <= i < |sent| ==> sent[i] in gone && sent[i].distribution in gone
  }

  /** Receiving a datum leads to what its events say and does not touch what was given away. */
  method ReceiveApart(agg: DurationAggregator, m: Datum, ghost events: seq<Event>, ghost sents: seq<seq<Datum>>,
                      ghost orders: seq<seq<Key>>, ghost gone: set<object>)
    requires agg.Valid() && agg.New(m) && m.Acceptable(agg.kind) && gone !! agg.Repr && m !in gone
    requires agg.held == After(events).held && |sents| == |orders| == |After(events).flushed|
    requires forall f :: 0 <= f < |sents| ==>
               Given(sents[f], orders[f], After(events).flushed[f], agg.duration, gone)
    modifies agg.Repr, m
    ensures agg.Valid() && forall o <- agg.Repr :: o in old(agg.Repr) || fresh(o) || o == m || o == old(m.distribution)
    ensures var next := After(events + old(EventOf(m, agg.kind, agg.duration)));
            agg.held == next.held && next.flushed == After(events).flushed
    ensures forall f :: 0 <= f < |sents| ==>
              Given(sents[f], orders[f], After(events).flushed[f], agg.duration, gone)
  {
    assert agg.duration > 0;
    hide DurationAggregator.Valid, Datum.Acceptable, Received, Datum.Contribution, Delivers, After, EventOf, InWindow,
      Truncated;
    AfterArrival(events, m, agg.kind, agg.duration);
    agg.Aggregate(m);
  }

  /** Neither does a flush. */
  method FlushApart(agg: DurationAggregator, ghost sents: seq<seq<Datum>>, ghost orders: seq<seq<Key>>,
                    ghost flushed: seq<Held>,
                    ghost gone: set<object>)
    returns (sent: seq<Datum>, ghost order: seq<Key>)
    requires agg.Valid() && gone !! agg.Repr
    requires |sents| == |orders| == |flushed| && forall f :: 0 <= f < |sents| ==>
               Given(sents[f], orders[f], flushed[f], agg.duration, gone)
    modifies agg
    ensures agg.Valid() && agg.held == map[] && agg.Repr == {agg}
    ensures var more := gone + (old(agg.Repr) - {agg});
            && Given(sent, order, old(agg.held), agg.duration, more)
            && forall f :: 0 <= f < |sents| ==> Given(sents[f], orders[f], flushed[f], agg.duration, more)
  {
    hide Delivers, AllKept;
    sent, order := agg.Flush();
  }

  /** Two datums of one series and time, and a flush: the first is sent, with the second merged in. */
  method TwoAggregated(first: Datum, second: Datum, kind: Kind, duration: int) returns (sent: seq<Datum>)
    requires duration > 0 && first != second && first.distribution == null
    requires first.Complete() && first.Acceptable(kind) && second.Complete() && second.Acceptable(kind)
    requires first.series == second.series && first.timestamp == second.timestamp
    modifies first, second
    ensures sent == [first] && first.value == old(first.value) && first.unit == old(first.unit)
    ensures first.distribution != null && first.distribution.Typed() && first.distribution.kind == kind
    ensures first.distribution.View() == Joined(old(first.Contribution(kind)), old(second.Contribution(kind)))
  {
    hide Joined, Datum.Contribution, DurationAggregator.Valid, Distribution.Typed, Truncated;
    var agg := new DurationAggregator(duration, kind);
    ghost var key := Key(first.series, Truncated(first.timestamp.value, duration));
    AggregateTwo(agg, first, second, key);
    ghost var order;
    sent, order := agg.Flush();
    OnlyOne(order, key);
    assert order[0] == key && sent[0] == first;
  }

  method AggregateTwo(agg: DurationAggregator, first: Datum, second: Datum, ghost key: Key)
    requires agg.Valid() && agg.Repr == {agg} && agg.held == map[] && agg.metricMap == map[]
    requires first != second && first.distribution == null
    requires first.Complete() && first.Acceptable(agg.kind) && second.Complete() && second.Acceptable(agg.kind)
    requires key == Key(first.series, Truncated(first.timestamp.value, agg.duration))
    requires first.series == second.series && first.timestamp == second.timestamp
    modifies agg, first, second
    ensures agg.Valid() && first.value == old(first.value) && first.unit == old(first.unit)
    ensures agg.held == map[key := Joined(old(first.Contribution(agg.kind)), old(second.Contribution(agg.kind)))]
    ensures agg.metricMap == map[key := first]
  {
    hide Joined, AllKept, Distribution.Typed, Truncated, WithEntry;
    ghost var c := first.Contribution(agg.kind);
    agg.Aggregate(first);
    assert agg.held == map[key := c] && agg.metricMap == map[key := first];
    assert second.Contribution(agg.kind) == old(second.Contribution(agg.kind));
    agg.Aggregate(second);
  }

  lemma NotTwice(order: seq<Key>)
    requires Distinct(order)
    ensures |order| > 1 ==> order[0] != order[1]
  {}

  lemma OnlyOne(order: seq<Key>, key: Key)
    requires Distinct(order) && forall k :: k in order <==> k == key
    ensures order == [key]
  {
    assert key in order;
    NotTwice(order);
    forall i | 0 <= i < |order| ensures order[i] == key { assert order[i] in order; }
  }

  /** The contributions for a key since the last flush, in order of arrival. */
  ghost function Since(events: seq<Event>, key: Key): seq<Stats> {
    if events == [] then []
    else
      var rest := Since(events[..|events| - 1], key);
      match events[|events| - 1]
      case Data(k, c) => if k == key then rest + [c] else rest
      case FlushAll => []
  }

  /** What is held for a key is the fold of everything received for it since the last flush. */
  lemma {:induction false} HeldIsFold(events: seq<Event>, key: Key)
    ensures key in After(events).held <==> Since(events, key) != []
    ensures key in After(events).held ==> After(events).held[key] == Fold(Since(events, key))
  {
    hide Fold, Joined;
    if events != [] {
      HeldIsFold(events[..|events| - 1], key);
      if events[|events| - 1].Data? {
        FoldSnoc(Since(events[..|events| - 1], key), events[|events| - 1].contribution);
      }
    }
  }

  ghost predicate Between(t: int, k: int, duration: int) {
    k * duration <= t < (k + 1) * duration
  }

  lemma BetweenMultiples(t: int, k: int, duration: int)
    ensures Between(t, k, duration) <==> Multiple(k, duration) <= t < Multiple(k, duration) + duration
    ensures Aligned(Multiple(k, duration), duration)
  {
    assert (k + 1) * duration == k * duration + duration;
  }

  /** Two complete datums are held under one key exactly when they are of one series and lie between the same two
      multiples of the duration. */
  lemma SameKeyExactly(agg: DurationAggregator, m: Datum, n: Datum)
    requires agg.duration > 0 && m.Complete() && n.Complete()
    ensures agg.KeyOf(m) == agg.KeyOf(n) <==>
              && m.series == n.series
              && exists k :: Between(m.timestamp.value, k, agg.duration) && Between(n.timestamp.value, k, agg.duration)
  {
    hide Multiple, Between;
    var d, key, other := agg.duration, agg.KeyOf(m), agg.KeyOf(n);
    var k :| key.window == Multiple(k, d);
    BetweenMultiples(m.timestamp.value, k, d);
    BetweenMultiples(n.timestamp.value, k, d);
    if j :| Between(m.timestamp.value, j, d) && Between(n.timestamp.value, j, d) && m.series == n.series {
      BetweenMultiples(m.timestamp.value, j, d);
      BetweenMultiples(n.timestamp.value, j, d);
      OneWindow(m, key, Key(m.series, Multiple(j, d)), d);
      OneWindow(n, other, Key(m.series, Multiple(j, d)), d);
    }
  }

  /** What the inputs since the last tick contribute to a series and window. */
  ghost function Matching(inputs: seq<Input>, key: Key, kind: Kind, duration: int): seq<Stats>
    reads DatumsOf(inputs), DistributionsOf(inputs)
    requires duration > 0 && AllAcceptable(inputs, kind)
  {
    if inputs == [] then []
    else
      var front, last := inputs[..|inputs| - 1], inputs[|inputs| - 1];
      assert last in inputs && forall x <- front :: x in inputs;
      assert last.Arrival? ==> last.datum in DatumsOf(inputs);
      var rest := Matching(front, key, kind, duration);
      match last
      case Tick => []
      case Arrival(m) => if InWindow(m, key, duration) then rest + [m.Contribution(kind)] else rest
  }

  lemma {:induction false} SinceMatches(inputs: seq<Input>, key: Key, kind: Kind, duration: int)
    requires duration > 0 && AllAcceptable(inputs, kind)
    ensures Since(EventsOf(inputs, kind, duration), key) == Matching(inputs, key, kind, duration)
  {
    if inputs != [] {
      var front, last := inputs[..|inputs| - 1], inputs[|inputs| - 1];
      assert last in inputs && forall x <- front :: x in inputs;
      assert last.Arrival? ==> last.datum in DatumsOf(inputs);
      SinceMatches(front, key, kind, duration);
      var events := EventsOf(front, kind, duration);
      var part := if last.Tick? then [FlushAll] else EventOf(last.datum, kind, duration);
      FlattenSnoc(PartsOf(front, kind, duration), part);
      assert EventsOf(inputs, kind, duration) == events + part;
      SincePart(events, last, key, kind, duration);
    }
  }

  lemma SincePart(events: seq<Event>, x: Input, key: Key, kind: Kind, duration: int)
    requires duration > 0 && (x.Arrival? ==> x.datum.Acceptable(kind))
    ensures x.Tick? ==> Since(events + [FlushAll], key) == []
    ensures x.Arrival? ==>
              Since(events + EventOf(x.datum, kind, duration), key) ==
              Since(events, key) + if InWindow(x.datum, key, duration) then [x.datum.Contribution(kind)] else []
  {
    hide Datum.Contribution, Datum.Acceptable;
    if x.Tick? {
      assert (events + [FlushAll])[..|events|] == events;
    } else {
      var m := x.datum;
      if m.Complete() {
        var own := Key(m.series, Truncated(m.timestamp.value, duration));
        var e := Data(own, m.Contribution(kind));
        assert (events + [e])[..|events|] == events;
        assert InWindow(m, own, duration);
        if InWindow(m, key, duration) { OneWindow(m, key, own, duration); }
      } else {
        assert events + [] == events;
      }
    }
  }

  /** In every run, what is held for a series and window is the fold of the contributions of exactly the datums of that
      series whose time lies in that window, since the last tick; a tick flushes what is held, window by window. */
  lemma HeldByWindow(inputs: seq<Input>, key: Key, kind: Kind, duration: int)
    requires duration > 0 && AllAcceptable(inputs, kind)
    ensures var held := After(EventsOf(inputs, kind, duration)).held;
            && (key in held <==> Matching(inputs, key, kind, duration) != [])
            && (key in held ==> held[key] == Fold(Matching(inputs, key, kind, duration)))
  {
    hide After, Since, EventsOf, Matching;
    SinceMatches(inputs, key, kind, duration);
    HeldIsFold(EventsOf(inputs, kind, duration), key);
  }

  /** The loop's own result, window by window. */
  method AggregatingByWindow(agg: DurationAggregator, inputs: seq<Input>)
    returns (sents: seq<seq<Datum>>, ghost orders: seq<seq<Key>>)
    requires agg.Valid() && agg.held == map[] && Unaliased(inputs) && AllAcceptable(inputs, agg.kind)
    requires forall d <- DatumsOf(inputs) :: Untouched(d, agg.Repr)
    modifies agg.Repr, DatumsOf(inputs), DistributionsOf(inputs)
    ensures agg.Valid()
    ensures forall key ::
              var matching := old(Matching(inputs, key, agg.kind, agg.duration));
              (key in agg.held <==> matching != []) && (key in agg.held ==> agg.held[key] == Fold(matching))
  {
    hide Matching, Fold, After, EventsOf, AllKept, Delivers, AllAcceptable;
    forall key
      ensures var held := After(EventsOf(inputs, agg.kind, agg.duration)).held;
              var matching := Matching(inputs, key, agg.kind, agg.duration);
              (key in held <==> matching != []) && (key in held ==> held[key] == Fold(matching))
    {
      HeldByWindow(inputs, key, agg.kind, agg.duration);
    }
    sents, orders := Aggregating(agg, inputs);
  }

  lemma TickFlushes(inputs: seq<Input>, kind: Kind, duration: int)
    requires duration > 0 && AllAcceptable(inputs, kind)
    ensures AllAcceptable(inputs + [Tick], kind)
    ensures var p, q := After(EventsOf(inputs, kind, duration)), After(EventsOf(inputs + [Tick], kind, duration));
            q.held == map[] && q.flushed == p.flushed + [p.held]
  {
    var all := inputs + [Tick];
    assert all[..|inputs|] == inputs;
    assert forall x <- all :: x in inputs || x == Tick;
    assert DatumsOf(all) == DatumsOf(inputs);
    FlattenSnoc(PartsOf(inputs, kind, duration), [FlushAll]);
    AfterNext(EventsOf(inputs, kind, duration), FlushAll);
  }

  /** The aggregate does not depend on the order of arrival: count, sum, extremes and buckets are the same. */
  lemma ArrivalOrderIrrelevant(events: seq<Event>, others: seq<Event>, key: Key)
    requires multiset(Since(events, key)) == multiset(Since(others, key)) && Mergeable(Since(events, key))
    ensures key in After(events).held <==> key in After(others).held
    ensures key in After(events).held ==> After(events).held[key] == After(others).held[key]
  {
    hide After, Since;
    HeldIsFold(events, key);
    HeldIsFold(others, key);
    assert |multiset(Since(events, key))| == |multiset(Since(others, key))|;
    if Since(events, key) != [] {
      FoldPermuted(Since(events, key), Since(others, key));
    }
  }

  ghost function SomeKey(h: Held): (k: Key)
    requires h != map[]
    ensures k in h
  {
    var k :| k in h; k
  }

  ghost function HeldTotal(m: Measure, h: Held): real
    decreases |h|
  {
    if h == map[] then 0.0 else Total(m, h[SomeKey(h)]) + HeldTotal(m, h - {SomeKey(h)})
  }

  lemma {:induction false} HeldTotalRemove(m: Measure, h: Held, k: Key)
    requires k in h
    ensures HeldTotal(m, h) == Total(m, h[k]) + HeldTotal(m, h - {k})
    decreases |h|
  {
    hide Total;
    var p := SomeKey(h);
    if p != k {
      HeldTotalRemove(m, h - {p}, k);
      HeldTotalRemove(m, h - {k}, p);
      assert h - {p} - {k} == h - {k} - {p};
    }
  }

  /** Whether a contribution comes to a key that is held without having samples: it is left out. */
  ghost predicate LeftOut(h: Held, key: Key, c: Stats) {
    key in h && c.count <= 0.0
  }

  lemma HeldTotalReceived(m: Measure, h: Held, k: Key, c: Stats)
    ensures HeldTotal(m, Received(h, k, c)) == HeldTotal(m, h) + if LeftOut(h, k, c) then 0.0 else Total(m, c)
  {
    hide Total, HeldTotal, Plus;
    var r := Received(h, k, c);
    HeldTotalRemove(m, r, k);
    assert r - {k} == h - {k};
    if k in h {
      HeldTotalRemove(m, h, k);
      PlusTotal(m, h[k], c);
    } else {
      assert h - {k} == h;
    }
  }

  ghost function FlushedTotal(m: Measure, flushed: seq<Held>): real {
    if flushed == [] then 0.0 else FlushedTotal(m, flushed[..|flushed| - 1]) + HeldTotal(m, flushed[|flushed| - 1])
  }

  ghost function ReceivedTotal(m: Measure, events: seq<Event>): real {
    if events == [] then 0.0
    else
      ReceivedTotal(m, events[..|events| - 1]) +
      match events[|events| - 1]
      case Data(_, c) => Total(m, c)
      case FlushAll => 0.0
  }

  /** The contributions without samples that came to a key that was held. */
  ghost function LeftOutTotal(m: Measure, events: seq<Event>): real {
    if events == [] then 0.0
    else
      var front := events[..|events| - 1];
      LeftOutTotal(m, front) +
      match events[|events| - 1]
      case Data(key, c) => if LeftOut(After(front).held, key, c) then Total(m, c) else 0.0
      case FlushAll => 0.0
  }

  /** Over a whole run, what was received is what was flushed, what is still held, and what had no samples: for the
      sample count, the sum of values and the weight of every bucket. */
  lemma {:induction false} RunConserves(m: Measure, events: seq<Event>)
    ensures ReceivedTotal(m, events) ==
            FlushedTotal(m, After(events).flushed) + HeldTotal(m, After(events).held) + LeftOutTotal(m, events)
  {
    hide Received, LeftOut, HeldTotal, Total;
    NothingHeld(m);
    if events != [] {
      var p := After(events[..|events| - 1]);
      RunConserves(m, events[..|events| - 1]);
      match events[|events| - 1]
      case Data(key, c) =>
        HeldTotalReceived(m, p.held, key, c);
      case FlushAll =>
        assert (p.flushed + [p.held])[..|p.flushed|] == p.flushed;
    }
  }

  lemma NothingHeld(m: Measure)
    ensures HeldTotal(m, map[]) == 0.0
  {}

  /** Contributions that have samples, or nothing to add, are never left out. */
  lemma {:induction false} NothingLeftOut(m: Measure, events: seq<Event>)
    requires forall e <- events :: e.Data? ==> e.contribution.count > 0.0 || Total(m, e.contribution) == 0.0
    ensures LeftOutTotal(m, events) == 0.0
  {
    hide After, Total;
    if events != [] {
      var front, last := events[..|events| - 1], events[|events| - 1];
      assert last in events && forall e <- front :: e in events;
      NothingLeftOut(m, front);
    }
  }

  /** A restored distribution that stands for less than one sample has a sum but no count: once its key is held, merging
      leaves it out and its sum is lost. */
  lemma FractionLeftOut(key: Key, a: Stats, half: Stats)
    requires a.count > 0.0 && 0.0 < half.count < 1.0 && half.sum > 0.0
    ensures var events := [Data(key, a), Data(key, Floored(half))];
            HeldTotal(Value, After(events).held) == a.sum < ReceivedTotal(Value, events)
  {
    var c := Floored(half);
    var events := [Data(key, a), Data(key, c)];
    assert c.count == 0.0;
    assert events[..1] == [Data(key, a)] && events[..1][..0] == [];
    assert After(events[..1]).held == map[key := a];
    assert After(events).held == map[key := a];
    HeldTotalRemove(Value, map[key := a], key);
    var one: Held := map[key := a];
    assert one - {key} == map[];
    NothingHeld(Value);
    assert ReceivedTotal(Value, events[..1]) == a.sum;
  }
}
