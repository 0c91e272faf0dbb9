/** Prometheus counters as deltas: the calculator over a map whose entries expire. */
module Deltas {
  import opened Common

  /** One minute and five minutes, in milliseconds. */
  const CLEAN_UP_THRESHOLD := 60000
  const CACHE_TTL := 300000

  datatype Stored<T> = Stored(creation: int, content: T)

  /** What a clean-up leaves. */
  function Unexpired<T>(entries: map<string, Stored<T>>, ttl: int, now: int): map<string, Stored<T>> {
    map k | k in entries && now - entries[k].creation < ttl :: entries[k]
  }

  class MapWithExpiry<T> {
    const ttl: int
    var entries: map<string, Stored<T>>

    constructor (ttl: int)
      ensures entries == map[] && this.ttl == ttl
    {
      this.ttl, entries := ttl, map[];
    }

    method CleanUp(now: int)
      modifies this
      ensures entries == Unexpired(old(entries), ttl, now)
    {
      var todo := entries.Keys;
      while todo != {}
        invariant todo <= entries.Keys <= old(entries).Keys
        invariant forall k <- entries :: entries[k] == old(entries)[k]
        invariant forall k <- old(entries) :: k !in todo ==> (k in entries <==> now - old(entries)[k].creation < ttl)
        decreases |todo|
      {
        var k :| k in todo;
        if now - entries[k].creation >= ttl {
          entries := entries - {k};
        }
        todo := todo - {k};
      }
    }

    method Get(key: string) returns (r: Option<T>)
      ensures r == if key in entries then Some(entries[key].content) else None
    {
      r := if key in entries then Some(entries[key].content) else None;
    }

    method Set(key: string, content: T, now: int)
      modifies this
      ensures entries == old(entries)[key := Stored(now, content)]
    {
      entries := entries[key := Stored(now, content)];
    }

    method Delete(key: string)
      modifies this
      ensures entries == old(entries) - {key}
    {
      entries := entries - {key};
    }
  }

  datatype Point = Point(value: real, time: int)

  /** A scraped value of a series (none for NaN or infinity) with its timestamp; `cleaned` and `stored` are what the
      clock shows when the cache is cleaned and when the value is stored. */
  datatype Sample = Sample(key: string, value: Option<real>, time: int, cleaned: int, stored: int)

  /** The state of the calculator. */
  datatype Calc = Calc(points: map<string, Stored<Point>>, lastCleanUp: int)

  function Delta(prev: Point, value: real, time: int): real {
    if time > prev.time && value >= prev.value then value - prev.value else value
  }

  function Next(c: Calc, s: Sample): (Calc, Option<real>) {
    if s.value.None? then (c.(points := c.points - {s.key}), None)
    else
      var v := s.value.value;
      var emitted := if s.key in c.points then Some(Delta(c.points[s.key].content, v, s.time)) else None;
      var due := s.time - c.lastCleanUp >= CLEAN_UP_THRESHOLD;
      var kept := if due then Unexpired(c.points, CACHE_TTL, s.cleaned) else c.points;
      (Calc(kept[s.key := Stored(s.stored, Point(v, s.time))], if due then s.time else c.lastCleanUp), emitted)
  }

  class DeltaCalculator {
    const preDataPoints: MapWithExpiry<Point>
    var lastCleanUpTimeInMs: int

    constructor ()
      ensures View() == Calc(map[], 0) && fresh(preDataPoints) && Valid()
    {
      preDataPoints := new MapWithExpiry(CACHE_TTL);
      lastCleanUpTimeInMs := 0;
    }

    ghost predicate Valid() {
      preDataPoints.ttl == CACHE_TTL
    }

    ghost function View(): Calc
      reads this, preDataPoints
    {
      Calc(preDataPoints.entries, lastCleanUpTimeInMs)
    }

    method Calculate(s: Sample) returns (res: Option<real>)
      requires Valid()
      modifies this, preDataPoints
      ensures (View(), res) == Next(old(View()), s)
    {
      if s.value.None? {
        preDataPoints.Delete(s.key);
        return None;
      }
      var cur := s.value.value;
      res := None;
      var pre := preDataPoints.Get(s.key);
      if pre.Some? {
        var metricValue := cur;
        if s.time > pre.value.time {
          if cur >= pre.value.value {
            metricValue := cur - pre.value.value;
          } else {
            metricValue := cur;
          }
        }
        res := Some(metricValue);
      }
      if s.time - lastCleanUpTimeInMs >= CLEAN_UP_THRESHOLD {
        preDataPoints.CleanUp(s.cleaned);
        lastCleanUpTimeInMs := s.time;
      }
      preDataPoints.Set(s.key, Point(cur, s.time), s.stored);
    }
  }

  // ----- whole runs -----

  /** Where the last of the first m samples that is of the series stands. */
  ghost function LastBefore(samples: seq<Sample>, key: string, m: nat): (r: Option<nat>)
    requires m <= |samples|
    ensures r.None? ==> forall j :: 0 <= j < m ==> samples[j].key != key
    ensures r.Some? ==> r.value < m && samples[r.value].key == key
    ensures r.Some? ==> forall j :: r.value < j < m ==> samples[j].key != key
  {
    if m == 0 then None
    else if samples[m - 1].key == key then Some(m - 1)
    else LastBefore(samples, key, m - 1)
  }

  /** The timestamp of the last of the first m samples that led to a clean-up: a valid one, a minute or more after the
      one before it. */
  ghost function LastCleanUp(samples: seq<Sample>, m: nat): int
    requires m <= |samples|
    decreases m, 0
  {
    if m == 0 then 0
    else if CleansUp(samples, m - 1) then samples[m - 1].time
    else LastCleanUp(samples, m - 1)
  }

  ghost predicate CleansUp(samples: seq<Sample>, j: nat)
    requires j < |samples|
    decreases j, 1
  {
    samples[j].value.Some? && samples[j].time - LastCleanUp(samples, j) >= 60000
  }

  /** The last sample of the series is valid, and it was less than five minutes old at every clean-up since. */
  ghost predicate Stays(samples: seq<Sample>, key: string, m: nat)
    requires m <= |samples|
  {
    var last := LastBefore(samples, key, m);
    && last.Some? && samples[last.value].value.Some?
    && forall j :: last.value < j < m && CleansUp(samples, j) ==>
         samples[j].cleaned - samples[last.value].stored < 300000
  }

  /** What the calculator remembers after m samples: the last sample of each series that stays. */
  ghost predicate Remembers(c: Calc, samples: seq<Sample>, m: nat)
    requires m <= |samples|
  {
    && c.lastCleanUp == LastCleanUp(samples, m)
    && (forall key :: key in c.points <==> Stays(samples, key, m))
    && forall key <- c.points :: IsSample(c.points[key], samples[LastBefore(samples, key, m).value])
  }

  ghost predicate IsSample(p: Stored<Point>, s: Sample) {
    s.value == Some(p.content.value) && p.content.time == s.time && p.creation == s.stored
  }

  /** What a sample emits: nothing if it is invalid or its series is not remembered, and otherwise the growth since the
      last sample, or the value itself if the series did not grow or time did not advance. */
  ghost predicate EmitsAt(samples: seq<Sample>, i: nat, out: Option<real>)
    requires i < |samples|
  {
    var s := samples[i];
    && (out.Some? <==> s.value.Some? && Stays(samples, s.key, i))
    && (out.Some? ==>
          var prev := samples[LastBefore(samples, s.key, i).value];
          if s.time <= prev.time || s.value.value < prev.value.value then out == s.value
          else out.value + prev.value.value == s.value.value)
  }

  ghost predicate Emits(samples: seq<Sample>, outputs: seq<Option<real>>) {
    |outputs| == |samples| && forall i :: 0 <= i < |samples| ==> EmitsAt(samples, i, outputs[i])
  }

  /** The calculator over any sequence of samples: what it remembers and what it emits. */
  method CalculateAll(samples: seq<Sample>) returns (outputs: seq<Option<real>>, calculator: DeltaCalculator)
    ensures calculator.Valid() && Remembers(calculator.View(), samples, |samples|)
    ensures Emits(samples, outputs)
  {
    hide Remembers, EmitsAt, Next;
    calculator := new DeltaCalculator();
    outputs := [];
    RemembersNothing(samples);
    for i := 0 to |samples|
      invariant calculator.Valid() && fresh(calculator) && fresh(calculator.preDataPoints)
      invariant Remembers(calculator.View(), samples, i)
      invariant |outputs| == i && forall j :: 0 <= j < i ==> EmitsAt(samples, j, outputs[j])
    {
      RemembersNext(calculator.View(), samples, i);
      var out := calculator.Calculate(samples[i]);
      outputs := outputs + [out];
    }
  }

  lemma RemembersNothing(samples: seq<Sample>)
    ensures Remembers(Calc(map[], 0), samples, 0)
  {}

  /** One sample: it is emitted as it should be, and every series stays remembered as it should be. */
  lemma RemembersNext(c: Calc, samples: seq<Sample>, i: nat)
    requires i < |samples| && Remembers(c, samples, i)
    ensures EmitsAt(samples, i, Next(c, samples[i]).1)
    ensures Remembers(Next(c, samples[i]).0, samples, i + 1)
  {
    var next := Next(c, samples[i]).0;
    assert CleansUp(samples, i) <==> samples[i].value.Some? && samples[i].time - c.lastCleanUp >= CLEAN_UP_THRESHOLD;
    forall key
      ensures key in next.points <==> Stays(samples, key, i + 1)
      ensures key in next.points ==> IsSample(next.points[key], samples[LastBefore(samples, key, i + 1).value])
    {
      StaysNext(samples, key, i);
    }
  }

  lemma StaysNext(samples: seq<Sample>, key: string, i: nat)
    requires i < |samples|
    ensures samples[i].key == key ==> (Stays(samples, key, i + 1) <==> samples[i].value.Some?)
    ensures samples[i].key != key ==>
              (Stays(samples, key, i + 1) <==>
               Stays(samples, key, i) &&
               (CleansUp(samples, i) ==>
                  samples[i].cleaned - samples[LastBefore(samples, key, i).value].stored < CACHE_TTL))
  {
    hide CleansUp;
  }

  /** No sample of the series, or an invalid one, came last. */
  ghost predicate StartsOver(samples: seq<Sample>, key: string, n: nat)
    requires n <= |samples|
  {
    var last := LastBefore(samples, key, n);
    last.None? || samples[last.value].value.None?
  }

  /** An invalid sample resets its series: whatever other series do, the next sample of the series emits nothing. */
  lemma NothingAfterInvalid(samples: seq<Sample>, outputs: seq<Option<real>>, n: nat, i: nat)
    requires Emits(samples, outputs) && n <= i < |samples| && StartsOver(samples, samples[i].key, n)
    requires forall j :: n <= j < i ==> samples[j].key != samples[i].key
    ensures outputs[i] == None
  {
    assert EmitsAt(samples, i, outputs[i]);
    SameLast(samples, samples[i].key, n, i);
  }

  lemma {:induction false} SameLast(samples: seq<Sample>, key: string, n: nat, m: nat)
    requires n <= m <= |samples| && forall j :: n <= j < m ==> samples[j].key != key
    ensures LastBefore(samples, key, m) == LastBefore(samples, key, n)
  {
    if m > n { SameLast(samples, key, n, m - 1); }
  }

  /** From the n-th sample to the m-th the series has valid values and increasing timestamps, and whenever another
      series makes the calculator clean up, the series was stored less than the time to live ago. */
  ghost predicate Steady(samples: seq<Sample>, key: string, n: nat, m: nat)
    requires m <= |samples|
  {
    forall j :: n <= j < m ==> SteadyAt(samples, key, n, j)
  }

  ghost predicate SteadyAt(samples: seq<Sample>, key: string, n: nat, j: nat)
    requires j < |samples|
  {
    var prev := LastBefore(samples, key, j);
    if samples[j].key == key
    then samples[j].value.Some? && (prev.Some? && prev.value >= n ==> samples[j].time > samples[prev.value].time)
    else prev.Some? && prev.value >= n && CleansUp(samples, j) ==>
           samples[j].cleaned - samples[prev.value].stored < 300000
  }

  /** The sum of what is emitted for the series. */
  ghost function EmittedSum(samples: seq<Sample>, outputs: seq<Option<real>>, key: string, n: nat, m: nat): real
    requires m <= |samples| == |outputs|
  {
    if m <= n then 0.0
    else
      EmittedSum(samples, outputs, key, n, m - 1) +
      if samples[m - 1].key == key && outputs[m - 1].Some? then outputs[m - 1].value else 0.0
  }

  /** The sum of the values seen just before the counter of the series was reset. */
  ghost function ResetSum(samples: seq<Sample>, key: string, n: nat, m: nat): real
    requires m <= |samples|
  {
    if m <= n then 0.0
    else
      var last, prev := samples[m - 1], LastBefore(samples, key, m - 1);
      ResetSum(samples, key, n, m - 1) +
      if last.key == key && prev.Some? && prev.value >= n && Falls(samples[prev.value], last)
      then samples[prev.value].value.value
      else 0.0
  }

  ghost predicate Falls(prev: Sample, last: Sample) {
    prev.value.Some? && last.value.Some? && last.value.value < prev.value.value
  }

  /** Whatever other series do, the calculator remembers the last value of a steady one. */
  lemma {:induction false} Remembered(samples: seq<Sample>, key: string, n: nat, m: nat)
    requires n <= m <= |samples| && Steady(samples, key, n, m)
    requires LastBefore(samples, key, m).Some? && LastBefore(samples, key, m).value >= n
    ensures Stays(samples, key, m)
  {
    hide Stays, CleansUp;
    StaysNext(samples, key, m - 1);
    assert SteadyAt(samples, key, n, m - 1);
    if samples[m - 1].key != key {
      Remembered(samples, key, n, m - 1);
    }
  }

  /** The deltas of a steady stretch of a series, which starts after an invalid sample or where there was none, add up
      to its growth, plus what was lost at each reset. */
  lemma {:induction false} DeltasAddUp(samples: seq<Sample>, outputs: seq<Option<real>>, key: string, n: nat,
                                       first: nat,
                                       m: nat)
    requires Emits(samples, outputs) && n <= first < m <= |samples|
    requires StartsOver(samples, key, n) && Steady(samples, key, n, m)
    requires samples[first].key == key && forall j :: n <= j < first ==> samples[j].key != key
    ensures samples[first].value.Some?
    ensures var last := LastBefore(samples, key, m);
            && last.Some? && last.value >= first && samples[last.value].value.Some?
            && EmittedSum(samples, outputs, key, n, m) ==
               samples[last.value].value.value - samples[first].value.value + ResetSum(samples, key, n, m)
  {
    assert |outputs| == |samples|;
    hide Emits, Stays, CleansUp, StartsOver, Falls;
    assert SteadyAt(samples, key, n, m - 1);
    if first == m - 1 {
      NothingAfterInvalid(samples, outputs, n, first);
      NothingYet(samples, outputs, key, n, first);
    } else {
      DeltasAddUp(samples, outputs, key, n, first, m - 1);
      if samples[m - 1].key == key {
        Remembered(samples, key, n, m - 1);
        NextDelta(samples, outputs, key, m - 1);
      }
    }
  }

  lemma NextDelta(samples: seq<Sample>, outputs: seq<Option<real>>, key: string, i: nat)
    requires Emits(samples, outputs) && i < |samples| && samples[i].key == key && samples[i].value.Some?
    requires Stays(samples, key, i) && samples[i].time > samples[LastBefore(samples, key, i).value].time
    ensures var prev := samples[LastBefore(samples, key, i).value];
            outputs[i].Some? && outputs[i].value == samples[i].value.value - if Falls(prev, samples[i])
                then 0.0 else prev.value.value
  {
    assert EmitsAt(samples, i, outputs[i]);
  }

  lemma {:induction false} NothingYet(samples: seq<Sample>, outputs: seq<Option<real>>, key: string, n: nat, m: nat)
    requires n <= m <= |samples| == |outputs| && forall j :: n <= j < m ==> samples[j].key != key
    ensures EmittedSum(samples, outputs, key, n, m) == 0.0 && ResetSum(samples, key, n, m) == 0.0
  {
    if m > n {
      NothingYet(samples, outputs, key, n, m - 1);
    }
  }
}
