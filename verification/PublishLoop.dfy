/** The timing of uploads: how the flush interval shrinks when batches pile up. */
module PublishLoop {

  const MILLISECOND := 1000000
  const SECOND := 1000000000

  /** Durations are in nanoseconds; Milliseconds() drops the rest. */
  function Milliseconds(d: int): (r: int)
    ensures d >= 0 ==> r * 1000000 <= d < (r + 1) * 1000000
    ensures d <= 0 ==> (r - 1) * 1000000 < d <= r * 1000000
  {
    if d >= 0 then d / MILLISECOND else -((-d) / MILLISECOND)
  }

  /** Go's integer division truncates toward zero. */
  function Half(x: int): (r: int)
    ensures x >= 0 ==> x - 1 <= 2 * r <= x
    ensures x <= 0 ==> x <= 2 * r <= x + 1
  {
    if x >= 0 then x / 2 else -((-x) / 2)
  }

  function Least(x: int, y: int): int {
    if x < y then x else y
  }

  /** So much after that many intervals. */
  ghost predicate AfterIntervals(ms: int, intervals: int, interval: int, more: int) {
    ms == intervals * interval + more
  }

  /** The jitter is a random duration below the interval: the first push comes that much after a multiple of the
      interval. */
  method GetFirstPushMs(interval: int, jitter: int, nowMs: int) returns (nextMs: int, ghost intervals: int)
    requires interval >= MILLISECOND && 0 <= jitter < interval && nowMs >= 0
    ensures nowMs <= nextMs <= nowMs + Milliseconds(interval)
    ensures AfterIntervals(nextMs, intervals, Milliseconds(interval), Milliseconds(jitter))
  {
    intervals := nowMs / Milliseconds(interval);
    Divided(nowMs, Milliseconds(interval));
    nextMs := nowMs - nowMs % Milliseconds(interval) + Milliseconds(jitter);
    if nextMs < nowMs {
      nextMs, intervals := nextMs + Milliseconds(interval), intervals + 1;
    }
  }

  lemma Divided(x: nat, n: int)
    requires n > 0
    ensures x - x % n == (x / n) * n && (x / n + 1) * n == (x / n) * n + n
  {}

  /** One round of the loop: the clock, and whether the batch buffer is full. */
  datatype Round = Round(nowMs: int, full: bool)

  /** The time before a round. */
  ghost function Clock(start: int, rounds: seq<Round>, i: nat): int
    requires i <= |rounds|
  {
    if i == 0 then start else rounds[i - 1].nowMs
  }

  ghost predicate ClockAdvances(start: int, rounds: seq<Round>) {
    forall i :: 0 <= i < |rounds| ==> Clock(start, rounds, i) <= rounds[i].nowMs
  }

  /** What holds after every round. */
  ghost predicate Paced(flush: int, interval: int, nextMs: int, nowMs: int) {
    && Least(SECOND, flush) <= interval <= flush
    && nextMs - nowMs <= Milliseconds(flush)
  }

  /** An interval above one second is halved, but not below one second; others stay. */
  ghost predicate Cut(interval: int, shorter: int) {
    if interval <= 1000000000 then shorter == interval
    else
      || (shorter >= 1000000000 && interval - 1 <= 2 * shorter <= interval)
      || (shorter == 1000000000 && interval < 2 * shorter)
  }

  /** The interval is cut, but not below one second, and at most once between two pushes. */
  method OnFull(interval: int, nextMs: int, nowMs: int, ghost flush: int) returns (shorter: int, sooner: int)
    requires Paced(flush, interval, nextMs, nowMs) && flush >= MILLISECOND
    ensures Paced(flush, shorter, sooner, nowMs)
    ensures Cut(interval, shorter)
    ensures interval <= SECOND ==> sooner == nextMs
    ensures interval > SECOND ==> sooner == nowMs + Half(nextMs - nowMs)
  {
    shorter, sooner := interval, nextMs;
    if interval > SECOND {
      shorter := interval / 2;
      if shorter < SECOND {
        shorter := SECOND;
      }
      sooner := nowMs + Half(nextMs - nowMs);
    }
  }

  /** The interval is cut in the first full round after a push, is restored by a push when there was no full round since
      the push before, and otherwise stays. */
  ghost predicate IntervalStep(flush: int, prev: int, next: int, fullBefore: bool, full: bool, pushed: bool) {
    if fullBefore then next == prev
    else if full then Cut(prev, next)
    else next == if pushed then flush else prev
  }

  /** The first full round after a push cuts an interval above one second. */
  ghost predicate CutNow(interval: int, fullBefore: bool, full: bool) {
    full && !fullBefore && interval > 1000000000
  }

  /** When a push is due: a cut of the interval also halves the time until then. */
  ghost function DueAt(prev: int, now: int, cut: bool): int {
    if cut then now + Half(prev - now) else prev
  }

  /** A push that is due happens, no other does, and the next one is an interval after the time it was due. */
  ghost predicate PushStep(prev: int, next: int, interval: int, now: int, cut: bool, pushed: bool) {
    && (pushed <==> DueAt(prev, now, cut) <= now)
    && next == DueAt(prev, now, cut) + if pushed then Milliseconds(interval) else 0
  }

  /** A cut never puts a push off; a push that was due happens all the same, and one that was not happens only if it was
      one millisecond away. */
  lemma PushBounds(prev: int, next: int, interval: int, now: int, cut: bool, pushed: bool)
    requires PushStep(prev, next, interval, now, cut, pushed)
    ensures prev <= now ==> pushed
    ensures pushed && prev > now ==> cut && prev == now + 1
    ensures if pushed then Least(prev, now) <= next - Milliseconds(interval) <= now else now < next <= prev
  {}

  /** The body of the loop. */
  method OneRound(round: Round, currentInterval: int, currentNextMs: int, fullBefore: bool, flush: int,
                  ghost before: int)
    returns (interval: int, nextMs: int, bufferFullOccurred: bool, shouldPublish: bool)
    requires flush >= MILLISECOND && Paced(flush, currentInterval, currentNextMs, before) && before <= round.nowMs
    ensures Paced(flush, interval, nextMs, round.nowMs)
    ensures IntervalStep(flush, currentInterval, interval, fullBefore, round.full, shouldPublish)
    ensures PushStep(currentNextMs, nextMs, interval, round.nowMs, CutNow(currentInterval, fullBefore, round.full),
              shouldPublish)
    ensures bufferFullOccurred == (!shouldPublish && (round.full || fullBefore))
  {
    interval, nextMs, bufferFullOccurred, shouldPublish := currentInterval, currentNextMs, fullBefore, false;
    if round.full && !bufferFullOccurred {
      bufferFullOccurred := true;
      interval, nextMs := OnFull(interval, nextMs, round.nowMs, flush);
    }
    if round.nowMs >= nextMs {
      shouldPublish := true;
      if !bufferFullOccurred {
        interval := flush;
      }
      nextMs := nextMs + Milliseconds(interval);
    }
    if shouldPublish {
      bufferFullOccurred := false;
    }
  }

  /** What the loop did: the first push it planned, the interval and the next push after every round, and which rounds
      pushed. */
  datatype Trace = Trace(first: int, intervals: seq<int>, nexts: seq<int>, pushed: seq<bool>)

  ghost predicate Sized(t: Trace, n: nat) {
    |t.intervals| == |t.nexts| == |t.pushed| == n
  }

  /** Whether the buffer was full in a round since the last push. */
  ghost predicate FullSincePush(rounds: seq<Round>, pushed: seq<bool>)
    requires |pushed| <= |rounds|
  {
    var n := |pushed| - 1;
    n >= 0 && !pushed[n] && (rounds[n].full || FullSincePush(rounds, pushed[..n]))
  }

  ghost function IntervalBefore(flush: int, t: Trace, i: nat): int
    requires i <= |t.intervals|
  {
    if i == 0 then flush else t.intervals[i - 1]
  }

  ghost function NextBefore(t: Trace, i: nat): int
    requires i <= |t.nexts|
  {
    if i == 0 then t.first else t.nexts[i - 1]
  }

  ghost predicate RoundOk(flush: int, rounds: seq<Round>, t: Trace, i: nat)
    requires Sized(t, |t.pushed|) && i < |t.pushed| <= |rounds|
  {
    var prev, fullBefore := IntervalBefore(flush, t, i), FullSincePush(rounds, t.pushed[..i]);
    && Paced(flush, t.intervals[i], t.nexts[i], rounds[i].nowMs)
    && IntervalStep(flush, prev, t.intervals[i], fullBefore, rounds[i].full, t.pushed[i])
    && PushStep(NextBefore(t, i), t.nexts[i], t.intervals[i], rounds[i].nowMs,
         CutNow(prev, fullBefore, rounds[i].full), t.pushed[i])
  }

  function Extended(t: Trace, interval: int, nextMs: int, pushed: bool): Trace {
    Trace(t.first, t.intervals + [interval], t.nexts + [nextMs], t.pushed + [pushed])
  }

  /** A further round does not change what holds of the ones before. */
  lemma RoundsKept(flush: int, rounds: seq<Round>, t: Trace, interval: int, nextMs: int, pushed: bool)
    requires Sized(t, |t.pushed|) && |t.pushed| < |rounds|
    requires forall i :: 0 <= i < |t.pushed| ==> RoundOk(flush, rounds, t, i)
    ensures var u := Extended(t, interval, nextMs, pushed);
            && Sized(u, |u.pushed|) && u.pushed[..|t.pushed|] == t.pushed
            && forall i :: 0 <= i < |t.pushed| ==> RoundOk(flush, rounds, u, i)
  {
    var u := Extended(t, interval, nextMs, pushed);
    forall i | 0 <= i < |t.pushed| ensures RoundOk(flush, rounds, u, i) {
      assert RoundOk(flush, rounds, t, i);
      assert u.pushed[..i] == t.pushed[..i];
    }
  }

  /** The publish loop. */
  method Publish(flush: int, jitter: int, startMs: int, rounds: seq<Round>) returns (t: Trace)
    requires flush >= MILLISECOND && 0 <= jitter < flush && startMs >= 0 && ClockAdvances(startMs, rounds)
    ensures Sized(t, |rounds|) && startMs <= t.first <= startMs + Milliseconds(flush)
    ensures forall i :: 0 <= i < |rounds| ==> RoundOk(flush, rounds, t, i)
  {
    hide RoundOk, FullSincePush, IntervalStep, PushStep, CutNow, AfterIntervals, Paced, Milliseconds;
    var interval := flush;
    var nextMs, intervals := GetFirstPushMs(interval, jitter, startMs);
    var bufferFullOccurred := false;
    t := Trace(nextMs, [], [], []);
    NoneFull(rounds);
    PacedFirst(flush, nextMs, startMs);
    for i := 0 to |rounds|
      invariant Paced(flush, interval, nextMs, Clock(startMs, rounds, i))
      invariant startMs <= t.first <= startMs + Milliseconds(flush)
      invariant Sized(t, i) && forall j :: 0 <= j < i ==> RoundOk(flush, rounds, t, j)
      invariant interval == IntervalBefore(flush, t, i) && nextMs == NextBefore(t, i)
      invariant bufferFullOccurred == FullSincePush(rounds, t.pushed)
    {
      ghost var prev, prevNext := interval, nextMs;
      var shouldPublish;
      interval, nextMs, bufferFullOccurred, shouldPublish :=
        OneRound(rounds[i], interval, nextMs, bufferFullOccurred, flush, Clock(startMs, rounds, i));
      RoundsKept(flush, rounds, t, interval, nextMs, shouldPublish);
      t := Extended(t, interval, nextMs, shouldPublish);
      assert RoundOk(flush, rounds, t, i) by { RoundDone(flush, rounds, t, i, prev, prevNext); }
      FullNext(rounds, t.pushed);
    }
  }

  lemma PacedFirst(flush: int, nextMs: int, startMs: int)
    requires nextMs <= startMs + Milliseconds(flush)
    ensures Paced(flush, flush, nextMs, startMs)
  {}

  lemma NoneFull(rounds: seq<Round>)
    ensures !FullSincePush(rounds, [])
  {}

  lemma FullNext(rounds: seq<Round>, pushed: seq<bool>)
    requires 0 < |pushed| <= |rounds|
    ensures var n := |pushed| - 1;
            FullSincePush(rounds, pushed) == (!pushed[n] && (rounds[n].full || FullSincePush(rounds, pushed[..n])))
  {}

  lemma RoundDone(flush: int, rounds: seq<Round>, t: Trace, i: nat, prev: int, prevNext: int)
    requires Sized(t, |t.pushed|) && i < |t.pushed| <= |rounds|
    requires Paced(flush, t.intervals[i], t.nexts[i], rounds[i].nowMs)
    requires prev == IntervalBefore(flush, t, i)
    requires IntervalStep(flush, prev, t.intervals[i], FullSincePush(rounds, t.pushed[..i]), rounds[i].full,
               t.pushed[i])
    requires prevNext == NextBefore(t, i)
    requires PushStep(prevNext, t.nexts[i], t.intervals[i], rounds[i].nowMs,
               CutNow(prev, FullSincePush(rounds, t.pushed[..i]), rounds[i].full), t.pushed[i])
    ensures RoundOk(flush, rounds, t, i)
  {}

  /** With a buffer that is never full the interval is never cut. */
  lemma {:induction false} NeverFull(flush: int, rounds: seq<Round>, t: Trace, i: nat)
    requires Sized(t, |rounds|) && forall j :: 0 <= j < |rounds| ==> RoundOk(flush, rounds, t, j) && !rounds[j].full
    requires i < |rounds|
    ensures t.intervals[i] == flush
  {
    if i > 0 { NeverFull(flush, rounds, t, i - 1); }
    CalmPrefix(rounds, t.pushed[..i]);
    assert RoundOk(flush, rounds, t, i);
  }

  lemma {:induction false} CalmPrefix(rounds: seq<Round>, pushed: seq<bool>)
    requires |pushed| <= |rounds| && forall j :: 0 <= j < |pushed| ==> !rounds[j].full
    ensures !FullSincePush(rounds, pushed)
  {
    if pushed != [] { CalmPrefix(rounds, pushed[..|pushed| - 1]); }
  }
}
