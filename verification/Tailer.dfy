/** The log tailer: grouping of lines into events, and the offset that is saved once events are acknowledged.
    Every handled line is remembered with its position and its fate, and every flush of the buffer as a group. */
module Tailer {

  /** A position in the log: the sequence number counts truncations of the file. */
  datatype FileOffset = FileOffset(sequence: int, offset: int)

  const ORIGIN := FileOffset(0, 0)

  /** fileOffset.SetOffset: a smaller offset means that the file was truncated. */
  function Moved(fo: FileOffset, o: int): (moved: FileOffset)
    ensures moved.offset == o && AtOrBefore(fo, moved)
    ensures AtOrBefore(moved, fo) <==> o == fo.offset
    ensures moved.sequence == fo.sequence || (o < fo.offset && moved.sequence == fo.sequence + 1)
  {
    FileOffset(if o < fo.offset then fo.sequence + 1 else fo.sequence, o)
  }

  predicate AtOrBefore(a: FileOffset, b: FileOffset) {
    a.sequence < b.sequence || (a.sequence == b.sequence && a.offset <= b.offset)
  }

  datatype Config = Config(
    multiline: bool,
    isStart: string -> bool,
    maxEventSize: int,
    truncateSuffix: string,
    timestamp: string -> (int, string),
    shouldPublish: LogEvent -> bool)

  datatype LogEvent = LogEvent(msg: string, time: int, offset: FileOffset)

  /** What the tailer's select may receive; a bad line is one with a read or decoding error. */
  datatype Input = Line(text: string, offset: int) | BadLine | Tick | LinesClosed | Stop

  datatype Fate =
    | Kept                 // its text went into the buffer
    | Blank                // an empty line where an event would start
    | Overflow(of: nat)    // dropped after the event of that group was full

  datatype Handled = Handled(text: string, at: FileOffset, fate: Fate)

  /** One flush: the message, the position it carries and how many lines had been handled. */
  datatype Group = Group(msg: string, at: FileOffset, upto: nat)

  function EventOf(cfg: Config, msg: string, fo: FileOffset): (e: LogEvent)
    ensures (e.time, e.msg) == cfg.timestamp(msg) && e.offset == fo
  {
    var (time, modified) := cfg.timestamp(msg);
    LogEvent(modified, time, fo)
  }

  /** The event has the group's message, as the timestamp function leaves it, with the time found there and the group's
      position. */
  ghost predicate Carries(cfg: Config, e: LogEvent, g: Group) {
    (e.time, e.msg) == cfg.timestamp(g.msg) && e.offset == g.at
  }

  /** The filters let the group's event through. */
  ghost predicate Published(cfg: Config, g: Group) {
    exists e :: Carries(cfg, e, g) && cfg.shouldPublish(e)
  }

  lemma PublishedEvent(cfg: Config, g: Group)
    ensures Carries(cfg, EventOf(cfg, g.msg, g.at), g)
    ensures Published(cfg, g) <==> cfg.shouldPublish(EventOf(cfg, g.msg, g.at))
  {
    if e :| Carries(cfg, e, g) && cfg.shouldPublish(e) {
      assert e == EventOf(cfg, g.msg, g.at);
    }
  }

  ghost function PublishedBefore(cfg: Config, groups: seq<Group>, g: nat): nat
    requires g <= |groups|
  {
    if g == 0 then 0 else PublishedBefore(cfg, groups, g - 1) + if Published(cfg, groups[g - 1]) then 1 else 0
  }

  lemma {:induction false} PublishedPrefix(cfg: Config, groups: seq<Group>, last: Group, g: nat)
    requires g <= |groups|
    ensures PublishedBefore(cfg, groups + [last], g) == PublishedBefore(cfg, groups, g)
  {
    if g > 0 { PublishedPrefix(cfg, groups, last, g - 1); }
  }

  /** One event for every group that the filters let through, in the order of the groups, and none else. */
  ghost predicate Delivered(cfg: Config, events: seq<LogEvent>, groups: seq<Group>) {
    && |events| == PublishedBefore(cfg, groups, |groups|)
    && (forall e <- events :: cfg.shouldPublish(e))
    && forall g :: 0 <= g < |groups| && Published(cfg, groups[g]) ==> DeliveredAt(cfg, events, groups, g)
  }

  ghost predicate DeliveredAt(cfg: Config, events: seq<LogEvent>, groups: seq<Group>, g: nat)
    requires g < |groups|
  {
    var k := PublishedBefore(cfg, groups, g);
    k < |events| && Carries(cfg, events[k], groups[g])
  }

  /** The events of a run: one for every group that the filters let through. */
  ghost function Emitted(cfg: Config, groups: seq<Group>): seq<LogEvent> {
    if groups == [] then []
    else
      var rest, g := Emitted(cfg, groups[..|groups| - 1]), groups[|groups| - 1];
      if Published(cfg, g) then rest + [EventOf(cfg, g.msg, g.at)] else rest
  }

  lemma {:induction false} EmittedCount(cfg: Config, groups: seq<Group>)
    ensures |Emitted(cfg, groups)| == PublishedBefore(cfg, groups, |groups|)
  {
    if groups != [] {
      var front, last := groups[..|groups| - 1], groups[|groups| - 1];
      EmittedCount(cfg, front);
      assert groups == front + [last];
      PublishedPrefix(cfg, front, last, |front|);
    }
  }

  lemma {:induction false} EmittedDelivered(cfg: Config, groups: seq<Group>)
    ensures Delivered(cfg, Emitted(cfg, groups), groups)
  {
    EmittedCount(cfg, groups);
    if groups != [] {
      var front, last := groups[..|groups| - 1], groups[|groups| - 1];
      assert groups == front + [last];
      EmittedDelivered(cfg, front);
      EmittedCount(cfg, front);
      PublishedEvent(cfg, last);
      forall g | 0 <= g < |groups| && Published(cfg, groups[g])
        ensures DeliveredAt(cfg, Emitted(cfg, groups), groups, g)
      {
        PublishedPrefix(cfg, front, last, g);
        assert g < |front| ==> DeliveredAt(cfg, Emitted(cfg, front), front, g);
      }
    }
  }

  ghost function KeptTexts(lines: seq<Handled>): seq<string> {
    if lines == [] then []
    else
      var rest, l := KeptTexts(lines[..|lines| - 1]), lines[|lines| - 1];
      if l.fate.Kept? then rest + [l.text] else rest
  }

  ghost function JoinLines(texts: seq<string>): string {
    if texts == [] then ""
    else if |texts| == 1 then texts[0]
    else JoinLines(texts[..|texts| - 1]) + "\n" + texts[|texts| - 1]
  }

  /** How many lines had been handled at the last flush. */
  ghost function Cut(groups: seq<Group>): nat {
    if groups == [] then 0 else groups[|groups| - 1].upto
  }

  /** The join of the lines, cut off with the suffix where it is too long; a single line is never cut. */
  ghost function Truncated(cfg: Config, texts: seq<string>): string {
    var joined := JoinLines(texts);
    if |texts| > 1 && |cfg.truncateSuffix| <= cfg.maxEventSize < |joined|
    then joined[..cfg.maxEventSize - |cfg.truncateSuffix|] + cfg.truncateSuffix
    else joined
  }

  /** Lines that belong together: the later ones continue an event that is not full yet. */
  ghost predicate Together(cfg: Config, texts: seq<string>) {
    forall k :: 1 <= k < |texts| ==>
      cfg.multiline && !cfg.isStart(texts[k]) && |JoinLines(texts[..k])| < cfg.maxEventSize
  }

  ghost predicate MessageOf(cfg: Config, texts: seq<string>, msg: string) {
    texts != [] && msg != "" && Together(cfg, texts) && msg == Truncated(cfg, texts)
  }

  /** The position before the i-th handled line. */
  ghost function Before(handled: seq<Handled>, i: nat): FileOffset
    requires i <= |handled|
  {
    if i == 0 then ORIGIN else handled[i - 1].at
  }

  ghost predicate PositionOk(handled: seq<Handled>, i: nat)
    requires i < |handled|
  {
    handled[i].at == Moved(Before(handled, i), handled[i].at.offset)
  }

  ghost predicate Positioned(handled: seq<Handled>, fo: FileOffset) {
    && (forall i :: 0 <= i < |handled| ==> PositionOk(handled, i))
    && fo == Before(handled, |handled|)
  }

  /** The group holds the lines from the end of the group before it up to its own end. */
  ghost predicate GroupOk(cfg: Config, handled: seq<Handled>, groups: seq<Group>, g: nat)
    requires g < |groups|
  {
    var from := Cut(groups[..g]);
    && from < groups[g].upto <= |handled|
    && groups[g].at == handled[groups[g].upto - 1].at
    && MessageOf(cfg, KeptTexts(handled[from..groups[g].upto]), groups[g].msg)
  }

  ghost predicate FullMessage(cfg: Config, groups: seq<Group>, buf: string, g: nat) {
    g <= |groups| && cfg.maxEventSize <= if g < |groups| then |groups[g].msg| else |buf|
  }

  /** The line belongs to the group, or to the buffer when that is the group still to come. */
  ghost predicate Belongs(groups: seq<Group>, i: nat, g: nat) {
    g <= |groups| && Cut(groups[..g]) <= i && (g < |groups| ==> i < groups[g].upto)
  }

  /** Only empty lines are blank. Only a full message overflows: its overflow is the lines right after those it kept,
      and a line that starts an event is never part of it. */
  ghost predicate FateOk(cfg: Config, handled: seq<Handled>, groups: seq<Group>, buf: string, i: nat)
    requires i < |handled|
  {
    match handled[i].fate
    case Kept => true
    case Blank => handled[i].text == ""
    case Overflow(of) =>
      && cfg.multiline && !cfg.isStart(handled[i].text)
      && FullMessage(cfg, groups, buf, of) && (of == |groups| ==> buf != "")
      && i > 0 && (handled[i - 1].fate == Overflow(of) || (handled[i - 1].fate.Kept? && Belongs(groups, i - 1, of)))
  }

  ghost predicate FatesOk(cfg: Config, handled: seq<Handled>, groups: seq<Group>, buf: string) {
    forall i :: 0 <= i < |handled| ==> FateOk(cfg, handled, groups, buf, i)
  }

  /** The group that an ignored line would have belonged to. */
  ghost function Overflowed(groups: seq<Group>, buf: string): int {
    if buf != "" then |groups| else |groups| - 1
  }

  /** While lines are ignored the last one was, and otherwise the last line is in the buffer. */
  ghost predicate LastOk(handled: seq<Handled>, groups: seq<Group>, buf: string, ignore: bool) {
    ignore || buf != "" ==>
      handled != [] &&
      var last := handled[|handled| - 1].fate;
      if ignore then last.Overflow? && last.of == Overflowed(groups, buf) else last.Kept?
  }

  ghost predicate Inv(cfg: Config, handled: seq<Handled>, groups: seq<Group>, buf: string, fo: FileOffset,
                      ignore: bool) {
    && Positioned(handled, fo)
    && Cut(groups) <= |handled|
    && (forall g :: 0 <= g < |groups| ==> GroupOk(cfg, handled, groups, g))
    && (if buf == "" then KeptTexts(handled[Cut(groups)..]) == []
        else MessageOf(cfg, KeptTexts(handled[Cut(groups)..]), buf))
    && FatesOk(cfg, handled, groups, buf)
    && LastOk(handled, groups, buf, ignore)
  }

  /** The line after a group that the timer did not flush starts an event; `open` says that lines still come. */
  ghost predicate StartAfter(cfg: Config, handled: seq<Handled>, groups: seq<Group>, timed: set<nat>, open: bool) {
    forall g: nat :: cfg.multiline && g < |groups| && g !in timed && (open || groups[g].upto < |handled|) ==>
      groups[g].upto < |handled| && cfg.isStart(handled[groups[g].upto].text)
  }

  function Ticks(inputs: seq<Input>): nat {
    if inputs == [] then 0 else Ticks(inputs[..|inputs| - 1]) + if inputs[|inputs| - 1].Tick? then 1 else 0
  }

  function LineOf(x: Input): seq<(string, int)> {
    if x.Line? then [(x.text, x.offset)] else []
  }

  /** The good lines of an input, in order. */
  function LinesOf(inputs: seq<Input>): seq<(string, int)> {
    if inputs == [] then [] else LinesOf(inputs[..|inputs| - 1]) + LineOf(inputs[|inputs| - 1])
  }

  ghost predicate Handles(handled: seq<Handled>, lines: seq<(string, int)>) {
    |handled| == |lines| && forall i :: 0 <= i < |lines| ==> (handled[i].text, handled[i].at.offset) == lines[i]
  }

  /** The buffer began with the last of the first `begun` inputs, and that many ticks came since. */
  ghost predicate Waits(handled: seq<Handled>, groups: seq<Group>, seen: seq<Input>, begun: nat, ticks: int) {
    && begun <= |seen| && Ticks(seen) == Ticks(seen[..begun]) + ticks
    && Cut(groups) < |LinesOf(seen[..begun])| <= |handled|
    && |KeptTexts(handled[Cut(groups)..|LinesOf(seen[..begun])|])| == 1
  }

  ghost predicate Ends(x: Input) {
    x.LinesClosed? || x.Stop?
  }

  /** The tailer over everything its select receives, until it stops; `n` inputs are consumed. `timed` are the groups
      that the timer flushed, and `begun` says when the buffer began: by the fifth tick after that it is flushed. */
  method RunTail(cfg: Config, inputs: seq<Input>)
    returns (n: nat, events: seq<LogEvent>, buf: string, fo: FileOffset, ignore: bool,
             ghost handled: seq<Handled>, ghost groups: seq<Group>, ghost timed: set<nat>, ghost begun: nat)
    requires |cfg.truncateSuffix| <= cfg.maxEventSize
    ensures n <= |inputs| && Handles(handled, LinesOf(inputs[..n]))
    ensures events == Emitted(cfg, groups) && Delivered(cfg, events, groups)
    ensures Inv(cfg, handled, groups, buf, fo, ignore)
    ensures var closed := n > 0 && inputs[n - 1].LinesClosed?;
            StartAfter(cfg, handled, groups, timed, !closed) && (closed ==> buf == "")
    ensures 5 * |timed| <= Ticks(inputs[..n])
    ensures buf != "" ==> exists ticks :: ticks < 5 && Waits(handled, groups, inputs[..n], begun, ticks)
    ensures forall i :: 0 <= i < n - 1 ==> !Ends(inputs[i])
    ensures n < |inputs| ==> n > 0 && Ends(inputs[n - 1])
  {
    hide Inv, Moved, Handles, LinesOf, Ticks, StartAfter, Emitted, Waits, Delivered, Carries, Published;
    n, events, buf, fo, ignore, handled, groups, timed, begun := 0, [], "", ORIGIN, false, [], [], {}, 0;
    var cnt := 0;
    InvStart(cfg);
    StartAfterNothing(cfg);
    while n < |inputs|
      invariant n <= |inputs| && Handles(handled, LinesOf(inputs[..n]))
      invariant events == Emitted(cfg, groups)
      invariant Inv(cfg, handled, groups, buf, fo, ignore)
      invariant !cfg.multiline ==> buf == ""
      invariant StartAfter(cfg, handled, groups, timed, true)
      invariant 5 * |timed| + cnt <= Ticks(inputs[..n])
      invariant buf != "" ==> cnt < 5 && Waits(handled, groups, inputs[..n], begun, cnt)
      invariant forall i :: 0 <= i < n ==> !Ends(inputs[i])
    {
      var input := inputs[n];
      n := n + 1;
      TicksNext(inputs, n);
      if !input.Line? {
        HandlesSkip(handled, inputs, n);
        if buf != "" { WaitsNext(handled, handled, groups, inputs, n, begun, cnt); }
      }
      match input
      case LinesClosed =>
        ghost var was := groups;
        events, groups := PublishEvent(cfg, events, buf, fo, handled, groups, ignore);
        StartAfterClosed(cfg, handled, was, groups, timed);
        EmittedDelivered(cfg, groups);
        buf := "";
        return;
      case BadLine =>
        continue;
      case Line(text, offset) =>
        if !cfg.multiline {
          InvBegin(cfg, handled, groups, fo, ignore, text, offset);
          ghost var l := Handled(text, Moved(fo, offset), if text == "" then Blank else Kept);
          HandlesNext(handled, inputs, n, l);
          handled := handled + [l];
          fo, ignore := Moved(fo, offset), false;
          events, groups := PublishEvent(cfg, events, text, fo, handled, groups, ignore);
          StartAfterSingle(cfg, handled, groups, timed);
          buf, cnt := "", 0;
        } else if cfg.isStart(text) || (!ignore && buf == "") {
          ghost var was := groups;
          events, groups := PublishEvent(cfg, events, buf, fo, handled, groups, ignore);
          InvBegin(cfg, handled, groups, fo, ignore, text, offset);
          ghost var l := Handled(text, Moved(fo, offset), if text == "" then Blank else Kept);
          HandlesNext(handled, inputs, n, l);
          StartAfterLine(cfg, handled, was, groups, timed, l);
          if text != "" { WaitsBegin(cfg, handled, groups, fo, ignore, l, inputs[..n]); }
          handled := handled + [l];
          buf, fo, ignore, cnt := text, Moved(fo, offset), false, 0;
          begun := n;
        } else if ignore || |buf| >= cfg.maxEventSize {
          ghost var of := InvOverflow(cfg, handled, groups, buf, fo, ignore, text, offset);
          ghost var l := Handled(text, Moved(fo, offset), Overflow(of));
          HandlesNext(handled, inputs, n, l);
          if buf != "" { WaitsNext(handled, handled + [l], groups, inputs, n, begun, cnt); }
          StartAfterLine(cfg, handled, groups, groups, timed, l);
          handled := handled + [l];
          fo, ignore := Moved(fo, offset), true;
        } else {
          InvContinue(cfg, handled, groups, buf, fo, text, offset);
          ghost var l := Handled(text, Moved(fo, offset), Kept);
          HandlesNext(handled, inputs, n, l);
          WaitsNext(handled, handled + [l], groups, inputs, n, begun, cnt);
          StartAfterLine(cfg, handled, groups, groups, timed, l);
          handled := handled + [l];
          buf := buf + "\n" + text;
          if |buf| > cfg.maxEventSize {
            buf := buf[..cfg.maxEventSize - |cfg.truncateSuffix|];
            buf := buf + cfg.truncateSuffix;
          }
          fo := Moved(fo, offset);
        }
      case Tick =>
        if |buf| > 0 {
          cnt := cnt + 1;
        }
        if cnt >= 5 {
          ghost var was := groups;
          events, groups := PublishEvent(cfg, events, buf, fo, handled, groups, ignore);
          StartAfterTimer(cfg, handled, was, groups, timed);
          timed := timed + {|was|};
          buf, cnt := "", 0;
        }
      case Stop =>
        break;
    }
    EmittedDelivered(cfg, groups);
  }

  /** Nothing is published from an empty buffer, and nothing that the filters refuse. */
  method PublishEvent(cfg: Config, events: seq<LogEvent>, buf: string, fo: FileOffset,
                      ghost handled: seq<Handled>, ghost groups: seq<Group>, ghost ignore: bool)
    returns (events': seq<LogEvent>, ghost groups': seq<Group>)
    requires events == Emitted(cfg, groups) && Inv(cfg, handled, groups, buf, fo, ignore)
    ensures events' == Emitted(cfg, groups') && Inv(cfg, handled, groups', "", fo, ignore)
    ensures buf == "" ==> events' == events && groups' == groups
    ensures buf != "" ==>
              var g := Group(buf, fo, |handled|);
              && groups' == groups + [g]
              && (!Published(cfg, g) ==> events' == events)
              && (Published(cfg, g) ==>
                    exists e :: events' == events + [e] && Carries(cfg, e, g) && cfg.shouldPublish(e))
  {
    hide Inv;
    if |buf| == 0 {
      return events, groups;
    }
    var e := EventOf(cfg, buf, fo);
    ghost var g := Group(buf, fo, |handled|);
    InvFlush(cfg, handled, groups, buf, fo, ignore);
    groups' := groups + [g];
    assert groups'[..|groups|] == groups;
    PublishedEvent(cfg, g);
    events' := if cfg.shouldPublish(e) then events + [e] else events;
  }

  lemma HandlesSkip(handled: seq<Handled>, inputs: seq<Input>, n: nat)
    requires 0 < n <= |inputs| && !inputs[n - 1].Line? && Handles(handled, LinesOf(inputs[..n - 1]))
    ensures Handles(handled, LinesOf(inputs[..n]))
  {
    assert inputs[..n][..n - 1] == inputs[..n - 1];
  }

  lemma HandlesNext(handled: seq<Handled>, inputs: seq<Input>, n: nat, l: Handled)
    requires 0 < n <= |inputs| && inputs[n - 1].Line? && Handles(handled, LinesOf(inputs[..n - 1]))
    requires l.text == inputs[n - 1].text && l.at.offset == inputs[n - 1].offset
    ensures Handles(handled + [l], LinesOf(inputs[..n]))
  {
    assert inputs[..n][..n - 1] == inputs[..n - 1];
  }

  // ----- where groups end -----

  ghost predicate Flushed(was: seq<Group>, groups: seq<Group>, upto: nat) {
    groups == was || (groups != [] && groups[..|groups| - 1] == was && groups[|groups| - 1].upto == upto)
  }

  lemma StartAfterNothing(cfg: Config)
    ensures StartAfter(cfg, [], [], {}, true)
  {}

  lemma StartAfterSingle(cfg: Config, handled: seq<Handled>, groups: seq<Group>, timed: set<nat>)
    requires !cfg.multiline
    ensures StartAfter(cfg, handled, groups, timed, true)
  {}

  /** A group ends only before a line that starts an event. */
  lemma StartAfterLine(cfg: Config, handled: seq<Handled>, was: seq<Group>, groups: seq<Group>, timed: set<nat>,
                       l: Handled)
    requires StartAfter(cfg, handled, was, timed, true)
    requires Flushed(was, groups, |handled|) && (groups == was || cfg.isStart(l.text))
    ensures StartAfter(cfg, handled + [l], groups, timed, true)
  {
    forall g: nat | cfg.multiline && g < |groups| && g !in timed
      ensures groups[g].upto <= |handled| && cfg.isStart((handled + [l])[groups[g].upto].text)
    {
      assert g < |was| ==> groups[g] == was[g];
    }
  }

  lemma StartAfterTimer(cfg: Config, handled: seq<Handled>, was: seq<Group>, groups: seq<Group>, timed: set<nat>)
    requires StartAfter(cfg, handled, was, timed, true) && Flushed(was, groups, |handled|)
    ensures StartAfter(cfg, handled, groups, timed + {|was|}, true)
  {
    assert forall g :: 0 <= g < |was| ==> groups[g] == was[g];
  }

  lemma StartAfterClosed(cfg: Config, handled: seq<Handled>, was: seq<Group>, groups: seq<Group>, timed: set<nat>)
    requires StartAfter(cfg, handled, was, timed, true) && Flushed(was, groups, |handled|)
    ensures StartAfter(cfg, handled, groups, timed, false)
  {
    assert forall g :: 0 <= g < |was| ==> groups[g] == was[g];
  }

  // ----- how long a buffer waits -----

  lemma WaitsBegin(cfg: Config, handled: seq<Handled>, groups: seq<Group>, fo: FileOffset, ignore: bool, l: Handled,
                   seen: seq<Input>)
    requires Inv(cfg, handled, groups, "", fo, ignore) && l.fate.Kept? && Handles(handled + [l], LinesOf(seen))
    ensures Waits(handled + [l], groups, seen, |seen|, 0)
  {
    hide Inv, Ticks, LinesOf, Cut, KeptTexts;
    var cut := Cut(groups);
    NothingBuffered(cfg, handled, groups, fo, ignore);
    assert seen[..|seen|] == seen;
    assert (handled + [l])[cut..|handled| + 1] == handled[cut..] + [l];
    KeptSnoc(handled[cut..], l);
  }

  lemma NothingBuffered(cfg: Config, handled: seq<Handled>, groups: seq<Group>, fo: FileOffset, ignore: bool)
    requires Inv(cfg, handled, groups, "", fo, ignore)
    ensures Cut(groups) <= |handled| && KeptTexts(handled[Cut(groups)..]) == []
  {
    hide Positioned, GroupOk, FatesOk, LastOk, KeptTexts, Cut;
  }

  lemma WaitsNext(handled: seq<Handled>, more: seq<Handled>, groups: seq<Group>, inputs: seq<Input>, n: nat,
                  begun: nat, ticks: int)
    requires 0 < n <= |inputs| && handled <= more && Waits(handled, groups, inputs[..n - 1], begun, ticks)
    ensures Waits(more, groups, inputs[..n], begun, ticks + if inputs[n - 1].Tick? then 1 else 0)
  {
    hide LinesOf, Ticks, KeptTexts;
    TicksNext(inputs, n);
    assert inputs[..n][..begun] == inputs[..n - 1][..begun];
    var from, upto := Cut(groups), |LinesOf(inputs[..n][..begun])|;
    assert more[from..upto] == handled[from..upto];
  }

  lemma TicksNext(inputs: seq<Input>, n: nat)
    requires 0 < n <= |inputs|
    ensures Ticks(inputs[..n]) == Ticks(inputs[..n - 1]) + if inputs[n - 1].Tick? then 1 else 0
  {
    assert inputs[..n][..n - 1] == inputs[..n - 1];
  }

  lemma InvStart(cfg: Config)
    ensures Inv(cfg, [], [], "", ORIGIN, false)
    ensures Handles([], LinesOf([])) && Emitted(cfg, []) == []
  {}

  lemma KeptSnoc(lines: seq<Handled>, l: Handled)
    ensures KeptTexts(lines + [l]) == if l.fate.Kept? then KeptTexts(lines) + [l.text] else KeptTexts(lines)
  {
    assert (lines + [l])[..|lines|] == lines;
  }

  /** What adding a line does to the groups already flushed: nothing. */
  lemma GroupsUnmoved(cfg: Config, handled: seq<Handled>, groups: seq<Group>, l: Handled)
    requires forall g :: 0 <= g < |groups| ==> GroupOk(cfg, handled, groups, g)
    ensures forall g :: 0 <= g < |groups| ==> GroupOk(cfg, handled + [l], groups, g)
  {
    forall g | 0 <= g < |groups| ensures GroupOk(cfg, handled + [l], groups, g) {
      assert GroupOk(cfg, handled, groups, g);
      var from, upto := Cut(groups[..g]), groups[g].upto;
      assert (handled + [l])[from..upto] == handled[from..upto];
    }
  }

  lemma PositionedNext(handled: seq<Handled>, fo: FileOffset, text: string, offset: int, fate: Fate)
    requires Positioned(handled, fo)
    ensures Positioned(handled + [Handled(text, Moved(fo, offset), fate)], Moved(fo, offset))
  {
    hide Moved;
    var l := Handled(text, Moved(fo, offset), fate);
    var next := handled + [l];
    forall i | 0 <= i < |next| ensures PositionOk(next, i) {
      assert i < |handled| ==> PositionOk(handled, i);
      assert Before(next, i) == Before(handled, i);
    }
  }

  lemma InvFlush(cfg: Config, handled: seq<Handled>, groups: seq<Group>, buf: string, fo: FileOffset, ignore: bool)
    requires Inv(cfg, handled, groups, buf, fo, ignore) && buf != ""
    ensures Inv(cfg, handled, groups + [Group(buf, fo, |handled|)], "", fo, ignore)
  {
    hide MessageOf, Positioned, FatesOk;
    var g := Group(buf, fo, |handled|);
    var next := groups + [g];
    assert next[..|groups|] == groups;
    assert handled[Cut(groups)..|handled|] == handled[Cut(groups)..];
    assert KeptTexts(handled[Cut(groups)..]) != [] by { MessageNonEmpty(cfg, KeptTexts(handled[Cut(groups)..]), buf); }
    assert fo == handled[|handled| - 1].at by { PositionedLast(handled, fo); }
    forall i | 0 <= i < |groups| ensures GroupOk(cfg, handled, next, i) {
      assert GroupOk(cfg, handled, groups, i);
      assert next[..i] == groups[..i];
    }
    assert GroupOk(cfg, handled, next, |groups|);
    assert handled[Cut(next)..] == [];
    FatesFlushed(cfg, handled, groups, g);
  }

  lemma MessageNonEmpty(cfg: Config, texts: seq<string>, msg: string)
    requires MessageOf(cfg, texts, msg)
    ensures texts != []
  {}

  lemma PositionedLast(handled: seq<Handled>, fo: FileOffset)
    requires Positioned(handled, fo) && handled != []
    ensures fo == handled[|handled| - 1].at
  {}

  // ----- what the steps do to the fates -----

  lemma FatesSnoc(cfg: Config, handled: seq<Handled>, groups: seq<Group>, buf: string, l: Handled)
    requires FatesOk(cfg, handled, groups, buf)
    requires FateOk(cfg, handled + [l], groups, buf, |handled|)
    ensures FatesOk(cfg, handled + [l], groups, buf)
  {
    forall i | 0 <= i < |handled| ensures FateOk(cfg, handled + [l], groups, buf, i) {
      assert FateOk(cfg, handled, groups, buf, i);
    }
  }

  /** A buffer that is not full has no overflow yet, so its contents may change. */
  lemma FatesRebuffered(cfg: Config, handled: seq<Handled>, groups: seq<Group>, buf: string, next: string)
    requires FatesOk(cfg, handled, groups, buf) && (buf == "" || |buf| < cfg.maxEventSize)
    ensures FatesOk(cfg, handled, groups, next)
  {
    forall i | 0 <= i < |handled| ensures FateOk(cfg, handled, groups, next, i) {
      assert FateOk(cfg, handled, groups, buf, i);
    }
  }

  lemma FatesFlushed(cfg: Config, handled: seq<Handled>, groups: seq<Group>, g: Group)
    requires FatesOk(cfg, handled, groups, g.msg) && g.upto == |handled|
    ensures FatesOk(cfg, handled, groups + [g], "")
  {
    hide Cut;
    forall i | 0 <= i < |handled| ensures FateOk(cfg, handled, groups + [g], "", i) {
      assert FateOk(cfg, handled, groups, g.msg, i);
      if handled[i].fate.Overflow? {
        var of := handled[i].fate.of;
        assert (groups + [g])[..of] == groups[..of];
      }
    }
  }

  // ----- the three things that can happen to a line -----

  lemma InvBegin(cfg: Config, handled: seq<Handled>, groups: seq<Group>, fo: FileOffset, ignore: bool, text: string,
                 offset: int)
    requires Inv(cfg, handled, groups, "", fo, ignore)
    ensures var l := Handled(text, Moved(fo, offset), if text == "" then Blank else Kept);
            Inv(cfg, handled + [l], groups, text, Moved(fo, offset), false)
  {
    hide GroupOk, Positioned, Moved, FatesOk, KeptTexts, MessageOf, Cut;
    var l := Handled(text, Moved(fo, offset), if text == "" then Blank else Kept);
    var cut := Cut(groups);
    GroupsUnmoved(cfg, handled, groups, l);
    PositionedNext(handled, fo, text, offset, l.fate);
    assert (handled + [l])[cut..] == handled[cut..] + [l];
    KeptSnoc(handled[cut..], l);
    assert [] + [text] == [text];
    if text != "" { MessageOfOne(cfg, text); }
    FatesRebuffered(cfg, handled, groups, "", text);
    FatesSnoc(cfg, handled, groups, text, l);
  }

  lemma MessageOfOne(cfg: Config, text: string)
    requires text != ""
    ensures MessageOf(cfg, [text], text)
  {}

  lemma InvOverflow(cfg: Config, handled: seq<Handled>, groups: seq<Group>, buf: string, fo: FileOffset, ignore: bool,
                    text: string, offset: int)
    returns (of: nat)
    requires Inv(cfg, handled, groups, buf, fo, ignore) && cfg.multiline && !cfg.isStart(text)
    requires ignore || (buf != "" && |buf| >= cfg.maxEventSize)
    ensures Inv(cfg, handled + [Handled(text, Moved(fo, offset), Overflow(of))], groups, buf, Moved(fo, offset), true)
  {
    hide GroupOk, Positioned, Moved, FatesOk, KeptTexts;
    of := OverflowNext(cfg, handled, groups, buf, fo, ignore);
    var l := Handled(text, Moved(fo, offset), Overflow(of));
    var cut := Cut(groups);
    GroupsUnmoved(cfg, handled, groups, l);
    PositionedNext(handled, fo, text, offset, l.fate);
    assert (handled + [l])[cut..] == handled[cut..] + [l];
    KeptSnoc(handled[cut..], l);
    FatesSnoc(cfg, handled, groups, buf, l);
  }

  /** The message whose overflow comes next, and why the last line leads to it. */
  lemma OverflowNext(cfg: Config, handled: seq<Handled>, groups: seq<Group>, buf: string, fo: FileOffset, ignore: bool)
    returns (of: nat)
    requires Inv(cfg, handled, groups, buf, fo, ignore)
    requires ignore || (buf != "" && |buf| >= cfg.maxEventSize)
    ensures handled != [] && of == Overflowed(groups, buf) && FullMessage(cfg, groups, buf, of)
    ensures var last := handled[|handled| - 1].fate;
            last == Overflow(of) || (last.Kept? && Belongs(groups, |handled| - 1, of))
  {
    hide GroupOk, Positioned, Moved;
    var last := |handled| - 1;
    if ignore {
      assert FateOk(cfg, handled, groups, buf, last);
      of := handled[last].fate.of;
    } else {
      of := |groups|;
      assert groups[..of] == groups;
      MessageNonEmpty(cfg, KeptTexts(handled[Cut(groups)..]), buf);
    }
  }

  lemma InvContinue(cfg: Config, handled: seq<Handled>, groups: seq<Group>, buf: string, fo: FileOffset, text: string,
                    offset: int)
    requires Inv(cfg, handled, groups, buf, fo, false) && cfg.multiline && !cfg.isStart(text)
    requires buf != "" && |buf| < cfg.maxEventSize && |cfg.truncateSuffix| <= cfg.maxEventSize
    ensures var long := buf + "\n" + text;
            var next := if |long| > cfg.maxEventSize
                        then long[..cfg.maxEventSize - |cfg.truncateSuffix|] + cfg.truncateSuffix else long;
            Inv(cfg, handled + [Handled(text, Moved(fo, offset), Kept)], groups, next, Moved(fo, offset), false)
  {
    hide GroupOk, Positioned, Moved, FatesOk, MessageOf, KeptTexts, Cut;
    var l := Handled(text, Moved(fo, offset), Kept);
    var cut := Cut(groups);
    GroupsUnmoved(cfg, handled, groups, l);
    PositionedNext(handled, fo, text, offset, Kept);
    assert (handled + [l])[cut..] == handled[cut..] + [l];
    KeptSnoc(handled[cut..], l);
    var next := MessageNext(cfg, KeptTexts(handled[cut..]), buf, text);
    FatesRebuffered(cfg, handled, groups, buf, next);
    FatesSnoc(cfg, handled, groups, next, l);
  }

  /** One more line for a message that is not full. */
  lemma MessageNext(cfg: Config, texts: seq<string>, buf: string, text: string) returns (next: string)
    requires MessageOf(cfg, texts, buf) && cfg.multiline && !cfg.isStart(text)
    requires |buf| < cfg.maxEventSize && |cfg.truncateSuffix| <= cfg.maxEventSize
    ensures var long := buf + "\n" + text;
            next == if |long| > cfg.maxEventSize
                    then long[..cfg.maxEventSize - |cfg.truncateSuffix|] + cfg.truncateSuffix else long
    ensures next != "" && MessageOf(cfg, texts + [text], next)
  {
    var all, long := texts + [text], buf + "\n" + text;
    assert all[..|texts|] == texts;
    assert buf == JoinLines(texts);
    assert long == JoinLines(all);
    next := Truncated(cfg, all);
    assert Together(cfg, all) by {
      forall k | 1 <= k < |all|
        ensures cfg.multiline && !cfg.isStart(all[k]) && |JoinLines(all[..k])| < cfg.maxEventSize
      {
        assert all[..k] == texts[..k];
      }
    }
  }
}
