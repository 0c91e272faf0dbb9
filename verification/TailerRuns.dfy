/** What holds of every run of the tailer and of the offset saver beside it. */
module TailerRuns {
  import opened Tailer
  import opened Strings

  // ----- positions -----

  lemma AtOrBeforeTransitive(a: FileOffset, b: FileOffset, c: FileOffset)
    requires AtOrBefore(a, b) && AtOrBefore(b, c)
    ensures AtOrBefore(a, c)
  {}

  /** Later lines never get an earlier position, whatever the file does. */
  lemma {:induction false} PositionsOrdered(handled: seq<Handled>, fo: FileOffset, i: nat, j: nat)
    requires Positioned(handled, fo) && i <= j < |handled|
    ensures AtOrBefore(handled[i].at, handled[j].at)
  {
    hide Moved;
    if i < j {
      PositionsOrdered(handled, fo, i, j - 1);
      assert PositionOk(handled, j);
      AtOrBeforeTransitive(handled[i].at, handled[j - 1].at, handled[j].at);
    }
  }

  /** No line right after the first n ends at the same offset as the last of them. The pieces into which the reader
      splits a long line do. */
  ghost predicate EndsApart(handled: seq<Handled>, n: nat) {
    0 < n < |handled| ==> handled[n].at.offset != handled[n - 1].at.offset
  }

  lemma PositionsStrict(handled: seq<Handled>, fo: FileOffset, n: nat, j: nat)
    requires Positioned(handled, fo) && 0 < n <= j < |handled| && EndsApart(handled, n)
    ensures !AtOrBefore(handled[j].at, handled[n - 1].at)
  {
    hide Moved;
    assert PositionOk(handled, n);
    PositionsOrdered(handled, fo, n, j);
    if AtOrBefore(handled[j].at, handled[n - 1].at) {
      AtOrBeforeTransitive(handled[n].at, handled[j].at, handled[n - 1].at);
    }
  }

  // ----- groups and events -----

  /** Every event is the message of one published group, and events are numbered in the order of the groups. */
  lemma {:induction false} EventIsGroup(cfg: Config, groups: seq<Group>, k: nat) returns (g: nat)
    requires k < |Emitted(cfg, groups)|
    ensures g < |groups| && Published(cfg, groups[g]) && PublishedBefore(cfg, groups, g) == k
    ensures Carries(cfg, Emitted(cfg, groups)[k], groups[g])
  {
    var front, last := groups[..|groups| - 1], groups[|groups| - 1];
    assert groups == front + [last];
    if k < |Emitted(cfg, front)| {
      g := EventIsGroup(cfg, front, k);
      PublishedPrefix(cfg, front, last, g);
    } else {
      g := |front|;
      EmittedCount(cfg, front);
      PublishedPrefix(cfg, front, last, g);
    }
  }

  lemma {:induction false} PublishedMonotone(cfg: Config, groups: seq<Group>, g: nat, h: nat)
    requires g <= h <= |groups|
    ensures PublishedBefore(cfg, groups, g) <= PublishedBefore(cfg, groups, h)
    ensures g < h && Published(cfg, groups[g]) ==> PublishedBefore(cfg, groups, g) < PublishedBefore(cfg, groups, h)
  {
    if g < h {
      PublishedMonotone(cfg, groups, g, h - 1);
    }
  }

  lemma GroupFacts(cfg: Config, handled: seq<Handled>, groups: seq<Group>, buf: string, fo: FileOffset, ignore: bool,
                   g: nat)
    requires Inv(cfg, handled, groups, buf, fo, ignore) && g < |groups|
    ensures Positioned(handled, fo)
    ensures 0 < groups[g].upto <= |handled| && groups[g].at == handled[groups[g].upto - 1].at
    ensures g > 0 ==> groups[g - 1].upto < groups[g].upto
  {
    hide MessageOf, FatesOk, Moved;
    assert GroupOk(cfg, handled, groups, g);
    assert g > 0 ==> groups[..g][g - 1] == groups[g - 1];
  }

  lemma {:induction false} GroupsOrdered(cfg: Config, handled: seq<Handled>, groups: seq<Group>, buf: string,
                                         fo: FileOffset, ignore: bool, g: nat, h: nat)
    requires Inv(cfg, handled, groups, buf, fo, ignore) && g <= h < |groups|
    ensures groups[g].upto <= groups[h].upto
    ensures AtOrBefore(groups[g].at, groups[h].at)
  {
    hide Inv, Positioned, AtOrBefore;
    GroupFacts(cfg, handled, groups, buf, fo, ignore, g);
    GroupFacts(cfg, handled, groups, buf, fo, ignore, h);
    if g < h {
      GroupsOrdered(cfg, handled, groups, buf, fo, ignore, g, h - 1);
    }
    PositionsOrdered(handled, fo, groups[g].upto - 1, groups[h].upto - 1);
  }

  /** In every run the events carry positions that never go back. */
  lemma EventsOrdered(cfg: Config, handled: seq<Handled>, groups: seq<Group>, buf: string, fo: FileOffset, ignore: bool,
                      i: nat, j: nat)
    requires Inv(cfg, handled, groups, buf, fo, ignore)
    requires i <= j < |Emitted(cfg, groups)|
    ensures AtOrBefore(Emitted(cfg, groups)[i].offset, Emitted(cfg, groups)[j].offset)
  {
    hide Inv;
    var g := EventIsGroup(cfg, groups, i);
    var h := EventIsGroup(cfg, groups, j);
    if h < g { PublishedMonotone(cfg, groups, h, g); }
    GroupsOrdered(cfg, handled, groups, buf, fo, ignore, g, h);
  }

  // ----- what an event's position covers -----

  /** The line right after an event is covered by the event's position exactly when it ends at the same offset. */
  lemma EventCoversNext(cfg: Config, handled: seq<Handled>, groups: seq<Group>, buf: string, fo: FileOffset,
                        ignore: bool, g: nat)
    requires Inv(cfg, handled, groups, buf, fo, ignore) && g < |groups| && groups[g].upto < |handled|
    ensures groups[g].upto > 0
    ensures var n := groups[g].upto;
            AtOrBefore(handled[n].at, groups[g].at) <==> handled[n].at.offset == handled[n - 1].at.offset
  {
    hide Inv, Moved;
    GroupFacts(cfg, handled, groups, buf, fo, ignore, g);
    var n := groups[g].upto;
    assert PositionOk(handled, n);
  }

  /** Unless the next line ends at the same offset, an event's position covers exactly the lines handled before it:
      never a buffered one. */
  lemma EventCovers(cfg: Config, handled: seq<Handled>, groups: seq<Group>, buf: string, fo: FileOffset, ignore: bool,
                    g: nat, i: nat)
    requires Inv(cfg, handled, groups, buf, fo, ignore) && g < |groups| && i < |handled|
    requires EndsApart(handled, groups[g].upto)
    ensures AtOrBefore(handled[i].at, groups[g].at) <==> i < groups[g].upto
    ensures AtOrBefore(handled[i].at, groups[g].at) ==> i < Cut(groups)
  {
    hide Inv, Positioned, AtOrBefore, EndsApart;
    GroupFacts(cfg, handled, groups, buf, fo, ignore, g);
    var n := groups[g].upto;
    if i < n {
      PositionsOrdered(handled, fo, i, n - 1);
    } else {
      PositionsStrict(handled, fo, n, i);
    }
    GroupsOrdered(cfg, handled, groups, buf, fo, ignore, g, |groups| - 1);
  }

  /** An event's position covers some later line if and only if the line right after it ends at the same offset. */
  lemma EventCoversLater(cfg: Config, handled: seq<Handled>, groups: seq<Group>, buf: string, fo: FileOffset,
                         ignore: bool, g: nat)
    requires Inv(cfg, handled, groups, buf, fo, ignore) && g < |groups|
    ensures (exists i :: groups[g].upto <= i < |handled| && AtOrBefore(handled[i].at, groups[g].at)) <==>
            !EndsApart(handled, groups[g].upto)
  {
    hide Inv, Positioned, AtOrBefore;
    GroupFacts(cfg, handled, groups, buf, fo, ignore, g);
    var n := groups[g].upto;
    if EndsApart(handled, n) {
      forall i | n <= i < |handled| ensures !AtOrBefore(handled[i].at, groups[g].at) {
        EventCovers(cfg, handled, groups, buf, fo, ignore, g, i);
      }
    } else {
      EventCoversNext(cfg, handled, groups, buf, fo, ignore, g);
      assert AtOrBefore(handled[n].at, groups[g].at);
    }
  }

  /** Two lines that end at the same offset, as the pieces of a split line do, given to the tailer: the event of the
      first covers the second, which is still in the buffer. */
  method RepeatedOffsetCovered(cfg: Config, text: string, o: int)
    returns (events: seq<LogEvent>, buf: string, ghost handled: seq<Handled>)
    requires cfg.multiline && cfg.isStart(text) && text != "" && |cfg.truncateSuffix| <= cfg.maxEventSize
    requires cfg.shouldPublish(EventOf(cfg, text, Moved(ORIGIN, o)))
    ensures events == [EventOf(cfg, text, Moved(ORIGIN, o))] && buf == text
    ensures |handled| == 2 && handled[1].text == text && AtOrBefore(handled[1].at, events[0].offset)
  {
    hide Inv, StartAfter, Waits, Moved;
    var inputs := [Line(text, o), Line(text, o)];
    var n, fo, ignore;
    ghost var groups, timed, begun;
    n, events, buf, fo, ignore, handled, groups, timed, begun := RunTail(cfg, inputs);
    assert n == 2 && inputs[..n] == inputs && inputs[..1][..0] == [];
    assert LinesOf(inputs[..1]) == [(text, o)] && LinesOf(inputs) == [(text, o), (text, o)];
    assert Ticks(inputs[..1]) == 0 && Ticks(inputs) == 0;
    assert timed == {};
    TwoStarts(cfg, handled, groups, buf, fo, ignore);
    assert groups[..1] == groups && groups[..0] == [];
  }

  /** Two lines that both start an event, when nothing but starting lines flushed the buffer. */
  lemma TwoStarts(cfg: Config, handled: seq<Handled>, groups: seq<Group>, buf: string, fo: FileOffset, ignore: bool)
    requires Inv(cfg, handled, groups, buf, fo, ignore) && StartAfter(cfg, handled, groups, {}, true)
    requires |handled| == 2 && handled[0].text == handled[1].text != "" && handled[0].at.offset == handled[1].at.offset
    requires cfg.multiline && cfg.isStart(handled[0].text)
    ensures var at := Moved(ORIGIN, handled[0].at.offset);
            groups == [Group(handled[0].text, at, 1)] && buf == handled[0].text && handled[1].at == at
  {
    hide Inv, Moved;
    var text := handled[0].text;
    LineFate(cfg, handled, groups, buf, fo, ignore, 0);
    LineFate(cfg, handled, groups, buf, fo, ignore, 1);
    assert handled[..1] == [handled[0]] && handled[1..] == [handled[1]] && handled[0..1][..0] == [] &&
             handled[1..][..0] == [];
    assert KeptTexts([handled[0]]) == [text] && KeptTexts([handled[1]]) == [text];
    if groups == [] {
      assert Belongs(groups, 1, 0);
      StartOpensEvent(cfg, handled, groups, buf, fo, ignore, 1, 0);
      assert false;
    }
    GroupFacts(cfg, handled, groups, buf, fo, ignore, 0);
    if |groups| > 1 { GroupFacts(cfg, handled, groups, buf, fo, ignore, 1); }
    assert groups[0].upto == 1 && |groups| == 1;
    OneEach(cfg, handled, groups, buf, fo, ignore);
  }

  lemma OneEach(cfg: Config, handled: seq<Handled>, groups: seq<Group>, buf: string, fo: FileOffset, ignore: bool)
    requires Inv(cfg, handled, groups, buf, fo, ignore)
    requires |handled| == 2 && |groups| == 1 && groups[0].upto == 1
    requires handled[0].fate.Kept? && handled[1].fate.Kept? && handled[0].at.offset == handled[1].at.offset
    ensures groups[0].msg == handled[0].text && buf == handled[1].text
    ensures groups[0].at == handled[0].at == handled[1].at == Moved(ORIGIN, handled[0].at.offset)
  {
    hide FatesOk, LastOk, KeptTexts, MessageOf, Moved;
    assert PositionOk(handled, 0) && PositionOk(handled, 1) && GroupOk(cfg, handled, groups, 0);
    assert groups[..0] == [] && handled[0..1] == [handled[0]] && handled[1..] == [handled[1]];
    OneKept(handled[0]);
    OneKept(handled[1]);
    MessageOfOneIs(cfg, handled[0].text, groups[0].msg);
    assert Moved(handled[0].at, handled[0].at.offset) == handled[0].at by { MovedNowhere(handled[0].at); }
    if buf != "" { MessageOfOneIs(cfg, handled[1].text, buf); }
  }

  lemma OneKept(l: Handled)
    ensures KeptTexts([l]) == if l.fate.Kept? then [l.text] else []
  {
    assert [l][..0] == [];
  }

  lemma MessageOfOneIs(cfg: Config, text: string, msg: string)
    requires MessageOf(cfg, [text], msg)
    ensures msg == text
  {}

  lemma MovedNowhere(fo: FileOffset)
    ensures Moved(fo, fo.offset) == fo
  {}

  // ----- what a saved position means -----

  ghost predicate InGroup(groups: seq<Group>, i: nat, g: nat) {
    g < |groups| && Cut(groups[..g]) <= i < groups[g].upto
  }

  lemma {:induction false} FindGroup(groups: seq<Group>, i: nat, h: nat) returns (g: nat)
    requires h < |groups| && i < groups[h].upto
    ensures g <= h && InGroup(groups, i, g)
    decreases h
  {
    g := h;
    if h > 0 {
      assert groups[..h][h - 1] == groups[h - 1];
      if i < groups[h - 1].upto {
        g := FindGroup(groups, i, h - 1);
      }
    }
  }

  /** The line was delivered and acknowledged, filtered out on purpose, empty, or beyond the size of its event. */
  ghost predicate AccountedFor(cfg: Config, handled: seq<Handled>, groups: seq<Group>, buf: string, i: nat, acked: nat)
    requires i < |handled|
  {
    match handled[i].fate
    case Kept =>
      exists g: nat :: InGroup(groups, i, g) && (Published(cfg, groups[g]) ==> PublishedBefore(cfg, groups, g) < acked)
    case Blank => handled[i].text == ""
    case Overflow(of) => FullMessage(cfg, groups, buf, of)
  }

  /** The k-th event is that of the group. */
  ghost predicate IsEvent(cfg: Config, groups: seq<Group>, g: nat, k: nat) {
    g < |groups| && Published(cfg, groups[g]) && PublishedBefore(cfg, groups, g) == k
  }

  /** No line right after the k-th event ends at the same offset as the last line before it. */
  ghost predicate EventEndsApart(cfg: Config, handled: seq<Handled>, groups: seq<Group>, k: nat) {
    forall g: nat :: IsEvent(cfg, groups, g, k) ==> EndsApart(handled, groups[g].upto)
  }

  /** When the acknowledged events are the first `acked` ones, every handled line at or before the position of one of
      them is accounted for, unless the line right after that event ends at the same offset: restarting from that
      position loses no text that was not delivered. */
  lemma SavedPositionSafe(cfg: Config, handled: seq<Handled>, groups: seq<Group>, buf: string, fo: FileOffset,
                          ignore: bool, acked: nat, k: nat, i: nat)
    requires Inv(cfg, handled, groups, buf, fo, ignore)
    requires k < acked <= |Emitted(cfg, groups)| && EventEndsApart(cfg, handled, groups, k)
    requires i < |handled| && AtOrBefore(handled[i].at, Emitted(cfg, groups)[k].offset)
    ensures AccountedFor(cfg, handled, groups, buf, i, acked)
  {
    hide Inv, EndsApart;
    LineFate(cfg, handled, groups, buf, fo, ignore, i);
    if handled[i].fate.Kept? {
      var h := EventIsGroup(cfg, groups, k);
      assert IsEvent(cfg, groups, h, k);
      EventCovers(cfg, handled, groups, buf, fo, ignore, h, i);
      var g := FindGroup(groups, i, h);
      PublishedMonotone(cfg, groups, g, h);
    }
  }

  // ----- the offset saver -----

  datatype SaverInput = Ack(o: FileOffset) | SaveTick(ok: bool) | FileDeleted | SaverStop(ok: bool)

  ghost function Acks(inputs: seq<SaverInput>): set<FileOffset> {
    set x <- inputs | x.Ack? :: x.o
  }

  /** A tick or a stop at which the state file can be written. */
  ghost predicate Saves(x: SaverInput) {
    x == SaveTick(true) || x == SaverStop(true)
  }

  ghost function SaveCount(inputs: seq<SaverInput>): nat {
    if inputs == [] then 0 else SaveCount(inputs[..|inputs| - 1]) + if Saves(inputs[|inputs| - 1]) then 1 else 0
  }

  ghost predicate Ordered(positions: seq<FileOffset>) {
    forall i, j :: 0 <= i <= j < |positions| ==> AtOrBefore(positions[i], positions[j])
  }

  ghost predicate NoRewrite(positions: seq<FileOffset>) {
    forall i, j :: 0 <= i < j < |positions| ==> positions[i] != positions[j]
  }

  /** The offset is the latest one acknowledged. */
  ghost predicate Latest(seen: seq<SaverInput>, offset: FileOffset) {
    && (offset == ORIGIN || offset in Acks(seen))
    && forall o <- Acks(seen) :: AtOrBefore(o, offset)
  }

  /** The positions written so far: acknowledged ones, in order, and after a good save the one that the saver holds. */
  ghost predicate Written(hasPath: bool, seen: seq<SaverInput>, offset: FileOffset, positions: seq<FileOffset>) {
    && (forall p <- positions :: p in Acks(seen) && p.offset != 0)
    && Ordered(positions)
    && |positions| <= SaveCount(seen)
    && (seen != [] && Saves(seen[|seen| - 1]) && hasPath && offset.offset != 0 ==>
          positions != [] && positions[|positions| - 1] == offset)
  }

  /** What the loop keeps. */
  ghost predicate Saving(hasPath: bool, seen: seq<SaverInput>, offset: FileOffset, lastSaved: FileOffset,
                         positions: seq<FileOffset>) {
    && Latest(seen, offset) && Written(hasPath, seen, offset, positions) && NoRewrite(positions)
    && AtOrBefore(lastSaved, offset)
    && (forall p <- positions :: AtOrBefore(p, lastSaved))
    && (hasPath && lastSaved.offset != 0 ==> positions != [] && positions[|positions| - 1] == lastSaved)
  }

  lemma SeenNext(seen: seq<SaverInput>, x: SaverInput)
    ensures Acks(seen + [x]) == Acks(seen) + (if x.Ack? then {x.o} else {})
    ensures SaveCount(seen + [x]) == SaveCount(seen) + if Saves(x) then 1 else 0
  {
    assert (seen + [x])[..|seen|] == seen;
    assert x in seen + [x];
    assert forall y <- seen :: y in seen + [x];
  }

  lemma SavingAck(hasPath: bool, seen: seq<SaverInput>, offset: FileOffset, lastSaved: FileOffset,
                  positions: seq<FileOffset>, o: FileOffset, next: FileOffset)
    requires Saving(hasPath, seen, offset, lastSaved, positions)
    requires next == (if AtOrBefore(o, offset) then offset else o)
    ensures Saving(hasPath, seen + [Ack(o)], next, lastSaved, positions)
  {
    hide Ordered, NoRewrite, Acks;
    SeenNext(seen, Ack(o));
  }

  /** A tick with nothing new to save, or whose write fails. */
  lemma SavingSkip(hasPath: bool, seen: seq<SaverInput>, offset: FileOffset, lastSaved: FileOffset,
                   positions: seq<FileOffset>, x: SaverInput)
    requires Saving(hasPath, seen, offset, lastSaved, positions)
    requires !x.Ack? && (Saves(x) ==> offset == lastSaved)
    ensures Saving(hasPath, seen + [x], offset, lastSaved, positions)
  {
    hide Ordered, NoRewrite, Acks, AtOrBefore;
    SeenNext(seen, x);
  }

  /** A tick when no file is kept or the offset is still zero. */
  lemma SavingNothing(hasPath: bool, seen: seq<SaverInput>, offset: FileOffset, lastSaved: FileOffset,
                      positions: seq<FileOffset>, x: SaverInput)
    requires Saving(hasPath, seen, offset, lastSaved, positions)
    requires !x.Ack? && !(hasPath && offset.offset != 0)
    ensures Saving(hasPath, seen + [x], offset, offset, positions)
  {
    hide Ordered, NoRewrite, Acks;
    SeenNext(seen, x);
  }

  lemma SavingWrite(hasPath: bool, seen: seq<SaverInput>, offset: FileOffset, lastSaved: FileOffset,
                    positions: seq<FileOffset>, x: SaverInput)
    requires Saving(hasPath, seen, offset, lastSaved, positions)
    requires Saves(x) && offset.offset != 0
    ensures Latest(seen + [x], offset) && Written(hasPath, seen + [x], offset, positions + [offset])
    ensures offset != lastSaved ==> Saving(hasPath, seen + [x], offset, offset, positions + [offset])
  {
    hide Acks;
    SeenNext(seen, x);
    forall p <- positions ensures AtOrBefore(p, offset) && (offset != lastSaved ==> p != offset) {
      AtOrBeforeTransitive(p, lastSaved, offset);
    }
    assert forall i :: 0 <= i < |positions| ==> positions[i] in positions;
  }

  /** The saver over everything its select receives: `written` is what reaches the state file (`ok` says whether a write
      succeeds), `positions` the positions those offsets came from. */
  method RunSaveState(hasPath: bool, inputs: seq<SaverInput>)
    returns (n: nat, offset: FileOffset, written: seq<int>, ghost positions: seq<FileOffset>)
    ensures n <= |inputs| && Latest(inputs[..n], offset) && Written(hasPath, inputs[..n], offset, positions)
    ensures (n > 0 && inputs[n - 1].SaverStop?) || NoRewrite(positions)
    ensures |positions| == |written| && forall i :: 0 <= i < |written| ==> written[i] == positions[i].offset
    ensures forall i :: 0 <= i < n - 1 ==> !inputs[i].FileDeleted? && !inputs[i].SaverStop?
    ensures n < |inputs| ==> n > 0 && (inputs[n - 1].FileDeleted? || inputs[n - 1].SaverStop?)
  {
    hide Saving, Written, Latest, NoRewrite, Saves;
    n, offset, written, positions := 0, ORIGIN, [], [];
    var lastSaved := ORIGIN;
    SavingStart(hasPath);
    while n < |inputs|
      invariant n <= |inputs| && Saving(hasPath, inputs[..n], offset, lastSaved, positions)
      invariant |positions| == |written| && forall i :: 0 <= i < |written| ==> written[i] == positions[i].offset
      invariant forall i :: 0 <= i < n ==> !inputs[i].FileDeleted? && !inputs[i].SaverStop?
    {
      var input := inputs[n];
      ghost var seen := inputs[..n];
      n := n + 1;
      assert inputs[..n] == seen + [input];
      match input
      case Ack(o) =>
        ghost var before := offset;
        if o.sequence > offset.sequence || (o.sequence == offset.sequence && o.offset > offset.offset) {
          offset := o;
        }
        SavingAck(hasPath, seen, before, lastSaved, positions, o, offset);
      case SaveTick(ok) =>
        if offset == lastSaved {
          SavingSkip(hasPath, seen, offset, lastSaved, positions, input);
          continue;
        }
        var wrote := hasPath && offset.offset != 0;
        if wrote && !ok {
          SavesMeaning(input);
          SavingSkip(hasPath, seen, offset, lastSaved, positions, input);
          continue;
        }
        if wrote {
          SavesMeaning(input);
          SavingWrite(hasPath, seen, offset, lastSaved, positions, input);
          written, positions := written + [offset.offset], positions + [offset];
        } else {
          SavingNothing(hasPath, seen, offset, lastSaved, positions, input);
        }
        lastSaved := offset;
      case FileDeleted =>
        SavesMeaning(input);
        SavingSkip(hasPath, seen, offset, lastSaved, positions, input);
        break;
      case SaverStop(ok) =>
        SavesMeaning(input);
        if hasPath && offset.offset != 0 && ok {
          SavingWrite(hasPath, seen, offset, lastSaved, positions, input);
          written, positions := written + [offset.offset], positions + [offset];
        } else {
          SavingStop(hasPath, seen, offset, lastSaved, positions, input);
        }
        return;
    }
    SavingMeans(hasPath, inputs[..n], offset, lastSaved, positions);
  }

  lemma SavingStart(hasPath: bool)
    ensures Saving(hasPath, [], ORIGIN, ORIGIN, [])
  {}

  lemma SavesMeaning(x: SaverInput)
    ensures Saves(x) <==> (x.SaveTick? || x.SaverStop?) && x.ok
  {}

  /** The final save, when there is nothing to write or the write fails. */
  lemma SavingStop(hasPath: bool, seen: seq<SaverInput>, offset: FileOffset, lastSaved: FileOffset,
                   positions: seq<FileOffset>, x: SaverInput)
    requires Saving(hasPath, seen, offset, lastSaved, positions)
    requires !x.Ack? && !(hasPath && offset.offset != 0 && Saves(x))
    ensures Latest(seen + [x], offset) && Written(hasPath, seen + [x], offset, positions)
  {
    if Saves(x) {
      SavingNothing(hasPath, seen, offset, lastSaved, positions, x);
    } else {
      SavingSkip(hasPath, seen, offset, lastSaved, positions, x);
    }
  }

  lemma SavingMeans(hasPath: bool, seen: seq<SaverInput>, offset: FileOffset, lastSaved: FileOffset,
                    positions: seq<FileOffset>)
    requires Saving(hasPath, seen, offset, lastSaved, positions)
    ensures Latest(seen, offset) && Written(hasPath, seen, offset, positions) && NoRewrite(positions)
  {}

  /** The position belongs to an acknowledged event. */
  ghost predicate AckedAt(cfg: Config, groups: seq<Group>, acked: nat, k: nat, position: FileOffset) {
    k < acked <= |Emitted(cfg, groups)| && Emitted(cfg, groups)[k].offset == position
  }

  /** Tailer and saver together: if only the first `acked` events are ever acknowledged, every position the saver holds
      or writes is safe to restart from, unless the line right after each acknowledged event with that position ends at
      the same offset. */
  lemma SaverSafe(cfg: Config, handled: seq<Handled>, groups: seq<Group>, buf: string, fo: FileOffset, ignore: bool,
                  acked: nat, inputs: seq<SaverInput>, position: FileOffset, i: nat)
    requires Inv(cfg, handled, groups, buf, fo, ignore)
    requires forall o <- Acks(inputs) :: exists k: nat :: AckedAt(cfg, groups, acked, k, o)
    requires position in Acks(inputs)
    requires i < |handled| && AtOrBefore(handled[i].at, position)
    ensures || AccountedFor(cfg, handled, groups, buf, i, acked)
            || forall k: nat :: AckedAt(cfg, groups, acked, k, position) ==> !EventEndsApart(cfg, handled, groups, k)
  {
    hide Inv, EventEndsApart, AccountedFor;
    if k: nat :| AckedAt(cfg, groups, acked, k, position) && EventEndsApart(cfg, handled, groups, k) {
      SavedPositionSafe(cfg, handled, groups, buf, fo, ignore, acked, k, i);
    }
  }

  // ----- sizes, and what the events reproduce -----

  ghost function GroupTexts(handled: seq<Handled>, groups: seq<Group>, g: nat): seq<string>
    requires g < |groups| && Cut(groups[..g]) <= groups[g].upto <= |handled|
  {
    KeptTexts(handled[Cut(groups[..g])..groups[g].upto])
  }

  lemma {:induction false} KeptConcat(a: seq<Handled>, b: seq<Handled>)
    ensures KeptTexts(a + b) == KeptTexts(a) + KeptTexts(b)
    decreases |b|
  {
    if b == [] {
      assert a + b == a;
    } else {
      assert (a + b)[..|a + b| - 1] == a + b[..|b| - 1];
      KeptConcat(a, b[..|b| - 1]);
    }
  }

  lemma {:induction false} KeptMember(lines: seq<Handled>, t: string)
    requires t in KeptTexts(lines)
    ensures exists l <- lines :: l.text == t
  {
    var front, last := lines[..|lines| - 1], lines[|lines| - 1];
    if t in KeptTexts(front) {
      KeptMember(front, t);
    } else {
      assert last in lines;
    }
  }

  lemma MessageFits(cfg: Config, texts: seq<string>, msg: string)
    requires MessageOf(cfg, texts, msg) && |cfg.truncateSuffix| <= cfg.maxEventSize
    requires forall t <- texts :: |t| <= cfg.maxEventSize
    ensures |msg| <= cfg.maxEventSize
  {
    assert texts[0] in texts;
  }

  lemma MessageExact(cfg: Config, texts: seq<string>, msg: string)
    requires MessageOf(cfg, texts, msg) && |msg| < cfg.maxEventSize
    ensures msg == JoinLines(texts)
  {}

  /** With lines no longer than the limit, no message and no buffer is longer. */
  lemma MessagesBounded(cfg: Config, handled: seq<Handled>, groups: seq<Group>, buf: string, fo: FileOffset,
                        ignore: bool)
    requires Inv(cfg, handled, groups, buf, fo, ignore) && |cfg.truncateSuffix| <= cfg.maxEventSize
    requires forall l <- handled :: |l.text| <= cfg.maxEventSize
    ensures forall g :: 0 <= g < |groups| ==> |groups[g].msg| <= cfg.maxEventSize
    ensures |buf| <= cfg.maxEventSize
  {
    hide FatesOk, Positioned, MessageOf, KeptTexts;
    forall g | 0 <= g < |groups| ensures |groups[g].msg| <= cfg.maxEventSize {
      assert GroupOk(cfg, handled, groups, g);
      TextsBounded(cfg, handled, Cut(groups[..g]), groups[g].upto);
      MessageFits(cfg, KeptTexts(handled[Cut(groups[..g])..groups[g].upto]), groups[g].msg);
    }
    if buf != "" {
      assert handled[Cut(groups)..|handled|] == handled[Cut(groups)..];
      TextsBounded(cfg, handled, Cut(groups), |handled|);
      MessageFits(cfg, KeptTexts(handled[Cut(groups)..]), buf);
    }
  }

  lemma TextsBounded(cfg: Config, handled: seq<Handled>, from: nat, upto: nat)
    requires from <= upto <= |handled| && forall l <- handled :: |l.text| <= cfg.maxEventSize
    ensures forall t <- KeptTexts(handled[from..upto]) :: |t| <= cfg.maxEventSize
  {
    forall t <- KeptTexts(handled[from..upto]) ensures |t| <= cfg.maxEventSize {
      KeptMember(handled[from..upto], t);
    }
  }

  /** The texts of the first n groups, one after the other. */
  ghost function AllTexts(handled: seq<Handled>, groups: seq<Group>, n: nat): seq<string>
    requires n <= |groups| && forall g :: 0 <= g < n ==> Cut(groups[..g]) <= groups[g].upto <= |handled|
  {
    if n == 0 then [] else AllTexts(handled, groups, n - 1) + GroupTexts(handled, groups, n - 1)
  }

  lemma {:induction false} TextsInOrder(handled: seq<Handled>, groups: seq<Group>, n: nat)
    requires n <= |groups| && forall g :: 0 <= g < n ==> Cut(groups[..g]) <= groups[g].upto <= |handled|
    ensures Cut(groups[..n]) <= |handled| && AllTexts(handled, groups, n) == KeptTexts(handled[..Cut(groups[..n])])
  {
    if n > 0 {
      TextsInOrder(handled, groups, n - 1);
      var from, upto := Cut(groups[..n - 1]), groups[n - 1].upto;
      assert groups[..n][n - 1] == groups[n - 1];
      assert handled[..upto] == handled[..from] + handled[from..upto];
      KeptConcat(handled[..from], handled[from..upto]);
    }
  }

  /** Kept lines come out in order, none twice and none missing: the groups and then the buffer hold them all. */
  lemma KeptLinesReproduced(cfg: Config, handled: seq<Handled>, groups: seq<Group>, buf: string, fo: FileOffset,
                            ignore: bool)
    requires Inv(cfg, handled, groups, buf, fo, ignore)
    ensures forall g :: 0 <= g < |groups| ==> Cut(groups[..g]) <= groups[g].upto <= |handled|
    ensures AllTexts(handled, groups, |groups|) + KeptTexts(handled[Cut(groups)..]) == KeptTexts(handled)
  {
    hide Inv, KeptTexts, AllTexts, Cut;
    forall g | 0 <= g < |groups| ensures Cut(groups[..g]) <= groups[g].upto <= |handled| {
      SpanMessage(cfg, handled, groups, buf, fo, ignore, g);
    }
    TextsInOrder(handled, groups, |groups|);
    assert groups[..|groups|] == groups;
    var cut := Cut(groups);
    assert handled == handled[..cut] + handled[cut..];
    KeptConcat(handled[..cut], handled[cut..]);
  }

  ghost function Texts(lines: seq<Handled>): seq<string> {
    seq(|lines|, i requires 0 <= i < |lines| => lines[i].text)
  }

  lemma {:induction false} AllKept(lines: seq<Handled>)
    requires forall l <- lines :: l.fate.Kept?
    ensures KeptTexts(lines) == Texts(lines)
  {
    if lines != [] {
      var front, last := lines[..|lines| - 1], lines[|lines| - 1];
      AllKept(front);
      assert last in lines;
      assert Texts(lines) == Texts(front) + [last.text];
    }
  }

  /** If no message fills up and no line is empty, nothing is lost: every message is the exact join of its lines, and
      the groups and then the buffer hold every handled line in order. */
  lemma NothingLost(cfg: Config, handled: seq<Handled>, groups: seq<Group>, buf: string, fo: FileOffset, ignore: bool)
    requires Inv(cfg, handled, groups, buf, fo, ignore)
    requires |buf| < cfg.maxEventSize && forall g :: 0 <= g < |groups| ==> |groups[g].msg| < cfg.maxEventSize
    requires forall l <- handled :: l.text != ""
    ensures forall g :: 0 <= g < |groups| ==> Cut(groups[..g]) <= groups[g].upto <= |handled|
    ensures forall g :: 0 <= g < |groups| ==> groups[g].msg == JoinLines(GroupTexts(handled, groups, g))
    ensures buf == JoinLines(KeptTexts(handled[Cut(groups)..]))
    ensures AllTexts(handled, groups, |groups|) + KeptTexts(handled[Cut(groups)..]) == Texts(handled)
  {
    hide Positioned, MessageOf, KeptTexts, AllTexts, JoinLines, Cut;
    KeptLinesReproduced(cfg, handled, groups, buf, fo, ignore);
    forall l <- handled ensures l.fate.Kept? {
      var i :| 0 <= i < |handled| && handled[i] == l;
      assert FateOk(cfg, handled, groups, buf, i);
    }
    AllKept(handled);
    forall g | 0 <= g < |groups| ensures groups[g].msg == JoinLines(GroupTexts(handled, groups, g)) {
      assert GroupOk(cfg, handled, groups, g);
      MessageExact(cfg, GroupTexts(handled, groups, g), groups[g].msg);
    }
    if buf == "" {
      JoinNothing();
    } else {
      MessageExact(cfg, KeptTexts(handled[Cut(groups)..]), buf);
    }
  }

  lemma JoinNothing()
    ensures JoinLines([]) == ""
  {}

  // ----- what the events themselves reproduce -----

  lemma {:induction false} JoinConcat(a: seq<string>, b: seq<string>)
    requires a != [] && b != []
    ensures JoinLines(a + b) == JoinLines(a) + "\n" + JoinLines(b)
    decreases |b|
  {
    var front, last := b[..|b| - 1], b[|b| - 1];
    assert (a + b)[..|a + b| - 1] == a + front && b == front + [last];
    if front == [] {
      assert a + front == a;
    } else {
      JoinConcat(a, front);
    }
  }

  /** Joined lines come apart again at the newlines, unless they hold some themselves. */
  lemma {:induction false} JoinLinesSplit(texts: seq<string>)
    requires texts != [] && forall t <- texts :: '\n' !in t
    ensures Split(JoinLines(texts), '\n') == texts
  {
    JoinLinesIsJoin(texts);
    SplitJoin(texts, '\n');
  }

  lemma {:induction false} JoinLinesIsJoin(texts: seq<string>)
    ensures JoinLines(texts) == Join(texts, '\n')
  {
    if |texts| > 1 {
      JoinLinesIsJoin(texts[1..]);
      assert texts == [texts[0]] + texts[1..];
      JoinConcat([texts[0]], texts[1..]);
    }
  }

  /** A message that was cut is as long as allowed: the beginning of the joined lines, and the suffix. */
  lemma CutMessage(cfg: Config, texts: seq<string>, msg: string)
    requires MessageOf(cfg, texts, msg) && msg != JoinLines(texts)
    ensures |msg| == cfg.maxEventSize < |JoinLines(texts)|
    ensures |cfg.truncateSuffix| <= |msg| && msg[|msg| - |cfg.truncateSuffix|..] == cfg.truncateSuffix
    ensures msg[..|msg| - |cfg.truncateSuffix|] <= JoinLines(texts)
  {}

  ghost function Messages(events: seq<LogEvent>): (r: seq<string>)
    ensures |r| == |events| && forall i :: 0 <= i < |r| ==> r[i] == events[i].msg
  {
    seq(|events|, i requires 0 <= i < |events| => events[i].msg)
  }

  ghost function Rest(buf: string): seq<string> {
    if buf == "" then [] else [buf]
  }

  /** The timestamp function finds times but leaves messages alone, and no event is filtered. */
  ghost predicate Transparent(cfg: Config) {
    && (forall m :: cfg.timestamp(m).1 == m)
    && (forall e :: cfg.shouldPublish(e))
  }

  lemma {:induction false} AllPublished(cfg: Config, groups: seq<Group>, g: nat)
    requires Transparent(cfg) && g <= |groups|
    ensures PublishedBefore(cfg, groups, g) == g
  {
    if g > 0 {
      AllPublished(cfg, groups, g - 1);
      PublishedEvent(cfg, groups[g - 1]);
    }
  }

  /** Then the events are the messages of the groups. */
  lemma MessagesOfGroups(cfg: Config, events: seq<LogEvent>, groups: seq<Group>)
    requires Transparent(cfg) && Delivered(cfg, events, groups)
    ensures |events| == |groups| && forall g :: 0 <= g < |groups| ==> events[g].msg == groups[g].msg
  {
    AllPublished(cfg, groups, |groups|);
    forall g | 0 <= g < |groups| ensures events[g].msg == groups[g].msg {
      AllPublished(cfg, groups, g);
      PublishedEvent(cfg, groups[g]);
      assert DeliveredAt(cfg, events, groups, g);
      assert Carries(cfg, events[g], groups[g]);
    }
  }

  lemma {:induction false} MessagesJoin(handled: seq<Handled>, groups: seq<Group>, messages: seq<string>, n: nat)
    requires n <= |groups| == |messages| && forall g :: 0 <= g < |groups| ==>
               Cut(groups[..g]) <= groups[g].upto <= |handled|
    requires forall g :: 0 <= g < |groups| ==>
               GroupTexts(handled, groups, g) != [] && messages[g] == JoinLines(GroupTexts(handled, groups, g))
    ensures n > 0 ==> AllTexts(handled, groups, n) != []
    ensures JoinLines(messages[..n]) == JoinLines(AllTexts(handled, groups, n))
  {
    hide GroupTexts, Cut, JoinLines;
    if n == 0 {
      assert messages[..0] == AllTexts(handled, groups, 0) == [];
    } else if n == 1 {
      assert messages[..1] == [messages[0]];
      JoinOne(messages[0]);
      assert AllTexts(handled, groups, 0) + GroupTexts(handled, groups, 0) == GroupTexts(handled, groups, 0);
    } else if n > 1 {
      MessagesJoin(handled, groups, messages, n - 1);
      assert messages[..n] == messages[..n - 1] + [messages[n - 1]];
      JoinOne(messages[n - 1]);
      JoinConcat(messages[..n - 1], [messages[n - 1]]);
      JoinConcat(AllTexts(handled, groups, n - 1), GroupTexts(handled, groups, n - 1));
    }
  }

  /** If nothing is filtered, nothing fills up and no line is empty, the messages of the events and then the buffer are
      all the lines, joined as they came. */
  lemma EventsReproduceLines(cfg: Config, handled: seq<Handled>, groups: seq<Group>, buf: string, fo: FileOffset,
                             ignore: bool, events: seq<LogEvent>)
    requires Inv(cfg, handled, groups, buf, fo, ignore) && Delivered(cfg, events, groups) && Transparent(cfg)
    requires |buf| < cfg.maxEventSize && forall e <- events :: |e.msg| < cfg.maxEventSize
    requires forall l <- handled :: l.text != ""
    ensures JoinLines(Messages(events) + Rest(buf)) == JoinLines(Texts(handled))
  {
    hide Inv, Delivered, Transparent, JoinLines, AllTexts, Texts, KeptTexts, Cut, GroupTexts;
    MessagesOfGroups(cfg, events, groups);
    forall g | 0 <= g < |groups| ensures |groups[g].msg| < cfg.maxEventSize { assert events[g] in events; }
    NothingLost(cfg, handled, groups, buf, fo, ignore);
    forall g | 0 <= g < |groups| ensures GroupTexts(handled, groups, g) != [] {
      GroupNotEmpty(cfg, handled, groups, buf, fo, ignore, g);
    }
    BufferTexts(cfg, handled, groups, buf, fo, ignore);
    var messages, all := Messages(events), AllTexts(handled, groups, |groups|);
    var rest := KeptTexts(handled[Cut(groups)..]);
    MessagesJoin(handled, groups, messages, |groups|);
    assert messages[..|groups|] == messages;
    if buf == "" {
      assert messages + Rest(buf) == messages && all + rest == all;
    } else {
      JoinOne(buf);
      if groups == [] {
        NoTexts(handled, groups);
        assert messages + Rest(buf) == [buf] && all + rest == rest;
      } else {
        JoinConcat(messages, [buf]);
        JoinConcat(all, rest);
      }
    }
  }

  lemma JoinOne(t: string)
    ensures JoinLines([t]) == t
  {}

  lemma NoTexts(handled: seq<Handled>, groups: seq<Group>)
    requires groups == []
    ensures AllTexts(handled, groups, 0) == []
  {}

  lemma GroupNotEmpty(cfg: Config, handled: seq<Handled>, groups: seq<Group>, buf: string, fo: FileOffset, ignore: bool,
                      g: nat)
    requires Inv(cfg, handled, groups, buf, fo, ignore) && g < |groups|
    ensures Cut(groups[..g]) <= groups[g].upto <= |handled| && GroupTexts(handled, groups, g) != []
  {
    hide Positioned, FatesOk, KeptTexts;
    assert GroupOk(cfg, handled, groups, g);
  }

  lemma BufferTexts(cfg: Config, handled: seq<Handled>, groups: seq<Group>, buf: string, fo: FileOffset, ignore: bool)
    requires Inv(cfg, handled, groups, buf, fo, ignore)
    ensures Cut(groups) <= |handled| && (buf == "" <==> KeptTexts(handled[Cut(groups)..]) == [])
  {
    hide Positioned, FatesOk, KeptTexts, GroupOk;
  }

  ghost function LineTexts(lines: seq<(string, int)>): (r: seq<string>)
    ensures |r| == |lines| && forall i :: 0 <= i < |r| ==> r[i] == lines[i].0
  {
    seq(|lines|, i requires 0 <= i < |lines| => lines[i].0)
  }

  /** The tailer from end to end: the texts that come out are the lines that went in. */
  method TailReproduces(cfg: Config, inputs: seq<Input>) returns (n: nat, events: seq<LogEvent>, buf: string)
    requires |cfg.truncateSuffix| <= cfg.maxEventSize && Transparent(cfg)
    requires forall l <- LinesOf(inputs) :: l.0 != "" && '\n' !in l.0
    ensures n <= |inputs|
    ensures |buf| < cfg.maxEventSize && (forall e <- events :: |e.msg| < cfg.maxEventSize) ==>
              var lines := LineTexts(LinesOf(inputs[..n]));
              lines != [] ==> Split(JoinLines(Messages(events) + Rest(buf)), '\n') == lines
  {
    hide Transparent, Delivered, Inv, StartAfter, Waits, JoinLines, Split;
    var fo, ignore;
    ghost var handled, groups, timed, begun;
    n, events, buf, fo, ignore, handled, groups, timed, begun := RunTail(cfg, inputs);
    LinesPrefix(inputs, n);
    ghost var lines := LinesOf(inputs[..n]);
    forall l <- handled ensures l.text != "" {
      var i :| 0 <= i < |handled| && handled[i] == l;
      assert lines[i] in lines;
    }
    assert Texts(handled) == LineTexts(lines);
    if |buf| < cfg.maxEventSize && (forall e <- events :: |e.msg| < cfg.maxEventSize) && lines != [] {
      EventsReproduceLines(cfg, handled, groups, buf, fo, ignore, events);
      forall t <- LineTexts(lines) ensures '\n' !in t {
        var i :| 0 <= i < |lines| && lines[i].0 == t;
        assert lines[i] in lines;
      }
      JoinLinesSplit(LineTexts(lines));
    }
  }

  lemma {:induction false} LinesPrefix(inputs: seq<Input>, n: nat)
    requires n <= |inputs|
    ensures forall l <- LinesOf(inputs[..n]) :: l in LinesOf(inputs)
    decreases |inputs| - n
  {
    if n < |inputs| {
      assert inputs[..n + 1][..n] == inputs[..n];
      LinesPrefix(inputs, n + 1);
    } else {
      assert inputs[..n] == inputs;
    }
  }

  // ----- where events begin -----

  /** The lines that go into the message of a group, or of the buffer when `g` is the group still to come. */
  ghost function Span(handled: seq<Handled>, groups: seq<Group>, g: nat): seq<Handled>
    requires g <= |groups| && Cut(groups[..g]) <= (if g < |groups| then groups[g].upto else |handled|) <= |handled|
  {
    handled[Cut(groups[..g])..if g < |groups| then groups[g].upto else |handled|]
  }

  lemma SpanMessage(cfg: Config, handled: seq<Handled>, groups: seq<Group>, buf: string, fo: FileOffset, ignore: bool,
                    g: nat)
    requires Inv(cfg, handled, groups, buf, fo, ignore) && g <= |groups|
    ensures Cut(groups[..g]) <= (if g < |groups| then groups[g].upto else |handled|) <= |handled|
    ensures Together(cfg, KeptTexts(Span(handled, groups, g)))
  {
    hide Positioned, FatesOk, KeptTexts, Truncated;
    if g < |groups| {
      assert GroupOk(cfg, handled, groups, g);
    } else {
      assert groups[..g] == groups;
      assert handled[Cut(groups)..|handled|] == handled[Cut(groups)..];
    }
  }

  /** A line that starts an event is never dropped or joined to an earlier line: it is kept, and first in its
      message. */
  lemma StartOpensEvent(cfg: Config, handled: seq<Handled>, groups: seq<Group>, buf: string, fo: FileOffset,
                        ignore: bool, i: nat, g: nat)
    requires Inv(cfg, handled, groups, buf, fo, ignore)
    requires i < |handled| && Belongs(groups, i, g) && cfg.isStart(handled[i].text) && handled[i].text != ""
    ensures handled[i].fate.Kept? && KeptTexts(handled[Cut(groups[..g])..i]) == []
  {
    hide Inv, Cut, KeptTexts;
    assert handled[i].fate.Kept? by { LineFate(cfg, handled, groups, buf, fo, ignore, i); }
    SpanMessage(cfg, handled, groups, buf, fo, ignore, g);
    var span, from := Span(handled, groups, g), Cut(groups[..g]);
    var before, after := handled[from..i], span[i - from + 1..];
    assert span == before + [handled[i]] + after;
    KeptConcat(before + [handled[i]], after);
    KeptSnoc(before, handled[i]);
    assert KeptTexts(span)[|KeptTexts(before)|] == handled[i].text;
  }

  lemma LineFate(cfg: Config, handled: seq<Handled>, groups: seq<Group>, buf: string, fo: FileOffset, ignore: bool,
                 i: nat)
    requires Inv(cfg, handled, groups, buf, fo, ignore) && i < |handled|
    ensures FateOk(cfg, handled, groups, buf, i)
  {
    hide Positioned, GroupOk, MessageOf, FateOk;
  }
}
