/** Entities as partition keys: rendering an entity as a string and reading it back. */
module Entities {
  import opened Common
  import opened Strings
  import opened KeyValues

  /** A string pointer and a map may both be nil. */
  type Attributes = Option<map<string, Option<string>>>

  datatype Entity = Entity(attributes: Attributes, keyAttributes: Attributes)

  function Text(v: Option<string>): string {
    if v.Some? then v.value else ""
  }

  /** The map as far as it can be told from its rendering: nil is empty, and a nil value is an empty string. */
  function Plain(a: Attributes): (r: map<string, string>)
    ensures a.None? ==> r == map[]
    ensures a.Some? ==>
              r.Keys == a.value.Keys &&
              forall k <- r :: a.value[k] == Some(r[k]) || (a.value[k].None? && r[k] == "")
  {
    if a.None? then map[] else map k <- a.value :: Text(a.value[k])
  }

  ghost function AttributesText(a: Attributes): string {
    Render(Plain(a), ';')
  }

  ghost function EntityText(e: Entity): string {
    var a, k := AttributesText(e.attributes), AttributesText(e.keyAttributes);
    if a != "" || k != "" then a + "|" + k else ""
  }

  method EntityAttributesToString(a: Attributes) returns (r: string)
    ensures r == AttributesText(a)
  {
    if a.None? {
      RenderEmpty(';');
      return "";
    }
    r := RenderPairs(Plain(a), ';');
  }

  method EntityToString(e: Entity) returns (data: string)
    ensures data == EntityText(e)
  {
    var attributes := EntityAttributesToString(e.attributes);
    var keyAttributes := EntityAttributesToString(e.keyAttributes);
    data := "";
    if attributes != "" || keyAttributes != "" {
      data := attributes + "|" + keyAttributes;
    }
  }

  ghost function TextAttributes(s: string): map<string, string> {
    if s == "" then map[] else Parse(Split(s, ';'))
  }

  method StringToEntityAttributes(s: string) returns (r: map<string, Option<string>>)
    ensures Plain(Some(r)) == Parse(Split(s, ';'))
    ensures forall k <- r :: r[k].Some?
  {
    hide Split;
    r := map[];
    var pairs := Split(s, ';');
    for i := 0 to |pairs|
      invariant Plain(Some(r)) == Parse(pairs[..i])
      invariant forall k <- r :: r[k].Some?
    {
      assert pairs[..i + 1][..i] == pairs[..i];
      var pair := pairs[i];
      if ':' in pair {
        var at := IndexOf(pair, ':');
        PlainNext(r, pair[..at], pair[at + 1..]);
        r := r[pair[..at] := Some(pair[at + 1..])];
      }
    }
    assert pairs[..|pairs|] == pairs;
  }

  lemma PlainNext(r: map<string, Option<string>>, k: string, v: string)
    ensures Plain(Some(r[k := Some(v)])) == Plain(Some(r))[k := v]
  {}

  method StringToEntity(data: string) returns (e: Entity)
    ensures |Split(data, '|')| < 2 ==> e == Entity(None, None)
    ensures var parts := Split(data, '|');
            |parts| >= 2 ==>
              Plain(e.attributes) == TextAttributes(parts[0]) && Plain(e.keyAttributes) == TextAttributes(parts[1])
  {
    var parts := Split(data, '|');
    if |parts| < 2 {
      return Entity(None, None);
    }
    e := Entity(Some(map[]), Some(map[]));
    if parts[0] != "" {
      var attributes := StringToEntityAttributes(parts[0]);
      e := e.(attributes := Some(attributes));
    }
    if parts[1] != "" {
      var attributes := StringToEntityAttributes(parts[1]);
      e := e.(keyAttributes := Some(attributes));
    }
  }

  /** Names hold no ':', ';' or '|', and values no ';' or '|'. */
  ghost predicate CleanEntity(e: Entity) {
    && Clean(Plain(e.attributes), ';') && Clean(Plain(e.attributes), '|')
    && Clean(Plain(e.keyAttributes), ';') && Clean(Plain(e.keyAttributes), '|')
  }

  lemma NoBar(a: Attributes)
    requires Clean(Plain(a), ';') && Clean(Plain(a), '|')
    ensures '|' !in AttributesText(a)
    ensures AttributesText(a) == "" <==> Plain(a) == map[]
    ensures TextAttributes(AttributesText(a)) == Plain(a)
  {
    var m := Plain(a);
    RenderEmpty(';');
    if m != map[] {
      var order := SomeVisit(m.Keys);
      RenderAnyOrder(order, m, ';');
      RenderHasColon(m, ';');
      RenderRoundTrip(m, ';');
      SortedMembers(order, m);
      forall p <- Sort(Pairs(order, m)) ensures '|' !in p {
        var k :| k in m && p == Pair(k, m[k]);
      }
      JoinChars(Sort(Pairs(order, m)), ';', '|');
    }
  }

  /** What StringToEntity must return for the text of a clean entity: the same two maps. */
  ghost predicate ReadsAs(data: string, attributes: map<string, string>, keyAttributes: map<string, string>) {
    var parts := Split(data, '|');
    if |parts| < 2 then attributes == map[] && keyAttributes == map[]
    else attributes == TextAttributes(parts[0]) && keyAttributes == TextAttributes(parts[1])
  }

  lemma EntityReads(e: Entity)
    requires CleanEntity(e)
    ensures ReadsAs(EntityText(e), Plain(e.attributes), Plain(e.keyAttributes))
  {
    hide AttributesText, Plain, Clean, TextAttributes;
    var a, k := AttributesText(e.attributes), AttributesText(e.keyAttributes);
    NoBar(e.attributes);
    NoBar(e.keyAttributes);
    if a != "" || k != "" {
      assert Join([a, k], '|') == a + "|" + k by { assert [a, k][1..] == [k]; }
      SplitJoin([a, k], '|');
    } else {
      assert Split("", '|') == [""];
    }
  }

  /** Rendering a clean entity and reading it back gives both maps again. */
  method EntityRoundTrip(e: Entity) returns (back: Entity)
    requires CleanEntity(e)
    ensures Plain(back.attributes) == Plain(e.attributes) && Plain(back.keyAttributes) == Plain(e.keyAttributes)
  {
    EntityReads(e);
    var data := EntityToString(e);
    back := StringToEntity(data);
  }

  /** Clean entities that differ get different partition keys, and equal ones the same. */
  lemma PartitionKeysDistinct(e: Entity, f: Entity)
    requires CleanEntity(e) && CleanEntity(f)
    ensures EntityText(e) == EntityText(f) <==>
            Plain(e.attributes) == Plain(f.attributes) && Plain(e.keyAttributes) == Plain(f.keyAttributes)
  {
    EntityReads(e);
    EntityReads(f);
  }

  /** The attributes that a part of the text can stand for. */
  ghost predicate ReadablePart(s: string) {
    s == "" || Readable(Split(s, ';'))
  }

  lemma PartOfClean(s: string)
    requires '|' !in s
    ensures ReadablePart(s) ==> exists m: map<string, string> :: Clean(m, ';') && Clean(m, '|') && Render(m, ';') == s
  {
    hide Render, Readable;
    if ReadablePart(s) {
      CleanRendering(s, ';');
      if s == "" {
        RenderEmpty(';');
        var m: map<string, string> := map[];
        assert Clean(m, ';') && Clean(m, '|') && Render(m, ';') == s;
      } else {
        var m := Parse(Split(s, ';'));
        JoinSplit(s, ';');
        NoOtherChar(Split(s, ';'), ';', '|');
        ParseChars(Split(s, ';'), '|');
        assert Clean(m, ';') && Clean(m, '|') && Render(m, ';') == s;
      }
    }
  }

  lemma {:induction false} NoOtherChar(parts: seq<string>, sep: char, c: char)
    requires c !in Join(parts, sep)
    ensures forall p <- parts :: c !in p
    decreases |parts|
  {
    if |parts| > 1 {
      NoOtherChar(parts[1..], sep, c);
    }
  }

  lemma {:induction false} ParseChars(parts: seq<string>, c: char)
    requires forall p <- parts :: c !in p
    ensures forall k <- Parse(parts) :: ':' !in k && c !in k && c !in Parse(parts)[k]
  {
    if parts != [] {
      var front, last := parts[..|parts| - 1], parts[|parts| - 1];
      assert last in parts && forall p <- front :: p in parts;
      ParseChars(front, c);
    }
  }

  /** The text of a clean entity: nothing, or two parts, not both empty, that can each be read. */
  ghost predicate ReadableEntity(data: string) {
    var parts := Split(data, '|');
    data == "" || (|parts| == 2 && data != "|" && ReadablePart(parts[0]) && ReadablePart(parts[1]))
  }

  function Pointers(m: map<string, string>): Attributes {
    Some(map k <- m :: Some(m[k]))
  }

  /** A partition key belongs to a clean entity exactly when it is readable. So an entity whose names or values hold
      separators shares its key with a clean one exactly when its own key is readable. */
  lemma KeyOfCleanEntity(data: string)
    ensures (exists f :: CleanEntity(f) && EntityText(f) == data) <==> ReadableEntity(data)
  {
    hide CleanEntity, EntityText, ReadablePart;
    if f :| CleanEntity(f) && EntityText(f) == data {
      CleanEntityReadable(f);
    }
    if ReadableEntity(data) {
      var f := ReadableEntityClean(data);
    }
  }

  lemma UncleanEntityCollides(e: Entity)
    requires !CleanEntity(e)
    ensures (exists f :: CleanEntity(f) && EntityText(f) == EntityText(e) && !SameMaps(e, f)) <==>
            ReadableEntity(EntityText(e))
  {
    hide EntityText, ReadableEntity;
    KeyOfCleanEntity(EntityText(e));
  }

  /** A part of a text that attributes can stand for. */
  ghost predicate Part(s: string) {
    s == "" || ':' in s
  }

  /** The text can be cut at another bar into two such parts. */
  ghost predicate OtherBar(t: string, at: nat) {
    exists p :: 0 <= p < |t| && p != at && t[p] == '|' && Part(t[..p]) && Part(t[p + 1..])
  }

  ghost predicate SameMaps(e: Entity, f: Entity) {
    Plain(e.attributes) == Plain(f.attributes) && Plain(e.keyAttributes) == Plain(f.keyAttributes)
  }

  /** An entity shares its partition key with a different one exactly when one of its two parts holds two colons, or the
      key can be cut at another bar. */
  lemma EntityCollidesExactly(e: Entity)
    ensures (exists f :: !SameMaps(e, f) && EntityText(f) == EntityText(e)) <==>
            var a, k := AttributesText(e.attributes), AttributesText(e.keyAttributes);
            TwoColons(a) || TwoColons(k) || OtherBar(EntityText(e), |a|)
  {
    hide Render, Plain, TwoColons, OtherBar;
    var a, k := AttributesText(e.attributes), AttributesText(e.keyAttributes);
    if TwoColons(a) {
      var n := OtherReading(Plain(e.attributes), a, ';');
      PlainPointers(n);
      TwoColonsLong(a);
      var f := Entity(Pointers(n), e.keyAttributes);
      assert EntityText(f) == EntityText(e) && !SameMaps(e, f);
    } else if TwoColons(k) {
      var n := OtherReading(Plain(e.keyAttributes), k, ';');
      PlainPointers(n);
      TwoColonsLong(k);
      var f := Entity(e.attributes, Pointers(n));
      assert EntityText(f) == EntityText(e) && !SameMaps(e, f);
    } else if OtherBar(EntityText(e), |a|) {
      var f := OtherCut(e);
    } else if f :| !SameMaps(e, f) && EntityText(f) == EntityText(e) {
      NoOtherEntity(e, f);
    }
  }

  lemma TwoColonsLong(s: string)
    requires TwoColons(s)
    ensures s != ""
  {}

  lemma PlainPointers(m: map<string, string>)
    ensures Plain(Pointers(m)) == m
  {}

  lemma OtherCut(e: Entity) returns (f: Entity)
    requires OtherBar(EntityText(e), |AttributesText(e.attributes)|)
    ensures !SameMaps(e, f) && EntityText(f) == EntityText(e)
  {
    hide Render, Plain;
    var t, at := EntityText(e), |AttributesText(e.attributes)|;
    NeverOne(e);
    hide EntityText, Part;
    var p :| 0 <= p < |t| && p != at && t[p] == '|' && Part(t[..p]) && Part(t[p + 1..]);
    var a, k := t[..p], t[p + 1..];
    assert t == a + "|" + k && |a| == p;
    var m := SomeReading(a);
    var n := SomeReading(k);
    f := Entity(Pointers(m), Pointers(n));
    TextOf(f, a, k);
  }

  lemma SomeReading(s: string) returns (m: map<string, string>)
    requires Part(s)
    ensures Render(m, ';') == s && Plain(Pointers(m)) == m
  {
    hide Render;
    Renderings(s, ';');
    m :| Render(m, ';') == s;
    PlainPointers(m);
  }

  lemma NeverOne(e: Entity)
    ensures |EntityText(e)| != 1
  {}

  lemma TextOf(f: Entity, a: string, k: string)
    requires AttributesText(f.attributes) == a && AttributesText(f.keyAttributes) == k && (a != "" || k != "")
    ensures EntityText(f) == a + "|" + k
  {}

  lemma CutsDiffer(a: string, k: string, b: string, l: string)
    requires a + "|" + k == b + "|" + l && (a != b || k != l)
    ensures |a| != |b|
  {
    var t := a + "|" + k;
    assert t[..|a|] == a && t[..|b|] == b && t[|a| + 1..] == k && t[|b| + 1..] == l;
  }

  lemma NoOtherEntity(e: Entity, f: Entity)
    requires EntityText(f) == EntityText(e) && !SameMaps(e, f)
    requires !TwoColons(AttributesText(e.attributes)) && !TwoColons(AttributesText(e.keyAttributes))
    ensures OtherBar(EntityText(e), |AttributesText(e.attributes)|)
  {
    hide Render, Plain, TwoColons;
    var t := EntityText(e);
    var a, k := AttributesText(e.attributes), AttributesText(e.keyAttributes);
    var b, l := AttributesText(f.attributes), AttributesText(f.keyAttributes);
    if a == b && k == l {
      CollidesExactly(Plain(e.attributes), ';');
      CollidesExactly(Plain(e.keyAttributes), ';');
    } else {
      CutsDiffer(a, k, b, l);
      assert t[..|b|] == b && t[|b| + 1..] == l && t[|b|] == '|';
      Renderings(b, ';');
      Renderings(l, ';');
    }
  }

  lemma CleanEntityReadable(f: Entity)
    requires CleanEntity(f)
    ensures ReadableEntity(EntityText(f))
  {
    hide AttributesText, Plain, Clean, TextAttributes;
    var a, k := AttributesText(f.attributes), AttributesText(f.keyAttributes);
    NoBar(f.attributes);
    NoBar(f.keyAttributes);
    PartReadable(f.attributes);
    PartReadable(f.keyAttributes);
    if a != "" || k != "" {
      assert Join([a, k], '|') == a + "|" + k by { assert [a, k][1..] == [k]; }
      SplitJoin([a, k], '|');
    }
  }

  lemma PartReadable(a: Attributes)
    requires Clean(Plain(a), ';')
    ensures ReadablePart(AttributesText(a))
  {
    hide Clean, Readable, Render;
    CleanRendering(AttributesText(a), ';');
  }

  lemma ReadableEntityClean(data: string) returns (f: Entity)
    requires ReadableEntity(data)
    ensures CleanEntity(f) && EntityText(f) == data
  {
    hide Render, ReadablePart, Clean, Split, Join;
    if data == "" {
      RenderEmpty(';');
      NothingClean(';');
      NothingClean('|');
      return Entity(None, None);
    }
    var parts := Split(data, '|');
    TwoParts(data);
    PartOfClean(parts[0]);
    PartOfClean(parts[1]);
    var a: map<string, string> :| Clean(a, ';') && Clean(a, '|') && Render(a, ';') == parts[0];
    var k: map<string, string> :| Clean(k, ';') && Clean(k, '|') && Render(k, ';') == parts[1];
    f := Entity(Pointers(a), Pointers(k));
    assert Plain(f.attributes) == a && Plain(f.keyAttributes) == k;
  }

  lemma TwoParts(data: string)
    requires |Split(data, '|')| == 2
    ensures var parts := Split(data, '|');
            data == parts[0] + "|" + parts[1] && '|' !in parts[0] && '|' !in parts[1]
  {
    hide Split;
    var parts := Split(data, '|');
    JoinSplit(data, '|');
    assert parts == [parts[0], parts[1]] && parts[1..] == [parts[1]];
    assert parts[0] in parts && parts[1] in parts;
  }

  /** A value that holds ';' breaks it: two entities share a key. */
  lemma UncleanValuesCollide()
    ensures var e := Entity(Some(map["a" := Some("1;b:2")]), None);
            var f := Entity(Some(map["a" := Some("1"), "b" := Some("2")]), None);
            EntityText(e) == EntityText(f) && Plain(e.attributes) != Plain(f.attributes)
  {
    hide Render;
    UncleanCollide(';');
    var e := Entity(Some(map["a" := Some("1;b:2")]), None);
    var f := Entity(Some(map["a" := Some("1"), "b" := Some("2")]), None);
    assert "1;b:2" == "1" + [';'] + "b:2";
    assert Plain(e.attributes) == map["a" := "1" + [';'] + "b:2"];
    assert Plain(f.attributes) == map["a" := "1", "b" := "2"];
    assert "b" in Plain(f.attributes) && "b" !in Plain(e.attributes);
  }
}
