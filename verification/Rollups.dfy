/** Rolling metrics up to smaller attribute groups: the two implementations, and the cache of the second. */
module Rollups {
  import opened Common
  import opened Strings
  import opened KeyValues

  // ----- sets of names -----

  method ContainsAll(s: set<string>, other: set<string>) returns (all: bool)
    ensures all <==> other <= s
  {
    var todo := other;
    while todo != {}
      invariant todo <= other && other - todo <= s
      decreases |todo|
    {
      var key :| key in todo;
      if key !in s {
        return false;
      }
      todo := todo - {key};
    }
    return true;
  }

  /** Comparing sizes and one inclusion is enough. */
  method SetEqual(s: set<string>, other: set<string>) returns (equal: bool)
    ensures equal <==> s == other
  {
    if |s| != |other| {
      return false;
    }
    equal := ContainsAll(s, other);
    if equal {
      SameSize(s, other);
    }
  }

  lemma SameSize(s: set<string>, t: set<string>)
    requires t <= s && |s| == |t|
    ensures s == t
  {
    assert s == t + (s - t);
    assert |s| == |t| + |s - t|;
  }

  function NameSet(names: seq<string>): set<string> {
    set k <- names
  }

  /** The distinct groups as sets, in the order of first appearance. */
  ghost function DistinctSets(groups: seq<seq<string>>): seq<set<string>> {
    if groups == [] then []
    else
      var rest, last := DistinctSets(groups[..|groups| - 1]), NameSet(groups[|groups| - 1]);
      if last in rest then rest else rest + [last]
  }

  ghost function SortedNames(names: set<string>): seq<string> {
    Sort(Order(names))
  }

  /** The distinct groups, each sorted and without repetitions. */
  ghost function UniqueGroupsOf(groups: seq<seq<string>>): seq<seq<string>> {
    SortedAll(DistinctSets(groups))
  }

  ghost function SortedAll(sets: seq<set<string>>): (r: seq<seq<string>>)
    ensures |r| == |sets| && forall i :: 0 <= i < |sets| ==> r[i] == SortedNames(sets[i])
  {
    seq(|sets|, i requires 0 <= i < |sets| => SortedNames(sets[i]))
  }

  lemma SortedNamesVisit(names: set<string>)
    ensures Visits(SortedNames(names), names)
  {
    hide Sort;
    var s, o := SortedNames(names), Order(names);
    forall k ensures k in s <==> k in names {
      assert k in s <==> k in multiset(s);
      assert k in o <==> k in multiset(o);
    }
    if !Distinct(s) {
      var i, j :| 0 <= i < j < |s| && s[i] == s[j];
      RepeatCounts(s, i, j);
      DistinctCount(o, s[i]);
    }
  }

  /** maps.Keys followed by sort.Strings. */
  method SortedKeys(names: set<string>) returns (keys: seq<string>)
    ensures keys == SortedNames(names)
  {
    keys := Visit(names);
    VisitsMultiset(keys, Order(names), names);
    SortedUnique(Sort(keys), Sort(Order(names)));
    keys := Sort(keys);
  }

  /** The rollup processor's version: groups and sets grow together. */
  method UniqueGroups(groups: seq<seq<string>>) returns (results: seq<seq<string>>)
    ensures results == UniqueGroupsOf(groups)
  {
    hide SortedNames, NameSet;
    results := [];
    if |groups| == 0 {
      return;
    }
    var uniqueSets: seq<set<string>> := [];
    for i := 0 to |groups|
      invariant uniqueSets == DistinctSets(groups[..i]) && results == SortedAll(uniqueSets)
    {
      assert groups[..i + 1][..i] == groups[..i];
      var rollupSet := NameSet(groups[i]);
      var isUnique := true;
      for j := 0 to |uniqueSets|
        invariant isUnique && rollupSet !in uniqueSets[..j]
      {
        var same := SetEqual(rollupSet, uniqueSets[j]);
        if same {
          isUnique := false;
          break;
        }
      }
      assert uniqueSets[..|uniqueSets|] == uniqueSets;
      if isUnique {
        var keys := SortedKeys(rollupSet);
        results, uniqueSets := results + [keys], uniqueSets + [rollupSet];
      }
    }
    assert groups[..|groups|] == groups;
  }

  /** The CloudWatch output's version: the sets first, then the sorted lists. */
  method GetUniqueRollupList(inputLists: seq<seq<string>>) returns (uniqueLists: seq<seq<string>>)
    ensures uniqueLists == UniqueGroupsOf(inputLists)
  {
    hide SortedNames, NameSet;
    var uniqueSets: seq<set<string>> := [];
    for i := 0 to |inputLists|
      invariant uniqueSets == DistinctSets(inputLists[..i])
    {
      assert inputLists[..i + 1][..i] == inputLists[..i];
      var inputSet := NameSet(inputLists[i]);
      var count := 0;
      while count < |uniqueSets|
        invariant count <= |uniqueSets| && inputSet !in uniqueSets[..count]
      {
        if inputSet == uniqueSets[count] {
          break;
        }
        count := count + 1;
      }
      assert uniqueSets[..|uniqueSets|] == uniqueSets;
      if count == |uniqueSets| {
        uniqueSets := uniqueSets + [inputSet];
      }
    }
    assert inputLists[..|inputLists|] == inputLists;
    uniqueLists := [];
    for i := 0 to |uniqueSets|
      invariant uniqueLists == SortedAll(uniqueSets[..i])
    {
      var keys := SortedKeys(uniqueSets[i]);
      assert SortedAll(uniqueSets[..i + 1]) == SortedAll(uniqueSets[..i]) + [SortedNames(uniqueSets[i])];
      uniqueLists := uniqueLists + [keys];
    }
    assert uniqueSets[..|uniqueSets|] == uniqueSets;
  }

  ghost predicate Lists(groups: seq<seq<string>>, names: set<string>) {
    exists g <- groups :: NameSet(g) == names
  }

  /** What the distinct groups are: every group of the input is one of them as a set, each is sorted without repetition,
      and no two are equal. */
  lemma UniqueGroupsMeaning(groups: seq<seq<string>>)
    ensures forall g <- UniqueGroupsOf(groups) :: Distinct(g) && Sorted(g)
    ensures forall i, j :: 0 <= i < j < |UniqueGroupsOf(groups)| ==>
              NameSet(UniqueGroupsOf(groups)[i]) != NameSet(UniqueGroupsOf(groups)[j])
    ensures forall names :: Lists(UniqueGroupsOf(groups), names) <==> Lists(groups, names)
  {
    hide Sort, Sorted, Distinct;
    var r, sets := UniqueGroupsOf(groups), DistinctSets(groups);
    forall i | 0 <= i < |r| ensures Distinct(r[i]) && Sorted(r[i]) && NameSet(r[i]) == sets[i] {
      SortedNamesVisit(sets[i]);
    }
    SetsDistinct(groups);
    forall names ensures Lists(r, names) <==> Lists(groups, names) {
      SetsMember(groups, names);
      if names in sets {
        var i :| 0 <= i < |sets| && sets[i] == names;
        assert r[i] in r;
      }
    }
  }

  lemma {:induction false} SetsDistinct(groups: seq<seq<string>>)
    ensures Distinct(DistinctSets(groups))
  {
    if groups != [] {
      SetsDistinct(groups[..|groups| - 1]);
    }
  }

  lemma {:induction false} SetsMember(groups: seq<seq<string>>, names: set<string>)
    ensures names in DistinctSets(groups) <==> Lists(groups, names)
  {
    if groups != [] {
      var front, last := groups[..|groups| - 1], groups[|groups| - 1];
      SetsMember(front, names);
      assert groups == front + [last];
      assert last in groups;
    }
  }

  // ----- rolling up one attribute map -----

  type Attrs = map<string, string>

  /** A group applies when it is smaller than the attribute map, all its names are there, and it repeats none. */
  predicate Applies(group: seq<string>, base: Attrs) {
    |group| < |base| && (forall k <- group :: k in base) && |NameSet(group)| == |group|
  }

  function Only(base: Attrs, group: seq<string>): Attrs {
    map k | k in base && k in group :: base[k]
  }

  ghost function Rollup(groups: seq<seq<string>>, base: Attrs): seq<Attrs> {
    if groups == [] then []
    else
      var rest, last := Rollup(groups[..|groups| - 1], base), groups[|groups| - 1];
      if Applies(last, base) then rest + [Only(base, last)] else rest
  }

  method BuildRollup(groups: seq<seq<string>>, base: Attrs) returns (results: seq<Attrs>)
    ensures results == Rollup(groups, base)
  {
    results := [];
    for i := 0 to |groups|
      invariant results == Rollup(groups[..i], base)
    {
      assert groups[..i + 1][..i] == groups[..i];
      var group := groups[i];
      if |group| >= |base| {
        continue;
      }
      var attributes := RestrictTo(group, base);
      if |attributes| == |group| {
        results := results + [attributes];
      }
    }
    assert groups[..|groups|] == groups;
  }

  /** The inner loop of buildRollup: it stops at the first name that is missing. */
  method RestrictTo(group: seq<string>, base: Attrs) returns (attributes: Attrs)
    ensures |attributes| == |group| <==> (forall k <- group :: k in base) && |NameSet(group)| == |group|
    ensures (forall k <- group :: k in base) ==> attributes == Only(base, group)
  {
    attributes := map[];
    for j := 0 to |group|
      invariant forall k <- group[..j] :: k in base
      invariant attributes == Only(base, group[..j])
    {
      assert group[..j + 1] == group[..j] + [group[j]];
      if group[j] !in base {
        assert group[j] in group;
        OnlySize(base, group[..j]);
        return;
      }
      attributes := attributes[group[j] := base[group[j]]];
    }
    assert group[..|group|] == group;
    OnlySize(base, group);
  }

  lemma OnlySize(base: Attrs, group: seq<string>)
    requires forall k <- group :: k in base
    ensures |Only(base, group)| == |NameSet(group)| <= |group|
  {
    assert Only(base, group).Keys == NameSet(group);
    NameSetSize(group);
  }

  lemma {:induction false} NameSetSize(s: seq<string>)
    ensures |NameSet(s)| <= |s|
    ensures Distinct(s) ==> |NameSet(s)| == |s|
  {
    if s != [] {
      var front, last := s[..|s| - 1], s[|s| - 1];
      NameSetSize(front);
      assert s == front + [last];
      assert NameSet(s) == NameSet(front) + {last};
    }
  }

  // ----- the CloudWatch output's version -----

  datatype Dimension = Dimension(name: string, value: string)

  function DimensionMap(dims: seq<Dimension>): Attrs {
    if dims == [] then map[]
    else DimensionMap(dims[..|dims| - 1])[dims[|dims| - 1].name := dims[|dims| - 1].value]
  }

  ghost function Picked(target: seq<string>, base: Attrs): (r: seq<Dimension>)
    requires forall k <- target :: k in base
    ensures |r| == |target| && forall i :: 0 <= i < |r| ==>
              target[i] in base && r[i] == Dimension(target[i], base[target[i]])
  {
    seq(|target|, i requires 0 <= i < |target| => assert target[i] in target; Dimension(target[i], base[target[i]]))
  }

  ghost predicate Suits(target: seq<string>, raw: seq<Dimension>) {
    |target| < |raw| && forall k <- target :: k in DimensionMap(raw)
  }

  ghost function Extras(targets: seq<seq<string>>, raw: seq<Dimension>): seq<seq<Dimension>> {
    if targets == [] then []
    else
      var rest, last := Extras(targets[..|targets| - 1], raw), targets[|targets| - 1];
      if Suits(last, raw) then rest + [Picked(last, DimensionMap(raw))] else rest
  }

  method ProcessRollup(targets: seq<seq<string>>, raw: seq<Dimension>) returns (full: seq<seq<Dimension>>)
    ensures full == [raw] + Extras(targets, raw)
  {
    var rawMap: Attrs := map[];
    for i := 0 to |raw|
      invariant rawMap == DimensionMap(raw[..i])
    {
      assert raw[..i + 1][..i] == raw[..i];
      rawMap := rawMap[raw[i].name := raw[i].value];
    }
    assert raw[..|raw|] == raw;
    full := [raw];
    for i := 0 to |targets|
      invariant full == [raw] + Extras(targets[..i], raw)
    {
      assert targets[..i + 1][..i] == targets[..i];
      var target := targets[i];
      if |target| >= |raw| {
        continue;
      }
      var extra := PickDimensions(target, rawMap);
      if |extra| == |target| {
        full := full + [extra];
      }
    }
    assert targets[..|targets|] == targets;
  }

  /** The inner loop of ProcessRollup: the dimensions before the first name that is missing. */
  method PickDimensions(target: seq<string>, base: Attrs) returns (extra: seq<Dimension>)
    ensures |extra| == |target| <==> forall k <- target :: k in base
    ensures (forall k <- target :: k in base) ==> extra == Picked(target, base)
  {
    extra := [];
    for j := 0 to |target|
      invariant forall k <- target[..j] :: k in base
      invariant extra == Picked(target[..j], base)
    {
      assert target[..j + 1] == target[..j] + [target[j]];
      if target[j] !in base {
        assert target[j] in target;
        return;
      }
      assert Picked(target[..j + 1], base) == Picked(target[..j], base) + [Dimension(target[j], base[target[j]])];
      extra := extra + [Dimension(target[j], base[target[j]])];
    }
    assert target[..|target|] == target;
  }

  ghost predicate UniquelyNamed(dims: seq<Dimension>) {
    forall i, j :: 0 <= i < j < |dims| ==> dims[i].name != dims[j].name
  }

  ghost function NamesOf(dims: seq<Dimension>): set<string> {
    set d <- dims :: d.name
  }

  lemma {:induction false} DimensionMapSize(dims: seq<Dimension>)
    requires UniquelyNamed(dims)
    ensures |DimensionMap(dims)| == |dims|
    ensures DimensionMap(dims).Keys == NamesOf(dims)
  {
    hide UniquelyNamed, NamesOf;
    if dims == [] {
      assert NamesOf(dims) == {} by { NoNames(); }
    } else if dims != [] {
      var front, last := dims[..|dims| - 1], dims[|dims| - 1];
      LastNameNew(dims);
      DimensionMapSize(front);
      var m := DimensionMap(front);
      assert |m[last.name := last.value]| == |m| + 1;
    }
  }

  /** Of several dimensions with one name the last decides the value. */
  lemma {:induction false} LastOfNameDecides(dims: seq<Dimension>, i: nat)
    requires i < |dims| && forall j :: i < j < |dims| ==> dims[j].name != dims[i].name
    ensures dims[i].name in DimensionMap(dims) && DimensionMap(dims)[dims[i].name] == dims[i].value
  {
    var front := dims[..|dims| - 1];
    if i < |front| {
      LastOfNameDecides(front, i);
    }
  }

  lemma NoNames()
    ensures NamesOf([]) == {}
  {}

  lemma LastNameNew(dims: seq<Dimension>)
    requires UniquelyNamed(dims) && dims != []
    ensures var front, last := dims[..|dims| - 1], dims[|dims| - 1];
            UniquelyNamed(front) && last.name !in NamesOf(front) && NamesOf(dims) == NamesOf(front) + {last.name}
  {
    var front, last := dims[..|dims| - 1], dims[|dims| - 1];
    assert dims == front + [last];
    assert NamesOf(dims) == NamesOf(front) + {last.name};
  }

  lemma {:induction false} PickedMap(target: seq<string>, base: Attrs)
    requires forall k <- target :: k in base
    ensures DimensionMap(Picked(target, base)) == Only(base, target)
  {
    if target != [] {
      var front, last := target[..|target| - 1], target[|target| - 1];
      assert target == front + [last];
      PickedMap(front, base);
      var p := Picked(target, base);
      assert p[..|p| - 1] == Picked(front, base);
    }
  }

  ghost function Maps(dims: seq<seq<Dimension>>): (r: seq<Attrs>)
    ensures |r| == |dims| && forall i :: 0 <= i < |r| ==> r[i] == DimensionMap(dims[i])
  {
    seq(|dims|, i requires 0 <= i < |dims| => DimensionMap(dims[i]))
  }

  /** The two implementations agree: after the original entry, the CloudWatch output produces the attribute maps of the
      rollup processor, in the same order. */
  lemma {:induction false} RollupsAgree(groups: seq<seq<string>>, raw: seq<Dimension>)
    requires UniquelyNamed(raw) && forall g <- groups :: Distinct(g)
    ensures Maps(Extras(groups, raw)) == Rollup(groups, DimensionMap(raw))
  {
    if groups != [] {
      var front, last := groups[..|groups| - 1], groups[|groups| - 1];
      assert forall g <- front :: g in groups;
      RollupsAgree(front, raw);
      assert last in groups;
      NameSetSize(last);
      DimensionMapSize(raw);
      if Suits(last, raw) {
        PickedMap(last, DimensionMap(raw));
      }
    }
  }

  // ----- the cache -----

  /** The cache may drop entries whenever it likes, unless it happens to be lasting; the no-op cache never holds any. */
  class RollupCache {
    const enabled: bool
    const lasting: bool
    var items: map<string, seq<Attrs>>

    constructor (enabled: bool, lasting: bool)
      ensures this.enabled == enabled && this.lasting == lasting && items == map[]
    {
      this.enabled, this.lasting, items := enabled, lasting, map[];
    }

    method Evict()
      modifies this
      ensures items.Keys <= old(items).Keys && forall k <- items :: items[k] == old(items)[k]
      ensures lasting ==> items == old(items)
    {
      if !lasting {
        var keep: set<string> :| keep <= items.Keys;
        items := map k | k in items && k in keep :: items[k];
      }
    }

    method Key(attrs: Attrs) returns (key: string)
      ensures key == if enabled then Render(attrs, '|') else ""
    {
      if !enabled {
        return "";
      }
      key := RenderPairs(attrs, '|');
    }

    method Get(key: string) returns (item: Option<seq<Attrs>>)
      modifies this
      ensures items.Keys <= old(items).Keys && forall k <- items :: items[k] == old(items)[k]
      ensures item.Some? ==> enabled && key in old(items) && item.value == old(items)[key]
      ensures enabled && lasting ==> items == old(items) && (item.Some? <==> key in items)
    {
      if !enabled {
        return None;
      }
      Evict();
      item := if key in items then Some(items[key]) else None;
    }

    method Set(key: string, value: seq<Attrs>)
      modifies this
      ensures forall k <- items ::
                if k == key && enabled then items[k] == value else k in old(items) && items[k] == old(items)[k]
      ensures enabled && lasting ==> items == old(items)[key := value]
    {
      if enabled {
        items := items[key := value];
        Evict();
      }
    }

    /** Whatever attribute map of these a cached entry is found for, it is the rollup of that map. */
    ghost predicate Coherent(groups: seq<seq<string>>, known: iset<Attrs>)
      reads this
    {
      forall attrs: Attrs :: attrs in known && Render(attrs, '|') in items ==>
        items[Render(attrs, '|')] == Rollup(groups, attrs)
    }
  }

  /** Attribute maps with the same key roll up alike. */
  ghost predicate Unambiguous(groups: seq<seq<string>>, known: iset<Attrs>) {
    forall a, b :: a in known && b in known && Render(a, '|') == Render(b, '|') ==>
      Rollup(groups, a) == Rollup(groups, b)
  }

  /** Names without ':' and '|' and values without '|' are enough. */
  lemma CleanUnambiguous(groups: seq<seq<string>>)
    ensures Unambiguous(groups, iset attrs: Attrs | Clean(attrs, '|'))
  {
    hide Render, Clean, Rollup;
    forall a: Attrs, b: Attrs | Clean(a, '|') && Clean(b, '|') && Render(a, '|') == Render(b, '|')
      ensures Rollup(groups, a) == Rollup(groups, b)
    {
      RenderInjective(a, b, '|');
    }
  }

  /** Exactly when attributes that hold separators share the key of clean attributes that roll up differently. */
  lemma UncleanCacheVisibleExactly(groups: seq<seq<string>>, attrs: Attrs)
    requires !Clean(attrs, '|')
    ensures (exists c :: Clean(c, '|') && Tells(groups, attrs, c)) <==>
            var parts := Split(Render(attrs, '|'), '|');
            Readable(parts) && Rollup(groups, Parse(parts)) != Rollup(groups, attrs)
  {
    hide Render, Clean, Rollup, Readable;
    UncleanCollidesExactly(attrs, '|');
  }

  /** A data point of any metric type: its attributes and the rest. */
  datatype DataPoint<V> = DataPoint(attrs: Attrs, value: V)

  ghost function WithAttrs<V>(p: DataPoint<V>, maps: seq<Attrs>): (r: seq<DataPoint<V>>)
    ensures |r| == |maps| && forall i :: 0 <= i < |r| ==> r[i] == DataPoint(maps[i], p.value)
  {
    seq(|maps|, i requires 0 <= i < |maps| => DataPoint(maps[i], p.value))
  }

  /** The data point itself unless it is dropped, and its copies. */
  ghost function Own<V>(drop: bool, p: DataPoint<V>, rollup: seq<Attrs>): seq<DataPoint<V>> {
    (if drop then [] else [p]) + WithAttrs(p, rollup)
  }

  /** What rolling up without a cache produces. */
  ghost function RolledUp<V>(groups: seq<seq<string>>, drop: bool, orig: seq<DataPoint<V>>): seq<DataPoint<V>> {
    if orig == [] then []
    else
      var p := orig[|orig| - 1];
      RolledUp(groups, drop, orig[..|orig| - 1]) + Own(drop, p, Rollup(groups, p.attrs))
  }

  /** What is found under the key of the attributes, or their rollup. */
  ghost function Served(groups: seq<seq<string>>, items: map<string, seq<Attrs>>, attrs: Attrs): seq<Attrs> {
    var key := Render(attrs, '|');
    if key in items then items[key] else Rollup(groups, attrs)
  }

  ghost function ServedIn(groups: seq<seq<string>>, items: map<string, seq<Attrs>>, attrs: Attrs): seq<Attrs> {
    if groups == [] then [] else Served(groups, items, attrs)
  }

  /** What a cache that forgets nothing holds after these points. */
  ghost function ItemsAfter<V>(groups: seq<seq<string>>, items: map<string, seq<Attrs>>, orig: seq<DataPoint<V>>):
    map<string, seq<Attrs>>
  {
    if orig == [] || groups == [] then items
    else
      var before, p := ItemsAfter(groups, items, orig[..|orig| - 1]), orig[|orig| - 1];
      before[Render(p.attrs, '|') := Served(groups, before, p.attrs)]
  }

  /** What rolling up with a cache that forgets nothing produces. */
  ghost function Remembering<V>(groups: seq<seq<string>>, drop: bool, items: map<string, seq<Attrs>>,
                                orig: seq<DataPoint<V>>):
    seq<DataPoint<V>>
  {
    if orig == [] then []
    else
      var front, p := orig[..|orig| - 1], orig[|orig| - 1];
      var held := ItemsAfter(groups, items, front);
      Remembering(groups, drop, items, front) + Own(drop, p, ServedIn(groups, held, p.attrs))
  }

  /** With any cache, and whatever it forgets, the output is the one produced without a cache, as long as attribute maps
      that share a key roll up alike (`known` are those that ever come along). Without that, a cache that forgets
      nothing serves what was stored first under the key. */
  method RollupDataPoints<V>(cache: RollupCache, groups: seq<seq<string>>, dropOriginal: set<string>,
                             metricName: string, orig: seq<DataPoint<V>>, ghost known: iset<Attrs>)
    returns (dest: seq<DataPoint<V>>, ghost rollups: seq<seq<Attrs>>)
    modifies cache
    ensures Expanded(dest, orig, metricName in dropOriginal, rollups)
    ensures groups == [] ==> dest == if metricName in dropOriginal then [] else orig
    ensures Unambiguous(groups, known) && old(cache.Coherent(groups, known)) &&
              (forall p <- orig :: p.attrs in known) ==>
              && cache.Coherent(groups, known) && dest == RolledUp(groups, metricName in dropOriginal, orig)
              && forall i :: 0 <= i < |orig| ==> rollups[i] == Rollup(groups, orig[i].attrs)
    ensures !cache.enabled ==>
              && dest == RolledUp(groups, metricName in dropOriginal, orig)
              && forall i :: 0 <= i < |orig| ==> rollups[i] == Rollup(groups, orig[i].attrs)
    ensures cache.enabled && cache.lasting ==>
              && cache.items == ItemsAfter(groups, old(cache.items), orig)
              && dest == Remembering(groups, metricName in dropOriginal, old(cache.items), orig)
  {
    hide cache.Coherent, Unambiguous, WithAttrs, Rollup, RolledUp, Remembering, ItemsAfter, ServedIn, Render, Own,
      Expanded;
    ghost var drop, first := metricName in dropOriginal, cache.items;
    OutputsOfNothing<V>(groups, drop, first);
    ghost var fits :=
      Unambiguous(groups, known) && cache.Coherent(groups, known) && forall p <- orig :: p.attrs in known;
    dest, rollups := [], [];
    ExpandedNothing<V>(drop);
    for i := 0 to |orig|
      invariant Expanded(dest, orig[..i], drop, rollups) && |rollups| == i
      invariant groups == [] ==> dest == if drop then [] else orig[..i]
      invariant fits ==> cache.Coherent(groups, known)
      invariant fits || !cache.enabled ==> dest == RolledUp(groups, drop, orig[..i])
      invariant fits || !cache.enabled ==> forall j :: 0 <= j < i ==> rollups[j] == Rollup(groups, orig[j].attrs)
      invariant cache.enabled && cache.lasting ==> cache.items == ItemsAfter(groups, first, orig[..i])
      invariant cache.enabled && cache.lasting ==> dest == Remembering(groups, drop, first, orig[..i])
    {
      OutputsNext(groups, drop, first, orig, i);
      assert orig[i] in orig;
      var out;
      ghost var rollup;
      out, rollup := OnePoint(cache, groups, metricName in dropOriginal, orig[i], known);
      ExpandedNext(dest, orig[..i], drop, rollups, orig[i], rollup);
      assert orig[..i + 1] == orig[..i] + [orig[i]];
      if groups == [] { OwnAlone(drop, orig[i]); }
      dest, rollups := dest + out, rollups + [rollup];
    }
    assert orig[..|orig|] == orig;
  }

  /** Nothing is stored where there are no groups. */
  ghost function Stored(groups: seq<seq<string>>, items: map<string, seq<Attrs>>, attrs: Attrs, rollup: seq<Attrs>):
    map<string, seq<Attrs>>
  {
    if groups == [] then items else items[Render(attrs, '|') := rollup]
  }

  /** The body of the loop. */
  method OnePoint<V>(cache: RollupCache, groups: seq<seq<string>>, drop: bool, p: DataPoint<V>,
                     ghost known: iset<Attrs>)
    returns (out: seq<DataPoint<V>>, ghost rollup: seq<Attrs>)
    modifies cache
    ensures out == Own(drop, p, rollup) && (groups == [] ==> rollup == [])
    ensures Unambiguous(groups, known) && old(cache.Coherent(groups, known)) && p.attrs in known ==>
              cache.Coherent(groups, known) && rollup == Rollup(groups, p.attrs)
    ensures !cache.enabled ==> rollup == Rollup(groups, p.attrs)
    ensures cache.enabled && cache.lasting ==>
              && rollup == ServedIn(groups, old(cache.items), p.attrs)
              && cache.items == Stored(groups, old(cache.items), p.attrs, rollup)
  {
    hide cache.Coherent, Unambiguous, WithAttrs, Rollup, Served, Render;
    out := [];
    if !drop {
      out := out + [p];
    }
    rollup := [];
    if |groups| == 0 {
      NoGroups(p);
      return;
    }
    var cached := CachedRollup(cache, groups, p.attrs, known);
    rollup := cached;
    var copies := Copies(p, cached);
    out := out + copies;
  }

  // ----- what the output looks like -----

  /** Where the points for the i-th original begin. */
  ghost function Begin(drop: bool, rollups: seq<seq<Attrs>>, i: nat): nat
    requires i <= |rollups|
  {
    if i == 0 then 0 else Begin(drop, rollups, i - 1) + (if drop then 0 else 1) + |rollups[i - 1]|
  }

  /** From there on stand the copies of the point, one for each attribute map. */
  ghost predicate CopiesFrom<V>(dest: seq<DataPoint<V>>, at: nat, p: DataPoint<V>, maps: seq<Attrs>) {
    && at + |maps| <= |dest|
    && forall c :: 0 <= c < |maps| ==> dest[at + c] == DataPoint(maps[c], p.value)
  }

  /** Unless it is dropped, the i-th original stands right before its copies; each copy has its value and one attribute
      map of its rollup. */
  ghost predicate ExpandedAt<V>(dest: seq<DataPoint<V>>, orig: seq<DataPoint<V>>, drop: bool, rollups: seq<seq<Attrs>>,
                                i: nat)
    requires i < |orig| == |rollups|
  {
    var from := Begin(drop, rollups, i);
    var copies := if drop then from else from + 1;
    && CopiesFrom(dest, copies, orig[i], rollups[i])
    && (!drop ==> dest[from] == orig[i])
  }

  /** The output is that for each original in turn, and nothing else. */
  ghost predicate Expanded<V>(dest: seq<DataPoint<V>>, orig: seq<DataPoint<V>>, drop: bool, rollups: seq<seq<Attrs>>) {
    && |rollups| == |orig| && |dest| == Begin(drop, rollups, |rollups|)
    && forall i :: 0 <= i < |orig| ==> ExpandedAt(dest, orig, drop, rollups, i)
  }

  lemma ExpandedNothing<V>(drop: bool)
    ensures Expanded<V>([], [], drop, [])
  {}

  lemma OwnAlone<V>(drop: bool, p: DataPoint<V>)
    ensures Own(drop, p, []) == if drop then [] else [p]
  {}

  lemma {:induction false} BeginPrefix(drop: bool, rollups: seq<seq<Attrs>>, r: seq<Attrs>, i: nat)
    requires i <= |rollups|
    ensures Begin(drop, rollups + [r], i) == Begin(drop, rollups, i)
  {
    if i > 0 { BeginPrefix(drop, rollups, r, i - 1); }
  }

  lemma BeginNext(drop: bool, rollups: seq<seq<Attrs>>, r: seq<Attrs>)
    ensures var n := |rollups|;
            && Begin(drop, rollups + [r], n) == Begin(drop, rollups, n)
            && Begin(drop, rollups + [r], n + 1) == Begin(drop, rollups, n) + (if drop then 0 else 1) + |r|
  {
    BeginPrefix(drop, rollups, r, |rollups|);
  }

  lemma ExpandedNext<V>(dest: seq<DataPoint<V>>, orig: seq<DataPoint<V>>, drop: bool, rollups: seq<seq<Attrs>>,
                        p: DataPoint<V>, r: seq<Attrs>)
    requires Expanded(dest, orig, drop, rollups)
    ensures Expanded(dest + Own(drop, p, r), orig + [p], drop, rollups + [r])
  {
    hide ExpandedAt;
    var more, all, next := dest + Own(drop, p, r), orig + [p], rollups + [r];
    ExpandedLast(dest, orig, drop, rollups, p, r);
    hide Own, Begin;
    forall i | 0 <= i < |all| ensures ExpandedAt(more, all, drop, next, i) {
      if i < |orig| {
        ExpandedStill(dest, orig, drop, rollups, Own(drop, p, r), p, r, i);
      }
    }
  }

  /** What was there stays where it was. */
  lemma ExpandedStill<V>(dest: seq<DataPoint<V>>, orig: seq<DataPoint<V>>, drop: bool, rollups: seq<seq<Attrs>>,
                         more: seq<DataPoint<V>>, p: DataPoint<V>, r: seq<Attrs>, i: nat)
    requires i < |orig| == |rollups| && ExpandedAt(dest, orig, drop, rollups, i)
    ensures ExpandedAt(dest + more, orig + [p], drop, rollups + [r], i)
  {
    BeginPrefix(drop, rollups, r, i);
    hide Begin;
  }

  /** The last original and its copies follow. */
  lemma ExpandedLast<V>(dest: seq<DataPoint<V>>, orig: seq<DataPoint<V>>, drop: bool, rollups: seq<seq<Attrs>>,
                        p: DataPoint<V>, r: seq<Attrs>)
    requires |orig| == |rollups| && |dest| == Begin(drop, rollups, |rollups|)
    ensures ExpandedAt(dest + Own(drop, p, r), orig + [p], drop, rollups + [r], |orig|)
    ensures |dest + Own(drop, p, r)| == Begin(drop, rollups + [r], |orig| + 1)
  {
    BeginNext(drop, rollups, r);
    OwnPlaced(dest, drop, p, r);
    hide Own, CopiesFrom, Begin;
    assert (orig + [p])[|orig|] == p && (rollups + [r])[|orig|] == r;
  }

  /** After what is there stands the point itself, unless it is dropped, and then its copies. */
  lemma OwnPlaced<V>(dest: seq<DataPoint<V>>, drop: bool, p: DataPoint<V>, r: seq<Attrs>)
    ensures var more, n := dest + Own(drop, p, r), |dest| + if drop then 0 else 1;
            |more| == n + |r| && (!drop ==> more[|dest|] == p) && CopiesFrom(more, n, p, r)
  {
    OwnParts(dest, drop, p, r);
    var front := if drop then dest else dest + [p];
    BehindFront(front, p, r);
    assert !drop ==> (front + WithAttrs(p, r))[|dest|] == front[|dest|];
    hide Own, WithAttrs, CopiesFrom;
  }

  lemma BehindFront<V>(front: seq<DataPoint<V>>, p: DataPoint<V>, r: seq<Attrs>)
    ensures CopiesFrom(front + WithAttrs(p, r), |front|, p, r)
  {
    var all := front + WithAttrs(p, r);
    forall c | 0 <= c < |r| ensures all[|front| + c] == DataPoint(r[c], p.value) {
      assert all[|front| + c] == WithAttrs(p, r)[c];
    }
  }

  lemma OwnParts<V>(dest: seq<DataPoint<V>>, drop: bool, p: DataPoint<V>, r: seq<Attrs>)
    ensures dest + Own(drop, p, r) == (if drop then dest else dest + [p]) + WithAttrs(p, r)
  {
    hide WithAttrs;
  }

  /** What a rollup consists of: for each group of names without repetition that is smaller than the attributes and
      contained in them, the attributes of these names. */
  lemma {:induction false} RollupMeaning(groups: seq<seq<string>>, base: Attrs)
    ensures forall r <- Rollup(groups, base) :: exists g <- groups :: RolledTo(r, g, base)
    ensures forall g <- groups :: Distinct(g) && |g| < |base| && (forall k <- g :: k in base) ==>
              exists r <- Rollup(groups, base) :: RolledTo(r, g, base)
  {
    if groups != [] {
      var front, last := groups[..|groups| - 1], groups[|groups| - 1];
      var before, all := Rollup(front, base), Rollup(groups, base);
      RollupMeaning(front, base);
      LastRolled(last, base);
      assert all == if Applies(last, base) then before + [Only(base, last)] else before;
      hide Rollup, Applies, Only, RolledTo;
      assert last in groups && (forall g <- front :: g in groups) && forall g <- groups :: g in front || g == last;
      assert forall r <- before :: r in all;
      assert Applies(last, base) ==> Only(base, last) in all;
      forall r <- all ensures exists g <- groups :: RolledTo(r, g, base) {
        if r in before {
          var g :| g in front && RolledTo(r, g, base);
        }
      }
    }
  }

  /** The maps stand in the order of the groups, at most one for each. */
  lemma {:induction false} RollupConcat(a: seq<seq<string>>, b: seq<seq<string>>, base: Attrs)
    ensures Rollup(a + b, base) == Rollup(a, base) + Rollup(b, base)
    ensures |Rollup(b, base)| <= |b|
  {
    hide Applies, Only;
    if b == [] {
      assert a + b == a;
    } else {
      assert (a + b)[..|a + b| - 1] == a + b[..|b| - 1];
      RollupConcat(a, b[..|b| - 1], base);
    }
  }

  lemma LastRolled(group: seq<string>, base: Attrs)
    ensures Applies(group, base) ==> RolledTo(Only(base, group), group, base)
    ensures Distinct(group) && |group| < |base| && (forall k <- group :: k in base) ==> Applies(group, base)
  {
    NameSetSize(group);
    if Applies(group, base) { OnlySize(base, group); }
  }

  ghost predicate RolledTo(r: Attrs, g: seq<string>, base: Attrs) {
    && |r| == |g| < |base| && (forall k :: k in r <==> k in g)
    && forall k <- r :: k in base && r[k] == base[k]
  }

  lemma OutputsOfNothing<V>(groups: seq<seq<string>>, drop: bool, items: map<string, seq<Attrs>>)
    ensures RolledUp<V>(groups, drop, []) == [] && Remembering<V>(groups, drop, items, []) == []
    ensures ItemsAfter<V>(groups, items, []) == items
  {}

  lemma OutputsNext<V>(groups: seq<seq<string>>, drop: bool, items: map<string, seq<Attrs>>, orig: seq<DataPoint<V>>,
                       i: nat)
    requires i < |orig|
    ensures var front, p := orig[..i], orig[i];
            var held := ItemsAfter(groups, items, front);
            var served := ServedIn(groups, held, p.attrs);
            var own, kept := Own(drop, p, Rollup(groups, p.attrs)), Own(drop, p, served);
            && RolledUp(groups, drop, orig[..i + 1]) == RolledUp(groups, drop, front) + own
            && Remembering(groups, drop, items, orig[..i + 1]) == Remembering(groups, drop, items, front) + kept
            && ItemsAfter(groups, items, orig[..i + 1]) == Stored(groups, held, p.attrs, served)
  {
    hide Served, Rollup, Own, Render;
    assert orig[..i + 1][..i] == orig[..i];
    if groups == [] { NoItems(items, orig[..i]); }
  }

  lemma NoItems<V>(items: map<string, seq<Attrs>>, orig: seq<DataPoint<V>>)
    ensures ItemsAfter([], items, orig) == items
  {}

  lemma NoGroups<V>(p: DataPoint<V>)
    ensures WithAttrs(p, Rollup([], p.attrs)) == [] && WithAttrs(p, []) == []
  {}

  method Copies<V>(p: DataPoint<V>, rollup: seq<Attrs>) returns (copies: seq<DataPoint<V>>)
    ensures copies == WithAttrs(p, rollup)
  {
    copies := [];
    for j := 0 to |rollup|
      invariant copies == WithAttrs(p, rollup[..j])
    {
      assert WithAttrs(p, rollup[..j + 1]) == WithAttrs(p, rollup[..j]) + [DataPoint(rollup[j], p.value)];
      copies := copies + [DataPoint(rollup[j], p.value)];
    }
    assert rollup[..|rollup|] == rollup;
  }

  /** The rollup of the attributes, or whatever is found under their key. */
  method CachedRollup(cache: RollupCache, groups: seq<seq<string>>, attrs: Attrs, ghost known: iset<Attrs>)
    returns (rollup: seq<Attrs>)
    modifies cache
    ensures rollup == Rollup(groups, attrs) || (cache.enabled && rollup == Served(groups, old(cache.items), attrs))
    ensures cache.enabled && cache.lasting ==>
              && rollup == Served(groups, old(cache.items), attrs)
              && cache.items == old(cache.items)[Render(attrs, '|') := rollup]
    ensures !cache.enabled ==> rollup == Rollup(groups, attrs)
    ensures Unambiguous(groups, known) && old(cache.Coherent(groups, known)) && attrs in known ==>
              cache.Coherent(groups, known) && rollup == Rollup(groups, attrs)
  {
    hide Render, Rollup;
    var key := cache.Key(attrs);
    var item := cache.Get(key);
    if item.None? {
      rollup := BuildRollup(groups, attrs);
      cache.Set(key, rollup);
    } else {
      rollup := item.value;
    }
  }

  // ----- when the cache shows -----

  ghost predicate Points<V>(orig: seq<DataPoint<V>>, known: iset<Attrs>) {
    forall p <- orig :: p.attrs in known
  }

  /** Exactly when a cache that forgets nothing makes no difference to any sequence of data points with these
      attributes. */
  lemma CacheInvisibleExactly<V>(groups: seq<seq<string>>, drop: bool, known: iset<Attrs>, v: V)
    ensures Unambiguous(groups, known) <==>
            forall orig: seq<DataPoint<V>> :: Points(orig, known) ==>
              Remembering(groups, drop, map[], orig) == RolledUp(groups, drop, orig)
  {
    hide Remembering, RolledUp, Points, Render, Rollup, Unambiguous;
    if Unambiguous(groups, known) {
      forall orig: seq<DataPoint<V>> | Points(orig, known)
        ensures Remembering(groups, drop, map[], orig) == RolledUp(groups, drop, orig)
      {
        RemembersRight(groups, drop, known, orig);
      }
    } else {
      var a, b := Ambiguity(groups, known);
      AmbiguousVisible(groups, drop, a, b, v);
      TwoPoints(known, a, b, v);
    }
  }

  lemma Ambiguity(groups: seq<seq<string>>, known: iset<Attrs>) returns (a: Attrs, b: Attrs)
    requires !Unambiguous(groups, known)
    ensures a in known && b in known && Render(a, '|') == Render(b, '|') && Rollup(groups, a) != Rollup(groups, b)
  {
    hide Render, Rollup;
    a, b :| a in known && b in known && Render(a, '|') == Render(b, '|') && Rollup(groups, a) != Rollup(groups, b);
  }

  lemma TwoPoints<V>(known: iset<Attrs>, a: Attrs, b: Attrs, v: V)
    requires a in known && b in known
    ensures Points([DataPoint(a, v), DataPoint(b, v)], known)
  {}

  lemma {:induction false} RemembersRight<V>(groups: seq<seq<string>>, drop: bool, known: iset<Attrs>,
                                             orig: seq<DataPoint<V>>)
    requires Unambiguous(groups, known) && Points(orig, known)
    ensures Remembering(groups, drop, map[], orig) == RolledUp(groups, drop, orig)
    ensures var items := ItemsAfter(groups, map[], orig);
            forall a <- known :: Render(a, '|') in items ==> items[Render(a, '|')] == Rollup(groups, a)
  {
    hide Render, Own;
    if orig != [] {
      var front, p := orig[..|orig| - 1], orig[|orig| - 1];
      assert p in orig && forall q <- front :: q in orig;
      hide Rollup;
      RemembersRight(groups, drop, known, front);
      if groups == [] { NoGroups(p); }
    }
  }

  /** Two attribute maps with the same key and different rollups, one after the other: the second gets the rollup of the
      first, and the output is not the one without a cache. */
  lemma AmbiguousVisible<V>(groups: seq<seq<string>>, drop: bool, a: Attrs, b: Attrs, v: V)
    requires Render(a, '|') == Render(b, '|') && Rollup(groups, a) != Rollup(groups, b)
    ensures var orig := [DataPoint(a, v), DataPoint(b, v)];
            Remembering(groups, drop, map[], orig) != RolledUp(groups, drop, orig)
  {
    hide Render, Own;
    var p, q := DataPoint(a, v), DataPoint(b, v);
    var orig := [p, q];
    assert orig[..1] == [p] && orig[..1][..0] == [];
    assert groups != [];
    hide Rollup;
    var none: map<string, seq<Attrs>> := map[];
    assert Served(groups, ItemsAfter(groups, none, [p]), b) == Rollup(groups, a);
    var x, y := Own(drop, q, Rollup(groups, a)), Own(drop, q, Rollup(groups, b));
    CopiesDiffer(drop, q, Rollup(groups, a), Rollup(groups, b));
    var front := RolledUp(groups, drop, [p]);
    OutputsOfNothing<V>(groups, drop, none);
    assert [p][..0] == [] && Served(groups, none, a) == Rollup(groups, a);
    assert Remembering(groups, drop, none, [p]) == front;
    assert Remembering(groups, drop, none, orig) == front + x;
    assert RolledUp(groups, drop, orig) == front + y;
    assert (front + x)[|front|..] == x && (front + y)[|front|..] == y;
  }

  lemma CopiesDiffer<V>(drop: bool, q: DataPoint<V>, x: seq<Attrs>, y: seq<Attrs>)
    requires x != y
    ensures Own(drop, q, x) != Own(drop, q, y)
  {
    var n := if drop then 0 else 1;
    assert Own(drop, q, x)[n..] == WithAttrs(q, x) && Own(drop, q, y)[n..] == WithAttrs(q, y);
    if |x| == |y| {
      var i :| 0 <= i < |x| && x[i] != y[i];
      assert WithAttrs(q, x)[i] != WithAttrs(q, y)[i];
    }
  }

  /** The attributes share their key with others that the groups roll up differently. */
  ghost predicate Tells(groups: seq<seq<string>>, attrs: Attrs, other: Attrs) {
    Render(other, '|') == Render(attrs, '|') && Rollup(groups, other) != Rollup(groups, attrs)
  }

  /** Exactly when some groups make attributes visible through the key they share with others: their key can be cut into
      two pairs. Every map of two or more attributes has such a key. */
  lemma KeyTellsExactly(attrs: Attrs)
    ensures (exists groups, other :: Tells(groups, attrs, other)) <==> TwoPairs(Render(attrs, '|'), '|')
  {
    hide Render, TwoPairs;
    RenderingOfTwo(Render(attrs, '|'), '|');
    if TwoPairs(Render(attrs, '|'), '|') {
      var n: Attrs :| |n| >= 2 && Render(n, '|') == Render(attrs, '|');
      var other := n;
      if n == attrs {
        TwoPairsTwoColons(n, '|');
        other := OtherReading(n, Render(n, '|'), '|');
      }
      var groups := GroupsTell(attrs, other);
      assert Tells(groups, attrs, other);
    }
    if groups, other :| Tells(groups, attrs, other) {
      RenderEmpty('|');
      if attrs != map[] { RenderNonEmpty(attrs, '|'); }
      if other != map[] { RenderNonEmpty(other, '|'); }
      if |attrs| < 2 && |other| < 2 {
        SmallAlike(groups, attrs, other);
      }
    }
  }

  lemma {:induction false} SmallAlike(groups: seq<seq<string>>, a: Attrs, b: Attrs)
    requires |a| < 2 && |b| < 2 && (a == map[] <==> b == map[])
    ensures Rollup(groups, a) == Rollup(groups, b)
  {
    if groups != [] {
      SmallAlike(groups[..|groups| - 1], a, b);
      var last := groups[|groups| - 1];
      if last == [] {
        assert Only(a, last) == map[] && Only(b, last) == map[];
      }
    }
  }

  /** Different attributes, one of them with two names: a group of one name tells them apart. */
  lemma GroupsTell(a: Attrs, b: Attrs) returns (groups: seq<seq<string>>)
    requires a != b && (|a| >= 2 || |b| >= 2)
    ensures Rollup(groups, a) != Rollup(groups, b)
  {
    if k :| k in a && |a| >= 2 && (k !in b || a[k] != b[k]) {
      groups := [[k]];
      OneName(k, a, b);
    } else {
      var k := NameBeyond(a, b);
      groups := [[k]];
      OneName(k, b, a);
    }
  }

  lemma NameBeyond(a: Attrs, b: Attrs) returns (k: string)
    requires a != b && (|a| >= 2 || |b| >= 2)
    requires |a| >= 2 ==> forall k <- a :: k in b && a[k] == b[k]
    ensures k in b && |b| >= 2 && (k !in a || a[k] != b[k])
  {
    if |a| >= 2 { FewerNames(a.Keys, b.Keys); }
    assert |a| == |a.Keys| && |b| == |b.Keys|;
    if forall l <- b :: l in a && a[l] == b[l] {
      FewerNames(b.Keys, a.Keys);
      assert false;
    }
    k :| k in b && (k !in a || a[k] != b[k]);
  }

  lemma FewerNames(x: set<string>, y: set<string>)
    requires x <= y
    ensures |x| <= |y|
  {
    assert y == x + (y - x);
  }

  lemma OneName(k: string, a: Attrs, b: Attrs)
    requires k in a && |a| >= 2 && (k !in b || a[k] != b[k])
    ensures Rollup([[k]], a) != Rollup([[k]], b)
  {
    hide Rollup;
    var g := [k];
    RollupOfOne(g, a);
    RollupOfOne(g, b);
    assert NameSet(g) == {k};
    assert Applies(g, a);
    assert k in Only(a, g) && Only(a, g)[k] == a[k];
    if Applies(g, b) {
      assert k in g;
      assert k in b && Only(b, g)[k] == b[k];
    }
  }

  lemma RollupOfOne(g: seq<string>, base: Attrs)
    ensures Rollup([g], base) == if Applies(g, base) then [Only(base, g)] else []
  {
    hide Applies, Only;
    assert [g][..0] == [];
  }

  /** A value that holds a bar: the rollup of the first attribute map is served for the second, which has the same
      key. */
  method UncleanCacheVisible() returns (dest: seq<DataPoint<int>>)
    ensures var a: Attrs := map["a" := "1|b:2"];
            var b: Attrs := map["a" := "1", "b" := "2"];
            dest != RolledUp([["a"]], false, [DataPoint(a, 0), DataPoint(b, 0)])
  {
    hide RolledUp, Remembering, Rollup, Render, ItemsAfter;
    var a: Attrs := map["a" := "1|b:2"];
    var b: Attrs := map["a" := "1", "b" := "2"];
    var cache := new RollupCache(true, true);
    ghost var rollups;
    dest, rollups := RollupDataPoints(cache, [["a"]], {}, "m", [DataPoint(a, 0), DataPoint(b, 0)], iset{});
    UncleanClash();
    AmbiguousVisible([["a"]], false, a, b, 0);
  }

  lemma UncleanClash()
    ensures var a: Attrs := map["a" := "1|b:2"];
            var b: Attrs := map["a" := "1", "b" := "2"];
            Render(a, '|') == Render(b, '|') && Rollup([["a"]], a) != Rollup([["a"]], b)
  {
    hide Render, Rollup;
    var a: Attrs := map["a" := "1|b:2"];
    var b: Attrs := map["a" := "1", "b" := "2"];
    UncleanCollide('|');
    assert "1|b:2" == "1" + ['|'] + "b:2";
    assert b.Keys == {"a", "b"} && |b| == |b.Keys|;
    OneName("a", b, a);
  }
}
