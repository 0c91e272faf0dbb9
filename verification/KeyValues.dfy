/** Maps rendered as sorted "name:value" pairs, the form in which attribute maps become map keys. */
module KeyValues {
  import opened Common
  import opened Strings

  function Pair(name: string, value: string): string {
    name + ":" + value
  }

  /** The names in the order in which a map happens to be visited. */
  ghost predicate Visits(order: seq<string>, names: set<string>) {
    Distinct(order) && forall k :: k in order <==> k in names
  }

  ghost function Pairs(order: seq<string>, m: map<string, string>): (r: seq<string>)
    requires forall k <- order :: k in m
    ensures |r| == |order|
    ensures forall i :: 0 <= i < |r| ==> r[i] == Pair(order[i], m[order[i]])
  {
    seq(|order|, i requires 0 <= i < |order| => assert order[i] in order; Pair(order[i], m[order[i]]))
  }

  lemma {:induction false} SomeVisit(names: set<string>) returns (order: seq<string>)
    ensures Visits(order, names)
  {
    if names == {} {
      order := [];
    } else {
      var k :| k in names;
      order := SomeVisit(names - {k});
      assert k !in order;
      order := order + [k];
    }
  }

  ghost function Order(names: set<string>): (order: seq<string>)
    ensures Visits(order, names)
  {
    SomeVisitExists(names);
    var order :| Visits(order, names);
    order
  }

  lemma SomeVisitExists(names: set<string>)
    ensures exists order :: Visits(order, names)
  {
    var order := SomeVisit(names);
  }

  /** The text is that of the sorted pairs, in whatever order the map is visited. */
  ghost predicate IsRendering(r: string, m: map<string, string>, sep: char) {
    forall order :: Visits(order, m.Keys) ==> r == Join(Sort(Pairs(order, m)), sep)
  }

  /** The rendered map. */
  ghost function Render(m: map<string, string>, sep: char): (r: string)
    ensures IsRendering(r, m, sep)
  {
    RenderingExists(m, sep);
    var r :| IsRendering(r, m, sep);
    r
  }

  /** The order in which the map is visited does not matter. */
  lemma RenderingExists(m: map<string, string>, sep: char)
    ensures exists r :: IsRendering(r, m, sep)
  {
    var some := SomeVisit(m.Keys);
    var r := Join(Sort(Pairs(some, m)), sep);
    forall order | Visits(order, m.Keys) ensures r == Join(Sort(Pairs(order, m)), sep) {
      VisitsMultiset(order, some, m.Keys);
      PairsMultiset(order, some, m);
      hide Sort;
      SortedUnique(Sort(Pairs(order, m)), Sort(Pairs(some, m)));
    }
    assert IsRendering(r, m, sep);
  }

  lemma {:induction false} VisitsMultiset(a: seq<string>, b: seq<string>, names: set<string>)
    requires Visits(a, names) && Visits(b, names)
    ensures multiset(a) == multiset(b)
  {
    forall k: string ensures multiset(a)[k] == multiset(b)[k] {
      DistinctCount(a, k);
      DistinctCount(b, k);
    }
  }

  lemma {:induction false} PairsMultiset(a: seq<string>, b: seq<string>, m: map<string, string>)
    requires multiset(a) == multiset(b)
    requires (forall k <- a :: k in m) && (forall k <- b :: k in m)
    ensures multiset(Pairs(a, m)) == multiset(Pairs(b, m))
    decreases |a|
  {
    hide Pairs, Pair;
    assert |a| == |multiset(a)| == |multiset(b)| == |b|;
    if a != [] {
      var n := |a| - 1;
      assert a[n] in multiset(b);
      var i :| 0 <= i < |b| && b[i] == a[n];
      PairsWithout(a, n, m);
      PairsWithout(b, i, m);
      PairsMultiset(Without(a, n), Without(b, i), m);
    }
  }

  ghost function Without(s: seq<string>, i: nat): seq<string>
    requires i < |s|
  {
    s[..i] + s[i + 1..]
  }

  lemma PairsWithout(s: seq<string>, i: nat, m: map<string, string>)
    requires i < |s| && forall k <- s :: k in m
    ensures s[i] in m && forall k <- Without(s, i) :: k in m
    ensures multiset(Without(s, i)) == multiset(s) - multiset{s[i]}
    ensures multiset(Pairs(s, m)) == multiset(Pairs(Without(s, i), m)) + multiset{Pair(s[i], m[s[i]])}
  {
    hide Pair, Pairs;
    var front, back := s[..i], s[i + 1..];
    assert s == front + [s[i]] + back;
    PairsConcat(front + [s[i]], back, m);
    PairsConcat(front, [s[i]], m);
    PairsConcat(front, back, m);
    PairsSingle(s[i], m);
    assert multiset(s) == multiset(front) + multiset{s[i]} + multiset(back);
  }

  lemma PairsSingle(k: string, m: map<string, string>)
    requires k in m
    ensures Pairs([k], m) == [Pair(k, m[k])]
  {}

  lemma PairsConcat(a: seq<string>, b: seq<string>, m: map<string, string>)
    requires forall k <- a + b :: k in m
    ensures (forall k <- a :: k in m) && (forall k <- b :: k in m)
    ensures Pairs(a + b, m) == Pairs(a, m) + Pairs(b, m)
  {
    assert forall k <- a :: k in a + b;
    assert forall k <- b :: k in a + b;
  }

  /** The order in which the map is visited does not matter. */
  lemma RenderAnyOrder(order: seq<string>, m: map<string, string>, sep: char)
    requires Visits(order, m.Keys)
    ensures Join(Sort(Pairs(order, m)), sep) == Render(m, sep)
  {
    hide Sort, Join;
    assert IsRendering(Render(m, sep), m, sep);
  }

  /** The loop shared by entityAttributesToString and the rollup cache's Key. */
  method RenderPairs(m: map<string, string>, sep: char) returns (r: string)
    ensures r == Render(m, sep)
  {
    var pairs: seq<string> := [];
    ghost var order: seq<string> := [];
    var todo := m.Keys;
    while todo != {}
      invariant todo <= m.Keys
      invariant Visits(order, m.Keys - todo)
      invariant pairs == Pairs(order, m)
      decreases |todo|
    {
      var k :| k in todo;
      assert k !in order;
      assert Pairs(order + [k], m) == Pairs(order, m) + [Pair(k, m[k])];
      pairs, order, todo := pairs + [Pair(k, m[k])], order + [k], todo - {k};
    }
    RenderAnyOrder(order, m, sep);
    r := Join(Sort(pairs), sep);
  }

  /** No name holds ':' or the separator, and no value holds the separator. */
  ghost predicate Clean(m: map<string, string>, sep: char) {
    forall k <- m :: ':' !in k && sep !in k && sep !in m[k]
  }

  function NameOf(part: string): string
    requires ':' in part
  {
    part[..IndexOf(part, ':')]
  }

  function ValueOf(part: string): string
    requires ':' in part
  {
    part[IndexOf(part, ':') + 1..]
  }

  /** Each pair is cut at its first ':'; pairs without one are skipped, later pairs win. */
  function Parse(parts: seq<string>): map<string, string> {
    if parts == [] then map[]
    else
      var rest, last := Parse(parts[..|parts| - 1]), parts[|parts| - 1];
      if ':' in last then rest[NameOf(last) := ValueOf(last)] else rest
  }

  lemma PairCut(k: string, v: string)
    requires ':' !in k
    ensures ':' in Pair(k, v) && IndexOf(Pair(k, v), ':') == |k|
    ensures Pair(k, v)[..|k|] == k && Pair(k, v)[|k| + 1..] == v
  {
    IndexOfUnique(k, ':', v);
    assert Pair(k, v) == k + [':'] + v;
    assert Pair(k, v)[|k|] == ':';
  }

  ghost predicate IsPair(p: string, m: map<string, string>) {
    exists k :: k in m && p == Pair(k, m[k])
  }

  lemma {:induction false} ParsePairs(parts: seq<string>, m: map<string, string>)
    requires forall k <- m :: ':' !in k
    requires forall p <- parts :: IsPair(p, m)
    ensures forall k <- Parse(parts) :: k in m && Parse(parts)[k] == m[k]
    ensures forall k <- m :: Pair(k, m[k]) in parts ==> k in Parse(parts)
  {
    if parts != [] {
      var front, last := parts[..|parts| - 1], parts[|parts| - 1];
      assert last in parts && forall p <- front :: p in parts;
      ParsePairs(front, m);
      var k :| k in m && last == Pair(k, m[k]);
      PairCut(k, m[k]);
      assert Parse(parts) == Parse(front)[k := m[k]];
      forall j <- m | Pair(j, m[j]) in parts ensures j in Parse(parts) {
        if Pair(j, m[j]) == last {
          PairCut(j, m[j]);
        } else {
          assert Pair(j, m[j]) in front;
        }
      }
    }
  }

  lemma SortedMembers(order: seq<string>, m: map<string, string>)
    requires Visits(order, m.Keys)
    ensures forall p :: p in Sort(Pairs(order, m)) <==> IsPair(p, m)
    ensures |Sort(Pairs(order, m))| == |order|
  {
    var pairs := Pairs(order, m);
    var sorted := Sort(pairs);
    assert |multiset(sorted)| == |sorted| && |multiset(pairs)| == |pairs|;
    forall p ensures p in sorted <==> IsPair(p, m) {
      assert p in sorted <==> p in multiset(sorted);
      assert p in pairs <==> p in multiset(pairs);
      if p in pairs {
        var i :| 0 <= i < |pairs| && pairs[i] == p;
        assert order[i] in order;
      }
      if k :| k in m && p == Pair(k, m[k]) {
        assert k in order;
        var i :| 0 <= i < |order| && order[i] == k;
        assert pairs[i] == p;
      }
    }
  }

  lemma RenderSplits(order: seq<string>, m: map<string, string>, sep: char)
    requires Clean(m, sep) && sep != ':' && m != map[] && Visits(order, m.Keys)
    ensures Split(Render(m, sep), sep) == Sort(Pairs(order, m))
    ensures ':' in Render(m, sep)
  {
    hide Sort, Pairs, Join, Split;
    RenderAnyOrder(order, m, sep);
    var sorted := Sort(Pairs(order, m));
    SortedMembers(order, m);
    assert order != [] by {
      var some :| some in m;
      assert some in order;
    }
    forall p <- sorted ensures sep !in p && ':' in p {
      var k :| k in m && p == Pair(k, m[k]);
    }
    SplitJoin(sorted, sep);
    assert sorted[0] in sorted;
    JoinHas(sorted, sep, ':');
  }

  lemma JoinHas(parts: seq<string>, sep: char, c: char)
    requires parts != [] && c in parts[0]
    ensures c in Join(parts, sep)
  {}

  /** Rendering a clean map loses nothing. */
  lemma RenderRoundTrip(m: map<string, string>, sep: char)
    requires Clean(m, sep) && sep != ':' && m != map[]
    ensures Parse(Split(Render(m, sep), sep)) == m
  {
    var order := SomeVisit(m.Keys);
    SortedMembers(order, m);
    RenderSplits(order, m, sep);
    ParsePairs(Sort(Pairs(order, m)), m);
  }

  lemma RenderEmpty(sep: char)
    ensures Render(map[], sep) == ""
  {
    var m: map<string, string> := map[];
    RenderAnyOrder([], m, sep);
  }

  /** Different clean maps are rendered differently. */
  lemma RenderInjective(m: map<string, string>, n: map<string, string>, sep: char)
    requires Clean(m, sep) && Clean(n, sep) && sep != ':'
    requires Render(m, sep) == Render(n, sep)
    ensures m == n
  {
    RenderEmpty(sep);
    if m != map[] {
      RenderRoundTrip(m, sep);
      RenderHasColon(m, sep);
    }
    if n != map[] {
      RenderRoundTrip(n, sep);
      RenderHasColon(n, sep);
    }
  }

  // ----- which renderings read as those of a clean map -----

  /** Every part holds a ':'. */
  ghost predicate AllPairs(parts: seq<string>) {
    forall p <- parts :: ':' in p
  }

  ghost function Names(parts: seq<string>): (r: seq<string>)
    requires AllPairs(parts)
    ensures |r| == |parts| && forall i :: 0 <= i < |r| ==> parts[i] in parts && r[i] == NameOf(parts[i])
  {
    seq(|parts|, i requires 0 <= i < |parts| => assert parts[i] in parts; NameOf(parts[i]))
  }

  /** The parts are sorted pairs with different names. */
  ghost predicate Readable(parts: seq<string>) {
    Sorted(parts) && AllPairs(parts) && Distinct(Names(parts))
  }

  /** The names of pairs are those of the map they read as. */
  lemma {:induction false} ParseKeys(parts: seq<string>)
    requires AllPairs(parts)
    ensures forall k :: k in Parse(parts) <==> k in Names(parts)
  {
    if parts != [] {
      hide NameOf, ValueOf;
      NamesFront(parts);
      ParseKeys(parts[..|parts| - 1]);
    }
  }

  /** Distinctly named pairs are read one by one. */
  lemma {:induction false} ParsePart(parts: seq<string>, i: nat)
    requires AllPairs(parts) && Distinct(Names(parts)) && i < |parts|
    ensures parts[i] == Pair(Names(parts)[i], ValueIn(Parse(parts), Names(parts)[i]))
  {
    hide Pair, NameOf, ValueOf;
    var front, last := parts[..|parts| - 1], parts[|parts| - 1];
    NamesFront(parts);
    if i < |front| {
      ParsePart(front, i);
      assert Names(parts)[i] != Names(parts)[|front|];
    } else {
      PairParts(last);
    }
  }

  function ValueIn(m: map<string, string>, k: string): string {
    if k in m then m[k] else ""
  }

  lemma NamesFront(parts: seq<string>)
    requires AllPairs(parts) && parts != []
    ensures AllPairs(parts[..|parts| - 1]) && parts[|parts| - 1] in parts
    ensures Names(parts) == Names(parts[..|parts| - 1]) + [NameOf(parts[|parts| - 1])]
    ensures Distinct(Names(parts)) ==> Distinct(Names(parts[..|parts| - 1]))
  {
    hide NameOf;
    var front := parts[..|parts| - 1];
    assert parts[|front|] in parts && forall p <- front :: p in parts;
    assert forall i :: 0 <= i < |front| ==> Names(parts)[i] == Names(front)[i];
  }

  lemma PairParts(part: string)
    requires ':' in part
    ensures part == Pair(NameOf(part), ValueOf(part))
  {
    var at := IndexOf(part, ':');
    assert part == part[..at] + [':'] + part[at + 1..];
  }

  /** Readable parts are the rendering of the clean map they read as. */
  lemma ReadableRenders(parts: seq<string>, sep: char)
    requires Readable(parts) && sep != ':' && forall p <- parts :: sep !in p
    ensures Clean(Parse(parts), sep) && Render(Parse(parts), sep) == Join(parts, sep)
  {
    hide Sort, Render, NameOf, Parse, Sorted;
    var m, names := Parse(parts), Names(parts);
    ParseKeys(parts);
    forall i | 0 <= i < |parts| ensures Pairs(names, m)[i] == parts[i] { ParsePart(parts, i); }
    assert Pairs(names, m) == parts;
    RenderAnyOrder(names, m, sep);
    SortedUnique(Sort(parts), parts);
    forall k <- m ensures ':' !in k && sep !in k && sep !in m[k] {
      var i :| 0 <= i < |parts| && names[i] == k;
      assert parts[i] in parts && parts[i] == Pair(k, m[k]);
      NameClean(parts[i]);
    }
  }

  lemma NameClean(part: string)
    requires ':' in part
    ensures ':' !in NameOf(part)
  {}

  /** The other way round: the pairs of a clean map are readable. */
  lemma RenderReadable(order: seq<string>, m: map<string, string>, sep: char)
    requires Clean(m, sep) && Visits(order, m.Keys)
    ensures Readable(Sort(Pairs(order, m)))
  {
    hide Sorted, Clean, Pair, Distinct, NameOf;
    var pairs := Pairs(order, m);
    var sorted := Sort(pairs);
    SortedMembers(order, m);
    PairsDistinct(order, m, sep);
    SameMultisetDistinct(pairs, sorted);
    forall p <- sorted ensures ':' in p { PairNamed(p, m, sep); }
    NamesDistinct(sorted, m, sep);
  }

  lemma PairNamed(p: string, m: map<string, string>, sep: char)
    requires Clean(m, sep) && IsPair(p, m)
    ensures ':' in p && NameOf(p) in m && p == Pair(NameOf(p), m[NameOf(p)])
  {
    var k :| k in m && p == Pair(k, m[k]);
    PairCut(k, m[k]);
  }

  lemma NamesDistinct(parts: seq<string>, m: map<string, string>, sep: char)
    requires Clean(m, sep) && Distinct(parts) && AllPairs(parts) && forall p <- parts :: IsPair(p, m)
    ensures Distinct(Names(parts))
  {
    hide Clean, NameOf, Pair, IsPair;
    forall i, j | 0 <= i < j < |parts| ensures Names(parts)[i] != Names(parts)[j] {
      PairNamed(parts[i], m, sep);
      PairNamed(parts[j], m, sep);
    }
  }

  lemma SameMultisetDistinct(a: seq<string>, b: seq<string>)
    requires Distinct(a) && multiset(a) == multiset(b)
    ensures Distinct(b)
  {
    if !Distinct(b) {
      var i, j :| 0 <= i < j < |b| && b[i] == b[j];
      RepeatCounts(b, i, j);
      DistinctCount(a, b[i]);
    }
  }

  lemma PairsDistinct(order: seq<string>, m: map<string, string>, sep: char)
    requires Clean(m, sep) && Visits(order, m.Keys)
    ensures Distinct(Pairs(order, m))
  {
    forall i, j | 0 <= i < j < |order| ensures Pairs(order, m)[i] != Pairs(order, m)[j] {
      assert order[i] in order && order[j] in order;
      PairCut(order[i], m[order[i]]);
      PairCut(order[j], m[order[j]]);
    }
  }

  /** A text is the rendering of a clean map exactly when it is empty or its parts are readable. */
  lemma CleanRendering(s: string, sep: char)
    requires sep != ':'
    ensures (exists c :: Clean(c, sep) && Render(c, sep) == s) <==> s == "" || Readable(Split(s, sep))
    ensures s != "" && Readable(Split(s, sep)) ==>
              Clean(Parse(Split(s, sep)), sep) && Render(Parse(Split(s, sep)), sep) == s
  {
    hide Readable, Clean, Render;
    RenderEmpty(sep);
    assert Clean(map[], sep) by { NothingClean(sep); }
    if s != "" && Readable(Split(s, sep)) {
      JoinSplit(s, sep);
      ReadableRenders(Split(s, sep), sep);
    }
    if c :| Clean(c, sep) && Render(c, sep) == s && s != "" {
      var order := SomeVisit(c.Keys);
      RenderReadable(order, c, sep);
      RenderSplits(order, c, sep);
    }
  }

  lemma NothingClean(sep: char)
    ensures Clean(map[], sep)
  {}

  lemma RenderNonEmpty(m: map<string, string>, sep: char)
    requires m != map[]
    ensures Render(m, sep) != ""
  {
    hide Render;
    RenderHasColon(m, sep);
  }

  lemma RenderHasColon(m: map<string, string>, sep: char)
    requires m != map[]
    ensures ':' in Render(m, sep)
  {
    var order := SomeVisit(m.Keys);
    RenderAnyOrder(order, m, sep);
    SortedMembers(order, m);
    var k :| k in m;
    assert k in order;
    var sorted := Sort(Pairs(order, m));
    assert sorted[0] in sorted;
    var l :| l in m && sorted[0] == Pair(l, m[l]);
    JoinHas(sorted, sep, ':');
  }

  lemma RenderOne(k: string, v: string, sep: char)
    ensures Render(map[k := v], sep) == Pair(k, v)
  {
    var m := map[k := v];
    RenderAnyOrder([k], m, sep);
    assert Pairs([k], m) == [Pair(k, v)];
    SortedUnique(Sort([Pair(k, v)]), [Pair(k, v)]);
  }

  // ----- which maps share their rendering with another map -----

  /** The text can be cut into a name and a value in two ways. */
  ghost predicate TwoColons(s: string) {
    exists i, j :: 0 <= i < j < |s| && s[i] == ':' && s[j] == ':'
  }

  /** A map is rendered like a different one exactly when its rendering holds two colons. */
  lemma CollidesExactly(m: map<string, string>, sep: char)
    ensures (exists n :: n != m && Render(n, sep) == Render(m, sep)) <==> TwoColons(Render(m, sep))
  {
    hide Render;
    var s := Render(m, sep);
    if TwoColons(s) {
      var n := OtherReading(m, s, sep);
    } else if n :| n != m && Render(n, sep) == s {
      OneColonUnique(m, n, sep);
    }
  }

  /** Exactly the texts that are empty or hold a colon are renderings. */
  lemma Renderings(s: string, sep: char)
    ensures (exists n :: Render(n, sep) == s) <==> s == "" || ':' in s
  {
    hide Render;
    RenderEmpty(sep);
    if ':' in s {
      CutAt(s, IndexOf(s, ':'), sep);
    }
    if n :| Render(n, sep) == s && n != map[] {
      RenderHasColon(n, sep);
    }
  }

  /** Of two ways to read the text as one pair, one is not the map. */
  lemma OtherReading(m: map<string, string>, s: string, sep: char) returns (n: map<string, string>)
    requires TwoColons(s)
    ensures n != m && Render(n, sep) == s && |n| == 1
  {
    hide Render;
    var i, j :| 0 <= i < j < |s| && s[i] == ':' && s[j] == ':';
    CutAt(s, i, sep);
    CutAt(s, j, sep);
    n := map[s[..i] := s[i + 1..]];
    if n == m {
      n := map[s[..j] := s[j + 1..]];
      assert s[..i] in m && s[..i] != s[..j];
    }
  }

  /** Every colon makes the text the rendering of one pair. */
  lemma CutAt(s: string, i: nat, sep: char)
    requires i < |s| && s[i] == ':'
    ensures Render(map[s[..i] := s[i + 1..]], sep) == s
  {
    hide Render;
    RenderOne(s[..i], s[i + 1..], sep);
    assert s == s[..i] + ":" + s[i + 1..];
  }

  /** A map of two pairs or more is rendered with two colons. */
  lemma TwoPairsTwoColons(m: map<string, string>, sep: char)
    requires |m| >= 2
    ensures TwoColons(Render(m, sep))
  {
    var order := SomeVisit(m.Keys);
    RenderAnyOrder(order, m, sep);
    var sorted := Sort(Pairs(order, m));
    SortedMembers(order, m);
    OrderSize(order, m);
    hide Sort, Pairs, Join;
    assert sorted[0] in sorted && sorted[1] in sorted;
    var k :| k in m && sorted[0] == Pair(k, m[k]);
    var l :| l in m && sorted[1] == Pair(l, m[l]);
    JoinTwoColons(sorted, sep, |k|, |l|);
  }

  lemma OrderSize(order: seq<string>, m: map<string, string>)
    requires Visits(order, m.Keys)
    ensures |order| == |m|
  {
    DistinctSize(order);
    assert Members(order) == m.Keys;
    assert |m| == |m.Keys|;
  }

  ghost function Members(s: seq<string>): set<string> {
    set k <- s
  }

  lemma {:induction false} DistinctSize(s: seq<string>)
    requires Distinct(s)
    ensures |Members(s)| == |s|
  {
    if s != [] {
      var front, last := s[..|s| - 1], s[|s| - 1];
      DistinctSize(front);
      assert Members(s) == Members(front) + {last};
      assert last !in front;
    }
  }

  lemma JoinTwoColons(parts: seq<string>, sep: char, i: nat, j: nat)
    requires |parts| >= 2 && i < |parts[0]| && parts[0][i] == ':' && j < |parts[1]| && parts[1][j] == ':'
    ensures TwoColons(Join(parts, sep))
  {
    var rest := Join(parts[1..], sep);
    assert rest[j] == ':';
    var s := Join(parts, sep);
    assert s == parts[0] + [sep] + rest;
    assert s[i] == ':' && s[|parts[0]| + 1 + j] == ':';
  }

  lemma OneColonUnique(m: map<string, string>, n: map<string, string>, sep: char)
    requires Render(m, sep) == Render(n, sep) && !TwoColons(Render(m, sep))
    ensures m == n
  {
    hide Render, TwoColons;
    RenderEmpty(sep);
    if |m| >= 2 { TwoPairsTwoColons(m, sep); }
    if |n| >= 2 { TwoPairsTwoColons(n, sep); }
    if m != map[] { RenderNonEmpty(m, sep); }
    if n != map[] { RenderNonEmpty(n, sep); }
    if m != map[] && n != map[] {
      var k, l := OnlyKey(m), OnlyKey(n);
      RenderOne(k, m[k], sep);
      RenderOne(l, n[l], sep);
      SamePair(k, m[k], l, n[l]);
    }
  }

  ghost function OnlyKey(m: map<string, string>): (k: string)
    requires |m| == 1
    ensures k in m && m == map[k := m[k]]
  {
    var k :| k in m;
    assert m.Keys == {k} by { OneElement(m.Keys, k); }
    k
  }

  lemma OneElement(s: set<string>, k: string)
    requires |s| == 1 && k in s
    ensures s == {k}
  {
    assert |s - {k}| == 0;
  }

  lemma SamePair(k: string, v: string, l: string, w: string)
    requires Pair(k, v) == Pair(l, w) && !TwoColons(Pair(k, v))
    ensures k == l && v == w
  {
    var s := Pair(k, v);
    assert s[|k|] == ':' && s[|l|] == ':';
    assert |k| == |l|;
    assert s[..|k|] == k && s[..|l|] == l && s[|k| + 1..] == v && s[|l| + 1..] == w;
  }

  lemma RenderTwo(k: string, v: string, l: string, w: string, sep: char)
    requires k != l && Leq(Pair(k, v), Pair(l, w))
    ensures Render(map[k := v, l := w], sep) == Pair(k, v) + [sep] + Pair(l, w)
  {
    hide Leq, Pair, Sort;
    var m := map[k := v, l := w];
    var pairs := [Pair(k, v), Pair(l, w)];
    RenderAnyOrder([k, l], m, sep);
    assert Pairs([k, l], m) == pairs;
    SortedUnique(Sort(pairs), pairs);
    assert pairs[1..] == [Pair(l, w)];
  }

  /** Exactly when an unclean map shares its rendering with a clean one, and with which. */
  lemma UncleanCollidesExactly(m: map<string, string>, sep: char)
    requires !Clean(m, sep) && sep != ':'
    ensures (exists c :: Clean(c, sep) && Render(c, sep) == Render(m, sep)) <==> Readable(Split(Render(m, sep), sep))
    ensures forall c :: Clean(c, sep) && Render(c, sep) == Render(m, sep) ==> c == Parse(Split(Render(m, sep), sep))
  {
    assert m != map[];
    RenderNonEmpty(m, sep);
    hide Clean, Render, Readable;
    CleanRendering(Render(m, sep), sep);
    forall c | Clean(c, sep) && Render(c, sep) == Render(m, sep) ensures c == Parse(Split(Render(m, sep), sep)) {
      RenderEmpty(sep);
      RenderRoundTrip(c, sep);
    }
  }

  /** The text can be cut at a separator into two pairs in order, with different names. */
  ghost predicate TwoPairs(s: string, sep: char) {
    exists i, p, j :: CutInTwo(s, sep, i, p, j)
  }

  ghost predicate CutInTwo(s: string, sep: char, i: int, p: int, j: int) {
    && 0 <= i < p < j < |s| && s[i] == ':' && s[p] == sep && s[j] == ':'
    && Leq(s[..p], s[p + 1..]) && s[..i] != s[p + 1..j]
  }

  /** A text is the rendering of a map of at least two pairs exactly when it can be cut so. */
  lemma RenderingOfTwo(s: string, sep: char)
    ensures (exists n :: |n| >= 2 && Render(n, sep) == s) <==> TwoPairs(s, sep)
  {
    hide Render, CutInTwo;
    if n :| |n| >= 2 && Render(n, sep) == s {
      var i, p, j := CutOfTwo(n, sep);
    }
    if i, p, j :| CutInTwo(s, sep, i, p, j) {
      var n := ReadAsTwo(s, sep, i, p, j);
    }
  }

  lemma ReadAsTwo(s: string, sep: char, i: int, p: int, j: int) returns (n: map<string, string>)
    requires CutInTwo(s, sep, i, p, j)
    ensures |n| == 2 && Render(n, sep) == s
  {
    hide Render, Leq;
    var k, v, l, w := s[..i], s[i + 1..p], s[p + 1..j], s[j + 1..];
    assert s[..p] == k + ":" + v && s[p + 1..] == l + ":" + w;
    RenderTwo(k, v, l, w, sep);
    n := map[k := v, l := w];
    assert n.Keys == {k, l} && |n| == |n.Keys|;
    assert s == s[..p] + [sep] + s[p + 1..];
  }

  lemma CutOfTwo(n: map<string, string>, sep: char) returns (i: int, p: int, j: int)
    requires |n| >= 2
    ensures CutInTwo(Render(n, sep), sep, i, p, j)
  {
    hide Render, Pair, CutInTwo, Leq;
    var k, l, rest := TwoPairsIn(n, sep);
    CutOfPairs(k, n[k], l, n[l], rest, sep);
    var first := Pair(k, n[k]);
    i, p, j := |k|, |first|, |first| + 1 + |l|;
  }

  /** A rendering of two pairs or more begins with a pair, followed by another pair that is no smaller. */
  lemma TwoPairsIn(n: map<string, string>, sep: char) returns (k: string, l: string, rest: string)
    requires |n| >= 2
    ensures k in n && l in n && k != l && Render(n, sep) == Pair(k, n[k]) + [sep] + rest
    ensures Pair(l, n[l]) <= rest && Leq(Pair(k, n[k]), rest)
  {
    var order := SomeVisit(n.Keys);
    OrderSize(order, n);
    hide Render, Pair, Leq, Sorted;
    k, l := TwoNames(order, n);
    RenderAnyOrder(order, n, sep);
    var sorted := Sort(Pairs(order, n));
    hide Sort, Pairs, Visits;
    rest := Join(sorted[1..], sep);
    FirstBelowRest(sorted, sep);
  }

  lemma CutOfPairs(k: string, v: string, l: string, w: string, rest: string, sep: char)
    requires Pair(l, w) <= rest && Leq(Pair(k, v), rest) && k != l
    ensures var p := |Pair(k, v)|;
            CutInTwo(Pair(k, v) + [sep] + rest, sep, |k|, p, p + 1 + |l|)
  {
    hide Leq;
    var first, second := Pair(k, v), Pair(l, w);
    var s, p := first + [sep] + rest, |first|;
    assert s[..p] == first && s[p + 1..] == rest;
    assert s[..|k|] == first[..|k|] == k && s[|k|] == first[|k|] == ':';
    assert s[p + 1..p + 1 + |l|] == rest[..|l|] == second[..|l|] == l;
    assert s[p + 1 + |l|] == rest[|l|] == second[|l|] == ':';
  }

  /** The names of the first two pairs. */
  lemma TwoNames(order: seq<string>, n: map<string, string>) returns (k: string, l: string)
    requires Visits(order, n.Keys) && |order| >= 2
    ensures |Sort(Pairs(order, n))| == |order|
    ensures k in n && l in n && k != l
    ensures Sort(Pairs(order, n))[0] == Pair(k, n[k]) && Sort(Pairs(order, n))[1] == Pair(l, n[l])
  {
    var pairs := Pairs(order, n);
    var sorted := Sort(pairs);
    SortedMembers(order, n);
    hide Sort, Pairs, Pair;
    assert sorted[0] in sorted && sorted[1] in sorted;
    if sorted[0] == sorted[1] {
      RepeatCounts(sorted, 0, 1);
      var a, b := CountedTwice(pairs, sorted[0]);
      k, l := order[a], order[b];
      PairsAt(order, n, a);
      PairsAt(order, n, b);
    } else {
      k :| k in n && sorted[0] == Pair(k, n[k]);
      l :| l in n && sorted[1] == Pair(l, n[l]);
    }
  }

  lemma PairsAt(order: seq<string>, n: map<string, string>, a: nat)
    requires Visits(order, n.Keys) && a < |order|
    ensures order[a] in n && Pairs(order, n)[a] == Pair(order[a], n[order[a]])
  {
    assert order[a] in order;
  }

  lemma FirstBelowRest(sorted: seq<string>, sep: char)
    requires |sorted| >= 2 && Sorted(sorted)
    ensures Leq(sorted[0], Join(sorted[1..], sep)) && sorted[1] <= Join(sorted[1..], sep)
  {
    var tail := sorted[1..];
    assert tail[0] == sorted[1];
    LeqPrefix(sorted[1], Join(tail, sep));
    LeqTransitive(sorted[0], sorted[1], Join(tail, sep));
  }

  /** A value that holds the separator breaks it: two different maps are rendered alike. */
  lemma UncleanCollide(sep: char)
    ensures Render(map["a" := "1" + [sep] + "b:2"], sep) == Render(map["a" := "1", "b" := "2"], sep)
  {
    hide Render;
    RenderOne("a", "1" + [sep] + "b:2", sep);
    assert Leq(Pair("a", "1"), Pair("b", "2"));
    RenderTwo("a", "1", "b", "2", sep);
    assert Pair("a", "1" + [sep] + "b:2") == Pair("a", "1") + [sep] + Pair("b", "2");
  }
}
