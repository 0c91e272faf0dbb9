/** Which namespace a merged rule gets, and when that changes what the rules denote.  A visiting choice is one way in
    which the maps of overlapping metrics and of their rules may be ranged over. */
module RuleNamespaces {
  import opened Common
  import opened MetricRules

  /** Two rules carry the metric. */
  ghost predicate Overlapping(views: seq<RuleView>, m: MetricAttr) {
    exists i: nat, j: nat :: i != j && Carries(views, i, m) && Carries(views, j, m)
  }

  /** Two rules that carry the metric have a dimension set in common. */
  ghost predicate Shared(views: seq<RuleView>, m: MetricAttr) {
    exists i: nat, j: nat, d :: i != j && Carries(views, i, m) && Carries(views, j, m) &&
                                d in views[i].dimensionSets && d in views[j].dimensionSets
  }

  /** Some dimension set is listed twice for the metric by the rules that carry it: these rules are merged. */
  ghost predicate Merging(views: seq<RuleView>, m: MetricAttr) {
    && Overlapping(views, m)
    && (Shared(views, m) || exists i: nat :: Carries(views, i, m) && !Distinct(views[i].dimensionSets))
  }

  /** The rule denotes pairs of a metric that is merged. */
  ghost predicate Speaks(views: seq<RuleView>, i: nat, m: MetricAttr) {
    Merging(views, m) && Carries(views, i, m) && views[i].dimensionSets != []
  }

  ghost predicate Choice(views: seq<RuleView>, dup: map<MetricAttr, seq<nat>>, visited: seq<MetricAttr>) {
    && Overlaps(dup, views)
    && (forall m <- dup :: InRange(dup[m], |views|))
    && Distinct(visited) && (forall m :: m in visited <==> m in dup)
  }

  /** With this choice, every rule that denotes pairs of a merged metric has the namespace that the merged rule gets. */
  ghost predicate Agrees(views: seq<RuleView>, dup: map<MetricAttr, seq<nat>>, visited: seq<MetricAttr>)
    requires Choice(views, dup, visited)
  {
    forall k, i: nat :: 0 <= k < |visited| && Speaks(views, i, visited[k]) ==>
                          views[i].namespace == NamespaceAfter(views, dup, visited[..k + 1])
  }

  /** No rule with an overlapping metric has another namespace than a rule that denotes pairs of a merged metric, except
      that it may have none. */
  ghost predicate Harmless(views: seq<RuleView>) {
    forall m, i: nat, n, j: nat ::
      Speaks(views, i, m) && Overlapping(views, n) && Carries(views, j, n) ==>
        views[j].namespace == "" || views[j].namespace == views[i].namespace
  }

  ghost predicate Differ(a: string, b: string) {
    a != "" && b != "" && a != b
  }

  /** Two rules that denote pairs of merged metrics have different namespaces. */
  ghost predicate Conflict(views: seq<RuleView>) {
    exists m, i: nat, n, j: nat ::
      Speaks(views, i, m) && Speaks(views, j, n) && Differ(views[i].namespace, views[j].namespace)
  }

  // ----- what decides a merge -----

  lemma {:induction false} AllDimensionsMember(views: seq<RuleView>, order: seq<nat>, d: seq<string>)
    requires InRange(order, |views|)
    ensures d in AllDimensions(views, order) <==> exists a :: 0 <= a < |order| && d in views[order[a]].dimensionSets
  {
    if order != [] {
      var front := order[..|order| - 1];
      AllDimensionsMember(views, front, d);
      if a :| 0 <= a < |front| && d in views[front[a]].dimensionSets {
        assert order[a] == front[a];
      }
      if a :| 0 <= a < |order| && d in views[order[a]].dimensionSets {
        assert a < |front| ==> front[a] == order[a];
      }
    }
  }

  lemma NotDistinctConcat<T>(a: seq<T>, b: seq<T>, d: T)
    requires !Distinct(a) || !Distinct(b) || (d in a && d in b)
    ensures !Distinct(a + b)
  {
    if !Distinct(a) {
      var i, j :| 0 <= i < j < |a| && a[i] == a[j];
      assert (a + b)[i] == (a + b)[j];
    } else if !Distinct(b) {
      var i, j :| 0 <= i < j < |b| && b[i] == b[j];
      assert (a + b)[|a| + i] == (a + b)[|a| + j];
    } else {
      var i :| 0 <= i < |a| && a[i] == d;
      var j :| 0 <= j < |b| && b[j] == d;
      assert (a + b)[i] == (a + b)[|a| + j];
    }
  }

  /** A dimension set that one of the rules lists twice, or two of them list, is listed twice altogether. */
  lemma {:induction false} DisjointDimensions(views: seq<RuleView>, order: seq<nat>, a: nat, b: nat, d: seq<string>)
    requires InRange(order, |views|) && a <= b < |order|
    requires d in views[order[a]].dimensionSets && d in views[order[b]].dimensionSets
    requires a == b ==> !Distinct(views[order[a]].dimensionSets)
    ensures !Distinct(AllDimensions(views, order))
    decreases |order|
  {
    hide Distinct;
    var front := order[..|order| - 1];
    if b < |front| {
      DisjointDimensions(views, front, a, b, d);
    } else if a < b {
      AllDimensionsMember(views, front, d);
      assert d in views[front[a]].dimensionSets;
    }
    NotDistinctConcat(AllDimensions(views, front), views[order[|front|]].dimensionSets, d);
  }

  /** The other way round. */
  lemma {:induction false} RepeatedDimensions(views: seq<RuleView>, order: seq<nat>)
    requires InRange(order, |views|) && !Distinct(AllDimensions(views, order))
    ensures || (exists a :: 0 <= a < |order| && !Distinct(views[order[a]].dimensionSets))
            || (exists a, b, d ::
                  0 <= a < b < |order| && d in views[order[a]].dimensionSets && d in views[order[b]].dimensionSets)
  {
    var front, last := order[..|order| - 1], order[|order| - 1];
    var all, more := AllDimensions(views, front), views[last].dimensionSets;
    if !Distinct(all) {
      RepeatedDimensions(views, front);
    } else if Distinct(more) {
      var i, j :| 0 <= i < j < |all + more| && (all + more)[i] == (all + more)[j];
      assert i < |all| <= j;
      AllDimensionsMember(views, front, all[i]);
      var a :| 0 <= a < |front| && all[i] in views[front[a]].dimensionSets;
      assert order[a] == front[a] && more[j - |all|] == all[i];
    }
  }

  /** Whether a metric is merged does not depend on the order in which its rules are visited. */
  lemma MergingDecides(views: seq<RuleView>, dup: map<MetricAttr, seq<nat>>, m: MetricAttr)
    requires Overlaps(dup, views) && m in dup && InRange(dup[m], |views|)
    ensures Overlapping(views, m)
    ensures Merging(views, m) <==> !Distinct(AllDimensions(views, dup[m]))
  {
    hide Distinct, AllDimensions, Overlaps, Shared;
    TwoCarriers(views, dup, m);
    if Shared(views, m) {
      SharedRepeats(views, dup, m);
    } else if i: nat :| Carries(views, i, m) && !Distinct(views[i].dimensionSets) {
      var a := CarrierAt(views, dup, m, i);
      var d := SomeDimension(views[i].dimensionSets);
      DisjointDimensions(views, dup[m], a, a, d);
    }
    if !Distinct(AllDimensions(views, dup[m])) {
      RepeatedMerges(views, dup, m);
    }
  }

  lemma CarrierAt(views: seq<RuleView>, dup: map<MetricAttr, seq<nat>>, m: MetricAttr, i: nat) returns (a: nat)
    requires Overlaps(dup, views) && m in dup && Carries(views, i, m)
    ensures a < |dup[m]| && dup[m][a] == i
  {
    assert i in dup[m];
    a :| 0 <= a < |dup[m]| && dup[m][a] == i;
  }

  lemma SharedRepeats(views: seq<RuleView>, dup: map<MetricAttr, seq<nat>>, m: MetricAttr)
    requires Overlaps(dup, views) && m in dup && InRange(dup[m], |views|) && Shared(views, m)
    ensures !Distinct(AllDimensions(views, dup[m]))
  {
    hide Distinct, AllDimensions, Overlaps;
    var i: nat, j: nat, d :| i != j && Carries(views, i, m) && Carries(views, j, m) &&
                             d in views[i].dimensionSets && d in views[j].dimensionSets;
    var a := CarrierAt(views, dup, m, i);
    var b := CarrierAt(views, dup, m, j);
    if a < b { DisjointDimensions(views, dup[m], a, b, d); } else { DisjointDimensions(views, dup[m], b, a, d); }
  }

  lemma RepeatedMerges(views: seq<RuleView>, dup: map<MetricAttr, seq<nat>>, m: MetricAttr)
    requires Overlaps(dup, views) && m in dup && InRange(dup[m], |views|) && !Distinct(AllDimensions(views, dup[m]))
    ensures Shared(views, m) || exists i: nat :: Carries(views, i, m) && !Distinct(views[i].dimensionSets)
  {
    hide Distinct, AllDimensions;
    var order := dup[m];
    RepeatedDimensions(views, order);
    forall a | 0 <= a < |order| ensures Carries(views, order[a], m) { assert order[a] in order; }
    if a, b, d :| 0 <= a < b < |order| && d in views[order[a]].dimensionSets && d in views[order[b]].dimensionSets {
      DistinctAt(order, a, b);
      assert Carries(views, order[a], m) && Carries(views, order[b], m);
    }
  }

  lemma SomeDimension(ds: seq<seq<string>>) returns (d: seq<string>)
    requires !Distinct(ds)
    ensures d in ds
  {
    var i, j :| 0 <= i < j < |ds| && ds[i] == ds[j];
    d := ds[i];
  }

  lemma DistinctAt<T>(s: seq<T>, i: nat, j: nat)
    requires Distinct(s) && i < j < |s|
    ensures s[i] != s[j]
  {}

  lemma TwoCarriers(views: seq<RuleView>, dup: map<MetricAttr, seq<nat>>, m: MetricAttr)
    requires Overlaps(dup, views) && m in dup
    ensures Overlapping(views, m)
  {
    var i, j := dup[m][0], dup[m][1];
    assert i in dup[m] && j in dup[m] && i != j;
    assert Carries(views, i, m) && Carries(views, j, m);
  }

  // ----- the namespace in use -----

  lemma {:induction false} FirstNamedFrom(views: seq<RuleView>, order: seq<nat>, ns0: string)
    requires InRange(order, |views|)
    ensures var ns := FirstNamed(views, order, ns0);
            && (ns0 != "" ==> ns == ns0)
            && (ns == "" ==> forall i <- order :: i < |views| && views[i].namespace == "")
            && (ns != "" && ns != ns0 ==> exists i <- order :: i < |views| && views[i].namespace == ns)
  {
    if order != [] {
      var front, last := order[..|order| - 1], order[|order| - 1];
      FirstNamedFrom(views, front, ns0);
      assert last in order && forall i <- front :: i in order;
      assert forall i <- order :: i in front || i == last;
    }
  }

  /** Once there is a namespace it stays. */
  lemma {:induction false} NamespaceSticks(views: seq<RuleView>, dup: map<MetricAttr, seq<nat>>,
                                           visited: seq<MetricAttr>, k: nat)
    requires (forall m <- visited :: m in dup && InRange(dup[m], |views|)) && k <= |visited|
    requires NamespaceAfter(views, dup, visited[..k]) != ""
    ensures NamespaceAfter(views, dup, visited) == NamespaceAfter(views, dup, visited[..k])
    decreases |visited|
  {
    if k == |visited| {
      assert visited[..k] == visited;
    } else {
      hide InRange;
      var front := visited[..|visited| - 1];
      assert forall m <- front :: m in visited;
      assert front[..k] == visited[..k] && visited[|visited| - 1] in visited;
      NamespaceSticks(views, dup, front, k);
      FirstNamedFrom(views, dup[visited[|visited| - 1]], NamespaceAfter(views, dup, front));
    }
  }

  /** The namespace in use is that of a visited rule; while there is none, no visited rule has one. */
  lemma {:induction false} NamespaceFrom(views: seq<RuleView>, dup: map<MetricAttr, seq<nat>>, visited: seq<MetricAttr>)
    requires forall m <- visited :: m in dup && InRange(dup[m], |views|)
    ensures var ns := NamespaceAfter(views, dup, visited);
            && (ns == "" ==> forall m <- visited, i <- dup[m] :: i < |views| && views[i].namespace == "")
            && (ns != "" ==> exists m <- visited, i <- dup[m] :: i < |views| && views[i].namespace == ns)
  {
    if visited != [] {
      hide InRange;
      var front, last := visited[..|visited| - 1], visited[|visited| - 1];
      assert last in visited && forall m <- front :: m in visited;
      NamespaceFrom(views, dup, front);
      FirstNamedFrom(views, dup[last], NamespaceAfter(views, dup, front));
      assert forall m <- visited :: m in front || m == last;
    }
  }

  // ----- every choice, some choice, no choice -----

  /** Where no other namespace comes into play, every choice agrees. */
  lemma HarmlessAgrees(views: seq<RuleView>, dup: map<MetricAttr, seq<nat>>, visited: seq<MetricAttr>)
    requires Choice(views, dup, visited) && Harmless(views)
    ensures Agrees(views, dup, visited)
  {
    hide Merging, NamespaceAfter, InRange, Distinct;
    forall k, i: nat | 0 <= k < |visited| && Speaks(views, i, visited[k])
      ensures views[i].namespace == NamespaceAfter(views, dup, visited[..k + 1])
    {
      var seen := visited[..k + 1];
      assert forall m <- seen :: m in visited;
      assert seen[k] == visited[k] && visited[k] in seen;
      assert i in dup[visited[k]];
      NamespaceFrom(views, dup, seen);
      var ns := NamespaceAfter(views, dup, seen);
      if ns != "" {
        var n, j :| n in seen && j in dup[n] && j < |views| && views[j].namespace == ns;
        TwoCarriers(views, dup, n);
        assert Carries(views, j, n);
      }
    }
  }

  /** Where two rules need different namespaces, no choice agrees. */
  lemma ConflictNever(views: seq<RuleView>, dup: map<MetricAttr, seq<nat>>, visited: seq<MetricAttr>)
    requires Choice(views, dup, visited) && Conflict(views)
    ensures !Agrees(views, dup, visited)
  {
    hide Merging, NamespaceAfter, InRange, Distinct;
    if Agrees(views, dup, visited) {
      var m, i: nat, n, j: nat :| Speaks(views, i, m) && Speaks(views, j, n) &&
                                  Differ(views[i].namespace, views[j].namespace);
      var k := VisitedAt(views, dup, visited, m);
      var l := VisitedAt(views, dup, visited, n);
      assert views[i].namespace == NamespaceAfter(views, dup, visited[..k + 1]);
      assert views[j].namespace == NamespaceAfter(views, dup, visited[..l + 1]);
      assert visited[..k + 1] <= visited && visited[..l + 1] <= visited;
      NamespaceSticks(views, dup, visited, k + 1);
      NamespaceSticks(views, dup, visited, l + 1);
      assert false;
    }
  }

  lemma VisitedAt(views: seq<RuleView>, dup: map<MetricAttr, seq<nat>>, visited: seq<MetricAttr>,
                  m: MetricAttr)
    returns (k: nat)
    requires Choice(views, dup, visited) && Merging(views, m)
    ensures k < |visited| && visited[k] == m
  {
    hide Shared, InRange, Distinct;
    var i: nat, j: nat :| i != j && Carries(views, i, m) && Carries(views, j, m);
    assert m in dup;
    assert m in visited;
    k :| 0 <= k < |visited| && visited[k] == m;
  }

  lemma MoveFirst<T>(s: seq<T>, x: T) returns (r: seq<T>)
    requires Distinct(s) && x in s
    ensures |r| == |s| && r[0] == x && Distinct(r) && forall y :: y in r <==> y in s
  {
    var i :| 0 <= i < |s| && s[i] == x;
    r := [x] + s[..i] + s[i + 1..];
    assert s == s[..i] + [x] + s[i + 1..];
    forall a, b | 0 <= a < b < |r| ensures r[a] != r[b] {
      var a' := if a == 0 then i else if a <= i then a - 1 else a;
      var b' := if b <= i then b - 1 else b;
      assert r[a] == s[a'] && r[b] == s[b'] && a' != b';
    }
  }

  /** Where another namespace comes into play, some choice uses it first and disagrees. */
  lemma SomeChoiceDisagrees(views: seq<RuleView>, dup: map<MetricAttr, seq<nat>>, visited: seq<MetricAttr>)
    returns (dup': map<MetricAttr, seq<nat>>, visited': seq<MetricAttr>)
    requires Choice(views, dup, visited) && !Harmless(views)
    ensures Choice(views, dup', visited') && !Agrees(views, dup', visited')
  {
    hide Merging, NamespaceAfter, Distinct;
    var m, i: nat, n, j: nat :| Speaks(views, i, m) && Overlapping(views, n) && Carries(views, j, n) &&
                                views[j].namespace != "" && views[j].namespace != views[i].namespace;
    assert n in dup && j in dup[n];
    var order := MoveFirst(dup[n], j);
    dup' := dup[n := order];
    visited' := MoveFirst(visited, n);
    ChoiceMoved(views, dup, visited, n, order, dup', visited');
    var k := VisitedAt(views, dup', visited', m);
    FirstDecides(views, dup', visited', k + 1);
    assert Speaks(views, i, visited'[k]);
  }

  lemma ChoiceMoved(views: seq<RuleView>, dup: map<MetricAttr, seq<nat>>, visited: seq<MetricAttr>, n: MetricAttr,
                    order: seq<nat>,
                    dup': map<MetricAttr, seq<nat>>, visited': seq<MetricAttr>)
    requires Choice(views, dup, visited) && n in dup && dup' == dup[n := order]
    requires |order| == |dup[n]| && Distinct(order) && forall i :: i in order <==> i in dup[n]
    requires Distinct(visited') && forall m :: m in visited' <==> m in visited
    ensures Choice(views, dup', visited')
  {
    hide Distinct;
    assert InRange(order, |views|) by {
      forall a | 0 <= a < |order| ensures order[a] < |views| {
        assert order[a] in order;
        var b :| 0 <= b < |dup[n]| && dup[n][b] == order[a];
      }
    }
  }

  lemma FirstDecides(views: seq<RuleView>, dup: map<MetricAttr, seq<nat>>, visited: seq<MetricAttr>, k: nat)
    requires Choice(views, dup, visited) && 1 <= k <= |visited|
    requires visited[0] in dup && dup[visited[0]] != [] && dup[visited[0]][0] < |views|
    requires views[dup[visited[0]][0]].namespace != ""
    ensures NamespaceAfter(views, dup, visited[..k]) == views[dup[visited[0]][0]].namespace
  {
    var order := dup[visited[0]];
    var seen := visited[..k];
    assert forall m <- seen :: m in visited;
    assert seen[..1] == [visited[0]] && seen[..1][..0] == [];
    assert NamespaceAfter(views, dup, []) == "";
    assert NamespaceAfter(views, dup, seen[..1]) == FirstNamed(views, order, "");
    FirstNamedFirst(views, order);
    NamespaceSticks(views, dup, seen, 1);
  }

  lemma {:induction false} FirstNamedFirst(views: seq<RuleView>, order: seq<nat>)
    requires InRange(order, |views|) && order != [] && views[order[0]].namespace != ""
    ensures FirstNamed(views, order, "") == views[order[0]].namespace
  {
    if |order| > 1 {
      FirstNamedFirst(views, order[..|order| - 1]);
    } else {
      assert order[..0] == [];
    }
  }

  /** The rewriting keeps all pairs in every order of visiting exactly when the rules are harmless. */
  lemma HarmlessExactly(views: seq<RuleView>, dup: map<MetricAttr, seq<nat>>, visited: seq<MetricAttr>)
    requires Choice(views, dup, visited)
    ensures Harmless(views) <==> forall d, v :: Choice(views, d, v) ==> Agrees(views, d, v)
  {
    hide Harmless, Choice, Agrees;
    if Harmless(views) {
      forall d, v | Choice(views, d, v) ensures Agrees(views, d, v) { HarmlessAgrees(views, d, v); }
    } else {
      var d, v := SomeChoiceDisagrees(views, dup, visited);
    }
  }

  lemma OneNamespaceHarmless(views: seq<RuleView>, ns: string)
    requires OneNamespace(views, ns)
    ensures Harmless(views)
  {
    hide Merging, Overlapping;
    forall i: nat | i < |views| ensures views[i].namespace == ns { assert views[i] in views; }
  }
}
