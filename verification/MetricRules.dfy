/** EMF metric rules: filtering by the fields and tags of a metric, and merging of rules that would emit
    the same metric under the same dimension set twice.  A rule denotes every combination of one of its
    metrics with one of its dimension sets. */
module MetricRules {
  import opened Common

  datatype MetricAttr = MetricAttr(unit: string, name: string)

  /** The metrics are a slice: the first `size` cells of an array, shared with whoever holds the rule. */
  datatype MetricRule = MetricRule(metrics: array<MetricAttr>, size: nat, dimensionSets: seq<seq<string>>,
                                   namespace: string)

  datatype RuleView = RuleView(metrics: seq<MetricAttr>, dimensionSets: seq<seq<string>>, namespace: string)

  datatype Pair = Pair(namespace: string, metric: MetricAttr, dimensions: seq<string>)

  ghost predicate Holds(r: RuleView, p: Pair) {
    r.namespace == p.namespace && p.metric in r.metrics && p.dimensions in r.dimensionSets
  }

  /** Some rule emits the pair. */
  ghost predicate Denotes(rules: seq<RuleView>, p: Pair) {
    exists r <- rules :: Holds(r, p)
  }

  lemma DistinctSnoc<T>(s: seq<T>, x: T)
    requires Distinct(s) && x !in s
    ensures Distinct(s + [x])
  {}

  lemma DistinctEnds<T>(s: seq<T>, kept: seq<T>)
    requires s != [] && forall x <- kept :: x in s[..|s| - 1]
    ensures Distinct(s) ==> Distinct(s[..|s| - 1])
    ensures Distinct(s) && Distinct(kept) ==> Distinct(kept + [s[|s| - 1]])
  {
    if Distinct(s) && Distinct(kept) {
      assert s[|s| - 1] !in s[..|s| - 1];
      DistinctSnoc(kept, s[|s| - 1]);
    }
  }

  ghost predicate RuleDistinct(r: RuleView) {
    Distinct(r.metrics) && Distinct(r.dimensionSets)
  }

  ghost predicate Apart(r: RuleView, s: RuleView) {
    forall p :: !(Holds(r, p) && Holds(s, p))
  }

  /** No pair is emitted twice: not by one rule, and not by two. */
  ghost predicate NoRepeats(rules: seq<RuleView>) {
    && (forall r <- rules :: RuleDistinct(r))
    && forall i, j :: 0 <= i < j < |rules| ==> Apart(rules[i], rules[j])
  }

  ghost predicate Matches(rules: seq<MetricRule>, views: seq<RuleView>)
    reads set r <- rules :: r.metrics
  {
    |rules| == |views| && forall i :: 0 <= i < |rules| ==> rules[i] in rules && Viewed(rules[i], views[i])
  }

  /** The rule as a value. */
  ghost predicate Viewed(r: MetricRule, v: RuleView)
    reads r.metrics
  {
    r.size <= r.metrics.Length && v == RuleView(r.metrics[..r.size], r.dimensionSets, r.namespace)
  }

  ghost predicate Sized(rules: seq<MetricRule>) {
    forall r <- rules :: r.size <= r.metrics.Length
  }

  /** The rules as values. */
  ghost function Views(rules: seq<MetricRule>): (views: seq<RuleView>)
    requires Sized(rules)
    reads set r <- rules :: r.metrics
    ensures Matches(rules, views)
  {
    if rules == [] then []
    else
      var front, last := rules[..|rules| - 1], rules[|rules| - 1];
      assert rules == front + [last];
      var view := RuleView(last.metrics[..last.size], last.dimensionSets, last.namespace);
      MatchesNext(front, Views(front), last, view);
      Views(front) + [view]
  }

  lemma MatchesNext(rules: seq<MetricRule>, views: seq<RuleView>, r: MetricRule, v: RuleView)
    requires Matches(rules, views) && Viewed(r, v)
    ensures Matches(rules + [r], views + [v])
  {
    hide Viewed;
    var all := rules + [r];
    forall i | 0 <= i < |all| ensures all[i] in all && Viewed(all[i], (views + [v])[i]) {}
  }

  lemma ViewsUnique(rules: seq<MetricRule>, views: seq<RuleView>)
    requires Matches(rules, views)
    ensures Sized(rules) && Views(rules) == views
  {
    assert Sized(rules);
    forall i | 0 <= i < |rules| ensures Views(rules)[i] == views[i] {}
  }

  /** No two rules share their metrics array. */
  ghost predicate Unshared(rules: seq<MetricRule>) {
    forall i, j :: 0 <= i < j < |rules| ==> rules[i].metrics != rules[j].metrics
  }

  ghost predicate OneNamespace(rules: seq<RuleView>, ns: string) {
    forall r <- rules :: r.namespace == ns
  }

  // ----- filtering -----

  ghost predicate Available(p: Pair, fields: set<string>, tags: set<string>) {
    p.metric.name in fields && forall d <- p.dimensions :: d in tags
  }

  function KeepMetrics(ms: seq<MetricAttr>, fields: set<string>): (r: seq<MetricAttr>)
    ensures forall m :: m in r <==> m in ms && m.name in fields
    ensures Distinct(ms) ==> Distinct(r)
  {
    if ms == [] then []
    else
      var rest := KeepMetrics(ms[..|ms| - 1], fields);
      DistinctEnds(ms, rest);
      if ms[|ms| - 1].name in fields then rest + [ms[|ms| - 1]] else rest
  }

  function KeepDimensionSets(ds: seq<seq<string>>, tags: set<string>): (r: seq<seq<string>>)
    ensures forall d :: d in r <==> d in ds && forall x <- d :: x in tags
    ensures Distinct(ds) ==> Distinct(r)
  {
    if ds == [] then []
    else
      var rest := KeepDimensionSets(ds[..|ds| - 1], tags);
      DistinctEnds(ds, rest);
      if forall x <- ds[|ds| - 1] :: x in tags then rest + [ds[|ds| - 1]] else rest
  }

  /** The kept rules denote exactly the available pairs, and keep what was good about the rules. */
  ghost predicate Cleaned(rules: seq<RuleView>, kept: seq<RuleView>, fields: set<string>, tags: set<string>) {
    && (forall p :: Denotes(kept, p) <==> Denotes(rules, p) && Available(p, fields, tags))
    && (forall r <- kept :: r.metrics != [] && r.dimensionSets != [])
    && ((forall r <- rules :: RuleDistinct(r)) ==> forall r <- kept :: RuleDistinct(r))
    && (forall ns :: OneNamespace(rules, ns) ==> OneNamespace(kept, ns))
  }

  method CleanupRules(fields: set<string>, tags: set<string>, rules: seq<RuleView>) returns (filtered: seq<RuleView>)
    ensures Cleaned(rules, filtered, fields, tags)
  {
    filtered := [];
    for i := 0 to |rules|
      invariant Cleaned(rules[..i], filtered, fields, tags)
    {
      hide Cleaned;
      assert rules[..i + 1] == rules[..i] + [rules[i]];
      var metrics := FilterMetrics(rules[i].metrics, fields);
      var dims := FilterDimensionSets(rules[i].dimensionSets, tags);
      CleanedStep(rules[..i], filtered, fields, tags, rules[i]);
      if |metrics| > 0 && |dims| > 0 {
        filtered := filtered + [RuleView(metrics, dims, rules[i].namespace)];
      }
    }
    assert rules[..|rules|] == rules;
  }

  lemma CleanedStep(rules: seq<RuleView>, kept: seq<RuleView>, fields: set<string>, tags: set<string>, r: RuleView)
    requires Cleaned(rules, kept, fields, tags)
    ensures var k := RuleView(KeepMetrics(r.metrics, fields), KeepDimensionSets(r.dimensionSets, tags), r.namespace);
            Cleaned(rules + [r], if k.metrics != [] && k.dimensionSets != [] then kept + [k] else kept, fields, tags)
  {
    hide Distinct;
    var k := RuleView(KeepMetrics(r.metrics, fields), KeepDimensionSets(r.dimensionSets, tags), r.namespace);
    assert forall p :: Holds(k, p) <==> Holds(r, p) && Available(p, fields, tags);
    DenotesSnoc(rules, r);
    DenotesSnoc(kept, k);
    assert forall s <- rules :: s in rules + [r];
    assert r in rules + [r];
    var next := if k.metrics != [] && k.dimensionSets != [] then kept + [k] else kept;
    assert forall p :: Denotes(next, p) <==> Denotes(rules + [r], p) && Available(p, fields, tags);
    forall ns | OneNamespace(rules + [r], ns) ensures OneNamespace(next, ns) {
      assert OneNamespace(rules, ns);
    }
    if forall s <- rules + [r] :: RuleDistinct(s) {
      assert RuleDistinct(k);
      assert forall s <- kept :: RuleDistinct(s);
    }
  }

  lemma DenotesSnoc(rules: seq<RuleView>, r: RuleView)
    ensures forall p :: Denotes(rules + [r], p) <==> Denotes(rules, p) || Holds(r, p)
  {
    forall p ensures Denotes(rules + [r], p) <==> Denotes(rules, p) || Holds(r, p) {
      assert forall s <- rules :: s in rules + [r];
      assert r in rules + [r];
    }
  }

  method FilterMetrics(ms: seq<MetricAttr>, fields: set<string>) returns (kept: seq<MetricAttr>)
    ensures kept == KeepMetrics(ms, fields)
  {
    kept := [];
    for i := 0 to |ms|
      invariant kept == KeepMetrics(ms[..i], fields)
    {
      assert ms[..i + 1][..i] == ms[..i];
      if ms[i].name in fields {
        kept := kept + [ms[i]];
      }
    }
    assert ms[..|ms|] == ms;
  }

  method FilterDimensionSets(ds: seq<seq<string>>, tags: set<string>) returns (kept: seq<seq<string>>)
    ensures kept == KeepDimensionSets(ds, tags)
  {
    kept := [];
    for i := 0 to |ds|
      invariant kept == KeepDimensionSets(ds[..i], tags)
    {
      assert ds[..i + 1][..i] == ds[..i];
      var miss := false;
      for j := 0 to |ds[i]|
        invariant miss <==> exists x <- ds[i][..j] :: x !in tags
      {
        assert ds[i][..j + 1] == ds[i][..j] + [ds[i][j]];
        if ds[i][j] !in tags {
          miss := true;
        }
      }
      assert ds[i][..|ds[i]|] == ds[i];
      if !miss {
        kept := kept + [ds[i]];
      }
    }
    assert ds[..|ds|] == ds;
  }

  // ----- which metrics several rules carry -----

  ghost predicate Carries(views: seq<RuleView>, i: nat, m: MetricAttr) {
    i < |views| && m in views[i].metrics
  }

  /** Every metric of the first k rules, and of the first j metrics of the next, with the rules that carry it. */
  ghost predicate Indexed(found: map<MetricAttr, set<nat>>, views: seq<RuleView>, k: nat, j: nat)
    requires k <= |views| && (k < |views| ==> j <= |views[k].metrics|)
  {
    forall m, i: nat :: (m in found && i in found[m]) <==>
                        (i < k && Carries(views, i, m)) || (i == k < |views| && m in views[k].metrics[..j])
  }

  ghost predicate Overlaps(dup: map<MetricAttr, seq<nat>>, views: seq<RuleView>) {
    && (forall m, i: nat, j: nat :: i != j && Carries(views, i, m) && Carries(views, j, m) ==> m in dup)
    && (forall m <- dup :: |dup[m]| > 1 && Distinct(dup[m]))
    && (forall m <- dup, i: nat :: i in dup[m] <==> Carries(views, i, m))
  }

  method GetOverlapMetrics(rules: seq<MetricRule>, ghost views: seq<RuleView>) returns (dup: map<MetricAttr, seq<nat>>)
    requires Matches(rules, views)
    ensures Overlaps(dup, views)
  {
    var found := IndexMetrics(rules, views);
    dup := map[];
    var todo := found.Keys;
    while todo != {}
      invariant todo <= found.Keys
      invariant forall m :: m in dup <==> m in found && m !in todo && |found[m]| > 1
      invariant forall m <- dup :: |dup[m]| > 1 && Distinct(dup[m]) && forall i: nat :: i in dup[m] <==> i in found[m]
      decreases |todo|
    {
      var m :| m in todo;
      todo := todo - {m};
      if |found[m]| > 1 {
        var order := Visit(found[m]);
        dup := dup[m := order];
      }
    }
    forall m, i: nat, j: nat | i != j && Carries(views, i, m) && Carries(views, j, m) ensures m in dup {
      assert i in found[m] && j in found[m];
      TwoElements(found[m], i, j);
    }
  }

  lemma TwoElements(s: set<nat>, i: nat, j: nat)
    requires i in s && j in s && i != j
    ensures |s| > 1
  {
    assert s == {i, j} + (s - {i, j});
  }

  method IndexMetrics(rules: seq<MetricRule>, ghost views: seq<RuleView>) returns (found: map<MetricAttr, set<nat>>)
    requires Matches(rules, views)
    ensures Indexed(found, views, |views|, 0)
  {
    found := map[];
    for k := 0 to |rules|
      invariant Indexed(found, views, k, 0)
    {
      for j := 0 to rules[k].size
        invariant Indexed(found, views, k, j)
      {
        var m := rules[k].metrics[j];
        IndexedStep(found, views, k, j);
        var before := if m in found then found[m] else {};
        found := found[m := before + {k}];
      }
    }
  }

  lemma IndexedStep(found: map<MetricAttr, set<nat>>, views: seq<RuleView>, k: nat, j: nat)
    requires k < |views| && j < |views[k].metrics| && Indexed(found, views, k, j)
    ensures var m := views[k].metrics[j];
            Indexed(found[m := (if m in found then found[m] else {}) + {k}], views, k, j + 1)
  {
    var ms := views[k].metrics;
    assert ms[..j + 1] == ms[..j] + [ms[j]];
    var next := found[ms[j] := (if ms[j] in found then found[ms[j]] else {}) + {k}];
    forall m, i: nat
      ensures (m in next && i in next[m]) <==>
              (i < k && Carries(views, i, m)) || (i == k < |views| && m in ms[..j + 1])
    {
      assert (m in found && i in found[m]) <==>
             (i < k && Carries(views, i, m)) || (i == k < |views| && m in ms[..j]);
    }
  }

  // ----- merging the dimension sets of a metric -----

  ghost predicate InRange(order: seq<nat>, n: nat) {
    forall a :: 0 <= a < |order| ==> order[a] < n
  }

  ghost function AllDimensions(views: seq<RuleView>, order: seq<nat>): seq<seq<string>>
    requires InRange(order, |views|)
  {
    if order == [] then []
    else AllDimensions(views, order[..|order| - 1]) + views[order[|order| - 1]].dimensionSets
  }

  /** The union without repetition; `merged` says whether anything was repeated. */
  ghost predicate Union(dims: seq<seq<string>>, merged: bool, all: seq<seq<string>>) {
    && Distinct(dims)
    && (forall d :: d in dims <==> d in all)
    && (merged <==> !Distinct(all))
    && (!merged ==> dims == all)
  }

  /** The first namespace that is not empty: the one found before, or that of the first of these rules that has one. */
  ghost function FirstNamed(views: seq<RuleView>, order: seq<nat>, ns0: string): string
    requires InRange(order, |views|)
  {
    if order == [] then ns0
    else
      var ns := FirstNamed(views, order[..|order| - 1], ns0);
      if ns == "" then views[order[|order| - 1]].namespace else ns
  }

  method MergeDimensions(rules: seq<MetricRule>, order: seq<nat>, ns0: string, ghost views: seq<RuleView>)
    returns (dims: seq<seq<string>>, merged: bool, ns: string)
    requires Matches(rules, views)
    requires InRange(order, |rules|)
    ensures Union(dims, merged, AllDimensions(views, order))
    ensures ns == FirstNamed(views, order, ns0)
  {
    hide Union;
    UnionNothing();
    dims, merged, ns := [], false, ns0;
    for a := 0 to |order|
      invariant Union(dims, merged, AllDimensions(views, order[..a]))
      invariant ns == FirstNamed(views, order[..a], ns0)
    {
      var rule := rules[order[a]];
      if ns == "" {
        ns := rule.namespace;
      }
      assert order[..a + 1][..a] == order[..a];
      ghost var before := AllDimensions(views, order[..a]);
      assert before + rule.dimensionSets[..0] == before;
      for b := 0 to |rule.dimensionSets|
        invariant Union(dims, merged, before + rule.dimensionSets[..b])
      {
        var rd := rule.dimensionSets[b];
        UnionStep(dims, merged, before + rule.dimensionSets[..b], rd);
        assert before + rule.dimensionSets[..b + 1] == before + rule.dimensionSets[..b] + [rd];
        if rd in dims {
          merged := true;
        } else {
          dims := dims + [rd];
        }
      }
      assert rule.dimensionSets[..|rule.dimensionSets|] == rule.dimensionSets;
    }
    assert order[..|order|] == order;
  }

  lemma UnionNothing()
    ensures Union([], false, [])
  {}

  lemma UnionStep(dims: seq<seq<string>>, merged: bool, all: seq<seq<string>>, rd: seq<string>)
    requires Union(dims, merged, all)
    ensures if rd in dims then Union(dims, true, all + [rd]) else Union(dims + [rd], merged, all + [rd])
  {
    if Distinct(all + [rd]) {
      assert forall i :: 0 <= i < |all| ==> (all + [rd])[i] == all[i];
      assert (all + [rd])[|all|] == rd;
    }
  }

  /** What the merge decided for one overlapping metric. */
  ghost predicate Decided(m: MetricAttr, merged: map<MetricAttr, RuleView>, all: seq<seq<string>>) {
    if m in merged then
      merged[m].metrics == [m] && Union(merged[m].dimensionSets, true, all)
    else
      Distinct(all)
  }

  ghost predicate Merges(merged: map<MetricAttr, RuleView>, dup: map<MetricAttr, seq<nat>>, views: seq<RuleView>)
    requires forall m <- dup :: InRange(dup[m], |views|)
  {
    && merged.Keys <= dup.Keys
    && forall m <- dup :: Decided(m, merged, AllDimensions(views, dup[m]))
  }

  /** The namespace in use once the rules of these metrics were visited. */
  ghost function NamespaceAfter(views: seq<RuleView>, dup: map<MetricAttr, seq<nat>>, visited: seq<MetricAttr>): string
    requires forall m <- visited :: m in dup && InRange(dup[m], |views|)
  {
    if visited == [] then ""
    else
      assert visited[|visited| - 1] in visited;
      FirstNamed(views, dup[visited[|visited| - 1]], NamespaceAfter(views, dup, visited[..|visited| - 1]))
  }

  /** The metrics were visited in this order, and each merged rule got the namespace in use then. */
  ghost predicate Named(merged: map<MetricAttr, RuleView>, views: seq<RuleView>, dup: map<MetricAttr, seq<nat>>,
                        visited: seq<MetricAttr>)
    requires forall m <- visited :: m in dup && InRange(dup[m], |views|)
  {
    forall k :: 0 <= k < |visited| && visited[k] in merged ==>
      merged[visited[k]].namespace == NamespaceAfter(views, dup, visited[..k + 1])
  }

  method MergeDuplicateMetrics(rules: seq<MetricRule>, dup: map<MetricAttr, seq<nat>>, ghost views: seq<RuleView>)
    returns (merged: map<MetricAttr, RuleView>, ghost visited: seq<MetricAttr>)
    requires Matches(rules, views)
    requires forall m <- dup :: InRange(dup[m], |views|)
    ensures Merges(merged, dup, views)
    ensures Distinct(visited) && (forall m :: m in visited <==> m in dup) && Named(merged, views, dup, visited)
  {
    hide Union, AllDimensions, Decided, Named;
    merged, visited := map[], [];
    NamedNothing(views, dup);
    var ns := "";
    var todo := dup.Keys;
    while todo != {}
      invariant todo <= dup.Keys && merged.Keys <= dup.Keys - todo
      invariant forall m <- dup :: m !in todo ==> Decided(m, merged, AllDimensions(views, dup[m]))
      invariant Distinct(visited) && (forall m :: m in visited <==> m in dup && m !in todo)
      invariant Named(merged, views, dup, visited) && ns == NamespaceAfter(views, dup, visited)
      decreases |todo|
    {
      var m :| m in todo;
      var dims, again, next := MergeDimensions(rules, dup[m], ns, views);
      ns, todo := next, todo - {m};
      ghost var before := merged;
      NamedNext(before, views, dup, visited, m, RuleView([m], dims, ns));
      visited := visited + [m];
      if again {
        merged := merged[m := RuleView([m], dims, ns)];
      }
      DecidedNow(m, merged, dims, again, ns, AllDimensions(views, dup[m]));
      forall k <- dup | k !in todo && k != m ensures Decided(k, merged, AllDimensions(views, dup[k])) {
        DecidedBefore(k, before, merged, AllDimensions(views, dup[k]));
      }
    }
  }

  lemma NamedNothing(views: seq<RuleView>, dup: map<MetricAttr, seq<nat>>)
    ensures Named(map[], views, dup, [])
  {}

  lemma NamedNext(merged: map<MetricAttr, RuleView>, views: seq<RuleView>, dup: map<MetricAttr, seq<nat>>,
                  visited: seq<MetricAttr>, m: MetricAttr, r: RuleView)
    requires (forall k <- visited :: k in dup && InRange(dup[k], |views|)) && m in dup && InRange(dup[m], |views|)
    requires Named(merged, views, dup, visited) && m !in visited && m !in merged
    requires r.namespace == FirstNamed(views, dup[m], NamespaceAfter(views, dup, visited))
    ensures NamespaceAfter(views, dup, visited + [m]) == r.namespace
    ensures Named(merged, views, dup, visited + [m]) && Named(merged[m := r], views, dup, visited + [m])
  {
    hide NamespaceAfter, FirstNamed, InRange, Named;
    AfterSnoc(views, dup, visited, m);
    NamedSnoc(merged, merged, views, dup, visited, m);
    NamedSnoc(merged, merged[m := r], views, dup, visited, m);
  }

  lemma NamedSnoc(merged: map<MetricAttr, RuleView>, next: map<MetricAttr, RuleView>, views: seq<RuleView>,
                  dup: map<MetricAttr, seq<nat>>, visited: seq<MetricAttr>, m: MetricAttr)
    requires (forall k <- visited :: k in dup && InRange(dup[k], |views|)) && m in dup && InRange(dup[m], |views|)
    requires Named(merged, views, dup, visited)
    requires forall k <- visited :: k in next ==> k in merged && next[k] == merged[k]
    requires m in next ==> next[m].namespace == NamespaceAfter(views, dup, visited + [m])
    ensures Named(next, views, dup, visited + [m])
  {
    hide NamespaceAfter, InRange;
    var all := visited + [m];
    forall k | 0 <= k < |all| && all[k] in next
      ensures next[all[k]].namespace == NamespaceAfter(views, dup, all[..k + 1])
    {
      if k < |visited| {
        assert all[k] == visited[k] && visited[k] in visited && all[..k + 1] == visited[..k + 1];
      } else {
        assert all[..k + 1] == all;
      }
    }
  }

  lemma AfterSnoc(views: seq<RuleView>, dup: map<MetricAttr, seq<nat>>, visited: seq<MetricAttr>, m: MetricAttr)
    requires (forall k <- visited :: k in dup && InRange(dup[k], |views|)) && m in dup && InRange(dup[m], |views|)
    ensures NamespaceAfter(views, dup, visited + [m]) == FirstNamed(views, dup[m], NamespaceAfter(views, dup, visited))
  {
    hide FirstNamed;
    assert (visited + [m])[..|visited|] == visited;
  }

  lemma DecidedNow(m: MetricAttr, merged: map<MetricAttr, RuleView>, dims: seq<seq<string>>, again: bool, ns: string,
                   all: seq<seq<string>>)
    requires Union(dims, again, all)
    requires if again then m in merged && merged[m] == RuleView([m], dims, ns) else m !in merged
    ensures Decided(m, merged, all)
  {}

  lemma DecidedBefore(m: MetricAttr, before: map<MetricAttr, RuleView>, merged: map<MetricAttr, RuleView>,
                      all: seq<seq<string>>)
    requires Decided(m, before, all)
    requires (m in before <==> m in merged) && (m in before ==> before[m] == merged[m])
    ensures Decided(m, merged, all)
  {}
}
