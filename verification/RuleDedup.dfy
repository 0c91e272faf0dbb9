/** The rewriting of overlapping rules, and what it leaves unchanged. */
module RuleDedup {
  import opened Common
  import opened MetricRules
  import opened RuleNamespaces

  // ----- swap removal -----

  /** One occurrence of k, if there is any, is gone. */
  ghost predicate OneRemoved(was: seq<MetricAttr>, now: seq<MetricAttr>, k: MetricAttr) {
    multiset(now) == multiset(was) - multiset{k}
  }

  /** Remove the first occurrence of k by moving the last metric of the slice into its place. */
  method RemoveOne(a: array<MetricAttr>, size: nat, k: MetricAttr) returns (left: nat)
    requires size <= a.Length
    modifies a
    ensures left <= size
    ensures OneRemoved(old(a[..size]), a[..left], k)
  {
    for i := 0 to size
      invariant a[..] == old(a[..])
      invariant k !in a[..i]
    {
      if a[i] == k {
        ghost var was := a[..size];
        assert was == was[..i] + [k] + was[i + 1..];
        a[i] := a[size - 1];
        left := size - 1;
        SwapRemoved(was, i, a[..left]);
        return;
      }
    }
    left := size;
    assert a[..size] == old(a[..size]);
  }

  lemma SwapRemoved(was: seq<MetricAttr>, i: nat, now: seq<MetricAttr>)
    requires i < |was|
    requires now == was[i := was[|was| - 1]][..|was| - 1]
    ensures multiset(now) == multiset(was) - multiset{was[i]}
  {
    var front, last := was[..|was| - 1], was[|was| - 1];
    assert was == front + [last];
    if i < |front| {
      assert now == front[i := last];
      assert multiset(now) == multiset(front) - multiset{front[i]} + multiset{last};
      assert front[i] in multiset(front);
    } else {
      assert now == front;
    }
  }

  /** One occurrence of each merged metric is gone, and nothing else. */
  ghost predicate Updated(was: seq<MetricAttr>, now: seq<MetricAttr>, removed: set<MetricAttr>) {
    forall m :: multiset(now)[m] == if m in removed && m in was then multiset(was)[m] - 1 else multiset(was)[m]
  }

  method RemoveMerged(a: array<MetricAttr>, size: nat, removed: set<MetricAttr>) returns (left: nat)
    requires size <= a.Length
    modifies a
    ensures left <= size
    ensures Updated(old(a[..size]), a[..left], removed)
  {
    hide Updated, OneRemoved;
    UpdatedByNothing(a[..size]);
    left := size;
    var todo := removed;
    ghost var done: set<MetricAttr> := {};
    while todo != {}
      invariant left <= size
      invariant done + todo == removed && done !! todo
      invariant Updated(old(a[..size]), a[..left], done)
      decreases |todo|
    {
      var k :| k in todo;
      ghost var was := a[..left];
      left := RemoveOne(a, left, k);
      UpdatedStep(old(a[..size]), was, a[..left], done, k);
      todo, done := todo - {k}, done + {k};
    }
    assert done == removed;
  }

  lemma UpdatedByNothing(s: seq<MetricAttr>)
    ensures Updated(s, s, {})
  {}

  lemma UpdatedStep(first: seq<MetricAttr>, was: seq<MetricAttr>, now: seq<MetricAttr>, removed: set<MetricAttr>,
                    k: MetricAttr)
    requires Updated(first, was, removed) && k !in removed
    requires OneRemoved(was, now, k)
    ensures Updated(first, now, removed + {k})
  {
    assert k in first <==> multiset(first)[k] > 0;
  }

  // ----- the rewritten rules -----

  ghost predicate UpdatedRules(views: seq<RuleView>, updated: seq<RuleView>, removed: set<MetricAttr>) {
    && |updated| == |views|
    && forall i :: 0 <= i < |views| ==>
         && Updated(views[i].metrics, updated[i].metrics, removed)
         && updated[i].dimensionSets == views[i].dimensionSets
         && updated[i].namespace == views[i].namespace
  }

  ghost function NonEmpty(rules: seq<RuleView>): seq<RuleView> {
    if rules == [] then []
    else
      var rest, last := NonEmpty(rules[..|rules| - 1]), rules[|rules| - 1];
      if last.metrics == [] then rest else rest + [last]
  }

  /** The merged rules, one per merged metric, in some order. */
  ghost predicate MergedList(list: seq<RuleView>, merged: map<MetricAttr, RuleView>) {
    && (forall i :: 0 <= i < |list| ==>
          list[i].metrics != [] && list[i].metrics[0] in merged && list[i] == merged[list[i].metrics[0]])
    && (forall i, j :: 0 <= i < j < |list| ==> list[i].metrics[0] != list[j].metrics[0])
    && (forall m <- merged :: merged[m] in list)
  }

  /** The list of merged rules; their arrays are new. */
  method EmitMerged(merged: map<MetricAttr, RuleView>) returns (out: seq<MetricRule>, ghost list: seq<RuleView>)
    requires forall m <- merged :: merged[m].metrics == [m]
    ensures MergedList(list, merged) && Matches(out, list)
    ensures forall r <- out :: fresh(r.metrics)
  {
    hide MergedList, Without;
    WithoutAll(merged);
    out, list := [], [];
    var todo := merged.Keys;
    while todo != {}
      invariant todo <= merged.Keys
      invariant Matches(out, list)
      invariant forall r <- out :: fresh(r.metrics)
      invariant MergedList(list, Without(merged, todo))
      decreases |todo|
    {
      var m :| m in todo;
      var cells := new MetricAttr[1](_ => m);
      assert cells[..1] == [m];
      WithoutNext(merged, todo, m);
      MergedListStep(list, Without(merged, todo), m, merged[m]);
      out := out + [MetricRule(cells, 1, merged[m].dimensionSets, merged[m].namespace)];
      list := list + [merged[m]];
      todo := todo - {m};
    }
  }

  ghost function Without(merged: map<MetricAttr, RuleView>, todo: set<MetricAttr>): map<MetricAttr, RuleView> {
    map m <- merged | m !in todo :: merged[m]
  }

  lemma WithoutAll(merged: map<MetricAttr, RuleView>)
    ensures Without(merged, {}) == merged
    ensures MergedList([], Without(merged, merged.Keys))
  {}

  lemma WithoutNext(merged: map<MetricAttr, RuleView>, todo: set<MetricAttr>, m: MetricAttr)
    requires m in todo && m in merged
    ensures m !in Without(merged, todo)
    ensures Without(merged, todo - {m}) == Without(merged, todo)[m := merged[m]]
  {}

  lemma MergedListStep(list: seq<RuleView>, merged: map<MetricAttr, RuleView>, m: MetricAttr, r: RuleView)
    requires MergedList(list, merged) && m !in merged && r.metrics == [m]
    ensures MergedList(list + [r], merged[m := r])
  {
    assert forall k <- merged :: merged[k] in list + [r];
    assert r in list + [r];
  }

  method GetDeduppedRules(rules: seq<MetricRule>, merged: map<MetricAttr, RuleView>, ghost views: seq<RuleView>)
    returns (out: seq<MetricRule>, ghost list: seq<RuleView>, ghost updated: seq<RuleView>)
    requires Matches(rules, views) && Unshared(rules)
    requires forall m <- merged :: merged[m].metrics == [m]
    modifies set r <- rules :: r.metrics
    ensures MergedList(list, merged)
    ensures UpdatedRules(views, updated, merged.Keys)
    ensures Matches(out, list + NonEmpty(updated))
  {
    hide Updated, MergedList, Viewed, NonEmpty;
    var emitted, rest;
    emitted, list := EmitMerged(merged);
    rest, updated := UpdateRules(rules, merged.Keys, views);
    MatchesBoth(emitted, list, rest, NonEmpty(updated));
    out := emitted + rest;
  }

  lemma MatchesBoth(a: seq<MetricRule>, va: seq<RuleView>, b: seq<MetricRule>, vb: seq<RuleView>)
    requires Matches(a, va) && Matches(b, vb)
    ensures Matches(a + b, va + vb)
  {
    hide Viewed;
  }

  /** The loop over the rules: each rule's own array is rewritten, and rules without metrics are left out. */
  method UpdateRules(rules: seq<MetricRule>, removed: set<MetricAttr>, ghost views: seq<RuleView>)
    returns (out: seq<MetricRule>, ghost updated: seq<RuleView>)
    requires Matches(rules, views) && Unshared(rules)
    modifies set r <- rules :: r.metrics
    ensures UpdatedRules(views, updated, removed)
    ensures Matches(out, NonEmpty(updated))
  {
    hide Updated, UpdatedRules, NonEmpty;
    UpdatedNothing(views, removed);
    out, updated := [], [];
    ghost var done: set<array<MetricAttr>> := {};
    for i := 0 to |rules|
      invariant Matches(out, NonEmpty(updated))
      invariant forall r <- out :: r.metrics in done
      invariant forall j :: i <= j < |rules| ==> rules[j].metrics !in done
      invariant forall j :: i <= j < |rules| ==> Viewed(rules[j], views[j])
      invariant UpdatedRules(views[..i], updated, removed)
    {
      var rule := rules[i];
      assert Viewed(rule, views[i]);
      var left := RemoveMerged(rule.metrics, rule.size, removed);
      assert Matches(out, NonEmpty(updated));
      ghost var now := RuleView(rule.metrics[..left], rule.dimensionSets, rule.namespace);
      UpdatedNext(views, i, updated, now, removed);
      done := done + {rule.metrics};
      updated := updated + [now];
      if left > 0 {
        out := out + [MetricRule(rule.metrics, left, rule.dimensionSets, rule.namespace)];
      }
    }
    assert views[..|views|] == views;
  }

  lemma UpdatedNothing(views: seq<RuleView>, removed: set<MetricAttr>)
    ensures UpdatedRules(views[..0], [], removed) && NonEmpty([]) == []
  {}

  lemma UpdatedNext(views: seq<RuleView>, i: nat, updated: seq<RuleView>, now: RuleView, removed: set<MetricAttr>)
    requires i < |views| && UpdatedRules(views[..i], updated, removed)
    requires Updated(views[i].metrics, now.metrics, removed)
    requires now.dimensionSets == views[i].dimensionSets && now.namespace == views[i].namespace
    ensures UpdatedRules(views[..i + 1], updated + [now], removed)
    ensures NonEmpty(updated + [now]) == if now.metrics == [] then NonEmpty(updated) else NonEmpty(updated) + [now]
  {
    hide Updated;
    assert (updated + [now])[..|updated|] == updated;
    forall j | 0 <= j < i ensures views[..i + 1][j] == views[..i][j] {}
  }

  // ----- what the rewriting keeps -----

  ghost predicate Rewritten(views: seq<RuleView>, dup: map<MetricAttr, seq<nat>>, merged: map<MetricAttr, RuleView>,
                            list: seq<RuleView>, updated: seq<RuleView>)
  {
    && Overlaps(dup, views)
    && (forall m <- dup :: InRange(dup[m], |views|))
    && Merges(merged, dup, views)
    && MergedList(list, merged)
    && UpdatedRules(views, updated, merged.Keys)
  }

  /** A merged rule lists exactly the dimension sets of the rules that carry its metric. */
  lemma MergedDimensions(views: seq<RuleView>, dup: map<MetricAttr, seq<nat>>, merged: map<MetricAttr, RuleView>,
                         m: MetricAttr, d: seq<string>)
    requires Overlaps(dup, views) && (forall k <- dup :: InRange(dup[k], |views|)) && Merges(merged, dup, views)
    requires m in merged
    ensures merged[m].metrics == [m] && Distinct(merged[m].dimensionSets)
    ensures d in merged[m].dimensionSets <==> exists i: nat :: Carries(views, i, m) && d in views[i].dimensionSets
  {
    hide Distinct;
    assert Decided(m, merged, AllDimensions(views, dup[m]));
    AllDimensionsMember(views, dup[m], d);
    forall a | 0 <= a < |dup[m]| ensures Carries(views, dup[m][a], m) { assert dup[m][a] in dup[m]; }
    forall i: nat | Carries(views, i, m) ensures exists a :: 0 <= a < |dup[m]| && dup[m][a] == i {
      assert i in dup[m];
    }
  }

  /** Every rule that carries a merged metric has the namespace of the merged rule (or no dimension set). */
  ghost predicate NamespacesAgree(views: seq<RuleView>, merged: map<MetricAttr, RuleView>) {
    forall m, i: nat :: m in merged && Carries(views, i, m) && views[i].dimensionSets != [] ==>
                          views[i].namespace == merged[m].namespace
  }

  /** Where namespaces agree the rewriting changes no pair. */
  lemma PairsKept(views: seq<RuleView>, dup: map<MetricAttr, seq<nat>>, merged: map<MetricAttr, RuleView>,
                  list: seq<RuleView>, updated: seq<RuleView>, p: Pair)
    requires Rewritten(views, dup, merged, list, updated) && NamespacesAgree(views, merged)
    ensures Denotes(list + updated, p) <==> Denotes(views, p)
  {
    hide Updated, Overlaps, Merges;
    if Denotes(list + updated, p) {
      var r :| r in list + updated && Holds(r, p);
      if r in list {
        var m := r.metrics[0];
        MergedDimensions(views, dup, merged, m, p.dimensions);
        var i: nat :| Carries(views, i, m) && p.dimensions in views[i].dimensionSets;
        assert Holds(views[i], p) && views[i] in views;
      } else {
        var i :| 0 <= i < |updated| && updated[i] == r;
        UpdatedMember(views[i].metrics, r.metrics, merged.Keys, p.metric);
        assert Holds(views[i], p) && views[i] in views;
      }
    }
    if Denotes(views, p) {
      var i :| 0 <= i < |views| && Holds(views[i], p);
      assert Carries(views, i, p.metric);
      if p.metric in merged {
        MergedDimensions(views, dup, merged, p.metric, p.dimensions);
        assert Holds(merged[p.metric], p) && merged[p.metric] in list + updated;
      } else {
        UpdatedMember(views[i].metrics, updated[i].metrics, merged.Keys, p.metric);
        assert Holds(updated[i], p) && updated[i] in list + updated;
      }
    }
  }

  lemma UpdatedMember(was: seq<MetricAttr>, now: seq<MetricAttr>, removed: set<MetricAttr>, m: MetricAttr)
    requires Updated(was, now, removed)
    ensures m in now ==> m in was
    ensures m in was && m !in removed ==> m in now
    ensures Distinct(was) && m in removed ==> m !in now
    ensures Distinct(was) ==> Distinct(now)
  {
    assert m in now <==> multiset(now)[m] > 0;
    assert m in was <==> multiset(was)[m] > 0;
    if Distinct(was) {
      DistinctCount(was, m);
      if !Distinct(now) {
        var i, j :| 0 <= i < j < |now| && now[i] == now[j];
        RepeatCounts(now, i, j);
        DistinctCount(was, now[i]);
      }
    }
  }

  /** For rules without repetitions, pairs are kept exactly when the namespaces agree. */
  lemma PairsKeptExactly(views: seq<RuleView>, dup: map<MetricAttr, seq<nat>>, merged: map<MetricAttr, RuleView>,
                         list: seq<RuleView>, updated: seq<RuleView>)
    requires Rewritten(views, dup, merged, list, updated)
    requires forall r <- views :: RuleDistinct(r)
    ensures (forall p :: Denotes(list + updated, p) <==> Denotes(views, p)) <==> NamespacesAgree(views, merged)
  {
    hide Updated, Overlaps, Merges, Denotes;
    if NamespacesAgree(views, merged) {
      forall p ensures Denotes(list + updated, p) <==> Denotes(views, p) {
        PairsKept(views, dup, merged, list, updated, p);
      }
    } else {
      var m, i: nat :| m in merged && Carries(views, i, m) && views[i].dimensionSets != [] &&
                       views[i].namespace != merged[m].namespace;
      PairLost(views, dup, merged, list, updated, m, i);
    }
  }

  lemma PairLost(views: seq<RuleView>, dup: map<MetricAttr, seq<nat>>, merged: map<MetricAttr, RuleView>,
                 list: seq<RuleView>, updated: seq<RuleView>, m: MetricAttr, i: nat)
    requires Rewritten(views, dup, merged, list, updated)
    requires forall r <- views :: RuleDistinct(r)
    requires m in merged && Carries(views, i, m) && views[i].dimensionSets != []
    requires views[i].namespace != merged[m].namespace
    ensures var p := Pair(views[i].namespace, m, views[i].dimensionSets[0]);
            Denotes(views, p) && !Denotes(list + updated, p)
  {
    hide Updated, Overlaps, Merges, Distinct;
    var p := Pair(views[i].namespace, m, views[i].dimensionSets[0]);
    assert Holds(views[i], p) && views[i] in views;
    forall r <- list + updated ensures !Holds(r, p) {
      if r in list {
        MergedDimensions(views, dup, merged, r.metrics[0], p.dimensions);
      } else {
        var j :| 0 <= j < |updated| && updated[j] == r;
        assert views[j] in views && RuleDistinct(views[j]);
        UpdatedMember(views[j].metrics, r.metrics, merged.Keys, m);
      }
    }
  }

  /** Two rules that both still carry a metric have no dimension set in common. */
  lemma UpdatedApart(views: seq<RuleView>, dup: map<MetricAttr, seq<nat>>, merged: map<MetricAttr, RuleView>,
                     list: seq<RuleView>, updated: seq<RuleView>, i: nat, j: nat)
    requires Rewritten(views, dup, merged, list, updated) && (forall r <- views :: RuleDistinct(r))
    requires i < j < |views|
    ensures Apart(updated[i], updated[j])
  {
    hide Updated, Distinct, MergedList;
    forall p ensures !(Holds(updated[i], p) && Holds(updated[j], p)) {
      if Holds(updated[i], p) && Holds(updated[j], p) {
        assert RuleDistinct(views[i]) && RuleDistinct(views[j]);
        UpdatedMember(views[i].metrics, updated[i].metrics, merged.Keys, p.metric);
        UpdatedMember(views[j].metrics, updated[j].metrics, merged.Keys, p.metric);
        assert Carries(views, i, p.metric) && Carries(views, j, p.metric);
        var order := dup[p.metric];
        assert i in order && j in order;
        var a :| 0 <= a < |order| && order[a] == i;
        var b :| 0 <= b < |order| && order[b] == j;
        assert Decided(p.metric, merged, AllDimensions(views, order));
        if a < b {
          DisjointDimensions(views, order, a, b, p.dimensions);
        } else {
          DisjointDimensions(views, order, b, a, p.dimensions);
        }
      }
    }
  }

  /** Rules without repetitions are rewritten into rules that emit no pair twice. */
  lemma NothingRepeated(views: seq<RuleView>, dup: map<MetricAttr, seq<nat>>, merged: map<MetricAttr, RuleView>,
                        list: seq<RuleView>, updated: seq<RuleView>)
    requires Rewritten(views, dup, merged, list, updated) && (forall r <- views :: RuleDistinct(r))
    ensures NoRepeats(list + updated)
  {
    hide Updated, Overlaps, Merges, Distinct, Apart;
    var all := list + updated;
    forall k | 0 <= k < |all| ensures RuleDistinct(all[k]) {
      if k < |list| {
        MergedDimensions(views, dup, merged, list[k].metrics[0], []);
        SingleDistinct(list[k].metrics);
      } else {
        assert RuleDistinct(views[k - |list|]) && updated[k - |list|] == all[k];
        UpdatedMember(views[k - |list|].metrics, all[k].metrics, merged.Keys, MetricAttr("", ""));
      }
    }
    forall i, j | 0 <= i < j < |all| ensures Apart(all[i], all[j]) {
      if |list| <= i {
        UpdatedApart(views, dup, merged, list, updated, i - |list|, j - |list|);
      } else {
        MergedApart(views, dup, merged, list, updated, i, j);
      }
    }
  }

  lemma SingleDistinct<T>(s: seq<T>)
    requires |s| == 1
    ensures Distinct(s)
  {}

  lemma MergedApart(views: seq<RuleView>, dup: map<MetricAttr, seq<nat>>, merged: map<MetricAttr, RuleView>,
                    list: seq<RuleView>, updated: seq<RuleView>, i: nat, j: nat)
    requires Rewritten(views, dup, merged, list, updated) && (forall r <- views :: RuleDistinct(r))
    requires i < |list| && i < j < |list + updated|
    ensures Apart(list[i], (list + updated)[j])
  {
    hide Updated, Overlaps, Merges, Distinct;
    var m := list[i].metrics[0];
    MergedDimensions(views, dup, merged, m, []);
    if j < |list| {
      MergedDimensions(views, dup, merged, list[j].metrics[0], []);
    } else {
      assert RuleDistinct(views[j - |list|]);
      UpdatedMember(views[j - |list|].metrics, updated[j - |list|].metrics, merged.Keys, m);
    }
  }

  /** Leaving out rules without metrics changes neither. */
  lemma {:induction false} NonEmptyKeeps(list: seq<RuleView>, rules: seq<RuleView>)
    ensures forall p :: Denotes(list + NonEmpty(rules), p) <==> Denotes(list + rules, p)
    ensures forall r <- NonEmpty(rules) :: r in rules
    ensures NoRepeats(list + rules) ==> NoRepeats(list + NonEmpty(rules))
  {
    hide Apart, RuleDistinct, NoRepeats, Denotes;
    if rules != [] {
      var front, last := rules[..|rules| - 1], rules[|rules| - 1];
      NonEmptyKeeps(list, front);
      assert list + rules == (list + front) + [last];
      DenotesSnoc(list + front, last);
      DenotesSnoc(list + NonEmpty(front), last);
      assert list + (NonEmpty(front) + [last]) == (list + NonEmpty(front)) + [last];
      if NoRepeats(list + rules) {
        NoRepeatsFront(list + front, last);
        assert forall r <- list + NonEmpty(front) :: r in list + front;
        NoRepeatsSnoc(list + front, list + NonEmpty(front), last);
      }
    }
  }

  lemma NoRepeatsFront(s: seq<RuleView>, x: RuleView)
    requires NoRepeats(s + [x])
    ensures NoRepeats(s)
  {
    hide Apart, RuleDistinct;
    forall r <- s ensures RuleDistinct(r) { assert r in s + [x]; }
    forall i, j | 0 <= i < j < |s| ensures Apart(s[i], s[j]) {
      assert (s + [x])[i] == s[i] && (s + [x])[j] == s[j];
    }
  }

  lemma NoRepeatsSnoc(s: seq<RuleView>, t: seq<RuleView>, x: RuleView)
    requires NoRepeats(s + [x]) && NoRepeats(t) && forall r <- t :: r in s
    ensures NoRepeats(t + [x])
  {
    hide Apart, RuleDistinct;
    assert x in s + [x];
    forall i | 0 <= i < |t| ensures Apart(t[i], x) {
      assert t[i] in s;
      var k :| 0 <= k < |s| && s[k] == t[i];
      assert (s + [x])[k] == s[k] && (s + [x])[|s|] == x;
    }
  }

  ghost predicate SamePairs(a: seq<RuleView>, b: seq<RuleView>) {
    forall p :: Denotes(a, p) <==> Denotes(b, p)
  }

  ghost predicate AllDistinct(views: seq<RuleView>) {
    forall r <- views :: RuleDistinct(r)
  }

  /** Whether pairs are kept, for any rules: `dup` and `visited` are the orders in which the maps happen to be
      visited. */
  method DedupRules(rules: seq<MetricRule>, ghost views: seq<RuleView>)
    returns (out: seq<MetricRule>, ghost outViews: seq<RuleView>, ghost dup: map<MetricAttr, seq<nat>>,
             ghost visited: seq<MetricAttr>)
    requires Matches(rules, views) && Unshared(rules)
    modifies set r <- rules :: r.metrics
    ensures Matches(out, outViews) && Choice(views, dup, visited)
    ensures Harmless(views) ==> SamePairs(outViews, views)
    ensures AllDistinct(views) ==> (SamePairs(outViews, views) <==> Agrees(views, dup, visited))
    ensures AllDistinct(views) && Conflict(views) ==> !SamePairs(outViews, views)
    ensures AllDistinct(views) ==> NoRepeats(outViews)
  {
    hide Overlaps, Merges, MergedList, Updated, UpdatedRules, Rewritten, NoRepeats, AllDistinct, SamePairs, Agrees,
      Harmless, Conflict, Named, InRange, Distinct;
    var overlaps := GetOverlapMetrics(rules, views);
    dup, visited := overlaps, [];
    OverlapsInRange(dup, views);
    if |overlaps| == 0 {
      NoOverlap(views, dup);
      return rules, views, dup, visited;
    }
    var merged;
    merged, visited := MergeDuplicateMetrics(rules, overlaps, views);
    assert Choice(views, dup, visited);
    if Conflict(views) { ConflictNever(views, dup, visited); }
    if Harmless(views) { HarmlessAgrees(views, dup, visited); }
    if |merged| == 0 {
      NothingMerged(views, dup, visited, merged);
      return rules, views, dup, visited;
    }
    ghost var list, updated;
    MergedMetrics(views, dup, merged);
    out, list, updated := GetDeduppedRules(rules, merged, views);
    outViews := list + NonEmpty(updated);
    RewrittenKeeps(views, dup, visited, merged, list, updated);
  }

  lemma OverlapsInRange(dup: map<MetricAttr, seq<nat>>, views: seq<RuleView>)
    requires Overlaps(dup, views)
    ensures forall m <- dup :: dup[m] != [] && InRange(dup[m], |views|)
  {
    forall m <- dup ensures InRange(dup[m], |views|) {
      forall a | 0 <= a < |dup[m]| ensures dup[m][a] < |views| {
        assert dup[m][a] in dup[m];
        assert Carries(views, dup[m][a], m);
      }
    }
  }

  lemma MergedMetrics(views: seq<RuleView>, dup: map<MetricAttr, seq<nat>>, merged: map<MetricAttr, RuleView>)
    requires forall m <- dup :: InRange(dup[m], |views|)
    requires Merges(merged, dup, views)
    ensures forall m <- merged :: merged[m].metrics == [m]
  {
    forall m <- merged ensures merged[m].metrics == [m] {
      assert Decided(m, merged, AllDimensions(views, dup[m]));
    }
  }

  lemma NoOverlap(views: seq<RuleView>, dup: map<MetricAttr, seq<nat>>)
    requires Overlaps(dup, views) && (forall m <- dup :: InRange(dup[m], |views|)) && |dup| == 0
    ensures Choice(views, dup, []) && Agrees(views, dup, []) && !Conflict(views) && SamePairs(views, views)
    ensures AllDistinct(views) ==> NoRepeats(views)
  {
    hide NoRepeats;
    assert Choice(views, dup, []);
    if Conflict(views) { ConflictNever(views, dup, []); }
    assert Merges(map[], dup, views);
    UnmergedNoRepeats(views, dup);
  }

  lemma NothingMerged(views: seq<RuleView>, dup: map<MetricAttr, seq<nat>>, visited: seq<MetricAttr>,
                      merged: map<MetricAttr, RuleView>)
    requires Choice(views, dup, visited) && Merges(merged, dup, views) && |merged| == 0
    ensures Agrees(views, dup, visited) && SamePairs(views, views)
    ensures AllDistinct(views) ==> NoRepeats(views)
  {
    hide NoRepeats, NamespaceAfter, InRange, Distinct;
    assert merged == map[];
    forall k, i: nat | 0 <= k < |visited| ensures !Speaks(views, i, visited[k]) {
      assert visited[k] in visited;
      MergedExactly(views, dup, merged, visited[k]);
    }
    UnmergedNoRepeats(views, dup);
  }

  lemma UnmergedNoRepeats(views: seq<RuleView>, dup: map<MetricAttr, seq<nat>>)
    requires Overlaps(dup, views) && (forall m <- dup :: InRange(dup[m], |views|)) && Merges(map[], dup, views)
    ensures AllDistinct(views) ==> NoRepeats(views)
  {
    hide NoRepeats;
    if AllDistinct(views) {
      assert Rewritten(views, dup, map[], [], views);
      NothingRepeated(views, dup, map[], [], views);
      assert [] + views == views;
    }
  }

  /** A metric gets a merged rule exactly when its rules repeat a dimension set. */
  lemma MergedExactly(views: seq<RuleView>, dup: map<MetricAttr, seq<nat>>, merged: map<MetricAttr, RuleView>,
                      m: MetricAttr)
    requires Overlaps(dup, views) && (forall k <- dup :: InRange(dup[k], |views|)) && Merges(merged, dup, views)
    ensures m in merged <==> Merging(views, m)
  {
    hide Distinct, AllDimensions, Shared;
    if m in dup {
      MergingDecides(views, dup, m);
      assert Decided(m, merged, AllDimensions(views, dup[m]));
    }
  }

  /** The namespaces of the merged rules agree with their rules exactly when the choice does. */
  lemma NamespacesAgreeExactly(views: seq<RuleView>, dup: map<MetricAttr, seq<nat>>, visited: seq<MetricAttr>,
                               merged: map<MetricAttr, RuleView>)
    requires Choice(views, dup, visited) && Merges(merged, dup, views) && Named(merged, views, dup, visited)
    ensures NamespacesAgree(views, merged) <==> Agrees(views, dup, visited)
  {
    hide Merges, Merging, NamespaceAfter, Distinct, InRange, Overlaps;
    forall m ensures m in merged <==> Merging(views, m) { MergedExactly(views, dup, merged, m); }
    if Agrees(views, dup, visited) {
      forall m, i: nat | m in merged && Carries(views, i, m) && views[i].dimensionSets != []
        ensures views[i].namespace == merged[m].namespace
      {
        var k := VisitedAt(views, dup, visited, m);
        assert Speaks(views, i, visited[k]);
      }
    }
    if NamespacesAgree(views, merged) {
      forall k, i: nat | 0 <= k < |visited| && Speaks(views, i, visited[k])
        ensures views[i].namespace == NamespaceAfter(views, dup, visited[..k + 1])
      {
        assert visited[k] in merged;
      }
    }
  }

  lemma RewrittenKeeps(views: seq<RuleView>, dup: map<MetricAttr, seq<nat>>, visited: seq<MetricAttr>,
                       merged: map<MetricAttr, RuleView>, list: seq<RuleView>, updated: seq<RuleView>)
    requires Choice(views, dup, visited) && Merges(merged, dup, views) && Named(merged, views, dup, visited)
    requires MergedList(list, merged) && UpdatedRules(views, updated, merged.Keys)
    ensures Agrees(views, dup, visited) ==> SamePairs(list + NonEmpty(updated), views)
    ensures AllDistinct(views) && SamePairs(list + NonEmpty(updated), views) ==> Agrees(views, dup, visited)
    ensures AllDistinct(views) ==> NoRepeats(list + NonEmpty(updated))
  {
    hide Overlaps, Merges, MergedList, UpdatedRules, NoRepeats, Denotes, RuleDistinct, Agrees, NamespacesAgree, Named,
      InRange, Distinct;
    NonEmptyKeeps(list, updated);
    NamespacesAgreeExactly(views, dup, visited, merged);
    assert Rewritten(views, dup, merged, list, updated);
    if Agrees(views, dup, visited) {
      forall p ensures Denotes(list + updated, p) <==> Denotes(views, p) {
        PairsKept(views, dup, merged, list, updated, p);
      }
    }
    if AllDistinct(views) {
      NothingRepeated(views, dup, merged, list, updated);
      PairsKeptExactly(views, dup, merged, list, updated);
    }
  }

  /** What is attached to a metric: exactly the pairs of the original rules that the metric can fill, if no other
      namespace comes into play among the rules that the filter leaves. */
  method AttachMetricRuleWithDedup(fields: set<string>, tags: set<string>, rules: seq<RuleView>)
    returns (out: seq<MetricRule>, ghost filtered: seq<RuleView>)
    ensures Sized(out) && Cleaned(rules, filtered, fields, tags)
    ensures Harmless(filtered) || (exists ns :: OneNamespace(rules, ns)) ==>
              forall p :: Denotes(Views(out), p) <==> Denotes(rules, p) && Available(p, fields, tags)
    ensures AllDistinct(rules) ==> NoRepeats(Views(out))
  {
    hide Denotes, OneNamespace, RuleDistinct, NoRepeats, Available, Harmless, Agrees, Choice, Conflict;
    var kept := CleanupRules(fields, tags, rules);
    filtered := kept;
    var cells := Allocate(kept);
    ghost var views, dup, visited;
    out, views, dup, visited := DedupRules(cells, kept);
    ViewsUnique(out, views);
    if ns :| OneNamespace(rules, ns) {
      OneNamespaceHarmless(kept, ns);
    }
  }

  /** The slices that the filter appended to: one new array per rule. */
  method Allocate(views: seq<RuleView>) returns (rules: seq<MetricRule>)
    ensures Matches(rules, views) && Unshared(rules)
    ensures forall r <- rules :: fresh(r.metrics)
  {
    rules := [];
    for i := 0 to |views|
      invariant Matches(rules, views[..i]) && Unshared(rules)
      invariant forall r <- rules :: fresh(r.metrics)
    {
      var ms := views[i].metrics;
      var cells := new MetricAttr[|ms|](j requires 0 <= j < |ms| => ms[j]);
      assert cells[..|ms|] == ms;
      rules := rules + [MetricRule(cells, |ms|, views[i].dimensionSets, views[i].namespace)];
    }
    assert views[..|views|] == views;
  }

  /** Rules of different namespaces that share a metric and a dimension set, given to dedupRules: in whatever order the
      maps are visited, a pair is lost. */
  method NamespaceLost(m: MetricAttr, d: seq<string>, a: string, b: string) returns (out: seq<MetricRule>)
    requires a != "" && b != "" && a != b
    ensures Sized(out)
    ensures !SamePairs(Views(out), [RuleView([m], [d], a), RuleView([m], [d], b)])
  {
    hide Agrees, Harmless, NoRepeats, SamePairs, Choice;
    var views := [RuleView([m], [d], a), RuleView([m], [d], b)];
    var cells := Allocate(views);
    ghost var after, dup, visited;
    out, after, dup, visited := DedupRules(cells, views);
    ViewsUnique(out, after);
    forall r <- views ensures RuleDistinct(r) {
      SingleDistinct(r.metrics);
      SingleDistinct(r.dimensionSets);
    }
    TwoConflict(views, m, d);
  }

  lemma TwoConflict(views: seq<RuleView>, m: MetricAttr, d: seq<string>)
    requires |views| == 2 && views[0].metrics == views[1].metrics == [m] &&
               views[0].dimensionSets == views[1].dimensionSets == [d]
    requires Differ(views[0].namespace, views[1].namespace)
    ensures Conflict(views)
  {
    assert Carries(views, 0, m) && Carries(views, 1, m) && d in views[0].dimensionSets && d in views[1].dimensionSets;
    assert Speaks(views, 0, m) && Speaks(views, 1, m);
  }
}
