/** Small notions shared by the components. */
module Common {

  /** A pointer that may be nil, or a result that may be missing. */
  datatype Option<T> = None | Some(value: T)

  /** No element occurs twice. */
  ghost predicate Distinct<T>(s: seq<T>) {
    forall i, j :: 0 <= i < j < |s| ==> s[i] != s[j]
  }

  /** One list after the other. */
  ghost function Flatten<T>(lists: seq<seq<T>>): seq<T> {
    if lists == [] then [] else Flatten(lists[..|lists| - 1]) + lists[|lists| - 1]
  }

  lemma FlattenSnoc<T>(lists: seq<seq<T>>, last: seq<T>)
    ensures Flatten(lists + [last]) == Flatten(lists) + last
  {
    assert (lists + [last])[..|lists|] == lists;
  }

  lemma {:induction false} FlattenMember<T>(lists: seq<seq<T>>, x: T)
    ensures x in Flatten(lists) ==> exists i :: 0 <= i < |lists| && x in lists[i]
  {
    if lists != [] {
      FlattenMember(lists[..|lists| - 1], x);
    }
  }

  /** A set visited in some order, as Go ranges over a map. */
  method Visit<T(==)>(s: set<T>) returns (order: seq<T>)
    ensures |order| == |s| && Distinct(order) && forall x :: x in order <==> x in s
  {
    order := [];
    var todo := s;
    while todo != {}
      invariant todo <= s && |order| + |todo| == |s|
      invariant Distinct(order) && forall x :: x in order <==> x in s && x !in todo
      decreases |todo|
    {
      var x :| x in todo;
      assert x !in order;
      order, todo := order + [x], todo - {x};
    }
  }

  lemma {:induction false} DistinctCount<T>(s: seq<T>, x: T)
    requires Distinct(s)
    ensures multiset(s)[x] == if x in s then 1 else 0
  {
    if s != [] {
      var front, last := s[..|s| - 1], s[|s| - 1];
      DistinctCount(front, x);
      assert s == front + [last];
      assert last !in front;
    }
  }

  /** An element that is counted twice stands at two places. */
  lemma {:induction false} CountedTwice<T>(s: seq<T>, x: T) returns (i: nat, j: nat)
    requires multiset(s)[x] >= 2
    ensures i < j < |s| && s[i] == x && s[j] == x
  {
    var front, last := s[..|s| - 1], s[|s| - 1];
    assert s == front + [last];
    if last == x {
      j := |front|;
      assert x in multiset(front);
      i :| 0 <= i < |front| && front[i] == x;
    } else {
      i, j := CountedTwice(front, x);
    }
  }

  lemma RepeatCounts<T>(s: seq<T>, i: nat, j: nat)
    requires i < j < |s| && s[i] == s[j]
    ensures multiset(s)[s[i]] >= 2
  {
    assert s == s[..j] + s[j..];
    assert s[..j][i] in multiset(s[..j]);
    assert s[j..][0] in multiset(s[j..]);
  }
}
