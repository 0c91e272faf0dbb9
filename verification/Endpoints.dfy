/** The Kubernetes endpoint client: an object store with a "refreshed" flag, and two maps derived from it on demand. */
module Endpoints {
  import opened Common

  datatype Service = Service(name: string, namespace: string)

  datatype EndpointInfo = EndpointInfo(name: string, namespace: string, podKeys: seq<string>)

  function ServiceOf(e: EndpointInfo): Service {
    Service(e.name, e.namespace)
  }

  type UID = string

  type Objects = map<UID, EndpointInfo>

  /** The two cached maps. */
  datatype Maps = Maps(podToServices: map<string, seq<string>>, serviceToPods: map<Service, nat>)

  ghost predicate Names(objs: set<EndpointInfo>, pod: string, service: string) {
    exists e <- objs :: e.name == service && pod in e.podKeys
  }

  /** What refresh computes from the objects, up to the order of names and, where two objects are the same service, up
      to which of them is counted. */
  ghost predicate DerivedFrom(maps: Maps, objs: set<EndpointInfo>) {
    && (forall pod :: pod in maps.podToServices <==> exists e <- objs :: pod in e.podKeys)
    && (forall pod <- maps.podToServices ::
          && Distinct(maps.podToServices[pod])
          && forall s :: s in maps.podToServices[pod] <==> Names(objs, pod, s))
    && (forall s :: s in maps.serviceToPods <==>
          exists e <- objs :: e.name == s.name && e.namespace == s.namespace && e.podKeys != [])
    && (forall s <- maps.serviceToPods ::
          exists e <- objs ::
            e.name == s.name && e.namespace == s.namespace && e.podKeys != [] && maps.serviceToPods[s] == |e.podKeys|)
  }

  /** What a watch delivers; a bad object has no metadata or is not an endpoint. */
  datatype Delivery = Good(uid: UID, info: EndpointInfo) | Bad

  class ObjStore {
    var objs: Objects
    var refreshed: bool

    constructor ()
      ensures objs == map[] && !refreshed
    {
      objs, refreshed := map[], false;
    }

    /** Reading the flag resets it. */
    method Refreshed() returns (was: bool)
      modifies this
      ensures was == old(refreshed) && !refreshed && objs == old(objs)
    {
      was := refreshed;
      if was {
        refreshed := false;
      }
    }

    method Add(obj: Delivery) returns (ok: bool)
      modifies this
      ensures ok <==> obj.Good?
      ensures ok ==> objs == old(objs)[obj.uid := obj.info] && refreshed
      ensures !ok ==> unchanged(this)
    {
      if obj.Bad? {
        return false;
      }
      objs, refreshed := objs[obj.uid := obj.info], true;
      return true;
    }

    method Delete(obj: Delivery) returns (ok: bool)
      modifies this
      ensures ok <==> obj.Good?
      ensures ok ==> objs == old(objs) - {obj.uid} && refreshed
      ensures !ok ==> unchanged(this)
    {
      if obj.Bad? {
        return false;
      }
      objs, refreshed := objs - {obj.uid}, true;
      return true;
    }

    method List() returns (list: seq<EndpointInfo>)
      ensures forall e :: e in list <==> e in objs.Values
    {
      list := [];
      var todo := objs.Keys;
      while todo != {}
        invariant todo <= objs.Keys
        invariant forall e <- list :: e in objs.Values
        invariant forall u <- objs.Keys - todo :: objs[u] in list
        decreases |todo|
      {
        var u :| u in todo;
        list, todo := list + [objs[u]], todo - {u};
      }
    }

    /** The objects of a list, added one by one. */
    static function Loaded(list: seq<Delivery>): Objects {
      if list == [] then map[]
      else
        var rest, last := Loaded(list[..|list| - 1]), list[|list| - 1];
        if last.Good? then rest[last.uid := last.info] else rest
    }

    /** The contents are dropped first, without touching the flag; only a successful Add sets it, and the first bad
        object ends the replacement. */
    method Replace(list: seq<Delivery>) returns (ok: bool)
      modifies this
      ensures ok <==> forall d <- list :: d.Good?
      ensures exists n ::
                0 <= n <= |list| && (forall i :: 0 <= i < n ==> list[i].Good?) && (n < |list| ==> list[n].Bad?) &&
                objs == Loaded(list[..n]) && refreshed == (old(refreshed) || n > 0)
    {
      objs := map[];
      for i := 0 to |list|
        invariant forall j :: 0 <= j < i ==> list[j].Good?
        invariant objs == Loaded(list[..i]) && refreshed == (old(refreshed) || i > 0)
      {
        var added := Add(list[i]);
        if !added {
          assert list[i] in list;
          return false;
        }
        assert list[..i + 1][..i] == list[..i];
      }
      return true;
    }
  }

  class EpClient {
    const store: ObjStore
    var podKeyToServiceNamesMap: map<string, seq<string>>
    var serviceToPodNumMap: map<Service, nat>

    constructor (store: ObjStore)
      ensures this.store == store && Cached() == Maps(map[], map[])
    {
      this.store := store;
      podKeyToServiceNamesMap, serviceToPodNumMap := map[], map[];
    }

    ghost function Cached(): Maps
      reads this
    {
      Maps(podKeyToServiceNamesMap, serviceToPodNumMap)
    }

    method Refresh()
      modifies this
      ensures DerivedFrom(Cached(), store.objs.Values)
    {
      var list := store.List();
      var pods, counts := Collect(list);
      var names := Flattened(pods);
      podKeyToServiceNamesMap, serviceToPodNumMap := names, counts;
      assert forall e :: e in list <==> e in store.objs.Values;
    }

    method PodKeyToServiceNames() returns (r: map<string, seq<string>>)
      modifies this, store
      ensures old(store.refreshed) ==> DerivedFrom(Cached(), store.objs.Values)
      ensures !old(store.refreshed) ==> Cached() == old(Cached())
      ensures !store.refreshed && store.objs == old(store.objs)
      ensures r == Cached().podToServices
    {
      var was := store.Refreshed();
      if was {
        Refresh();
      }
      r := podKeyToServiceNamesMap;
    }

    method ServiceToPodNum() returns (r: map<Service, nat>)
      modifies this, store
      ensures old(store.refreshed) ==> DerivedFrom(Cached(), store.objs.Values)
      ensures !old(store.refreshed) ==> Cached() == old(Cached())
      ensures !store.refreshed && store.objs == old(store.objs)
      ensures r == Cached().serviceToPods
    {
      var was := store.Refreshed();
      if was {
        Refresh();
      }
      r := serviceToPodNumMap;
    }
  }

  /** Some endpoint of that name lists the pod. */
  ghost predicate Lists(list: seq<EndpointInfo>, pod: string, s: string) {
    exists e <- list :: e.name == s && pod in e.podKeys
  }

  ghost predicate Mentions(list: seq<EndpointInfo>, pod: string) {
    exists e <- list :: pod in e.podKeys
  }

  ghost predicate PodsOf(pods: map<string, set<string>>, list: seq<EndpointInfo>) {
    && (forall pod :: pod in pods <==> Mentions(list, pod))
    && (forall pod <- pods, s :: s in pods[pod] <==> Lists(list, pod, s))
  }

  ghost predicate CountsOf(counts: map<Service, nat>, list: seq<EndpointInfo>) {
    && (forall s :: s in counts <==>
          exists e <- list :: e.name == s.name && e.namespace == s.namespace && e.podKeys != [])
    && (forall s <- counts ::
          exists e <- list ::
            e.name == s.name && e.namespace == s.namespace && e.podKeys != [] && counts[s] == |e.podKeys|)
  }

  function NamesIn(pods: map<string, set<string>>, k: string): set<string> {
    if k in pods then pods[k] else {}
  }

  /** The first loop of refresh. */
  method Collect(list: seq<EndpointInfo>) returns (pods: map<string, set<string>>, counts: map<Service, nat>)
    ensures PodsOf(pods, list) && CountsOf(counts, list)
  {
    hide PodsOf, CountsOf;
    pods, counts := map[], map[];
    CollectedNothing();
    for i := 0 to |list|
      invariant PodsOf(pods, list[..i]) && CountsOf(counts, list[..i])
    {
      var e := list[i];
      CountsNext(counts, list[..i], e);
      if |e.podKeys| > 0 {
        counts := counts[ServiceOf(e) := |e.podKeys|];
      }
      ghost var before := pods;
      pods := CollectPods(pods, e);
      PodsNext(before, pods, list[..i], e);
      assert list[..i + 1] == list[..i] + [e];
    }
    assert list[..|list|] == list;
  }

  lemma CollectedNothing()
    ensures PodsOf(map[], []) && CountsOf(map[], [])
  {}

  lemma CountsNext(counts: map<Service, nat>, list: seq<EndpointInfo>, e: EndpointInfo)
    requires CountsOf(counts, list)
    ensures CountsOf(if e.podKeys != [] then counts[ServiceOf(e) := |e.podKeys|] else counts, list + [e])
  {
    assert e in list + [e];
    assert forall x <- list :: x in list + [e];
  }

  /** The inner loop: the endpoint's name for each of its pods. */
  method CollectPods(before: map<string, set<string>>, e: EndpointInfo) returns (pods: map<string, set<string>>)
    ensures NamedToo(before, pods, e, e.podKeys)
  {
    hide NamedToo;
    pods := before;
    NamedNothing(before, e);
    for j := 0 to |e.podKeys|
      invariant NamedToo(before, pods, e, e.podKeys[..j])
    {
      var k := e.podKeys[j];
      assert e.podKeys[..j + 1] == e.podKeys[..j] + [k];
      NamedNext(before, pods, e, e.podKeys[..j], k);
      ghost var was := pods;
      if k !in pods {
        pods := pods[k := {}];
      }
      pods := pods[k := pods[k] + {e.name}];
      assert pods == was[k := NamesIn(was, k) + {e.name}];
    }
    assert e.podKeys[..|e.podKeys|] == e.podKeys;
  }

  /** These pods have the endpoint's name too. */
  ghost predicate NamedToo(before: map<string, set<string>>, pods: map<string, set<string>>, e: EndpointInfo,
                           keys: seq<string>)
  {
    && (forall k :: k in pods <==> k in before || k in keys)
    && forall k <- pods :: pods[k] == NamesIn(before, k) + if k in keys then {e.name} else {}
  }

  lemma NamedNothing(before: map<string, set<string>>, e: EndpointInfo)
    ensures NamedToo(before, before, e, [])
  {}

  lemma NamedNext(before: map<string, set<string>>, pods: map<string, set<string>>, e: EndpointInfo, keys: seq<string>,
                  k: string)
    requires NamedToo(before, pods, e, keys)
    ensures NamedToo(before, pods[k := NamesIn(pods, k) + {e.name}], e, keys + [k])
  {}

  lemma ListsNext(list: seq<EndpointInfo>, e: EndpointInfo, pod: string, s: string)
    ensures Lists(list + [e], pod, s) <==> Lists(list, pod, s) || (e.name == s && pod in e.podKeys)
    ensures Mentions(list + [e], pod) <==> Mentions(list, pod) || pod in e.podKeys
    ensures Lists(list, pod, s) ==> Mentions(list, pod)
  {
    assert e in list + [e];
    assert forall x <- list :: x in list + [e];
  }

  lemma PodsNext(before: map<string, set<string>>, pods: map<string, set<string>>, list: seq<EndpointInfo>,
                 e: EndpointInfo)
    requires PodsOf(before, list) && NamedToo(before, pods, e, e.podKeys)
    ensures PodsOf(pods, list + [e])
  {
    hide Lists, Mentions;
    forall pod ensures pod in pods <==> Mentions(list + [e], pod) {
      ListsNext(list, e, pod, "");
    }
    forall pod <- pods, s ensures s in pods[pod] <==> Lists(list + [e], pod, s) {
      ListsNext(list, e, pod, s);
    }
  }

  /** The second loop of refresh: each set of names becomes a list, in some order. */
  method Flattened(pods: map<string, set<string>>) returns (names: map<string, seq<string>>)
    ensures names.Keys == pods.Keys
    ensures forall pod <- names ::
              && Distinct(names[pod])
              && forall s :: s in names[pod] <==> s in pods[pod]
  {
    names := map[];
    var todo := pods.Keys;
    while todo != {}
      invariant todo <= pods.Keys && names.Keys == pods.Keys - todo
      invariant forall pod <- names ::
                  && Distinct(names[pod])
                  && forall s :: s in names[pod] <==> s in pods[pod]
      decreases |todo|
    {
      var pod :| pod in todo;
      var list := Visit(pods[pod]);
      names, todo := names[pod := list], todo - {pod};
    }
  }

  // ----- readers and writers interleaved -----

  datatype Phase =
    | MustRefresh            // saw the flag set, and cleared it
    | Building(from: nat)    // holds the client's lock and has listed that version of the store

  /** The store as the sequence of all its versions, and the client with the version its maps come from. */
  datatype State = State(
    versions: seq<Objects>,
    flag: bool,
    readers: map<nat, Phase>,  // readers that are between reading the flag and finishing their refresh
    maps: Maps,
    mapsFrom: nat,
    missed: bool)              // the store was emptied when no flag and no reader could tell the client

  datatype Step =
    | AddObject(uid: UID, info: EndpointInfo)
    | DeleteObject(uid: UID)
    | DropAll                             // the first region of Replace
    | ReadFlag(reader: nat)
    | ListStore(reader: nat)
    | PublishMaps(reader: nat, built: Maps)

  const START := State([map[]], false, map[], Maps(map[], map[]), 0, false)

  ghost function Now(s: State): Objects
    requires s.versions != []
  {
    s.versions[|s.versions| - 1]
  }

  ghost predicate Locked(s: State) {
    exists r <- s.readers :: s.readers[r].Building?
  }

  ghost predicate Waiting(s: State) {
    exists r <- s.readers :: s.readers[r].MustRefresh?
  }

  ghost predicate Enabled(s: State, step: Step) {
    match step
    case ReadFlag(r) => r !in s.readers
    case ListStore(r) => r in s.readers && s.readers[r].MustRefresh? && !Locked(s)
    case PublishMaps(r, built) =>
      && r in s.readers && s.readers[r].Building? && s.readers[r].from < |s.versions|
      && DerivedFrom(built, s.versions[s.readers[r].from].Values)
    case _ => true
  }

  ghost function Apply(s: State, step: Step): State
    requires s.versions != [] && Enabled(s, step)
  {
    match step
    case AddObject(uid, info) =>
      s.(versions := s.versions + [Now(s)[uid := info]], flag := true, missed := false)
    case DeleteObject(uid) =>
      s.(versions := s.versions + [Now(s) - {uid}], flag := true, missed := false)
    case DropAll =>
      s.(versions := s.versions + [map[]], missed := !s.flag && !Waiting(s))
    case ReadFlag(r) =>
      if s.flag then s.(flag := false, readers := s.readers[r := MustRefresh]) else s
    case ListStore(r) =>
      s.(readers := s.readers[r := Building(|s.versions| - 1)])
    case PublishMaps(r, built) =>
      s.(readers := s.readers - {r}, maps := built, mapsFrom := s.readers[r].from)
  }

  ghost predicate Reaches(s: State, steps: seq<Step>, t: State)
    decreases |steps|
  {
    if steps == [] then s == t
    else s.versions != [] && Enabled(s, steps[0]) && Reaches(Apply(s, steps[0]), steps[1..], t)
  }

  /** What the flag, a waiting reader or a reader that is building stands for: the maps are or will be brought up to
      date. */
  ghost predicate Covered(s: State) {
    || s.flag
    || Waiting(s)
    || (exists r <- s.readers :: s.readers[r].Building? && s.readers[r].from == |s.versions| - 1)
    || (!Locked(s) && s.mapsFrom == |s.versions| - 1)
  }

  ghost predicate Inv(s: State) {
    && s.mapsFrom < |s.versions|
    && DerivedFrom(s.maps, s.versions[s.mapsFrom].Values)
    && (forall r <- s.readers :: s.readers[r].Building? ==> s.mapsFrom <= s.readers[r].from < |s.versions|)
    && (forall q <- s.readers, r <- s.readers :: s.readers[q].Building? && s.readers[r].Building? ==> q == r)
    && (s.missed ==> !s.flag && !Waiting(s) && s.mapsFrom < |s.versions| - 1 && Now(s) == map[])
    && (s.missed ==> forall r <- s.readers :: s.readers[r].Building? ==> s.readers[r].from < |s.versions| - 1)
    && (!s.missed ==> Covered(s))
  }

  lemma InvStart()
    ensures Inv(START)
  {
    assert DerivedFrom(START.maps, {});
  }

  lemma InvStep(s: State, step: Step)
    requires Inv(s) && Enabled(s, step)
    ensures Inv(Apply(s, step))
    ensures s.mapsFrom <= Apply(s, step).mapsFrom
    ensures s.versions <= Apply(s, step).versions
  {
    hide DerivedFrom;
    match step
    case AddObject(uid, info) => WriteStep(s, step);
    case DeleteObject(uid) => WriteStep(s, step);
    case DropAll => WriteStep(s, step);
    case ReadFlag(r) =>
      if s.flag { assert Apply(s, step).readers[r].MustRefresh?; }
    case ListStore(r) =>
      assert Apply(s, step).readers[r].from == |s.versions| - 1;
    case PublishMaps(r, built) => PublishStep(s, r, built);
  }

  lemma WriteStep(s: State, step: Step)
    requires Inv(s) && (step.AddObject? || step.DeleteObject? || step.DropAll?)
    ensures Inv(Apply(s, step)) && s.mapsFrom == Apply(s, step).mapsFrom && s.versions <= Apply(s, step).versions
  {
    hide DerivedFrom;
    var t := Apply(s, step);
    assert t.readers == s.readers;
    assert Waiting(t) <==> Waiting(s);
  }

  lemma PublishStep(s: State, r: nat, built: Maps)
    requires Inv(s) && Enabled(s, PublishMaps(r, built))
    ensures Inv(Apply(s, PublishMaps(r, built)))
  {
    hide DerivedFrom;
    var t := Apply(s, PublishMaps(r, built));
    assert !Locked(t);
    if Waiting(s) {
      var q :| q in s.readers && s.readers[q].MustRefresh?;
      assert t.readers[q].MustRefresh?;
    }
  }

  lemma {:induction false} InvReaches(s: State, steps: seq<Step>, t: State)
    requires Inv(s) && Reaches(s, steps, t)
    ensures Inv(t) && s.mapsFrom <= t.mapsFrom && s.versions <= t.versions
    decreases |steps|
  {
    hide Inv;
    if steps != [] {
      NonEmpty(s);
      InvStep(s, steps[0]);
      InvReaches(Apply(s, steps[0]), steps[1..], t);
    }
  }

  lemma NonEmpty(s: State)
    requires Inv(s)
    ensures s.versions != []
  {}

  /** No reader is between clearing the flag and finishing its refresh, and the flag is clear. */
  ghost predicate Quiet(s: State) {
    !s.flag && s.readers == map[]
  }

  /** In every run the cached maps are derived from some version of the store, that version never goes back, and in a
      quiet state it is the current version exactly when no emptying of the store was missed. The maps are then right;
      after a missed one they are right exactly if they were empty anyway. */
  lemma EveryRun(steps: seq<Step>, s: State, more: seq<Step>, t: State)
    requires Reaches(START, steps, s) && Reaches(s, more, t)
    ensures s.mapsFrom < |s.versions| && DerivedFrom(s.maps, s.versions[s.mapsFrom].Values)
    ensures s.mapsFrom <= t.mapsFrom && s.versions <= t.versions
    ensures Quiet(s) ==> (s.mapsFrom == |s.versions| - 1 <==> !s.missed)
    ensures Quiet(s) ==> (DerivedFrom(s.maps, Now(s).Values) <==> !s.missed || s.maps == Maps(map[], map[]))
  {
    hide DerivedFrom;
    InvStart();
    InvReaches(START, steps, s);
    InvReaches(s, more, t);
    if s.missed {
      assert Now(s).Values == {};
      DerivedFromNothing(s.maps);
    }
  }

  lemma DerivedFromNothing(maps: Maps)
    ensures DerivedFrom(maps, {}) <==> maps == Maps(map[], map[])
  {
    if DerivedFrom(maps, {}) {
      assert maps.podToServices.Keys == {} && maps.serviceToPods.Keys == {};
      assert maps.podToServices == map[] && maps.serviceToPods == map[];
    }
  }

  /** Replacing the contents by nothing goes unnoticed: the maps keep naming a service that is gone. */
  lemma EmptyReplaceUnnoticed(uid: UID, e: EndpointInfo, built: Maps)
    requires e.podKeys != [] && DerivedFrom(built, {e})
    ensures var steps := [AddObject(uid, e), ReadFlag(0), ListStore(0), PublishMaps(0, built), DropAll];
            exists s :: Reaches(START, steps, s) && Quiet(s) && s.versions != [] && Now(s) == map[] &&
                s.maps == built &&
                        !DerivedFrom(s.maps, Now(s).Values)
  {
    hide DerivedFrom;
    var steps := [AddObject(uid, e), ReadFlag(0), ListStore(0), PublishMaps(0, built), DropAll];
    var s1 := Apply(START, steps[0]);
    var s2 := Apply(s1, steps[1]);
    var s3 := Apply(s2, steps[2]);
    var objs: Objects := map[uid := e];
    assert Now(s1) == objs;
    assert objs.Values == {e} by { assert objs[uid] in objs.Values; }
    var s4 := Apply(s3, steps[3]);
    var s5 := Apply(s4, steps[4]);
    assert Reaches(s5, [], s5);
    assert steps[4..][1..] == [];
    assert Reaches(s4, steps[4..], s5);
    assert steps[3..][1..] == steps[4..];
    assert Reaches(s3, steps[3..], s5);
    assert steps[2..][1..] == steps[3..];
    assert Reaches(s2, steps[2..], s5);
    assert steps[1..][1..] == steps[2..];
    assert Reaches(s1, steps[1..], s5);
    assert Reaches(START, steps, s5);
    assert Now(s5).Values == {};
    StillNamed(e, built);
  }

  lemma StillNamed(e: EndpointInfo, built: Maps)
    requires e.podKeys != [] && DerivedFrom(built, {e})
    ensures !DerivedFrom(built, {})
  {
    assert ServiceOf(e) in built.serviceToPods;
  }
}
