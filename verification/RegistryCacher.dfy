/** The mutable cache, the backend's grouping and the list of the process's own services. */
module RegistryCacher {
  import opened Text
  import opened RegistryEntries
  import opened RegistryCache

  // ---- the loops of update ----

  method FindVersion(services: seq<Service>, version: string) returns (index: int)
    ensures index == LastOf(services, version)
  {
    index := -1;
    for i := 0 to |services|
      invariant index == LastOf(services[..i], version)
    {
      assert services[..i + 1][..i] == services[..i];
      if services[i].version == version { index := i; }
    }
    assert services[..|services|] == services;
  }

  method SeenId(nodes: seq<Node>, id: string) returns (seen: bool)
    ensures seen == HasId(nodes, id)
  {
    for i := 0 to |nodes|
      invariant forall k :: 0 <= k < i ==> nodes[k].id != id
    {
      if nodes[i].id == id { return true; }
    }
    return false;
  }

  method AppendOldNodes(added: seq<Node>, before: seq<Node>) returns (nodes: seq<Node>)
    ensures nodes == Merged(added, before)
  {
    nodes := added;
    for i := 0 to |before|
      invariant Merged(nodes, before[i..]) == Merged(added, before)
    {
      var seen := SeenId(nodes, before[i].id);
      if !seen { nodes := nodes + [before[i]]; }
    }
  }

  lemma {:induction false} WithoutAppend(a: seq<Node>, b: seq<Node>, dead: seq<Node>)
    ensures Without(a + b, dead) == Without(a, dead) + Without(b, dead)
  {
    if a == [] {
      assert a + b == b;
    } else {
      assert (a + b)[1..] == a[1..] + b;
      WithoutAppend(a[1..], b, dead);
    }
  }

  method DropDeadNodes(cur: seq<Node>, dead: seq<Node>) returns (nodes: seq<Node>)
    ensures nodes == Without(cur, dead)
  {
    nodes := [];
    for i := 0 to |cur|
      invariant nodes == Without(cur[..i], dead)
    {
      var seen := SeenId(dead, cur[i].id);
      assert cur[..i + 1] == cur[..i] + [cur[i]];
      WithoutAppend(cur[..i], [cur[i]], dead);
      assert Without([cur[i]], dead) == if seen then [] else [cur[i]];
      if !seen { nodes := nodes + [cur[i]]; }
    }
    assert cur[..|cur|] == cur;
  }

  lemma {:induction false} OtherVersionsAppend(a: seq<Service>, s: Service, version: string)
    ensures OtherVersions(a + [s], version) == OtherVersions(a, version) + if s.version != version then [s] else []
  {
    if a == [] {
      assert a + [s] == [s];
    } else {
      assert (a + [s])[1..] == a[1..] + [s];
      OtherVersionsAppend(a[1..], s, version);
    }
  }

  method KeepOtherVersions(services: seq<Service>, version: string) returns (kept: seq<Service>)
    ensures kept == OtherVersions(services, version)
  {
    kept := [];
    for i := 0 to |services|
      invariant kept == OtherVersions(services[..i], version)
    {
      assert services[..i + 1] == services[..i] + [services[i]];
      OtherVersionsAppend(services[..i], services[i], version);
      if services[i].version != version { kept := kept + [services[i]]; }
    }
    assert services[..|services|] == services;
  }

  class Cacher {
    const ttl: nat
    var cache: map<string, seq<Service>>
    var ttls: map<string, int>
    var watched: set<string>
    var failed: bool
    var listExpiry: Option<int>

    ghost function Value(): (c: State)
      reads this
    {
      State(cache, ttls, watched, failed, listExpiry)
    }

    /** Cached services carry the name they are cached under. */
    ghost predicate Valid()
      reads this
    {
      forall name :: name in cache ==> forall s :: s in cache[name] ==> s.name == name
    }

    constructor (ttl: nat)
      ensures Valid() && this.ttl == ttl && Value() == Empty().cache
    {
      this.ttl := ttl;
      cache, ttls, watched, failed, listExpiry := map[], map[], {}, false, None;
    }

    method Set(name: string, services: seq<Service>, now: int)
      modifies this`cache, this`ttls
      ensures Value() == SetEntry(old(Value()), name, services, now + ttl)
    {
      cache := cache[name := services];
      ttls := ttls[name := now + ttl];
    }

    method Del(name: string)
      modifies this`cache, this`ttls
      ensures Value() == DelEntry(old(Value()), name)
    {
      if failed { return; }
      cache := cache - {name};
      ttls := ttls - {name};
    }

    /** An event changes the cached list of its service, as `UpdateState` says. */
    method Update(res: Option<Event>, now: int)
      requires Valid()
      modifies this
      ensures Valid() && Value() == if res.None? then old(Value()) else UpdateState(old(Value()), res.value, now + ttl)
    {
      if res.None? { return; }
      var (action, s) := (res.value.action, res.value.service);
      listExpiry := None;
      if s.name !in watched || s.name !in cache { return; }
      var services := cache[s.name];
      hide LastOf, Merged, Without, OtherVersions;
      if s.nodes == [] {
        if action.Delete? { Del(s.name); }
        return;
      }
      var index := FindVersion(services, s.version);
      match action
      case Create | Update =>
        CreateNodes(services, index, res.value, now);
      case Delete =>
        if index != -1 { DeleteNodes(services, index, s, now); }
      case Override =>
        if index != -1 { Del(services[index].name); }
    }

    method CreateNodes(services: seq<Service>, index: int, e: Event, now: int)
      requires Valid() && e.service.name in cache && cache[e.service.name] == services
      requires index == LastOf(services, e.service.version) && e.service.nodes != []
      requires e.action.Create? || e.action.Update?
      modifies this`cache, this`ttls
      ensures Valid() && Applied(services, e).Some?
      ensures Value() == SetEntry(old(Value()), e.service.name, Applied(services, e).value, now + ttl)
    {
      hide LastOf, Merged;
      var s := e.service;
      if index == -1 {
        Set(s.name, services + [s], now);
      } else {
        var nodes := AppendOldNodes(s.nodes, services[index].nodes);
        Set(s.name, services[index := s.(nodes := nodes)], now);
      }
    }

    /** A delete that names nodes of a cached version: the version goes with its last node, the entry with its last
        version. */
    method DeleteNodes(services: seq<Service>, index: nat, s: Service, now: int)
      requires Valid() && s.name in cache && cache[s.name] == services
      requires index < |services| && LastOf(services, s.version) == index && s.nodes != []
      modifies this`cache, this`ttls
      ensures Valid()
      ensures var r := Applied(services, Event(Delete, s));
              Value() == if r.None? then DelEntry(old(Value()), s.name)
                         else SetEntry(old(Value()), s.name, r.value, now + ttl)
    {
      hide LastOf, Without;
      var service := services[index];
      assert service in services;
      var nodes := DropDeadNodes(service.nodes, s.nodes);
      if nodes != [] {
        Set(service.name, services[index := service.(nodes := nodes)], now);
      } else if |services| == 1 {
        Del(service.name);
      } else {
        var kept := KeepOtherVersions(services, service.version);
        Set(service.name, kept, now);
      }
    }

    /** A lookup with the backend's answer, as `GetState` says. */
    method Get(name: string, now: int, answer: Answer) returns (r: Option<seq<Service>>)
      requires Valid() && (answer.Found? ==> forall s :: s in answer.services ==> s.name == name)
      modifies this
      ensures Valid() && (Value(), r) == GetState(old(Value()), name, now, ttl, answer)
    {
      var cached := if name in cache then cache[name] else [];
      if cached != [] && name in ttls && now <= ttls[name] { return Some(cached); }
      assert name in watched ==> watched + {name} == watched;
      if name !in watched { watched := watched + {name}; }
      match answer
      case Failure =>
        if |cached| > 0 {
          failed := true;
          return Some(cached);
        }
        return None;
      case Found(services) =>
        if failed { failed := false; }
        Set(name, services, now);
        return Some(services);
    }
  }

  // ---- the backend's grouping ----

  /** The services collected so far, by version, hold exactly the first `n` registrations. */
  ghost predicate Collected(m: map<string, Service>, kvs: seq<Service>, n: nat, name: string)
    requires n <= |kvs| && forall k :: 0 <= k < |kvs| ==> |kvs[k].nodes| == 1
  {
    && (forall v :: v in m ==> m[v].name == name && m[v].version == v && m[v].nodes != [] && UniqueIds(m[v].nodes))
    && (forall k :: 0 <= k < n ==> kvs[k].version in m && kvs[k].nodes[0] in m[kvs[k].version].nodes)
    && (forall v, x :: v in m && x in m[v].nodes ==>
        exists k :: 0 <= k < n && kvs[k].version == v && kvs[k].nodes[0] == x)
  }

  /** `GetService` of the etcd backend on the decoded registrations of one service, in any order of the versions. */
  method GroupByVersion(kvs: seq<Service>, name: string) returns (services: seq<Service>)
    requires forall k :: 0 <= k < |kvs| ==> kvs[k].name == name && |kvs[k].nodes| == 1
    requires forall i, j :: 0 <= i < j < |kvs| ==> kvs[i].nodes[0].id != kvs[j].nodes[0].id
    ensures Grouped(services, name)
    ensures forall k :: 0 <= k < |kvs| ==> NodeAt(services, kvs[k].version, kvs[k].nodes[0].id) == Some(kvs[k].nodes[0])
    ensures forall v, id :: var r := NodeAt(services, v, id);
              r.Some? ==>
                r.value.id == id && exists k :: 0 <= k < |kvs| && kvs[k].version == v && kvs[k].nodes[0] == r.value
  {
    var m: map<string, Service> := map[];
    for i := 0 to |kvs|
      invariant Collected(m, kvs, i, name)
    {
      var sn := kvs[i];
      var s := if sn.version in m then m[sn.version] else Service(name, sn.version, sn.info, []);
      assert forall x :: x in s.nodes ==> x.id != sn.nodes[0].id;
      ghost var was := m;
      m := m[sn.version := s.(nodes := s.nodes + sn.nodes)];
      assert m[sn.version].nodes == s.nodes + [sn.nodes[0]];
      CollectedOneMore(was, m, s.nodes, kvs, i, name);
    }
    services := [];
    var left := m.Keys;
    while left != {}
      invariant left <= m.Keys
      invariant forall s :: s in services <==> s.version in m && s.version !in left && s == m[s.version]
      invariant forall i, j :: 0 <= i < j < |services| ==> services[i].version != services[j].version
      decreases left
    {
      var v :| v in left;
      services, left := services + [m[v]], left - {v};
    }
    GroupedHolds(m, services, kvs, name);
  }

  lemma CollectedOneMore(was: map<string, Service>, m: map<string, Service>, nodes: seq<Node>, kvs: seq<Service>,
                         i: nat, name: string)
    requires i < |kvs| && forall k :: 0 <= k < |kvs| ==> |kvs[k].nodes| == 1
    requires Collected(was, kvs, i, name)
    requires nodes == if kvs[i].version in was then was[kvs[i].version].nodes else []
    requires kvs[i].version in m && m == was[kvs[i].version := m[kvs[i].version]]
    requires m[kvs[i].version].name == name && m[kvs[i].version].version == kvs[i].version
    requires m[kvs[i].version].nodes == nodes + [kvs[i].nodes[0]]
    requires forall x :: x in nodes ==> x.id != kvs[i].nodes[0].id
    ensures Collected(m, kvs, i + 1, name)
  {
    forall v, x | v in m && x in m[v].nodes
      ensures exists k :: 0 <= k < i + 1 && kvs[k].version == v && kvs[k].nodes[0] == x
    {
      if v == kvs[i].version && x == kvs[i].nodes[0] {
        assert 0 <= i < i + 1 && kvs[i].version == v;
      } else {
        assert v in was && x in was[v].nodes;
      }
    }
  }

  lemma GroupedHolds(m: map<string, Service>, services: seq<Service>, kvs: seq<Service>, name: string)
    requires forall k :: 0 <= k < |kvs| ==> |kvs[k].nodes| == 1
    requires Collected(m, kvs, |kvs|, name)
    requires forall s :: s in services <==> s.version in m && s == m[s.version]
    requires forall i, j :: 0 <= i < j < |services| ==> services[i].version != services[j].version
    ensures Grouped(services, name)
    ensures forall k :: 0 <= k < |kvs| ==> NodeAt(services, kvs[k].version, kvs[k].nodes[0].id) == Some(kvs[k].nodes[0])
    ensures forall v, id :: var r := NodeAt(services, v, id);
              r.Some? ==>
                r.value.id == id && exists k :: 0 <= k < |kvs| && kvs[k].version == v && kvs[k].nodes[0] == r.value
  {
    forall i | 0 <= i < |services| ensures services[i] == m[services[i].version] && services[i].version in m {
      assert services[i] in services;
    }
    forall k | 0 <= k < |kvs|
      ensures NodeAt(services, kvs[k].version, kvs[k].nodes[0].id) == Some(kvs[k].nodes[0])
    {
      var s := m[kvs[k].version];
      assert s in services;
      var i :| 0 <= i < |services| && services[i] == s;
      LastIsOnly(services, name, i);
      NodeInIsMember(s.nodes, kvs[k].nodes[0].id);
    }
    forall v, id | NodeAt(services, v, id).Some?
      ensures var r := NodeAt(services, v, id);
              r.value.id == id && exists k :: 0 <= k < |kvs| && kvs[k].version == v && kvs[k].nodes[0] == r.value
    {
      NodeInIsMember(services[LastOf(services, v)].nodes, id);
    }
  }
}
