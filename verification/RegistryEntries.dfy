/** Services as the registry groups them by version, and how one event changes a cached list. */
module RegistryEntries {
  import opened Text

  datatype Node = Node(id: string, address: string)

  /** `info` stands for the metadata and the endpoints, which travel unchanged. */
  datatype Service = Service(name: string, version: string, info: string, nodes: seq<Node>)

  datatype Action = Create | Update | Delete | Override

  /** What a watcher reports: an action and the registration it is about. */
  datatype Event = Event(action: Action, service: Service)

  // ---- what a list says ----

  function IndexOfId(nodes: seq<Node>, id: string): (r: int)
    ensures r == -1 <==> forall i :: 0 <= i < |nodes| ==> nodes[i].id != id
    ensures r != -1 ==> 0 <= r < |nodes| && nodes[r].id == id
  {
    if nodes == [] then -1
    else if nodes[0].id == id then 0
    else var r := IndexOfId(nodes[1..], id); if r == -1 then -1 else r + 1
  }

  predicate HasId(nodes: seq<Node>, id: string) { IndexOfId(nodes, id) != -1 }

  predicate UniqueIds(nodes: seq<Node>) {
    forall i, j :: 0 <= i < j < |nodes| ==> nodes[i].id != nodes[j].id
  }

  /** The last service of this version, as the loop over the list finds it. */
  function LastOf(services: seq<Service>, version: string): (r: int)
    ensures r == -1 <==> forall i :: 0 <= i < |services| ==> services[i].version != version
    ensures r != -1 ==> 0 <= r < |services| && services[r].version == version
    ensures r != -1 ==> forall i :: r < i < |services| ==> services[i].version != version
  {
    if services == [] then -1
    else if services[|services| - 1].version == version then |services| - 1
    else LastOf(services[..|services| - 1], version)
  }

  function NodeIn(nodes: seq<Node>, id: string): Option<Node> {
    var i := IndexOfId(nodes, id);
    if i == -1 then None else Some(nodes[i])
  }

  /** The node that a list holds under a version and an id. */
  function NodeAt(services: seq<Service>, version: string, id: string): Option<Node> {
    var i := LastOf(services, version);
    if i == -1 then None else NodeIn(services[i].nodes, id)
  }

  /** Versions are unique, node ids are unique within a version, no version is empty. */
  predicate Grouped(services: seq<Service>, name: string) {
    && (forall i :: 0 <= i < |services| ==>
          services[i].name == name && services[i].nodes != [] && UniqueIds(services[i].nodes))
    && (forall i, j :: 0 <= i < j < |services| ==> services[i].version != services[j].version)
  }

  lemma LastIsOnly(services: seq<Service>, name: string, i: nat)
    requires Grouped(services, name) && i < |services|
    ensures LastOf(services, services[i].version) == i
  {
  }

  lemma IndexIsOnly(nodes: seq<Node>, i: nat)
    requires UniqueIds(nodes) && i < |nodes|
    ensures IndexOfId(nodes, nodes[i].id) == i
  {
  }

  /** A grouped list is empty exactly when it holds no node. */
  lemma EmptyHoldsNothing(services: seq<Service>, name: string)
    requires Grouped(services, name)
    ensures services == [] <==> forall v, id :: NodeAt(services, v, id).None?
  {
    if services != [] {
      LastIsOnly(services, name, 0);
      IndexIsOnly(services[0].nodes, 0);
      assert NodeAt(services, services[0].version, services[0].nodes[0].id).Some?;
    }
  }

  // ---- node lists ----

  /** The new nodes, then the old ones whose id is not there yet. */
  function Merged(acc: seq<Node>, before: seq<Node>): seq<Node>
    decreases |before|
  {
    if before == [] then acc
    else Merged(if HasId(acc, before[0].id) then acc else acc + [before[0]], before[1..])
  }

  lemma NodeInAppend(acc: seq<Node>, n: Node, id: string)
    ensures NodeIn(acc + [n], id) == if HasId(acc, id) then NodeIn(acc, id) else if n.id == id then Some(n) else None
  {
    if acc == [] {
      assert acc + [n] == [n];
    } else {
      assert (acc + [n])[1..] == acc[1..] + [n];
      NodeInAppend(acc[1..], n, id);
    }
  }

  lemma {:induction false} MergedHolds(acc: seq<Node>, before: seq<Node>, id: string)
    requires UniqueIds(acc)
    ensures UniqueIds(Merged(acc, before)) && (acc != [] ==> Merged(acc, before) != [])
    ensures NodeIn(Merged(acc, before), id) == if HasId(acc, id) then NodeIn(acc, id) else NodeIn(before, id)
    decreases |before|
  {
    if before != [] {
      var acc' := if HasId(acc, before[0].id) then acc else acc + [before[0]];
      NodeInAppend(acc, before[0], id);
      MergedHolds(acc', before[1..], id);
    }
  }

  /** The nodes whose id is not among the dead. */
  function Without(nodes: seq<Node>, dead: seq<Node>): (r: seq<Node>)
    ensures forall n :: n in r <==> n in nodes && !HasId(dead, n.id)
  {
    if nodes == [] then []
    else (if HasId(dead, nodes[0].id) then [] else [nodes[0]]) + Without(nodes[1..], dead)
  }

  lemma NodeInIsMember(nodes: seq<Node>, id: string)
    requires UniqueIds(nodes)
    ensures var r := NodeIn(nodes, id);
            && (r.Some? ==> r.value in nodes && r.value.id == id)
            && (forall n :: n in nodes && n.id == id ==> r == Some(n))
  {
    forall n | n in nodes && n.id == id ensures NodeIn(nodes, id) == Some(n) {
      var i :| 0 <= i < |nodes| && nodes[i] == n;
      IndexIsOnly(nodes, i);
    }
  }

  lemma {:induction false} WithoutUnique(nodes: seq<Node>, dead: seq<Node>)
    requires UniqueIds(nodes)
    ensures UniqueIds(Without(nodes, dead))
  {
    hide HasId;
    if nodes != [] {
      var r := Without(nodes[1..], dead);
      WithoutUnique(nodes[1..], dead);
      assert forall n :: n in r ==> n.id != nodes[0].id;
    }
  }

  lemma WithoutHolds(nodes: seq<Node>, dead: seq<Node>, id: string)
    requires UniqueIds(nodes)
    ensures UniqueIds(Without(nodes, dead))
    ensures NodeIn(Without(nodes, dead), id) == if HasId(dead, id) then None else NodeIn(nodes, id)
  {
    WithoutUnique(nodes, dead);
    NodeInIsMember(nodes, id);
    NodeInIsMember(Without(nodes, dead), id);
    hide NodeIn, HasId, Without;
    var r := NodeIn(nodes, id);
    if r.Some? && !HasId(dead, id) {
      assert r.value in Without(nodes, dead);
    }
  }

  // ---- events ----

  /** The list after an event, `None` when the entry is to be removed. `Some(services)` also when nothing changes. */
  function Applied(services: seq<Service>, e: Event): Option<seq<Service>> {
    var s := e.service;
    var i := LastOf(services, s.version);
    if s.nodes == [] then if e.action.Delete? then None else Some(services)
    else
      match e.action
      case Create | Update =>
        if i == -1 then Some(services + [s])
        else Some(services[i := s.(nodes := Merged(s.nodes, services[i].nodes))])
      case Delete =>
        if i == -1 then Some(services)
        else
          var nodes := Without(services[i].nodes, s.nodes);
          if nodes != [] then Some(services[i := services[i].(nodes := nodes)])
          else if |services| == 1 then None
          else Some(OtherVersions(services, s.version))
      case Override => if i == -1 then Some(services) else None
  }

  function OtherVersions(services: seq<Service>, version: string): (r: seq<Service>)
    ensures forall s :: s in r <==> s in services && s.version != version
  {
    if services == [] then []
    else (if services[0].version != version then [services[0]] else []) + OtherVersions(services[1..], version)
  }

  /** The registration of one node under one name, as a watcher reports it. */
  predicate OneNode(e: Event, name: string) {
    e.service.name == name && |e.service.nodes| == 1 && !e.action.Override?
  }

  /** What an event leaves under a version and an id. */
  function After(e: Event, version: string, id: string, before: Option<Node>): Option<Node>
    requires |e.service.nodes| == 1
  {
    var n := e.service.nodes[0];
    if e.service.version == version && n.id == id then if e.action.Delete? then None else Some(n) else before
  }

  /** One event changes a grouped list under its own version and id only, and the list stays grouped. */
  lemma AppliedHolds(services: seq<Service>, name: string, e: Event, version: string, id: string)
    requires Grouped(services, name) && OneNode(e, name)
    ensures var r := Applied(services, e);
            && (r.Some? ==> Grouped(r.value, name))
            && NodeAt(if r.Some? then r.value else [], version, id) ==
               After(e, version, id, NodeAt(services, version, id))
  {
    if e.action.Delete? {
      DeleteHolds(services, name, e, version, id);
    } else {
      CreateHolds(services, name, e, version, id);
    }
  }

  lemma CreateHolds(services: seq<Service>, name: string, e: Event, version: string, id: string)
    requires Grouped(services, name) && OneNode(e, name) && !e.action.Delete?
    ensures var r := Applied(services, e);
            && r.Some? && Grouped(r.value, name)
            && NodeAt(r.value, version, id) == After(e, version, id, NodeAt(services, version, id))
  {
    var s := e.service;
    var i := LastOf(services, s.version);
    var r := Applied(services, e).value;
    if i == -1 {
      assert r == services + [s];
      LastAppend(services, s, version);
    } else {
      MergedHolds(s.nodes, services[i].nodes, id);
      ReplacedHolds(services, name, i, s.(nodes := Merged(s.nodes, services[i].nodes)), version, id);
    }
  }

  lemma LastAppend(services: seq<Service>, s: Service, version: string)
    ensures LastOf(services + [s], version) == if s.version == version then |services| else LastOf(services, version)
  {
    assert (services + [s])[..|services|] == services;
  }

  /** Replacing the service of one version changes that version only. */
  lemma ReplacedHolds(services: seq<Service>, name: string, i: nat, s: Service, version: string, id: string)
    requires Grouped(services, name) && i < |services| && s.version == services[i].version
    requires s.name == name && s.nodes != [] && UniqueIds(s.nodes)
    ensures Grouped(services[i := s], name)
    ensures NodeAt(services[i := s], version, id) ==
            if version == s.version then NodeIn(s.nodes, id) else NodeAt(services, version, id)
  {
    hide NodeIn;
    var r := services[i := s];
    var k := LastOf(services, version);
    if k == -1 {
      assert LastOf(r, version) == -1;
    } else {
      LastIsOnly(services, name, i);
      LastIsOnly(r, name, k);
    }
  }

  lemma {:induction false} OtherVersionsGrouped(services: seq<Service>, name: string, version: string)
    requires Grouped(services, name)
    ensures Grouped(OtherVersions(services, version), name)
  {
    if services != [] {
      hide NodeIn, UniqueIds;
      OtherVersionsGrouped(services[1..], name, version);
      var r := OtherVersions(services[1..], version);
      assert forall i :: 0 <= i < |r| ==> r[i] in services[1..];
    }
  }

  lemma OtherVersionsHolds(services: seq<Service>, name: string, dead: string, version: string, id: string)
    requires Grouped(services, name)
    ensures Grouped(OtherVersions(services, dead), name)
    ensures NodeAt(OtherVersions(services, dead), version, id) ==
            if version == dead then None else NodeAt(services, version, id)
  {
    hide NodeIn;
    OtherVersionsGrouped(services, name, dead);
    var r := OtherVersions(services, dead);
    var k := LastOf(services, version);
    if k != -1 && version != dead {
      assert services[k] in r;
      var j :| 0 <= j < |r| && r[j] == services[k];
      LastIsOnly(r, name, j);
    } else {
      assert LastOf(r, version) == -1;
    }
  }

  lemma DeleteHolds(services: seq<Service>, name: string, e: Event, version: string, id: string)
    requires Grouped(services, name) && OneNode(e, name) && e.action.Delete?
    ensures var r := Applied(services, e);
            && (r.Some? ==> Grouped(r.value, name))
            && NodeAt(if r.Some? then r.value else [], version, id) ==
               After(e, version, id, NodeAt(services, version, id))
  {
    var s := e.service;
    var i := LastOf(services, s.version);
    if i != -1 {
      var nodes := Without(services[i].nodes, s.nodes);
      WithoutHolds(services[i].nodes, s.nodes, id);
      if nodes != [] {
        ReplacedHolds(services, name, i, services[i].(nodes := nodes), version, id);
      } else {
        OtherVersionsHolds(services, name, s.version, version, id);
        assert |services| == 1 ==> version == s.version || LastOf(services, version) == -1;
      }
    }
  }
}
