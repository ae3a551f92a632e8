/** The registrations of this process: tracked before they are written to the registry, and taken back on failure. */
module RegistryLocal {
  import opened RegistryEntries

  /** A service as a heap object, since the list is searched by identity when a registration is taken back. */
  class LocalService {
    const name: string
    const version: string
    var nodes: seq<Node>

    constructor (name: string, version: string, nodes: seq<Node>)
      ensures this.name == name && this.version == version && this.nodes == nodes
    {
      this.name, this.version, this.nodes := name, version, nodes;
    }
  }

  /** What taking a registration back has to undo. */
  datatype Undo = Replaced(index: nat, s: LocalService, before: LocalService) | Appended(s: LocalService)

  predicate SameKey(a: LocalService, b: LocalService) { a.name == b.name && a.version == b.version }

  /** At most one entry per name and version. */
  predicate UniqueKeys(list: seq<LocalService>) {
    forall i, j :: 0 <= i < j < |list| ==> !SameKey(list[i], list[j])
  }

  function FindKey(list: seq<LocalService>, s: LocalService): (r: int)
    ensures r == -1 <==> forall i :: 0 <= i < |list| ==> !SameKey(list[i], s)
    ensures r != -1 ==> 0 <= r < |list| && SameKey(list[r], s)
    ensures r != -1 ==> forall i :: 0 <= i < r ==> !SameKey(list[i], s)
  {
    if list == [] then -1
    else if SameKey(list[0], s) then 0
    else var r := FindKey(list[1..], s); if r == -1 then -1 else r + 1
  }

  function Track(list: seq<LocalService>, s: LocalService): (seq<LocalService>, Undo) {
    var i := FindKey(list, s);
    if i == -1 then (list + [s], Appended(s)) else (list[i := s], Replaced(i, s, list[i]))
  }

  function RemoveFirst(list: seq<LocalService>, s: LocalService): seq<LocalService> {
    if list == [] then [] else if list[0] == s then list[1..] else [list[0]] + RemoveFirst(list[1..], s)
  }

  function Restore(list: seq<LocalService>, undo: Undo): seq<LocalService> {
    match undo
    case Replaced(i, s, before) => if i < |list| && list[i] == s then list[i := before] else list
    case Appended(s) => RemoveFirst(list, s)
  }

  function Deregister(list: seq<LocalService>, s: LocalService): seq<LocalService> {
    if list == [] then []
    else (if SameKey(list[0], s) then [] else [list[0]]) + Deregister(list[1..], s)
  }

  /** A failed registration leaves the list as it was, whatever entry it replaced. */
  lemma RestoreUndoesTrack(list: seq<LocalService>, s: LocalService)
    ensures var (list', undo) := Track(list, s); Restore(list', undo) == list
  {
    var i := FindKey(list, s);
    if i == -1 {
      assert s !in list;
      RemoveAppended(list, s);
    } else {
      assert list[i := s][i := list[i]] == list;
    }
  }

  lemma {:induction false} RemoveAppended(list: seq<LocalService>, s: LocalService)
    requires s !in list
    ensures RemoveFirst(list + [s], s) == list
  {
    if list == [] {
      assert list + [s] == [s];
    } else {
      assert (list + [s])[1..] == list[1..] + [s];
      RemoveAppended(list[1..], s);
    }
  }

  /** Tracking keeps one entry per key, the newest. */
  lemma TrackKeeps(list: seq<LocalService>, s: LocalService)
    requires UniqueKeys(list)
    ensures var list' := Track(list, s).0;
            && UniqueKeys(list') && s in list'
            && forall x :: x in list' <==> x == s || (x in list && !SameKey(x, s))
  {
    var list' := Track(list, s).0;
    var i := FindKey(list, s);
    var k := if i == -1 then |list| else i;
    assert list'[k] == s;
    forall x | x in list && !SameKey(x, s) ensures x in list' {
      var j :| 0 <= j < |list| && list[j] == x;
      assert list'[j] == x;
    }
  }

  /** Taking back an appended entry removes that entry only. */
  lemma {:induction false} RemoveFirstMembers(list: seq<LocalService>, s: LocalService, x: LocalService)
    requires UniqueKeys(list)
    ensures x in RemoveFirst(list, s) <==> x in list && x != s
  {
    if list != [] {
      RemoveFirstMembers(list[1..], s, x);
      assert forall i :: 1 <= i < |list| ==> list[i] == list[1..][i - 1];
      assert x in list <==> x == list[0] || x in list[1..];
    }
  }

  lemma {:induction false} RemoveFirstKeeps(list: seq<LocalService>, s: LocalService)
    requires UniqueKeys(list)
    ensures UniqueKeys(RemoveFirst(list, s))
  {
    if list != [] && list[0] != s {
      var r := RemoveFirst(list[1..], s);
      RemoveFirstKeeps(list[1..], s);
      forall j | 0 <= j < |r| ensures !SameKey(list[0], r[j]) {
        RemoveFirstMembers(list[1..], s, r[j]);
        var k :| 0 <= k < |list| - 1 && list[1..][k] == r[j];
      }
    }
  }

  lemma {:induction false} DeregisterMembers(list: seq<LocalService>, s: LocalService, x: LocalService)
    ensures x in Deregister(list, s) <==> x in list && !SameKey(x, s)
  {
    if list != [] {
      DeregisterMembers(list[1..], s, x);
      assert x in list <==> x == list[0] || x in list[1..];
    }
  }

  lemma {:induction false} DeregisterKeeps(list: seq<LocalService>, s: LocalService)
    requires UniqueKeys(list)
    ensures UniqueKeys(Deregister(list, s))
  {
    if list != [] {
      var r := Deregister(list[1..], s);
      DeregisterKeeps(list[1..], s);
      forall j | 0 <= j < |r| ensures !SameKey(list[0], r[j]) {
        DeregisterMembers(list[1..], s, r[j]);
        var k :| 0 <= k < |list| - 1 && list[1..][k] == r[j];
      }
    }
  }

  // ---- runs ----

  datatype Change = DoTrack(s: LocalService) | DoRestore(undo: Undo) | DoDeregister(s: LocalService)

  /** An undo restores an entry of the same key, as `Track` made it. */
  predicate UndoOk(c: Change) {
    c.DoRestore? && c.undo.Replaced? ==> SameKey(c.undo.s, c.undo.before)
  }

  function Changed(list: seq<LocalService>, c: Change): seq<LocalService> {
    match c
    case DoTrack(s) => Track(list, s).0
    case DoRestore(undo) => Restore(list, undo)
    case DoDeregister(s) => Deregister(list, s)
  }

  function ChangedAll(list: seq<LocalService>, cs: seq<Change>): seq<LocalService>
    decreases |cs|
  {
    if cs == [] then list else ChangedAll(Changed(list, cs[0]), cs[1..])
  }

  /** However late the undos come, the list never holds two entries of one key. */
  lemma {:induction false} KeysStayUnique(list: seq<LocalService>, cs: seq<Change>)
    requires UniqueKeys(list) && forall c :: c in cs ==> UndoOk(c)
    ensures UniqueKeys(ChangedAll(list, cs))
    decreases |cs|
  {
    hide UniqueKeys, Track, Restore, Deregister;
    if cs != [] {
      ChangeKeeps(list, cs[0]);
      KeysStayUnique(Changed(list, cs[0]), cs[1..]);
    }
  }

  lemma ChangeKeeps(list: seq<LocalService>, c: Change)
    requires UniqueKeys(list) && UndoOk(c)
    ensures UniqueKeys(Changed(list, c))
  {
    match c
    case DoTrack(s) => TrackKeeps(list, s);
    case DoRestore(undo) => if undo.Appended? { RemoveFirstKeeps(list, undo.s); }
    case DoDeregister(s) => DeregisterKeeps(list, s);
  }

  class Registrations {
    var list: seq<LocalService>

    constructor ()
      ensures list == []
    {
      list := [];
    }

    method TrackLocalService(s: LocalService) returns (undo: Undo)
      requires UniqueKeys(list)
      modifies this
      ensures (list, undo) == Track(old(list), s) && UniqueKeys(list) && UndoOk(DoRestore(undo))
    {
      TrackKeeps(list, s);
      for i := 0 to |list|
        invariant list == old(list) && forall k :: 0 <= k < i ==> !SameKey(list[k], s)
      {
        if SameKey(list[i], s) {
          undo := Replaced(i, s, list[i]);
          list := list[i := s];
          return;
        }
      }
      list := list + [s];
      undo := Appended(s);
    }

    method RestoreLocalService(undo: Undo)
      requires UniqueKeys(list) && UndoOk(DoRestore(undo))
      modifies this
      ensures list == Restore(old(list), undo) && UniqueKeys(list)
    {
      ChangeKeeps(list, DoRestore(undo));
      match undo
      case Replaced(i, s, before) =>
        if i < |list| && list[i] == s { list := list[i := before]; }
      case Appended(s) =>
        for i := 0 to |list|
          invariant list == old(list) && RemoveFirst(list, s) == list[..i] + RemoveFirst(list[i..], s)
        {
          if list[i] == s {
            list := list[..i] + list[i + 1..];
            return;
          }
        }
    }
  }

  /** The nodes of `srv` that `mine` lists by id, or `mine` itself when there is none. */
  method WithNodesOf(srv: LocalService, mine: LocalService) returns (r: LocalService)
    ensures r == mine || (fresh(r) && SameKey(r, srv))
    ensures r == mine <==> Own(srv.nodes, mine.nodes) == []
    ensures r != mine ==> r.nodes == Own(srv.nodes, mine.nodes)
  {
    var ids := set i | 0 <= i < |mine.nodes| :: mine.nodes[i].id;
    var nodes := [];
    for i := 0 to |srv.nodes|
      invariant nodes == Own(srv.nodes[..i], mine.nodes)
    {
      assert srv.nodes[..i + 1] == srv.nodes[..i] + [srv.nodes[i]];
      OwnAppend(srv.nodes[..i], srv.nodes[i], mine.nodes);
      if srv.nodes[i].id in ids { nodes := nodes + [srv.nodes[i]]; }
    }
    assert srv.nodes[..|srv.nodes|] == srv.nodes;
    if nodes == [] { return mine; }
    r := new LocalService(srv.name, srv.version, nodes);
  }

  /** Never a node of another process. */
  function Own(nodes: seq<Node>, mine: seq<Node>): (r: seq<Node>)
    ensures forall n :: n in r <==> n in nodes && HasId(mine, n.id)
  {
    if nodes == [] then [] else (if HasId(mine, nodes[0].id) then [nodes[0]] else []) + Own(nodes[1..], mine)
  }

  lemma {:induction false} OwnAppend(nodes: seq<Node>, n: Node, mine: seq<Node>)
    ensures Own(nodes + [n], mine) == Own(nodes, mine) + if HasId(mine, n.id) then [n] else []
  {
    if nodes == [] {
      assert nodes + [n] == [n];
    } else {
      assert (nodes + [n])[1..] == nodes[1..] + [n];
      OwnAppend(nodes[1..], n, mine);
    }
  }
}
