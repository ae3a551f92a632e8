/** The route tree with one root per HTTP method: registering, finding and matching routes. */
module RouteTable {
  import opened Text
  import opened RouteNodes
  import opened RoutePattern
  import opened RouteInsert
  import opened RouteTree
  import opened RouteParser
  import opened RouteMatcher

  const RootKey: Key := StaticKey("")
  const EmptyRoot: Node := Node(RootKey, 0, None, [])

  type Table = map<string, Node>

  function RootOf(t: Table, m: string): Node {
    if m in t then t[m] else EmptyRoot
  }

  /** The route a table binds to a method and a parsed pattern. */
  function RouteIn(t: Table, m: string, ks: seq<Key>): Option<Route> {
    Lookup(RootOf(t, m), ks)
  }

  ghost predicate RootOk(n: Node) { n.key == RootKey && n.route.None? && KidsOk(n, '/') }

  ghost predicate TableOk(t: Table) { forall m :: m in t ==> RootOk(t[m]) }

  predicate Registers(methods: seq<string>, m: string) {
    exists i :: 0 <= i < |methods| && ToUpper(methods[i]) == m
  }

  function PatternNodes(path: string, d: char, re: Engine): seq<PatternNode> {
    var p := Parse(path, d, re);
    if p.Some? then p.value else []
  }

  function PatternKeys(path: string, d: char, re: Engine): seq<Key> { KeysOf(PatternNodes(path, d, re)) }

  /** `AddRoute` accepts the route. */
  predicate Acceptable(r: Route, re: Engine) {
    r.methods != [] && Parse(r.path, '/', re).Some? && ValidKeys(PatternKeys(r.path, '/', re))
  }

  /** Exactly the pattern, under exactly the given methods, is bound to the route: up to the order of siblings this
      fixes the whole tree of every method. */
  ghost predicate Added(t: Table, t': Table, r: Route, methods: seq<string>, ps: seq<PatternNode>) {
    forall m ::
      if Registers(methods, m) then Grown(RootOf(t, m), RootOf(t', m), ps, r)
      else RootOf(t', m) == RootOf(t, m)
  }

  function Delimiter(m: string): char {
    if m == "CONNECT" then '.' else '/'
  }

  /** `RouteOf`: the route registered for exactly this pattern. */
  function FindRoute(t: Table, m: string, path: string, re: Engine): Option<Route> {
    var p := Parse(path, Delimiter(ToUpper(m)), re);
    if p.None? then None else RouteIn(t, ToUpper(m), KeysOf(p.value))
  }

  /** Request paths of HTTP methods begin with '/'. */
  function RequestPath(m: string, path: string): string {
    if m != "CONNECT" && path != "/" && !("/" <= path) then "/" + path else path
  }

  function MatchRequest(t: Table, m: string, path: string, re: Engine): Matched {
    MatchFrom(RootOf(t, m), 0, RequestPath(m, path), [], Delimiter(m), re)
  }

  /** Linked roots within `foot` that share no node and stand for the table `t`. */
  ghost predicate Roots(roots: map<string, TreeNode>, t: Table, foot: set<TreeNode>)
    reads foot
  {
    && roots.Keys == t.Keys
    && (forall m :: m in roots ==> roots[m] in foot && roots[m].Repr <= foot)
    && (forall m :: m in roots ==> roots[m].Valid() && roots[m].Value == t[m] && RootOk(t[m]))
    && (forall m, n :: m in roots && n in roots && m != n ==> roots[m].Repr !! roots[n].Repr)
  }

  lemma OldRoot(roots: map<string, TreeNode>, t: Table, foot: set<TreeNode>, m: string)
    requires Roots(roots, t, foot)
    ensures m in roots <==> m in t
    ensures m in roots ==> roots[m] in foot && roots[m].Repr <= foot && roots[m].Value == t[m]
  {
  }

  lemma NewRoot(roots: map<string, TreeNode>, t: Table, foot: set<TreeNode>, m: string, n: TreeNode)
    requires Roots(roots, t, foot) && m !in roots && n.Leaf() && n !in foot && n.Value == EmptyRoot
    ensures Roots(roots[m := n], t[m := n.Value], foot + {n})
  {
    hide KidsOk;
    var roots' := roots[m := n];
    assert RootOk(EmptyRoot) by { EmptyRootOk(); }
    forall k | k in roots' && k != m ensures roots'[k] == roots[k] && roots[k].Repr !! n.Repr {}
  }

  lemma EmptyRootOk()
    ensures RootOk(EmptyRoot)
  {
  }

  class Tree {
    var root: map<string, TreeNode>
    const re: Engine
    ghost var Repr: set<TreeNode>
    ghost var Routes: Table

    ghost predicate Valid()
      reads this, Repr
    {
      Roots(root, Routes, Repr)
    }

    constructor (re: Engine)
      ensures Valid() && Routes == map[] && Repr == {} && this.re == re
    {
      root, this.re, Repr, Routes := map[], re, {}, map[];
    }

    /** The root for a method, created on first use. */
    method RootFor(m: string) returns (n: TreeNode)
      requires Valid()
      modifies this
      ensures Valid() && m in root && root[m] == n && n.Value == RootOf(old(Routes), m)
      ensures Routes == old(Routes)[m := n.Value]
      ensures Repr >= old(Repr) && fresh(Repr - old(Repr)) && n.Repr <= Repr
    {
      OldRoot(root, Routes, Repr, m);
      if m in root {
        hide Roots;
        n := root[m];
        assert Routes == Routes[m := n.Value];
      } else {
        n := new TreeNode(RootKey, 0);
        NewRoot(root, Routes, Repr, m, n);
        hide Roots;
        root, Routes, Repr := root[m := n], Routes[m := n.Value], Repr + {n};
      }
    }

    method AddNodesFor(m: string, nodes: seq<TreeNode>, r: Route)
      requires Valid() && Chain(nodes, r) && nodes != [] && forall n :: n in nodes ==> n !in Repr
      requires KeysFit(RootKey, KeysOf(ChainNodes(nodes)), '/')
      modifies this, Repr, set n | n in nodes
      ensures Valid() && fresh(Repr - old(Repr) - set n | n in nodes)
      ensures m in Routes && Routes == old(Routes)[m := Routes[m]]
      ensures Grown(RootOf(old(Routes), m), Routes[m], old(ChainNodes(nodes)), r)
    {
      hide Roots, Chain, KeysFit, Grown;
      var n := RootFor(m);
      ghost var foot := Repr + set x | x in nodes;
      AddToRoot(n, root, m, Routes, Repr, nodes, r);
      Repr, Routes := foot, Routes[m := n.Value];
    }

    /** Registers the route under each of its methods; a pattern that is not accepted changes nothing. */
    method AddRoute(r: Route) returns (ok: bool)
      requires Valid()
      modifies this, Repr
      ensures Valid() && fresh(Repr - old(Repr))
      ensures ok <==> Acceptable(r, re)
      ensures !ok ==> Routes == old(Routes)
      ensures ok ==> Added(old(Routes), Routes, r, r.methods, PatternNodes(r.path, '/', re))
    {
      hide Roots, Grown, KeyOk, Chain;
      ghost var ps := PatternNodes(r.path, '/', re);
      if |r.methods| == 0 { return false; }
      for i := 0 to |r.methods|
        invariant Valid() && fresh(Repr - old(Repr))
        invariant i == 0 ==> Routes == old(Routes)
        invariant i > 0 ==> Acceptable(r, re)
        invariant Added(old(Routes), Routes, r, r.methods[..i], ps)
      {
        var nodes := ParseRoute(r, re);
        if nodes.None? { return false; }
        ghost var t := Routes;
        var m := ToUpper(r.methods[i]);
        assert forall n :: n in nodes.value ==> fresh(n);
        AddNodesFor(m, nodes.value, r);
        AddedStep(old(Routes), t, Routes, r, r.methods, i, ps);
      }
      assert r.methods[..|r.methods|] == r.methods;
      ok := true;
    }

    /** Finds the node of a pattern level by level. */
    method RouteOf(name: string, path: string) returns (r: Option<Route>)
      requires Valid()
      ensures r == FindRoute(Routes, name, path, re)
    {
      var m := ToUpper(name);
      var d := '/';
      if m == "CONNECT" { d := '.'; }
      EmptyLookup(PatternKeys(path, d, re));
      if m !in root { return None; }
      var parsed := ParsePath(path, d, re);
      if parsed.None? || |parsed.value| == 0 { return None; }
      assert KeysOf(ChainNodes(parsed.value)) == PatternKeys(path, d, re);
      r := RouteBelow(root[m], parsed.value);
    }

    /** Tries the children of the method's root in order. */
    method Match(m: string, path: string) returns (result: Matched)
      requires Valid()
      ensures result == MatchRequest(Routes, m, path, re)
    {
      if m !in root { return NoRoute; }
      var d, request := '/', path;
      if m == "CONNECT" { d := '.'; } else if path != "/" && !("/" <= path) { request := "/" + path; }
      result := MatchBelow(root[m], request, d, re);
    }
  }

  /** The descent of `RouteOf`. */
  method RouteBelow(n: TreeNode, nodes: seq<TreeNode>) returns (r: Option<Route>)
    requires n.Valid()
    ensures r == Lookup(n.Value, KeysOf(ChainNodes(nodes)))
  {
    ghost var ks := KeysOf(ChainNodes(nodes));
    var p := n;
    for i := 0 to |nodes|
      invariant p.Valid() && Lookup(n.Value, ks) == Lookup(p.Value, ks[i..])
    {
      var at := FindEqual(p.children, nodes[i].key);
      LookupStep(p, ks[i..], at);
      if at < 0 { return None; }
      p := p.children[at];
    }
    return p.route;
  }

  /** The loop of `Match` over the root's children; the buffer is shared by all attempts. */
  method MatchBelow(n: TreeNode, request: string, d: char, re: Engine) returns (result: Matched)
    requires n.Valid()
    ensures result == MatchFrom(n.Value, 0, request, [], d, re)
  {
    hide MatchNode, Captures;
    var params := new ParamBuffer();
    var i := 0;
    while i < |n.children|
      invariant 0 <= i <= |n.children|
      invariant MatchFrom(n.Value, i, request, params.list, d, re) == MatchFrom(n.Value, 0, request, [], d, re)
    {
      var e := SearchNode(n.children[i], request, d, re, params);
      match e {
        case Panicked => return Panic;
        case Reached(hit) => if hit.route.Some? { return Found(hit.route.value, params.list); }
        case Nothing =>
      }
      i := i + 1;
    }
    result := NoRoute;
  }

  lemma EmptyLookup(ks: seq<Key>)
    ensures Lookup(EmptyRoot, ks).None?
  {
  }

  lemma LookupStep(p: TreeNode, ks: seq<Key>, at: int)
    requires p.Valid() && ks != [] && -1 <= at < |p.children|
    requires at >= 0 ==> p.children[at].key == ks[0]
    requires forall j :: 0 <= j < (if at < 0 then |p.children| else at) ==> p.children[j].key != ks[0]
    ensures at < 0 ==> Lookup(p.Value, ks).None?
    ensures at >= 0 ==> p.children[at].Valid() && Lookup(p.Value, ks) == Lookup(p.children[at].Value, ks[1..])
  {
    assert forall i :: 0 <= i < |p.children| ==> p.children[i].Valid() && p.Value.children[i].key == p.children[i].key;
    assert ChildIndex(p.Value.children, ks[0]) == at;
  }

  /** Parses a route's pattern, rejects touching variables, and binds the route to the last node. */
  method ParseRoute(r: Route, re: Engine) returns (nodes: Option<seq<TreeNode>>)
    ensures nodes.Some? <==> Parse(r.path, '/', re).Some? && ValidKeys(PatternKeys(r.path, '/', re))
    ensures nodes.Some? ==>
              && nodes.value != [] && Chain(nodes.value, r) && (forall n :: n in nodes.value ==> fresh(n))
              && ChainNodes(nodes.value) == PatternNodes(r.path, '/', re)
              && KeysFit(RootKey, KeysOf(ChainNodes(nodes.value)), '/')
  {
    nodes := ParsePath(r.path, '/', re);
    if nodes.None? { return; }
    var list := nodes.value;
    assert ChainNodes(list) == PatternNodes(r.path, '/', re);
    var ok := ValidNodes(list);
    if !ok { return None; }
    KeysFitRoot(r.path, re);
    assert list[|list| - 1] in list;
    hide ValidKeys, KeysFit, Parse, ParsedAs, Chain;
    BindLast(list, r, Parse(r.path, '/', re).value);
  }

  method BindLast(nodes: seq<TreeNode>, r: Route, ghost ps: seq<PatternNode>)
    requires ParsedAs(nodes, ps) && nodes != []
    modifies nodes[|nodes| - 1]
    ensures Chain(nodes, r) && ChainNodes(nodes) == ps
  {
    nodes[|nodes| - 1].Bind(Some(r));
  }

  lemma KeysFitRoot(path: string, re: Engine)
    requires Parse(path, '/', re).Some? && ValidKeys(PatternKeys(path, '/', re))
    ensures KeysFit(RootKey, PatternKeys(path, '/', re), '/')
  {
    ParseKeysOk(path, '/', re);
    var ks := PatternKeys(path, '/', re);
    forall i | 0 <= i < |ks| ensures ([RootKey] + ks)[i].kind == Static || ([RootKey] + ks)[i + 1].kind == Static {
      if i > 0 { assert ks[i - 1].kind == Static || ks[i].kind == Static; }
    }
  }

  /** `validNodes`: a chain is rejected when two variable nodes touch. */
  method ValidNodes(nodes: seq<TreeNode>) returns (ok: bool)
    ensures ok <==> ValidKeys(KeysOf(ChainNodes(nodes)))
  {
    if |nodes| == 0 { return false; }
    ghost var ks := KeysOf(ChainNodes(nodes));
    var last := nodes[0];
    for i := 1 to |nodes|
      invariant last == nodes[i - 1]
      invariant forall j :: 0 <= j < i - 1 ==> ks[j].kind == Static || ks[j + 1].kind == Static
    {
      if last.key.kind != Static && nodes[i].key.kind != Static {
        assert ks[i - 1].kind != Static && ks[i - 1 + 1].kind != Static;
        return false;
      }
      last := nodes[i];
    }
    ok := true;
  }

  lemma AddedStep(t0: Table, t: Table, t': Table, r: Route, methods: seq<string>, i: nat,
                  ps: seq<PatternNode>)
    requires i < |methods| && Added(t0, t, r, methods[..i], ps)
    requires var m := ToUpper(methods[i]); m in t' && t' == t[m := t'[m]] && Grown(RootOf(t, m), t'[m], ps, r)
    ensures Added(t0, t', r, methods[..i + 1], ps)
  {
    var m := ToUpper(methods[i]);
    forall k ensures if Registers(methods[..i + 1], k) then Grown(RootOf(t0, k), RootOf(t', k), ps, r)
                     else RootOf(t', k) == RootOf(t0, k)
    {
      if k == m && Registers(methods[..i], m) { GrownAgain(RootOf(t0, m), RootOf(t, m), RootOf(t', m), ps, r); }
      assert Registers(methods[..i + 1], k) <==> Registers(methods[..i], k) || k == m by {
        assert methods[..i + 1] == methods[..i] + [methods[i]];
        if Registers(methods[..i], k) {
          var j :| 0 <= j < i && ToUpper(methods[..i][j]) == k;
          assert ToUpper(methods[..i + 1][j]) == k;
        }
        if k == m { assert ToUpper(methods[..i + 1][i]) == k; }
      }
    }
  }

  /** Inserting below one root leaves the others alone. */
  method AddToRoot(n: TreeNode, ghost roots: map<string, TreeNode>, ghost m: string, ghost t: Table,
                   ghost foot: set<TreeNode>, nodes: seq<TreeNode>, r: Route)
    requires Roots(roots, t, foot) && m in roots && roots[m] == n
    requires Chain(nodes, r) && nodes != [] && (forall x :: x in nodes ==> x !in foot)
    requires KeysFit(RootKey, KeysOf(ChainNodes(nodes)), '/')
    modifies n.Repr, nodes
    ensures Roots(roots, t[m := n.Value], foot + set x | x in nodes)
    ensures Grown(t[m], n.Value, old(ChainNodes(nodes)), r)
  {
    PrepareRoot(n, nodes, r);
    hide Linking, Linkable, Chain, KeysFit, RootOk, Grown;
    ghost var ps := ChainNodes(nodes);
    ghost var touched := n.Repr + set x | x in nodes;
    forall k | k in roots && k != m ensures roots[k].Repr !! touched && roots[k] in roots[k].Repr {
      assert roots[k].Repr !! n.Repr;
    }
    var _, _ := AddNodes(n, nodes, r, '/');
    LinkedRoot(t[m], n.Value, ps, r);
    forall k | k in roots && k != m
      ensures roots[k].Valid() && roots[k].Repr == old(roots[k].Repr) && roots[k].Value == t[k]
      ensures roots[k].Repr !! n.Repr
    {
      assert old(roots[k].Repr) !! touched;
    }
    RootsAgain(roots, m, n, t, n.Value, foot + set x | x in nodes);
  }

  lemma RootsAgain(roots: map<string, TreeNode>, m: string, n: TreeNode, t: Table, v: Node, foot: set<TreeNode>)
    requires roots.Keys == t.Keys && m in roots && roots[m] == n
    requires n in foot && n.Repr <= foot && n.Valid() && n.Value == v && RootOk(v)
    requires forall k :: k in roots && k != m ==>
               && roots[k] in foot && roots[k].Repr <= foot && roots[k].Repr !! n.Repr
               && roots[k].Valid() && roots[k].Value == t[k] && RootOk(t[k])
    requires forall j, k :: j in roots && k in roots && j != m && k != m && j != k ==> roots[j].Repr !! roots[k].Repr
    ensures Roots(roots, t[m := v], foot)
  {
    hide RootOk;
  }

  lemma PrepareRoot(n: TreeNode, nodes: seq<TreeNode>, r: Route)
    requires n.Valid() && RootOk(n.Value) && Chain(nodes, r) && (forall x :: x in nodes ==> x !in n.Repr)
    requires KeysFit(RootKey, KeysOf(ChainNodes(nodes)), '/')
    ensures Linkable(n, nodes, r, '/')
  {
  }

  lemma LinkedRoot(a: Node, b: Node, ps: seq<PatternNode>, r: Route)
    requires exists e, x :: Linking(a, b, ps, r, e, x, '/')
    requires RootOk(a) && ps != []
    ensures RootOk(b) && Grown(a, b, ps, r)
  {
    GrownLookup(a, b, ps, r, []);
  }

  /** What registering means for lookups. */
  lemma AddedLookup(t: Table, t': Table, r: Route, methods: seq<string>, ps: seq<PatternNode>, m: string, q: seq<Key>)
    requires Added(t, t', r, methods, ps)
    ensures RouteIn(t', m, q) == if Registers(methods, m) && q == KeysOf(ps) then Some(r) else RouteIn(t, m, q)
  {
    if Registers(methods, m) {
      GrownLookup(RootOf(t, m), RootOf(t', m), ps, r, q);
    } else {
      assert RootOf(t', m) == RootOf(t, m);
    }
  }

  // ---- whole runs ----

  /** A static pattern bound in the table is matched on its own text, with no parameters. */
  lemma StaticRequest(t: Table, m: string, path: string, re: Engine)
    requires TableOk(t) && m != "CONNECT" && path != "" && '{' !in path && '*' !in path
    requires RouteIn(t, m, PatternKeys(path, '/', re)).Some?
    ensures MatchRequest(t, m, path, re) == Found(RouteIn(t, m, PatternKeys(path, '/', re)).value, [])
  {
    var ks := PatternKeys(path, '/', re);
    StaticPattern(path, '/', re);
    assert RequestPath(m, path) == Normal(path, '/') == TextOf(ks);
    EmptyLookup(ks);
    StaticRouteWins(RootOf(t, m), 0, ks, '/', re);
  }

  /** A run of `AddRoute` calls from the empty tree: each call updates the table or is refused. */
  ghost predicate Run(ts: seq<Table>, rs: seq<Route>, re: Engine) {
    && |ts| == |rs| + 1 && ts[0] == map[]
    && (forall i :: 0 <= i < |ts| ==> TableOk(ts[i]))
    && forall i :: 0 <= i < |rs| ==>
         if Acceptable(rs[i], re) then Added(ts[i], ts[i + 1], rs[i], rs[i].methods, PatternNodes(rs[i].path, '/', re))
         else ts[i + 1] == ts[i]
  }

  /** The last accepted route of a run with this method and these pattern keys. */
  function LastRoute(rs: seq<Route>, m: string, ks: seq<Key>, re: Engine): Option<Route> {
    if rs == [] then None
    else
      var r := rs[|rs| - 1];
      if Acceptable(r, re) && Registers(r.methods, m) && PatternKeys(r.path, '/', re) == ks then Some(r)
      else LastRoute(rs[..|rs| - 1], m, ks, re)
  }

  /** After any run, in any order, the tree is the map from patterns to the routes last registered for them. */
  lemma {:induction false} RunTable(ts: seq<Table>, rs: seq<Route>, m: string, ks: seq<Key>, re: Engine)
    requires Run(ts, rs, re)
    ensures RouteIn(ts[|rs|], m, ks) == LastRoute(rs, m, ks, re)
  {
    if rs == [] {
      EmptyLookup(ks);
    } else {
      var n := |rs| - 1;
      RunTable(ts[..n + 1], rs[..n], m, ks, re);
      assert ts[n + 1] == ts[|rs|];
      hide Lookup;
      if Acceptable(rs[n], re) {
        AddedLookup(ts[n], ts[n + 1], rs[n], rs[n].methods, PatternNodes(rs[n].path, '/', re), m, ks);
      }
    }
  }

  /** Static routes win: after any run, a request for the text of a static pattern that some accepted route
      registered is answered by the last such route, whatever variables, wildcards and expressions are registered. */
  lemma StaticRoutesWinAfterAnyRun(ts: seq<Table>, rs: seq<Route>, m: string, path: string, re: Engine)
    requires Run(ts, rs, re)
    requires m != "CONNECT" && path != "" && '{' !in path && '*' !in path
    requires LastRoute(rs, m, PatternKeys(path, '/', re), re).Some?
    ensures MatchRequest(ts[|rs|], m, path, re) == Found(LastRoute(rs, m, PatternKeys(path, '/', re), re).value, [])
  {
    RunTable(ts, rs, m, PatternKeys(path, '/', re), re);
    StaticRequest(ts[|rs|], m, path, re);
  }

  /** Exact lookup agrees with insertion: for HTTP methods `RouteOf` returns the route last registered for an equal
      pattern. */
  lemma RouteOfAfterAnyRun(ts: seq<Table>, rs: seq<Route>, m: string, path: string, re: Engine)
    requires Run(ts, rs, re) && ToUpper(m) != "CONNECT" && Parse(path, '/', re).Some?
    ensures FindRoute(ts[|rs|], m, path, re) == LastRoute(rs, ToUpper(m), PatternKeys(path, '/', re), re)
  {
    RunTable(ts, rs, ToUpper(m), PatternKeys(path, '/', re), re);
  }
}
