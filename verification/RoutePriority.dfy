/** Variables come before wildcards: which of the two answers, in the tree of both and after any run. */
module RoutePriority {
  import opened Text
  import opened RouteNodes
  import opened RoutePattern
  import opened RouteInsert
  import opened RouteTable
  import opened RouteFaults
  import opened RouteFound
  import opened RouteExamples
  import opened RouteVariables
  import opened RouteTypes

  // ---- two patterns behind one prefix ----

  lemma {:induction false} HungInserted(n: Node, ps: seq<PatternNode>, x: Node, y: PatternNode, ys: seq<PatternNode>,
                                        r: Route, kids: seq<Node>)
    requires KidsOk(Hung(n, ps, [x]), '/') && n.key.kind == Static
    requires forall i :: 0 <= i < |ps| ==> ps[i].key.kind == Static
    requires x.key != y.key && KeyOk(y.key, '/') && MayFollow(y.key, ys)
    requires kids == [x, Branch(Bare(y), ys, r)] || kids == [Branch(Bare(y), ys, r), x]
    requires Less(kids[0], kids[1])
    ensures Inserted(Hung(n, ps, [x]), Hung(n, ps, kids), ps + [y] + ys, r, '/')
    decreases |ps|
  {
    var h, all := Hung(n, ps, [x]), ps + [y] + ys;
    if ps == [] {
      KidInserted(n, x, y, ys, r, kids);
      assert all == [y] + ys;
    } else {
      var c, c' := Hung(Bare(ps[0]), ps[1..], [x]), Hung(Bare(ps[0]), ps[1..], kids);
      HungRoot(Bare(ps[0]), ps[1..], [x]);
      assert WellFormed(h.children[0], '/');
      HungInserted(Bare(ps[0]), ps[1..], x, y, ys, r, kids);
      hide Inserted, KidsOk;
      assert all[1..] == ps[1..] + [y] + ys && all[0] == ps[0] && [c][0 := c'] == [c'];
      ReplaceChild(h, 0, c', all, r, '/');
    }
  }

  lemma KidInserted(n: Node, x: Node, y: PatternNode, ys: seq<PatternNode>, r: Route, kids: seq<Node>)
    requires KidsOk(n.(children := [x]), '/') && n.key.kind == Static
    requires x.key != y.key && KeyOk(y.key, '/') && MayFollow(y.key, ys)
    requires kids == [x, Branch(Bare(y), ys, r)] || kids == [Branch(Bare(y), ys, r), x]
    requires Less(kids[0], kids[1])
    ensures Inserted(n.(children := [x]), n.(children := kids), [y] + ys, r, '/')
  {
    var h, bare, c := n.(children := [x]), Bare(y), Branch(Bare(y), ys, r);
    BranchInserted(bare, ys, r);
    BranchRoot(bare, ys, r);
    var at := if kids[0] == c then 0 else 1;
    var base := kids[at := bare];
    assert base[at := c] == kids && ([y] + ys)[1..] == ys;
    assert h.children[1..] == [];
    assert DistinctKeys(base) && Sorted(base);
    assert Rearranged(h.children + [bare], base) by {
      assert h.children + [bare] == [x, bare];
      assert base == [x, bare] || base == [bare, x];
    }
    hide Inserted, KidsOk, Rearranged, Branch;
    AppendInserted(h, bare, base, at, c, [y] + ys, r, '/');
  }

  lemma {:induction false} HungStrict(n: Node, ps: seq<PatternNode>, kids: seq<Node>)
    requires |kids| == 2 && Less(kids[0], kids[1]) && Strict(kids[0]) && Strict(kids[1])
    ensures Strict(Hung(n, ps, kids))
    decreases |ps|
  {
    if ps != [] { HungStrict(Bare(ps[0]), ps[1..], kids); }
  }

  lemma FollowsAt(k: Key, ps: seq<PatternNode>, i: nat)
    requires MayFollow(k, ps) && i < |ps|
    ensures KeyOk(ps[i].key, '/') && MayFollow(ps[i].key, ps[i + 1..])
  {
    var rest := ps[i + 1..];
    assert forall j :: 0 <= j < |rest| ==> rest[j] == ps[i + 1 + j];
  }

  lemma PartsFit(r: Route, ps: seq<PatternNode>, x: PatternNode, xs: seq<PatternNode>, re: Engine)
    requires Acceptable(r, re) && Parse(r.path, '/', re) == Some(ps + [x] + xs)
    ensures KeyOk(x.key, '/') && MayFollow(x.key, xs) && PatternNodes(r.path, '/', re) == ps + [x] + xs
  {
    AcceptableFollows(r, re);
    var all := ps + [x] + xs;
    assert PatternNodes(r.path, '/', re) == all;
    hide Parse, Acceptable, MayFollow, PatternNodes, KeyOk;
    FollowsAt(RootKey, all, |ps|);
    assert all[|ps|] == x && all[|ps| + 1..] == xs;
  }

  /** Two patterns that go on differently behind a prefix: below its nodes hang both, in the order of siblings. */
  lemma SecondBranch(t1: Table, t2: Table, p: string, x: PatternNode, xs: seq<PatternNode>, y: PatternNode,
                     ys: seq<PatternNode>, r1: Route, r2: Route, kids: seq<Node>, m: string, re: Engine)
    requires FirstRegistered(t1, r1, m, re) && Prefix(p) && x.key != y.key && Acceptable(r1, re) && Acceptable(r2, re)
    requires Parse(r1.path, '/', re) == Some(PatternNodes(p, '/', re) + [x] + xs)
    requires Parse(r2.path, '/', re) == Some(PatternNodes(p, '/', re) + [y] + ys)
    requires TableOk(t2) && Added(t1, t2, r2, r2.methods, PatternNodes(r2.path, '/', re)) && Registers(r2.methods, m)
    requires var (a, b) := (Branch(Bare(x), xs, r1), Branch(Bare(y), ys, r2)); kids == [a, b] || kids == [b, a]
    requires Less(kids[0], kids[1])
    ensures RootOf(t2, m) == Hung(EmptyRoot, PatternNodes(p, '/', re), kids)
  {
    var ps := PatternNodes(p, '/', re);
    PartsFit(r1, ps, x, xs, re);
    PartsFit(r2, ps, y, ys, re);
    hide Parse;
    PrefixNodes(p, re);
    hide PatternNodes, Acceptable;
    FirstRoute(t1, r1, m, re);
    BranchHung(EmptyRoot, ps, x, xs, r1);
    BranchRoot(Bare(x), xs, r1);
    var h, c, a := RootOf(t1, m), Hung(EmptyRoot, ps, kids), Branch(Bare(x), xs, r1);
    RootKidsOk(t1, m);
    HungInserted(EmptyRoot, ps, a, y, ys, r2, kids);
    BranchInserted(Bare(x), xs, r1);
    BranchInserted(Bare(y), ys, r2);
    HungStrict(EmptyRoot, ps, kids);
    SameTree(t1, t2, r2, c, ps + [y] + ys, m);
    HungRoot(EmptyRoot, ps, kids);
  }

  lemma SameTree(t1: Table, t2: Table, r: Route, c: Node, all: seq<PatternNode>, m: string)
    requires Added(t1, t2, r, r.methods, all) && Registers(r.methods, m) && TableOk(t2)
    requires Inserted(RootOf(t1, m), c, all, r, '/') && Strict(c) && RootOf(t1, m).key == RootKey
    ensures RootOf(t2, m) == c
  {
    assert Grown(RootOf(t1, m), RootOf(t2, m), all, r);
    RootKidsOk(t2, m);
    hide Strict, GrownAt;
    forall q ensures At(c, q) == At(RootOf(t2, m), q) {
      assert At(RootOf(t2, m), q) == GrownAt(RootOf(t1, m), all, r, q);
    }
    SpotsDecide(c, RootOf(t2, m));
  }

  lemma RootKidsOk(t: Table, m: string)
    requires TableOk(t)
    ensures KidsOk(RootOf(t, m), '/') && RootOf(t, m).key == RootKey
  {
    EmptyRootOk();
  }

  function VariableNode(n: string): PatternNode { PatternNode(VariantKey(n, AllType, []), 2) }

  function WildcardNode(w: string): PatternNode { PatternNode(Key(Any, "*" + w, Unset, [], None), -1) }

  lemma TwoLeaves(n: string, w: string, rv: Route, rw: Route, s: string, re: Engine)
    ensures Answer(MatchKids(Over([Leaf(VariableNode(n), rv), Leaf(WildcardNode(w), rw)]), 0, s, '/', re)) ==
            if s == "" then Panic else if s[0] == '/' then Found(rw, [Param(w, s)]) else Found(rv, [Param(n, s)])
  {
    var a, b := Leaf(VariableNode(n), rv), Leaf(WildcardNode(w), rw);
    assert (":" + n)[1..] == n && ("*" + w)[1..] == w && [a, b][1..] == [b];
    assert MatchKids(b, 0, s, '/', re) == Miss;
    if s != "" { assert MatchKids(a, 0, s, '/', re) == Miss; }
    LeafCapture(a, s);
    LeafCapture(b, s);
    LeafSearch(b, s, re);
    FirstKid([a, b], s, '/', re);
  }

  /** With `p{n}` and `p*w` registered, in either order, the variable answers every request behind `p` unless the rest
      begins with the delimiter; its value may hold more delimiters. */
  lemma VariableOrWildcard(t1: Table, t2: Table, rv: Route, rw: Route, variableFirst: bool, m: string, p: string,
                           n: string, w: string, s: string, re: Engine)
    requires Prefix(p) && Word(n) && (forall c :: c in w ==> IsAlnum(c)) && m != "CONNECT"
    requires rv.path == p + "{" + n + "}" && rw.path == p + "*" + w
    requires Registers(rv.methods, m) && Registers(rw.methods, m) && TableOk(t1) && TableOk(t2)
    requires var (r1, r2) := if variableFirst then (rv, rw) else (rw, rv);
             && Added(map[], t1, r1, r1.methods, PatternNodes(r1.path, '/', re))
             && Added(t1, t2, r2, r2.methods, PatternNodes(r2.path, '/', re))
    ensures MatchRequest(t2, m, p + s, re) ==
            if s == "" then Panic else if s[0] == '/' then Found(rw, [Param(w, s)]) else Found(rv, [Param(n, s)])
  {
    var v, x := VariableNode(n), WildcardNode(w);
    var kids := [Leaf(v, rv), Leaf(x, rw)];
    PlainContent(n, re);
    Joined(p, "{", n);
    Joined(p, "{" + n, "}");
    Joined(p, "*", w);
    assert Less(kids[0], kids[1]) && v.key != x.key;
    hide *;
    VariableAfter(p, n, v.key, re);
    WildcardAfter(p, w, re);
    OneMoreAcceptable(rv, p, v, re);
    OneMoreAcceptable(rw, p, x, re);
    var ps := PatternNodes(p, '/', re);
    assert ps + [v] + [] == ps + [v] && ps + [x] + [] == ps + [x];
    if variableFirst {
      SecondBranch(t1, t2, p, v, [], x, [], rv, rw, kids, m, re);
    } else {
      SecondBranch(t1, t2, p, x, [], v, [], rw, rv, kids, m, re);
    }
    RequestBelow(t2, m, p, kids, s, re);
    TwoLeaves(n, w, rv, rw, s, re);
  }

  /** With `/x/{id}` and the wildcard `*rest` behind `/x/` registered, in either order, `/x/5/6` is the variable's, and
      `/x//6` the wildcard's. */
  lemma DeepRequests(t1: Table, t2: Table, rv: Route, rw: Route, variableFirst: bool, re: Engine)
    requires rv.path == "/x/{id}" && rw.path == "/x/" + "*rest" && TableOk(t1) && TableOk(t2)
    requires Registers(rv.methods, "GET") && Registers(rw.methods, "GET")
    requires var (r1, r2) := if variableFirst then (rv, rw) else (rw, rv);
             && Added(map[], t1, r1, r1.methods, PatternNodes(r1.path, '/', re))
             && Added(t1, t2, r2, r2.methods, PatternNodes(r2.path, '/', re))
    ensures MatchRequest(t2, "GET", "/x/5/6", re) == Found(rv, [Param("id", "5/6")])
    ensures MatchRequest(t2, "GET", "/x//6", re) == Found(rw, [Param("rest", "/6")])
  {
    DeepTexts();
    hide *;
    VariableOrWildcard(t1, t2, rv, rw, variableFirst, "GET", "/x/", "id", "rest", "5/6", re);
    VariableOrWildcard(t1, t2, rv, rw, variableFirst, "GET", "/x/", "id", "rest", "/6", re);
  }

  lemma DeepTexts()
    ensures "/x/{id}" == "/x/" + "{" + "id" + "}" && "/x/" + "*rest" == "/x/" + "*" + "rest"
    ensures "/x/5/6" == "/x/" + "5/6" && "/x//6" == "/x/" + "/6"
    ensures Prefix("/x/") && Word("id") && forall c :: c in "rest" ==> IsAlnum(c)
  {
  }

  // ---- levels after any run ----

  /** Variables are above level zero, wildcards are at minus one. */
  predicate LevelOk(k: Key, level: int) { (k.kind == Variant ==> level >= 1) && (k.kind == Any ==> level == -1) }

  predicate LevelsOk(ps: seq<PatternNode>) { forall i :: 0 <= i < |ps| ==> LevelOk(ps[i].key, ps[i].level) }

  /** The target of a segment is a variable or an expression of that segment. */
  predicate TargetOk(s: Scanner) {
    s.target < |s.nodes| && (s.target >= 0 ==> s.level >= 1 && s.nodes[s.target].key.kind != Any)
  }

  lemma LinkedLevels(s: Scanner, flushed: seq<PatternNode>, key: Key, close: nat, ends: bool)
    requires s.nodes <= flushed && -1 <= s.target && TargetOk(s) && LevelsOk(flushed) && (s.level > 0 ==> s.target >= 0)
    requires key.kind != Static && key.kind != Any
    ensures var next := Linked(s, flushed, key, close, ends); LevelsOk(next.nodes) && TargetOk(next)
  {
  }

  lemma FlushedLevels(nodes: seq<PatternNode>, path: string, start: nat, i: nat)
    requires start <= i <= |path| && LevelsOk(nodes)
    ensures LevelsOk(Flush(nodes, path, start, i))
  {
  }

  lemma MoveLevels(s: Scanner, path: string, re: Engine)
    requires ScannerOk(s, path) && LevelsOk(s.nodes) && TargetOk(s)
    ensures var m := NextMove(s, path, '/', re);
            (m.Done? ==> LevelsOk(m.nodes)) && (m.Go? ==> LevelsOk(m.next.nodes) && TargetOk(m.next))
  {
    hide BracketKey, CloseBracket, Linked, AlnumEnd, KeyOk;
    FlushedLevels(s.nodes, path, s.start, s.i);
    if s.i == |path| {
      FlushedLevels(SetLevel(s.nodes, s.target, s.level), path, s.start, s.i);
    } else if path[s.i] == '{' && path[s.i] != '/' {
      var close := CloseBracket(path, s.i + 1, 1);
      if close >= 0 && BracketKey(path[s.i + 1..close - 1], re).Some? {
        LinkedLevels(s, Flushed(s, path), BracketKey(path[s.i + 1..close - 1], re).value, close,
                     close == |path| || path[close] == '/');
      }
    }
  }

  lemma {:induction false} ScanLevels(s: Scanner, path: string, re: Engine)
    requires ScannerOk(s, path) && LevelsOk(s.nodes) && TargetOk(s)
    ensures var r := Scan(s, path, '/', re); r.Some? ==> LevelsOk(r.value)
    decreases |path| - s.i
  {
    hide NextMove, LevelsOk;
    MoveLevels(s, path, re);
    var m := NextMove(s, path, '/', re);
    if m.Go? { ScanLevels(m.next, path, re); }
  }

  lemma PatternLevels(path: string, re: Engine)
    ensures LevelsOk(PatternNodes(path, '/', re))
  {
    hide Scan;
    if path != "" { ScanLevels(Scanner(0, 0, 0, -1, []), Normal(path, '/'), re); }
  }

  lemma {:induction false} LevelsOfRun(ts: seq<Table>, rs: seq<Route>, m: string, q: seq<Key>, re: Engine)
    requires Run(ts, rs, re) && q != []
    ensures var e := At(RootOf(ts[|rs|], m), q); e.Some? ==> LevelOk(q[|q| - 1], e.value.level)
  {
    hide At, Acceptable, PatternNodes, Registers;
    if rs == [] {
      NoSpotBelow(EmptyRoot, q);
    } else {
      var k := |rs| - 1;
      LevelsOfRun(ts[..k + 1], rs[..k], m, q, re);
      assert ts[k + 1] == ts[|rs|];
      var r := rs[k];
      if Acceptable(r, re) {
        PatternLevels(r.path, re);
        AddedLevel(ts[k], ts[k + 1], r, PatternNodes(r.path, '/', re), m, q);
      }
    }
  }

  lemma AddedLevel(t: Table, t': Table, r: Route, ps: seq<PatternNode>, m: string, q: seq<Key>)
    requires Added(t, t', r, r.methods, ps) && q != [] && LevelsOk(ps)
    requires var e := At(RootOf(t, m), q); e.Some? ==> LevelOk(q[|q| - 1], e.value.level)
    ensures var e := At(RootOf(t', m), q); e.Some? ==> LevelOk(q[|q| - 1], e.value.level)
  {
    hide At;
    if Registers(r.methods, m) {
      assert Grown(RootOf(t, m), RootOf(t', m), ps, r);
      assert At(RootOf(t', m), q) == GrownAt(RootOf(t, m), ps, r, q);
    } else {
      assert RootOf(t', m) == RootOf(t, m);
    }
  }

  // ---- which route a search cannot end with ----

  /** The route is bound to no other pattern below the node. */
  ghost predicate OnlyAt(n: Node, x: Route, q: seq<Key>) {
    forall k :: Lookup(n, k) == Some(x) ==> k == q
  }

  ghost predicate Nowhere(n: Node, x: Route) {
    forall k :: Lookup(n, k) != Some(x)
  }

  /** A hit ends at a node below. */
  lemma {:induction false} EndBelow(n: Node, steps: seq<Step>, path: string, end: Node, re: Engine)
    returns (q: seq<Key>)
    requires WellFormed(n, '/') && Explains(n, steps, path, end, '/', re)
    ensures Descend(n, q) == Some(end)
    decreases |steps|
  {
    if |steps| == 1 {
      q := [];
    } else {
      var i :| 0 <= i < |n.children| && n.children[i] == steps[1].node;
      assert WellFormed(n.children[i], '/');
      ChildIndexUnique(n.children, i);
      var rest := EndBelow(n.children[i], steps[1..], path[|steps[0].piece|..], end, re);
      q := [n.children[i].key] + rest;
      assert q[1..] == rest;
    }
  }

  lemma NotBelow(n: Node, path: string, x: Route, re: Engine)
    requires WellFormed(n, '/') && Nowhere(n, x)
    ensures var r := MatchNode(n, path, '/', re); r.Hit? ==> r.end.route != Some(x)
  {
    hide MatchNode, WellFormed, Explains, Lookup, Descend;
    MatchNodeSound(n, path, '/', re);
    var r := MatchNode(n, path, '/', re);
    if r.Hit? {
      var q := EndBelow(n, r.steps, path, r.end, re);
      assert Lookup(n, q) != Some(x);
    }
  }

  lemma ChildLookup(n: Node, i: nat, k: seq<Key>)
    requires DistinctKeys(n.children) && i < |n.children|
    ensures Lookup(n, [n.children[i].key] + k) == Lookup(n.children[i], k)
  {
    ChildIndexUnique(n.children, i);
    assert ([n.children[i].key] + k)[1..] == k;
  }

  /** Below another child the route is nowhere; below the right one it is where it was. */
  lemma OnlyBelow(n: Node, i: nat, x: Route, q: seq<Key>)
    requires DistinctKeys(n.children) && i < |n.children| && q != [] && OnlyAt(n, x, q)
    ensures n.children[i].key != q[0] ==> Nowhere(n.children[i], x)
    ensures n.children[i].key == q[0] ==> OnlyAt(n.children[i], x, q[1..])
  {
    hide Lookup;
    forall k | Lookup(n.children[i], k) == Some(x) ensures n.children[i].key == q[0] && k == q[1..] {
      ChildLookup(n, i, k);
      assert [n.children[i].key] + k == q;
    }
  }

  /** A variable and another continuation of the prefix: a longer one that begins with the variable, or one whose first
      node stands behind it. */
  ghost predicate Behind(cs: seq<Node>, at: nat, q: seq<Key>)
    requires at < |cs|
  {
    q != [] && q != [cs[at].key] && forall j :: 0 <= j < at ==> cs[j].key != q[0]
  }

  /** Among the children of the prefix's last node, the variable takes the rest before the other pattern ends. */
  lemma {:induction false} EndAvoids(n: Node, i: nat, at: nat, q: seq<Key>, s: string, x: Route, re: Engine)
    requires n.key.kind == Static && KidsOk(n, '/') && i <= at < |n.children| && OnlyAt(n, x, q)
    requires var v := n.children[at]; v.key.kind == Variant && v.route.Some? && Accepts(v.key, s)
    requires Behind(n.children, at, q) && s != "" && '/' !in s
    ensures var r := MatchKids(n, i, n.key.text + s, '/', re); r.Hit? ==> r.end.route != Some(x)
    decreases at - i
  {
    var c := n.children[i];
    hide Accepts, Nowhere;
    assert WellFormed(c, '/');
    StaticKidsStep(n, i, s, '/', re);
    OnlyBelow(n, i, x, q);
    if i == at {
      assert s[0] in s;
      ChildLookup(n, i, []);
      assert [c.key] + [] == [c.key] && Lookup(n, [c.key]) == c.route;
    } else {
      hide MatchKids, MatchNode, OnlyAt;
      NotBelow(c, s, x, re);
      EndAvoids(n, i + 1, at, q, s, x, re);
    }
  }

  /** Where the search stands in front of the prefix's remaining nodes. */
  ghost predicate VariableAhead(n: Node, ks: seq<Key>, v: Key, q: seq<Key>, s: string, x: Route) {
    && KidsOk(n, '/') && n.key.kind == Static && (forall j :: 0 <= j < |ks| ==> ks[j].kind == Static)
    && OnlyAt(n, x, ks + q) && v.kind == Variant && Accepts(v, s) && s != "" && '/' !in s
    && Descend(n, ks).Some?
    && var b := Descend(n, ks).value;
    var at := ChildIndex(b.children, v);
    at >= 0 && b.children[at].route.Some? && Behind(b.children, at, q)
  }

  lemma AheadBelow(n: Node, ks: seq<Key>, v: Key, q: seq<Key>, s: string, x: Route, i: nat)
    requires VariableAhead(n, ks, v, q, s, x) && ks != [] && i < |n.children|
    ensures n.children[i].key == ks[0] ==> VariableAhead(n.children[i], ks[1..], v, q, s, x)
    ensures n.children[i].key != ks[0] ==> Nowhere(n.children[i], x)
    ensures WellFormed(n.children[i], '/')
  {
    hide OnlyAt, Nowhere, Accepts, Behind;
    assert WellFormed(n.children[i], '/');
    ChildIndexUnique(n.children, i);
    assert (ks + q)[1..] == ks[1..] + q && (ks + q)[0] == ks[0];
    OnlyBelow(n, i, x, ks + q);
  }

  lemma {:induction false} NodeAvoids(n: Node, ks: seq<Key>, v: Key, q: seq<Key>, s: string, x: Route, re: Engine)
    requires VariableAhead(n, ks, v, q, s, x)
    ensures var r := MatchNode(n, n.key.text + (TextOf(ks) + s), '/', re); r.Hit? ==> r.end.route != Some(x)
    decreases |ks|, 1, 0
  {
    var path := n.key.text + (TextOf(ks) + s);
    assert MatchNode(n, path, '/', re) == MatchKids(n, 0, path, '/', re);
    hide MatchNode, MatchKids;
    if ks == [] {
      assert TextOf(ks) + s == s && ks + q == q;
      EndAvoids(n, 0, ChildIndex(n.children, v), q, s, x, re);
    } else {
      KidsAvoid(n, 0, ks, v, q, s, x, re);
    }
  }

  lemma {:induction false} KidsAvoid(n: Node, i: nat, ks: seq<Key>, v: Key, q: seq<Key>, s: string, x: Route,
                                     re: Engine)
    requires VariableAhead(n, ks, v, q, s, x) && ks != [] && i <= |n.children|
    ensures var r := MatchKids(n, i, n.key.text + (TextOf(ks) + s), '/', re); r.Hit? ==> r.end.route != Some(x)
    decreases |ks|, 0, |n.children| - i
  {
    if i < |n.children| {
      AheadBelow(n, ks, v, q, s, x, i);
      StaticKidsStep(n, i, TextOf(ks) + s, '/', re);
      hide MatchNode, MatchKids, VariableAhead, WellFormed;
      ChildAvoids(n.children[i], ks, v, q, s, x, re);
      KidsAvoid(n, i + 1, ks, v, q, s, x, re);
    }
  }

  lemma {:induction false} ChildAvoids(c: Node, ks: seq<Key>, v: Key, q: seq<Key>, s: string, x: Route, re: Engine)
    requires ks != [] && WellFormed(c, '/') && (c.key != ks[0] ==> Nowhere(c, x))
    requires c.key == ks[0] ==> VariableAhead(c, ks[1..], v, q, s, x)
    ensures var r := MatchNode(c, TextOf(ks) + s, '/', re); r.Hit? ==> r.end.route != Some(x)
    decreases |ks|, 0, 0
  {
    hide MatchNode, VariableAhead, WellFormed;
    Joined(ks[0].text, TextOf(ks[1..]), s);
    if c.key == ks[0] { NodeAvoids(c, ks[1..], v, q, s, x, re); } else { NotBelow(c, TextOf(ks) + s, x, re); }
  }

  lemma {:induction false} RootAvoids(root: Node, i: nat, ks: seq<Key>, v: Key, q: seq<Key>, s: string, x: Route,
                                      params: seq<Param>, re: Engine)
    requires VariableAhead(root, ks, v, q, s, x) && ks != [] && i <= |root.children|
    ensures var a := MatchFrom(root, i, TextOf(ks) + s, params, '/', re); a.Found? ==> a.route != x
    decreases |root.children| - i
  {
    if i < |root.children| {
      AheadBelow(root, ks, v, q, s, x, i);
      ChildAvoids(root.children[i], ks, v, q, s, x, re);
      hide VariableAhead, WellFormed, MatchNode;
      match MatchNode(root.children[i], TextOf(ks) + s, '/', re)
      case Fault =>
      case Miss => RootAvoids(root, i + 1, ks, v, q, s, x, params, re);
      case Hit(e, steps) => RootAvoids(root, i + 1, ks, v, q, s, x, params + Captures(steps), re);
    }
  }

  // ---- after any run ----

  lemma {:induction false} LastRouteKeys(rs: seq<Route>, m: string, q: seq<Key>, re: Engine)
    requires LastRoute(rs, m, q, re).Some?
    ensures PatternKeys(LastRoute(rs, m, q, re).value.path, '/', re) == q
  {
    hide Acceptable, PatternKeys, Registers;
    if rs != [] {
      var r := rs[|rs| - 1];
      if !(Acceptable(r, re) && Registers(r.methods, m) && PatternKeys(r.path, '/', re) == q) {
        LastRouteKeys(rs[..|rs| - 1], m, q, re);
      }
    }
  }

  /** After a run a route is bound to its own pattern only. */
  lemma RunOnlyAt(ts: seq<Table>, rs: seq<Route>, m: string, x: Route, re: Engine)
    requires Run(ts, rs, re)
    ensures OnlyAt(RootOf(ts[|rs|], m), x, PatternKeys(x.path, '/', re))
  {
    var root := RootOf(ts[|rs|], m);
    hide Lookup, LastRoute, PatternKeys, Run;
    forall q | Lookup(root, q) == Some(x) ensures q == PatternKeys(x.path, '/', re) {
      RunTable(ts, rs, m, q, re);
      LastRouteKeys(rs, m, q, re);
    }
  }

  lemma {:induction false} LookupSplit(n: Node, ks: seq<Key>, k: Key)
    requires Lookup(n, ks + [k]).Some?
    ensures var e := Descend(n, ks);
            && e.Some?
            && var at := ChildIndex(e.value.children, k);
            at >= 0 && e.value.children[at].route == Lookup(n, ks + [k])
    decreases |ks|
  {
    if ks == [] {
      assert ks + [k] == [k] && [k][1..] == [];
    } else {
      assert (ks + [k])[1..] == ks[1..] + [k];
      LookupSplit(n.children[ChildIndex(n.children, ks[0])], ks[1..], k);
    }
  }

  /** Among siblings, variables of a run stand before wildcards. */
  lemma VariableSibling(ts: seq<Table>, rs: seq<Route>, m: string, ks: seq<Key>, b: Node, at: nat, j: nat, re: Engine)
    requires Run(ts, rs, re) && Descend(RootOf(ts[|rs|], m), ks) == Some(b) && at < |b.children| && j <= at
    requires b.children[at].key.kind == Variant
    ensures b.children[j].key.kind != Any
  {
    var root, v, w := RootOf(ts[|rs|], m), b.children[at].key, b.children[j].key;
    RunRootOk(ts, rs, m, re);
    DescendOk(root, ks, '/');
    ChildIndexUnique(b.children, at);
    ChildIndexUnique(b.children, j);
    ChainOn(root, ks, b, at);
    ChainOn(root, ks, b, j);
    LevelsOfRun(ts, rs, m, ks + [v], re);
    LevelsOfRun(ts, rs, m, ks + [w], re);
    assert (ks + [v])[|ks|] == v && (ks + [w])[|ks|] == w;
    assert j < at ==> !Less(b.children[at], b.children[j]);
  }

  /** After any run that accepted a variable behind `p`: a request whose rest is one segment that the variable accepts
      is never answered by a wildcard behind `p`, nor by a longer pattern that begins with the variable. */
  lemma VariableFirst(ts: seq<Table>, rs: seq<Route>, m: string, r: Route, p: string, content: string, key: Key,
                      x: Route, q: seq<Key>, s: string, re: Engine)
    requires Run(ts, rs, re) && m != "CONNECT" && Prefix(p)
    requires r in rs && Registers(r.methods, m) && r.path == p + ("{" + content + "}")
    requires Balanced(content) && BracketKey(content, re) == Some(key) && key.kind == Variant
    requires Accepts(key, s) && s != "" && '/' !in s
    requires PatternKeys(x.path, '/', re) == PatternKeys(p, '/', re) + q
    requires q != [] && q != [key] && (q[0] == key || q[0].kind == Any)
    ensures var a := MatchRequest(ts[|rs|], m, p + s, re); a.Found? ==> a.route != x
  {
    var root, ps := RootOf(ts[|rs|], m), PatternNodes(p, '/', re);
    var ks := KeysOf(ps);
    VariableAfter(p, content, key, re);
    PatternOf(r.path, ps, PatternNode(key, 2), re);
    OneMoreAcceptable(r, p, PatternNode(key, 2), re);
    PrefixNodes(p, re);
    PrefixRequest(m, p, s);
    RunBoundVariable(ts, rs, m, r, ks, key, q, re);
    RunOnlyAt(ts, rs, m, x, re);
    RunRootOk(ts, rs, m, re);
    RootKidsOk(ts[|rs|], m);
    assert PatternKeys(p, '/', re) == ks;
    hide Run, Parse, PatternNodes, PatternKeys, Normal, Lookup, MatchFrom, OnlyAt, KidsOk, Acceptable, RequestPath;
    RootAvoids(root, 0, ks, key, q, s, x, [], re);
  }

  lemma PatternOf(path: string, ps: seq<PatternNode>, last: PatternNode, re: Engine)
    requires Parse(path, '/', re) == Some(ps + [last])
    ensures PatternKeys(path, '/', re) == KeysOf(ps) + [last.key]
  {
  }

  lemma RunBoundVariable(ts: seq<Table>, rs: seq<Route>, m: string, r: Route, ks: seq<Key>, key: Key, q: seq<Key>,
                         re: Engine)
    requires Run(ts, rs, re) && r in rs && Acceptable(r, re) && Registers(r.methods, m) && key.kind == Variant
    requires PatternKeys(r.path, '/', re) == ks + [key]
    requires q != [] && q != [key] && (q[0] == key || q[0].kind == Any)
    ensures var e := Descend(RootOf(ts[|rs|], m), ks);
            && e.Some?
            && var at := ChildIndex(e.value.children, key);
            at >= 0 && e.value.children[at].route.Some? && Behind(e.value.children, at, q)
  {
    var root := RootOf(ts[|rs|], m);
    hide Lookup, LastRoute, PatternKeys, Acceptable, Registers, Run, Descend;
    var i :| 0 <= i < |rs| && rs[i] == r;
    assert IsRegistered(rs, m, ks + [key], re);
    RegisteredHasRoute(rs, m, ks + [key], re);
    RunTable(ts, rs, m, ks + [key], re);
    LookupSplit(root, ks, key);
    var b := Descend(root, ks).value;
    var at := ChildIndex(b.children, key);
    forall j | 0 <= j < at ensures b.children[j].key != q[0] {
      VariableSibling(ts, rs, m, ks, b, at, j, re);
    }
  }

  /** After any run that accepted `p{n}`, however many other patterns it registered: no request `p` followed by one
      segment is answered by a wildcard behind `p`. */
  lemma NeverTheWildcard(ts: seq<Table>, rs: seq<Route>, m: string, r: Route, p: string, n: string, w: string,
                         s: string, re: Engine)
    requires Run(ts, rs, re) && m != "CONNECT" && Prefix(p) && Word(n) && forall c :: c in w ==> IsAlnum(c)
    requires r in rs && Registers(r.methods, m) && r.path == p + "{" + n + "}"
    requires s != "" && '/' !in s
    ensures var a := MatchRequest(ts[|rs|], m, p + s, re);
            a.Found? ==> Normal(a.route.path, '/') != Normal(p + "*" + w, '/')
  {
    var key, wild := VariantKey(n, AllType, []), Key(Any, "*" + w, Unset, [], None);
    assert Accepts(key, s);
    PlainContent(n, re);
    Joined(p, "{", n);
    Joined(p, "{" + n, "}");
    Joined(p, "*", w);
    WildcardAfter(p, w, re);
    PatternOf(p + ("*" + w), PatternNodes(p, '/', re), PatternNode(wild, -1), re);
    var a := MatchRequest(ts[|rs|], m, p + s, re);
    if a.Found? { SameKeys(a.route.path, p + ("*" + w), re); }
    assert PatternKeys(p, '/', re) == KeysOf(PatternNodes(p, '/', re));
    hide *;
    if a.Found? && Normal(a.route.path, '/') == Normal(p + "*" + w, '/') {
      VariableFirst(ts, rs, m, r, p, n, key, a.route, [wild], s, re);
    }
  }

  lemma SameKeys(a: string, b: string, re: Engine)
    requires b != ""
    ensures Normal(a, '/') == Normal(b, '/') ==> PatternKeys(a, '/', re) == PatternKeys(b, '/', re)
  {
    hide Scan;
  }

  // ---- longer patterns that begin with the variable ----

  /** The scanner only adds nodes, and at least one for text that is left. */
  lemma {:induction false} ScanGrows(s: Scanner, path: string, re: Engine)
    requires ScannerOk(s, path)
    ensures var r := Scan(s, path, '/', re);
            r.Some? ==> KeysOf(s.nodes) <= KeysOf(r.value) && (s.start < |path| ==> |s.nodes| < |r.value|)
    decreases |path| - s.i
  {
    MoveGrows(s, path, re);
    hide NextMove;
    var m := NextMove(s, path, '/', re);
    if m.Go? { ScanGrows(m.next, path, re); }
  }

  lemma MoveGrows(s: Scanner, path: string, re: Engine)
    requires ScannerOk(s, path)
    ensures var m := NextMove(s, path, '/', re);
            && (m.Done? ==> KeysOf(s.nodes) <= KeysOf(m.nodes) && (s.start < |path| ==> |s.nodes| < |m.nodes|))
            && (m.Go? ==> KeysOf(s.nodes) <= KeysOf(m.next.nodes)
                          && (s.start < |path| ==> m.next.start < |path| || |s.nodes| < |m.next.nodes|))
  {
    hide BracketKey, CloseBracket, AlnumEnd, KeyOk;
  }

  /** The first move behind the prefix links the variable. */
  lemma FirstBracket(f: Scanner, path: string, content: string, key: Key, rest: string, re: Engine)
    requires ScannerOk(f, path) && f.level == 0 && path[f.i..] == "{" + content + "}" + rest
    requires Balanced(content) && BracketKey(content, re) == Some(key)
    ensures f.i < |path|
    ensures var m, close := NextMove(f, path, '/', re), f.i + |content| + 2;
            && close <= |path| && m.Go? && m.next.i == m.next.start == close && ScannerOk(m.next, path)
            && KeysOf(m.next.nodes) == KeysOf(Flushed(f, path)) + [key]
            && m.next == Linked(f, Flushed(f, path), key, close, close == |path| || path[close] == '/')
  {
    hide Flushed, BracketKey, CloseBracket;
    BracketAt(path, f.i, content, rest);
  }

  lemma LongerKeys(p: string, content: string, key: Key, tail: string, re: Engine) returns (q: seq<Key>)
    requires Prefix(p) && Balanced(content) && BracketKey(content, re) == Some(key) && tail != ""
    requires Parse(p + ("{" + content + "}" + tail), '/', re).Some?
    ensures PatternKeys(p + ("{" + content + "}" + tail), '/', re) == PatternKeys(p, '/', re) + q
    ensures |q| > 1 && q[0] == key
  {
    hide NextMove, Scan, Flushed, BracketKey, Parse, PatternNodes, Linked;
    var text := "{" + content + "}" + tail;
    var f := AfterPrefix(p, text, re);
    var path := Normal(p, '/') + text;
    assert path[f.i..] == text;
    FirstBracket(f, path, content, key, tail, re);
    var next := NextMove(f, path, '/', re).next;
    ScanOn(f, next, path, re);
    ScanGrows(next, path, re);
    var ks := KeysOf(PatternNodes(p, '/', re));
    var all := KeysOf(Scan(next, path, '/', re).value);
    ParsedKeys(p + text, re);
    ParsedKeys(p, re);
    q := all[|ks|..];
    assert all == ks + q;
    assert all[|ks|] == (ks + [key])[|ks|];
  }

  lemma ParsedKeys(path: string, re: Engine)
    ensures PatternKeys(path, '/', re) == KeysOf(PatternNodes(path, '/', re))
    ensures Parse(path, '/', re).Some? ==> PatternNodes(path, '/', re) == Parse(path, '/', re).value
  {
  }

  /** After any run that accepted `p{n}`: a longer pattern that begins with it never answers `p` followed by one
      segment, not even one that splits the segment. */
  lemma NeverTheLonger(ts: seq<Table>, rs: seq<Route>, m: string, r: Route, p: string, n: string, tail: string,
                       s: string, re: Engine)
    requires Run(ts, rs, re) && m != "CONNECT" && Prefix(p) && Word(n) && tail != ""
    requires r in rs && Registers(r.methods, m) && r.path == p + "{" + n + "}"
    requires Parse(p + "{" + n + "}" + tail, '/', re).Some? && s != "" && '/' !in s
    ensures var a := MatchRequest(ts[|rs|], m, p + s, re);
            a.Found? ==> Normal(a.route.path, '/') != Normal(p + "{" + n + "}" + tail, '/')
  {
    var key, text := VariantKey(n, AllType, []), p + "{" + n + "}" + tail;
    assert Accepts(key, s);
    PlainContent(n, re);
    LongerText(p, n, tail);
    hide *;
    var q := LongerKeys(p, n, key, tail, re);
    var a := MatchRequest(ts[|rs|], m, p + s, re);
    if a.Found? {
      SameKeys(a.route.path, text, re);
      if Normal(a.route.path, '/') == Normal(text, '/') {
        VariableFirst(ts, rs, m, r, p, n, key, a.route, q, s, re);
      }
    }
  }

  lemma LongerText(p: string, n: string, tail: string)
    ensures p + "{" + n + "}" + tail == p + ("{" + n + "}" + tail) && p + "{" + n + "}" == p + ("{" + n + "}")
    ensures p + "{" + n + "}" + tail != ""
  {
  }
}
