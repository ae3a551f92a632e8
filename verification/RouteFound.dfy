/** Registered patterns with variables are found: every request that instantiates one is answered. */
module RouteFound {
  import opened Text
  import opened RouteNodes
  import opened RoutePattern
  import opened RouteInsert
  import opened RouteTable
  import opened RouteFaults

  /** The text up to the next delimiter. */
  function Segment(path: string, d: char): (s: string)
    ensures s <= path && d !in s && (|s| < |path| ==> path[|s|] == d)
  {
    var i := IndexByte(path, d);
    if i < 0 then path else path[..i]
  }

  predicate EndsSegment(ks: seq<Key>, d: char) {
    |ks| == 1 || (|ks| > 1 && ks[1].kind == Static && ks[1].text != "" && ks[1].text[0] == d)
  }

  /** The path instantiates the pattern: static texts as they are, variables and expressions that take the rest of their
      segment and accept it, and at the end possibly a wildcard. */
  predicate Fits(ks: seq<Key>, path: string, d: char, re: Engine)
    decreases |ks|
  {
    if ks == [] then path == ""
    else
      var seg := Segment(path, d);
      match ks[0].kind
      case Static => ks[0].text <= path && Fits(ks[1..], path[|ks[0].text|..], d, re)
      case Any => |ks| == 1
      case Variant => seg != "" && Accepts(ks[0], seg) && EndsSegment(ks, d) && Fits(ks[1..], path[|seg|..], d, re)
      case Regexp => Accepted(ks[0], seg, re) && EndsSegment(ks, d) && Fits(ks[1..], path[|seg|..], d, re)
  }

  /** Where the part of the next node of the pattern begins. */
  function Rest(k: Key, path: string, d: char): nat { if k.kind == Static then |k.text| else |Segment(path, d)| }

  /** The node cuts the path where the pattern does. */
  lemma CutFits(n: Node, child: Node, ks: seq<Key>, path: string, d: char, re: Engine)
    requires |ks| > 1 && n.key == ks[0] && child.key == ks[1] && Fits(ks, path, d, re)
    ensures n.key.kind == Static ==> n.key.text <= path
    ensures n.key.kind == Variant ==> path != "" && path[0] != d
    ensures Rest(ks[0], path, d) <= |path|
    ensures Cut(n, child, path, d, re) == Some(Rest(ks[0], path, d))
    ensures Fits(ks[1..], path[Rest(ks[0], path, d)..], d, re)
    ensures ks[0].kind == Variant ==> d in path
  {
    var seg := Segment(path, d);
    if ks[0].kind == Variant || ks[0].kind == Regexp {
      var rest := path[|seg|..];
      assert child.key.text <= rest && rest[0] == d && path[|seg|] == d;
      if ks[0].kind == Variant {
        assert path[0] == seg[0] && seg[0] in seg;
        FirstDelimiter(path, seg, child.key.text, d);
      } else {
        assert IndexByte(path, d) == |seg|;
      }
    }
  }

  lemma FirstDelimiter(path: string, seg: string, text: string, d: char)
    requires seg <= path && d !in seg && text != "" && text[0] == d && text <= path[|seg|..]
    ensures Index(path, text) == |seg|
  {
    assert OccursAt(path, text, |seg|);
    forall k | 0 <= k < |seg| ensures !OccursAt(path, text, k) {
      assert path[k] == seg[k] && seg[k] in seg;
      if k + |text| <= |path| { assert path[k..k + |text|][0] == path[k]; }
    }
  }

  /** A node that misses has tried all its children. */
  lemma MissesAll(n: Node, path: string, d: char, re: Engine)
    requires n.key.kind != Any && n.children != []
    requires n.key.kind == Static ==> n.key.text <= path
    requires n.key.kind == Variant ==> path != "" && path[0] != d && d in path
    ensures MatchNode(n, path, d, re).Miss? ==> MatchKids(n, 0, path, d, re).Miss?
  {
  }

  lemma MissesFirst(n: Node, i: nat, path: string, d: char, re: Engine)
    requires i < |n.children|
    requires n.key.kind == Static ==> n.key.text <= path
    requires n.key.kind == Variant ==> path != ""
    ensures MatchKids(n, i, path, d, re).Miss? ==>
              var cut := Cut(n, n.children[i], path, d, re);
              && MatchKids(n, i + 1, path, d, re).Miss?
              && (cut.Some? ==> MatchNode(n.children[i], path[cut.value..], d, re).Miss?)
  {
    hide MatchNode, Cut;
  }

  lemma LookupBelow(n: Node, ks: seq<Key>, d: char)
    requires ks != [] && Lookup(n, ks).Some? && WellFormed(n, d)
    ensures var at := ChildIndex(n.children, ks[0]);
            at >= 0 && WellFormed(n.children[at], d) && Lookup(n.children[at], ks[1..]).Some?
  {
  }

  lemma {:induction false} NodeNotMissed(n: Node, ks: seq<Key>, path: string, d: char, re: Engine)
    requires WellFormed(n, d) && ks != [] && n.key == ks[0] && Lookup(n, ks[1..]).Some? && Fits(ks, path, d, re)
    ensures !MatchNode(n, path, d, re).Miss?
    decreases |ks|, 1, 0
  {
    assert ks[0].kind == Any ==> |ks| == 1;
    hide MatchKids, MatchNode, Cut, WellFormed, Fits;
    if |ks| == 1 {
      LastNotMissed(n, ks, path, d, re);
    } else {
      assert ks[1..][0] == ks[1];
      LookupBelow(n, ks[1..], d);
      var at := ChildIndex(n.children, ks[1]);
      CutFits(n, n.children[at], ks, path, d, re);
      KidsNotMissed(n, 0, ks, path, d, re);
      MissesAll(n, path, d, re);
    }
  }

  lemma LastNotMissed(n: Node, ks: seq<Key>, path: string, d: char, re: Engine)
    requires |ks| == 1 && n.key == ks[0] && n.route.Some? && Fits(ks, path, d, re)
    ensures !MatchNode(n, path, d, re).Miss?
  {
    hide MatchKids;
    assert ks[1..] == [];
    var seg := Segment(path, d);
    assert (n.key.kind == Variant || n.key.kind == Regexp) ==> seg == path;
    assert n.key.kind == Variant ==> path[0] in seg;
  }

  lemma {:induction false} KidsNotMissed(n: Node, i: nat, ks: seq<Key>, path: string, d: char, re: Engine)
    requires WellFormed(n, d) && |ks| > 1 && n.key == ks[0] && Lookup(n, ks[1..]).Some? && Fits(ks, path, d, re)
    requires i <= ChildIndex(n.children, ks[1])
    ensures n.key.kind == Static ==> n.key.text <= path
    ensures n.key.kind == Variant ==> path != ""
    ensures !MatchKids(n, i, path, d, re).Miss?
    decreases |ks|, 0, ChildIndex(n.children, ks[1]) - i
  {
    hide MatchKids, MatchNode, Cut, WellFormed, Lookup, Fits;
    var at, rest := ChildIndex(n.children, ks[1]), ks[1..];
    assert rest[0] == ks[1];
    LookupBelow(n, rest, d);
    CutFits(n, n.children[at], ks, path, d, re);
    MissesFirst(n, i, path, d, re);
    if i < at {
      KidsNotMissed(n, i + 1, ks, path, d, re);
    } else {
      NodeNotMissed(n.children[at], rest, path[Rest(ks[0], path, d)..], d, re);
    }
  }

  /** In a guarded tree whose wildcards and expressions have routes, a request that instantiates a bound pattern finds a
      route, whatever else is registered. */
  lemma {:induction false} BoundIsFound(root: Node, i: nat, ks: seq<Key>, path: string, ps: seq<Param>, d: char,
                                        re: Engine)
    requires KidsOk(root, d) && path != "" && ks != [] && Lookup(root, ks).Some? && Fits(ks, path, d, re)
    requires forall j :: 0 <= j < |root.children| ==> RoutedEnds(root.children[j]) && Guarded(root.children[j], re)
    requires i <= ChildIndex(root.children, ks[0])
    ensures MatchFrom(root, i, path, ps, d, re).Found?
    decreases |root.children| - i
  {
    var c := root.children[i];
    assert WellFormed(c, d);
    GuardedNodeNeverFaults(c, path, d, re);
    MatchNodeSound(c, path, d, re);
    if i == ChildIndex(root.children, ks[0]) {
      assert Lookup(root, ks) == Lookup(c, ks[1..]);
      NodeNotMissed(c, ks, path, d, re);
    }
    hide MatchNode, Fits, Explains, WellFormed, Guarded, RoutedEnds;
    match MatchNode(c, path, d, re)
    case Hit(e, steps) => RoutedHit(c, steps, path, e, d, re);
    case Miss => BoundIsFound(root, i + 1, ks, path, ps, d, re);
  }

  // ---- after a run of registrations ----

  /** Some accepted route of the run has this very pattern. */
  predicate IsRegistered(rs: seq<Route>, m: string, q: seq<Key>, re: Engine) {
    exists i :: 0 <= i < |rs| && Acceptable(rs[i], re) && Registers(rs[i].methods, m)
                && PatternKeys(rs[i].path, '/', re) == q
  }

  /** Some accepted pattern of the run begins like this. */
  predicate IsBegun(rs: seq<Route>, m: string, q: seq<Key>, re: Engine) {
    exists i :: 0 <= i < |rs| && Acceptable(rs[i], re) && Registers(rs[i].methods, m)
                && q <= PatternKeys(rs[i].path, '/', re)
  }

  /** Patterns end where a wildcard or an expression ends, and what comes before a variable is a pattern as well. */
  ghost predicate WellRegistered(rs: seq<Route>, m: string, re: Engine) {
    forall q: seq<Key> :: q != [] && IsBegun(rs, m, q, re) ==>
      var k := q[|q| - 1];
      && (k.kind == Any || k.kind == Regexp ==> IsRegistered(rs, m, q, re))
      && (k.kind == Static && (exists v: Key :: v.kind == Variant && IsBegun(rs, m, q + [v], re)) ==>
            IsRegistered(rs, m, q, re))
  }

  lemma AddedSpot(t: Table, t': Table, r: Route, methods: seq<string>, ps: seq<PatternNode>, m: string, q: seq<Key>)
    requires Added(t, t', r, methods, ps) && q != []
    ensures At(RootOf(t', m), q).Some? <==>
            At(RootOf(t, m), q).Some? || (Registers(methods, m) && q <= KeysOf(ps))
  {
    if Registers(methods, m) {
      assert Grown(RootOf(t, m), RootOf(t', m), ps, r);
      assert At(RootOf(t', m), q) == GrownAt(RootOf(t, m), ps, r, q);
    } else {
      assert RootOf(t', m) == RootOf(t, m);
    }
  }

  /** The nodes of the tree are exactly the beginnings of the patterns accepted. */
  lemma {:induction false} NodesOfRun(ts: seq<Table>, rs: seq<Route>, m: string, q: seq<Key>, re: Engine)
    requires Run(ts, rs, re) && q != []
    ensures At(RootOf(ts[|rs|], m), q).Some? <==> IsBegun(rs, m, q, re)
  {
    hide At, Acceptable, PatternKeys, Registers;
    if rs == [] {
      NoSpotBelow(EmptyRoot, q);
    } else {
      var n := |rs| - 1;
      var front, r := rs[..n], rs[n];
      NodesOfRun(ts[..n + 1], front, m, q, re);
      assert ts[n + 1] == ts[|rs|];
      if Acceptable(r, re) {
        AddedSpot(ts[n], ts[n + 1], r, r.methods, PatternNodes(r.path, '/', re), m, q);
        KeysOfPattern(r.path, re);
      }
      hide Added, Run;
      BegunLater(rs, m, q, re);
    }
  }

  lemma KeysOfPattern(path: string, re: Engine)
    ensures PatternKeys(path, '/', re) == KeysOf(PatternNodes(path, '/', re))
  {
  }

  lemma BegunLater(rs: seq<Route>, m: string, q: seq<Key>, re: Engine)
    requires rs != []
    ensures var r := rs[|rs| - 1];
            IsBegun(rs, m, q, re) <==>
            IsBegun(rs[..|rs| - 1], m, q, re)
            || (Acceptable(r, re) && Registers(r.methods, m) && q <= PatternKeys(r.path, '/', re))
  {
    hide Acceptable, PatternKeys, Registers;
    var front := rs[..|rs| - 1];
    if IsBegun(front, m, q, re) {
      var i :| 0 <= i < |front| && Acceptable(front[i], re) && Registers(front[i].methods, m)
               && q <= PatternKeys(front[i].path, '/', re);
      assert rs[i] == front[i];
    }
    if IsBegun(rs, m, q, re) {
      var i :| 0 <= i < |rs| && Acceptable(rs[i], re) && Registers(rs[i].methods, m)
               && q <= PatternKeys(rs[i].path, '/', re);
      assert i < |front| ==> rs[i] == front[i];
    }
  }

  lemma {:induction false} RegisteredHasRoute(rs: seq<Route>, m: string, q: seq<Key>, re: Engine)
    requires IsRegistered(rs, m, q, re)
    ensures LastRoute(rs, m, q, re).Some?
    decreases |rs|
  {
    hide Acceptable, PatternKeys, Registers;
    var i :| 0 <= i < |rs| && Acceptable(rs[i], re) && Registers(rs[i].methods, m)
             && PatternKeys(rs[i].path, '/', re) == q;
    var front := rs[..|rs| - 1];
    if i < |rs| - 1 {
      assert front[i] == rs[i];
      RegisteredHasRoute(front, m, q, re);
    }
  }

  /** A node of the tree keeps the search from panicking and does not end it without a route. */
  ghost predicate NodeFine(n: Node, re: Engine) {
    GuardedNode(n, re) && (n.key.kind == Any || n.key.kind == Regexp ==> n.route.Some?)
  }

  lemma {:induction false} AllFine(root: Node, q: seq<Key>, n: Node, d: char, re: Engine)
    requires Descend(root, q) == Some(n) && KidsOk(n, d)
    requires forall p, x :: p != [] && Descend(root, p) == Some(x) ==> NodeFine(x, re)
    ensures forall i :: 0 <= i < |n.children| ==> RoutedEnds(n.children[i]) && Guarded(n.children[i], re)
    decreases n
  {
    hide NodeFine, GuardedNode, Descend;
    forall i | 0 <= i < |n.children| ensures RoutedEnds(n.children[i]) && Guarded(n.children[i], re) {
      var c := n.children[i];
      assert WellFormed(c, d);
      ChildIndexUnique(n.children, i);
      ChainOn(root, q, n, i);
      assert q + [c.key] != [] && NodeFine(c, re);
      AllFine(root, q + [c.key], c, d, re);
      FineNode(c, re);
    }
  }

  lemma FineNode(n: Node, re: Engine)
    requires NodeFine(n, re)
    requires forall i :: 0 <= i < |n.children| ==> RoutedEnds(n.children[i]) && Guarded(n.children[i], re)
    ensures RoutedEnds(n) && Guarded(n, re)
  {
  }

  lemma {:induction false} DescendKey(root: Node, q: seq<Key>)
    requires q != [] && Descend(root, q).Some?
    ensures Descend(root, q).value.key == q[|q| - 1]
    decreases |q|
  {
    var c := root.children[ChildIndex(root.children, q[0])];
    if |q| > 1 { DescendKey(c, q[1..]); } else { assert q[1..] == []; }
  }

  lemma FineAfterRun(ts: seq<Table>, rs: seq<Route>, m: string, q: seq<Key>, n: Node, re: Engine)
    requires Run(ts, rs, re) && WellRegistered(rs, m, re) && q != [] && DistinctKeys(n.children)
    requires Descend(RootOf(ts[|rs|], m), q) == Some(n)
    ensures NodeFine(n, re)
  {
    var root := RootOf(ts[|rs|], m);
    DescendKey(root, q);
    assert At(root, q).Some? && Lookup(root, q) == n.route;
    NodesOfRun(ts, rs, m, q, re);
    RunTable(ts, rs, m, q, re);
    hide Run, IsBegun, IsRegistered, Acceptable, Descend, Lookup, LastRoute;
    if IsRegistered(rs, m, q, re) { RegisteredHasRoute(rs, m, q, re); }
    if n.key.kind == Static && VariantFirst(n, 0, re) {
      var j :| 0 <= j < |n.children| && n.children[j].key.kind == Variant && NoneTakesEmpty(n, 0, j, re);
      var v := n.children[j].key;
      ChildIndexUnique(n.children, j);
      ChainOn(root, q, n, j);
      assert At(root, q + [v]).Some?;
      NodesOfRun(ts, rs, m, q + [v], re);
    }
  }

  /** After any run of registrations in which patterns end with their wildcards and expressions, and what comes before a
      variable is a pattern as well: every request that instantiates an accepted pattern finds a route, and none
      panics. */
  lemma RegisteredIsFound(ts: seq<Table>, rs: seq<Route>, m: string, r: Route, path: string, re: Engine)
    requires Run(ts, rs, re) && WellRegistered(rs, m, re) && m != "CONNECT"
    ensures !MatchRequest(ts[|rs|], m, path, re).Panic?
    ensures r in rs && Acceptable(r, re) && Registers(r.methods, m)
            && Fits(PatternKeys(r.path, '/', re), RequestPath(m, path), '/', re) ==>
              MatchRequest(ts[|rs|], m, path, re).Found?
  {
    var root, ks := RootOf(ts[|rs|], m), PatternKeys(r.path, '/', re);
    RunRootOk(ts, rs, m, re);
    forall p, x | p != [] && Descend(root, p) == Some(x) ensures NodeFine(x, re) {
      DescendOk(root, p, '/');
      FineAfterRun(ts, rs, m, p, x, re);
    }
    hide NodeFine, WellRegistered, Acceptable, Registers, PatternKeys, Fits, MatchFrom;
    AllFine(root, [], root, '/', re);
    GuardedTreeNeverPanics(root, 0, RequestPath(m, path), [], '/', re);
    if r in rs && Acceptable(r, re) && Registers(r.methods, m) && Fits(ks, RequestPath(m, path), '/', re) {
      RunTable(ts, rs, m, ks, re);
      var i :| 0 <= i < |rs| && rs[i] == r;
      assert IsRegistered(rs, m, ks, re);
      RegisteredHasRoute(rs, m, ks, re);
      NoEmptyPattern(r, re);
      hide Run, Lookup;
      assert Lookup(root, ks).Some?;
      LookupIndex(root, ks);
      BoundIsFound(root, 0, ks, RequestPath(m, path), [], '/', re);
    }
  }

  lemma LookupIndex(root: Node, ks: seq<Key>)
    requires ks != [] && Lookup(root, ks).Some?
    ensures ChildIndex(root.children, ks[0]) >= 0
  {
  }

  lemma NoEmptyPattern(r: Route, re: Engine)
    requires Acceptable(r, re)
    ensures PatternKeys(r.path, '/', re) != []
  {
  }

  lemma RunRootOk(ts: seq<Table>, rs: seq<Route>, m: string, re: Engine)
    requires Run(ts, rs, re)
    ensures KidsOk(RootOf(ts[|rs|], m), '/')
  {
    EmptyRootOk();
    assert TableOk(ts[|rs|]);
  }

  lemma {:induction false} DescendOk(root: Node, q: seq<Key>, d: char)
    requires KidsOk(root, d) && Descend(root, q).Some?
    ensures KidsOk(Descend(root, q).value, d)
    decreases |q|
  {
    if q != [] {
      var c := root.children[ChildIndex(root.children, q[0])];
      assert WellFormed(c, d);
      DescendOk(c, q[1..], d);
    }
  }
}
