/** What merging two trees does to the handlers of their routes. Route objects are shared by all methods they are
    registered under, so combining under one method is seen under the others: the exact condition under which it is
    not. */
module RouteHandlers {
  import opened Text
  import opened RouteNodes
  import opened RoutePattern
  import opened RouteTable
  import opened RouteCombine

  /** Every pattern has the handlers its own two routes call for. */
  ghost predicate HandlerEquation(h: HandlerTable, h': HandlerTable, t: Table, ft: Table) {
    forall m, q :: var a, b := RouteIn(t, m, q), RouteIn(ft, m, q);
      OneOf(a, b).Some? ==>
        HandlersOf(h', OneOf(a, b).value) ==
        if a.Some? && b.Some? then CombinedHandlers(h, a.value, b.value) else HandlersOf(h, OneOf(a, b).value)
  }

  /** A route of the main tree that meets an incoming one is found under no other pattern or method, unless that meets
      the same incoming route, which replaces. */
  ghost predicate Clean(t: Table, ft: Table) {
    forall m, q, k, p :: RouteIn(t, m, q).Some? && RouteIn(t, m, q) == RouteIn(t, k, p) && RouteIn(ft, k, p).Some? ==>
      (m == k && q == p) || (RouteIn(ft, m, q) == RouteIn(ft, k, p) && RouteIn(ft, k, p).value.position == Replace)
  }

  /** No incoming route is itself a route of the main tree that meets one. */
  ghost predicate Apart(t: Table, ft: Table) {
    forall m, q, k, p :: RouteIn(t, m, q).Some? && RouteIn(ft, m, q).Some? ==> RouteIn(ft, k, p) != RouteIn(t, m, q)
  }

  // ---- what the meets do to one route ----

  lemma {:induction false} FoldedOthers(h: HandlerTable, ms: seq<Meet>, x: Route)
    requires forall y :: y in ms ==> y.main != x
    ensures HandlersOf(Folded(h, ms), x) == HandlersOf(h, x)
  {
    if ms != [] {
      assert ms[|ms| - 1] in ms;
      FoldedOthers(h, ms[..|ms| - 1], x);
    }
  }

  /** A route that always meets the same incoming one, and only once unless it is replaced, ends up combined once. */
  lemma {:induction false} FoldedOnce(h: HandlerTable, ms: seq<Meet>, i: nat)
    requires i < |ms| && forall y :: y in ms ==> y.main != ms[i].from
    requires forall j :: 0 <= j < |ms| && j != i && ms[j].main == ms[i].main ==>
               ms[j].from == ms[i].from && ms[i].from.position == Replace
    ensures HandlersOf(Folded(h, ms), ms[i].main) == CombinedHandlers(h, ms[i].main, ms[i].from)
    decreases |ms|
  {
    var n, x := |ms| - 1, ms[i];
    FoldedOthers(h, ms[..n], x.from);
    if i == n {
      if x.from.position != Replace { FoldedOthers(h, ms[..n], x.main); }
    } else if ms[n].main != x.main {
      FoldedOnce(h, ms[..n], i);
    }
  }

  /** Once a route met one with the handler `c`, it has that handler. */
  lemma {:induction false} FoldedGains(h: HandlerTable, ms: seq<Meet>, a: Route, c: int)
    requires forall y :: y in ms ==> y.from != a && (y.main == a ==> HandlersOf(h, y.from) == [c])
    requires forall x, y :: x in ms && y in ms ==> x.main != y.from
    ensures (exists y :: y in ms && y.main == a) ==> c in HandlersOf(Folded(h, ms), a)
  {
    if ms != [] {
      var n := |ms| - 1;
      assert ms[n] in ms;
      FoldedGains(h, ms[..n], a, c);
      FoldedOthers(h, ms[..n], ms[n].from);
      if ms[n].main != a {
        assert forall y :: y in ms && y.main == a ==> y in ms[..n];
      }
    }
  }

  /** Every meet with a route that does not replace adds its handlers. */
  lemma {:induction false} FoldedGrows(h: HandlerTable, ms: seq<Meet>, a: Route, b: Route)
    requires forall y :: y in ms ==> y.main != b && (y.main == a ==> y.from == b)
    requires b.position != Replace && |HandlersOf(h, a)| == |HandlersOf(h, b)| == 1
    ensures |HandlersOf(Folded(h, ms), a)| == 1 + |MeetsOf(ms, a)|
  {
    if ms != [] {
      var n := |ms| - 1;
      assert ms[n] in ms;
      FoldedGrows(h, ms[..n], a, b);
      FoldedOthers(h, ms[..n], b);
    }
  }

  function MeetsOf(ms: seq<Meet>, a: Route): seq<Meet> {
    if ms == [] then []
    else MeetsOf(ms[..|ms| - 1], a) + if ms[|ms| - 1].main == a then [ms[|ms| - 1]] else []
  }

  lemma {:induction false} TwoMeets(ms: seq<Meet>, a: Route, i: nat, j: nat)
    requires i < |ms| && j < |ms| && ms[i].main == a == ms[j].main
    ensures |MeetsOf(ms, a)| >= if i == j then 1 else 2
    decreases |ms|
  {
    var n := |ms| - 1;
    if i < n && j < n { TwoMeets(ms[..n], a, i, j); }
    else if i < n { TwoMeets(ms[..n], a, i, i); }
    else if j < n { TwoMeets(ms[..n], a, j, j); }
  }

  // ---- the exact condition ----

  lemma CleanSuffices(h: HandlerTable, ms: seq<Meet>, t: Table, ft: Table)
    requires Met(ms, t, ft) && Apart(t, ft) && Clean(t, ft)
    ensures HandlerEquation(h, Folded(h, ms), t, ft)
  {
    hide RouteIn, Folded;
    forall m, q | OneOf(RouteIn(t, m, q), RouteIn(ft, m, q)).Some?
      ensures var a, b := RouteIn(t, m, q), RouteIn(ft, m, q);
              HandlersOf(Folded(h, ms), OneOf(a, b).value) ==
              if a.Some? && b.Some? then CombinedHandlers(h, a.value, b.value) else HandlersOf(h, OneOf(a, b).value)
    {
      var a, b := RouteIn(t, m, q), RouteIn(ft, m, q);
      if a.Some? && b.Some? {
        assert HasPlace(ms, m, q);
        var i :| 0 <= i < |ms| && ms[i].m == m && ms[i].q == q;
        assert ms[i] in ms;
        forall j | 0 <= j < |ms| && j != i && ms[j].main == ms[i].main
          ensures ms[j].from == ms[i].from && ms[i].from.position == Replace
        {
          assert ms[j] in ms && (ms[j].m, ms[j].q) != (m, q);
        }
        FoldedOnce(h, ms, i);
      } else {
        forall y | y in ms ensures y.main != OneOf(a, b).value {
          assert RouteIn(t, y.m, y.q) == Some(y.main);
        }
        FoldedOthers(h, ms, OneOf(a, b).value);
      }
    }
  }

  /** Two different incoming routes for one object: some handlers show the difference. */
  lemma DifferentMeets(ms: seq<Meet>, t: Table, ft: Table, m: string, q: seq<Key>, k: string, p: seq<Key>)
    returns (h: HandlerTable)
    requires RouteIn(t, m, q).Some? && RouteIn(t, m, q) == RouteIn(t, k, p)
    requires RouteIn(ft, m, q).Some? && RouteIn(ft, k, p).Some? && RouteIn(ft, m, q) != RouteIn(ft, k, p)
    requires Apart(t, ft)
    ensures !HandlerEquation(h, Folded(h, ms), t, ft)
  {
    hide RouteIn, Folded;
    var a, b, c := RouteIn(t, m, q).value, RouteIn(ft, m, q).value, RouteIn(ft, k, p).value;
    h := map[a := [0], b := [1], c := [2]];
    assert 1 in CombinedHandlers(h, a, b) && 1 !in CombinedHandlers(h, a, c);
  }

  /** An object that meets an incoming route under one pattern and none under another changes there, too. */
  lemma LeaksElsewhere(ms: seq<Meet>, t: Table, ft: Table, m: string, q: seq<Key>, k: string, p: seq<Key>)
    returns (h: HandlerTable)
    requires Met(ms, t, ft) && Apart(t, ft)
    requires RouteIn(t, m, q).Some? && RouteIn(t, m, q) == RouteIn(t, k, p)
    requires RouteIn(ft, m, q).None? && RouteIn(ft, k, p).Some?
    ensures !HandlerEquation(h, Folded(h, ms), t, ft)
  {
    MeetsApart(ms, t, ft);
    var a := RouteIn(t, m, q).value;
    assert HasPlace(ms, k, p) && forall x :: x in ms ==> RouteIn(t, x.m, x.q) == Some(x.main);
    hide *;
    hide RouteIn;
    h := MarkedGains(ms, a, k, p);
    Unkept(h, Folded(h, ms), t, ft, m, q);
  }

  lemma MarkedGains(ms: seq<Meet>, a: Route, k: string, p: seq<Key>) returns (h: HandlerTable)
    requires HasPlace(ms, k, p) && forall x :: x in ms && x.m == k && x.q == p ==> x.main == a
    requires forall x, y :: x in ms && y in ms ==> x.main != y.from
    ensures HandlersOf(Folded(h, ms), a) != HandlersOf(h, a)
  {
    hide Folded;
    h := MarkedIncoming(ms, a);
    var i :| 0 <= i < |ms| && ms[i].m == k && ms[i].q == p;
    assert ms[i] in ms && ms[i].main == a;
    FoldedGains(h, ms, a, 1);
  }

  lemma Unkept(h: HandlerTable, h': HandlerTable, t: Table, ft: Table, m: string, q: seq<Key>)
    requires RouteIn(t, m, q).Some? && RouteIn(ft, m, q).None?
    requires HandlersOf(h', RouteIn(t, m, q).value) != HandlersOf(h, RouteIn(t, m, q).value)
    ensures !HandlerEquation(h, h', t, ft)
  {
    hide RouteIn;
  }

  function MarkedIncoming(ms: seq<Meet>, a: Route): (h: HandlerTable)
    ensures HandlersOf(h, a) == [0] && forall y :: y in ms && y.from != a ==> HandlersOf(h, y.from) == [1]
  {
    (map y | y in ms :: y.from := [1])[a := [0]]
  }

  lemma MeetsApart(ms: seq<Meet>, t: Table, ft: Table)
    requires Met(ms, t, ft) && Apart(t, ft)
    ensures forall x, y :: x in ms && y in ms ==> x.main != y.from
  {
    hide RouteIn;
    forall x, y | x in ms && y in ms ensures x.main != y.from {
      assert RouteIn(t, x.m, x.q) == Some(x.main) && RouteIn(ft, y.m, y.q) == Some(y.from);
    }
  }

  /** An object that meets the same incoming route twice is combined twice. */
  lemma CombinedTwice(ms: seq<Meet>, t: Table, ft: Table, m: string, q: seq<Key>, k: string, p: seq<Key>)
    returns (h: HandlerTable)
    requires Met(ms, t, ft) && Apart(t, ft) && (m, q) != (k, p)
    requires RouteIn(t, m, q).Some? && RouteIn(t, m, q) == RouteIn(t, k, p)
    requires RouteIn(ft, m, q).Some? && RouteIn(ft, m, q) == RouteIn(ft, k, p)
             && RouteIn(ft, k, p).value.position != Replace
    ensures !HandlerEquation(h, Folded(h, ms), t, ft)
  {
    hide RouteIn, Folded;
    var a, b := RouteIn(t, m, q).value, RouteIn(ft, m, q).value;
    if y :| y in ms && y.main == a && y.from != b {
      h := DifferentMeets(ms, t, ft, m, q, y.m, y.q);
    } else {
      h := map[a := [0], b := [1]];
      assert HasPlace(ms, m, q) && HasPlace(ms, k, p);
      var i :| 0 <= i < |ms| && ms[i].m == m && ms[i].q == q;
      var j :| 0 <= j < |ms| && ms[j].m == k && ms[j].q == p;
      assert ms[i] in ms && ms[j] in ms;
      TwoMeets(ms, a, i, j);
      forall y | y in ms ensures y.main != b {
        assert RouteIn(t, y.m, y.q) == Some(y.main);
      }
      FoldedGrows(h, ms, a, b);
      assert |CombinedHandlers(h, a, b)| == 2;
    }
  }

  /** After a merge every pattern has the handlers of its own routes, whatever these are, exactly when no route object
      that meets an incoming one is shared with another pattern or method, or all of its patterns are replaced by the
      same one. */
  lemma HandlersCombinedExactly(ms: seq<Meet>, t: Table, ft: Table)
    requires Met(ms, t, ft) && Apart(t, ft)
    ensures (forall h: HandlerTable :: HandlerEquation(h, Folded(h, ms), t, ft)) <==> Clean(t, ft)
  {
    hide RouteIn, Folded, HandlerEquation;
    if Clean(t, ft) {
      forall h: HandlerTable ensures HandlerEquation(h, Folded(h, ms), t, ft) { CleanSuffices(h, ms, t, ft); }
    } else {
      var m, q, k, p :| RouteIn(t, m, q).Some? && RouteIn(t, m, q) == RouteIn(t, k, p) && RouteIn(ft, k, p).Some? &&
        !((m == k && q == p) ||
          (RouteIn(ft, m, q) == RouteIn(ft, k, p) && RouteIn(ft, k, p).value.position == Replace));
      var h;
      if RouteIn(ft, m, q).None? {
        h := LeaksElsewhere(ms, t, ft, m, q, k, p);
      } else if RouteIn(ft, m, q) != RouteIn(ft, k, p) {
        h := DifferentMeets(ms, t, ft, m, q, k, p);
      } else {
        h := CombinedTwice(ms, t, ft, m, q, k, p);
      }
      assert !HandlerEquation(h, Folded(h, ms), t, ft);
    }
  }

  /** Incoming handlers go in front of the existing ones, behind them, or take their place. */
  lemma HandlerPositions(h: HandlerTable, self: Route, from: Route)
    requires self in h && from in h && self != from
    ensures var r := CombineHandler(h, self, from);
            && r[from] == h[from]
            && (from.position == Before ==> |r[self]| == |h[from]| + |h[self]| && h[from] <= r[self]
                                            && r[self][|h[from]|..] == h[self])
            && (from.position == After ==> |r[self]| == |h[from]| + |h[self]| && h[self] <= r[self]
                                           && r[self][|h[self]|..] == h[from])
            && (from.position == Replace ==> r[self] == h[from])
  {
  }

  /** `/a` registered for GET and POST with handler 1, merged with `/a` registered for GET with handler 2: POST runs
      handler 2. */
  lemma OtherMethodChanges(ms: seq<Meet>, t: Table, ft: Table, r1: Route, r2: Route, re: Engine)
    requires r1.path == r2.path == "/a" && r1 != r2 && r2.position == Replace
    requires r1.methods == ["GET", "POST"] && r2.methods == ["GET"] && Met(ms, t, ft)
    requires Added(map[], t, r1, r1.methods, PatternNodes(r1.path, '/', re))
    requires Added(map[], ft, r2, r2.methods, PatternNodes(r2.path, '/', re))
    ensures var q := PatternKeys("/a", '/', re);
            && !Clean(t, ft) && RouteIn(t, "POST", q) == Some(r1) && RouteIn(ft, "POST", q).None?
            && HandlersOf(Folded(map[r1 := [1], r2 := [2]], ms), r1) == [2]
  {
    hide Added, RouteIn, Folded, PatternKeys, PatternNodes, Registers, Clean;
    SharedTables(t, ft, r1, r2, re);
    SharedRouteLeaks(ms, t, ft, PatternKeys("/a", '/', re), r1, r2);
  }

  lemma SharedTables(t: Table, ft: Table, r1: Route, r2: Route, re: Engine)
    requires r1.path == r2.path == "/a" && r1.methods == ["GET", "POST"] && r2.methods == ["GET"]
    requires Added(map[], t, r1, r1.methods, PatternNodes(r1.path, '/', re))
    requires Added(map[], ft, r2, r2.methods, PatternNodes(r2.path, '/', re))
    ensures forall m, k ::
              RouteIn(t, m, k) ==
              if (m == "GET" || m == "POST") && k == PatternKeys("/a", '/', re) then Some(r1) else None
    ensures forall m, k :: RouteIn(ft, m, k) == if m == "GET" && k == PatternKeys("/a", '/', re) then Some(r2) else None
  {
    var q, ps := PatternKeys("/a", '/', re), PatternNodes("/a", '/', re);
    assert q == KeysOf(ps);
    hide Added, PatternKeys, PatternNodes;
    GetAndPost(r1.methods, r2.methods);
    forall m, k
      ensures RouteIn(t, m, k) == if (m == "GET" || m == "POST") && k == q then Some(r1) else None
      ensures RouteIn(ft, m, k) == if m == "GET" && k == q then Some(r2) else None
    {
      AddedLookup(map[], t, r1, r1.methods, ps, m, k);
      AddedLookup(map[], ft, r2, r2.methods, ps, m, k);
      EmptyLookup(k);
    }
  }

  lemma SharedRouteLeaks(ms: seq<Meet>, t: Table, ft: Table, q: seq<Key>, r1: Route, r2: Route)
    requires Met(ms, t, ft) && r1 != r2 && r2.position == Replace
    requires forall m, k :: RouteIn(t, m, k) == if (m == "GET" || m == "POST") && k == q then Some(r1) else None
    requires forall m, k :: RouteIn(ft, m, k) == if m == "GET" && k == q then Some(r2) else None
    ensures !Clean(t, ft) && HandlersOf(Folded(map[r1 := [1], r2 := [2]], ms), r1) == [2]
  {
    hide RouteIn, Folded;
    assert "GET" != "POST";
    assert RouteIn(t, "GET", q) == Some(r1) && RouteIn(t, "POST", q) == Some(r1) && RouteIn(ft, "POST", q).None?;
    assert HasPlace(ms, "GET", q);
    var i :| 0 <= i < |ms| && ms[i].m == "GET" && ms[i].q == q;
    assert ms[i] in ms;
    assert forall j :: 0 <= j < |ms| ==> ms[j] in ms;
    FoldedOnce(map[r1 := [1], r2 := [2]], ms, i);
  }

  lemma GetAndPost(a: seq<string>, b: seq<string>)
    requires a == ["GET", "POST"] && b == ["GET"]
    ensures forall m :: Registers(a, m) <==> m == "GET" || m == "POST"
    ensures forall m :: Registers(b, m) <==> m == "GET"
  {
    assert ToUpper("GET") == "GET" && ToUpper("POST") == "POST";
    assert ToUpper(a[0]) == "GET" && ToUpper(a[1]) == "POST" && ToUpper(b[0]) == "GET";
  }

  /** The same with the tree and the handlers themselves. */
  method MergeSharedRoute(re: Engine) returns (main: Tree, hs: Handlers, r1: Route)
    ensures main.Valid() && r1.methods == ["GET", "POST"]
    ensures RouteIn(main.Routes, "POST", PatternKeys("/a", '/', re)) == Some(r1) && HandlersOf(hs.table, r1) == [2]
  {
    hide Added, RouteIn, Folded, Roots, Tree.Valid, Clean, PatternKeys, PatternNodes, Met, Acceptable, HandlersOf;
    main := new Tree(re);
    var from := new Tree(re);
    hs := new Handlers();
    r1 := Route(1, "/a", ["GET", "POST"], Replace);
    var r2 := Route(2, "/a", ["GET"], Replace);
    PlainAccepted(r1, re);
    PlainAccepted(r2, re);
    hs.table := map[r1 := [1], r2 := [2]];
    var _ := main.AddRoute(r1);
    var _ := from.AddRoute(r2);
    ghost var t, ft := main.Routes, from.Routes;
    ghost var ms := ConbineTrees(main, from, hs);
    OtherMethodChanges(ms, t, ft, r1, r2, re);
  }

  lemma PlainAccepted(r: Route, re: Engine)
    requires r.path == "/a" && r.methods != []
    ensures Acceptable(r, re)
  {
    StaticPattern(r.path, '/', re);
  }
}
