/** Runs of the mutable tree: registering routes one after the other, and merging in trees that were built apart. */
module RouteRuns {
  import opened Text
  import opened RouteNodes
  import opened RouteTree
  import opened RouteTable
  import opened RouteCombine

  /** Registering any routes, in any order, is a run. */
  method RegisterAll(tree: Tree, rs: seq<Route>) returns (ghost ts: seq<Table>)
    requires tree.Valid() && tree.Routes == map[]
    modifies tree, tree.Repr
    ensures tree.Valid() && fresh(tree.Repr - old(tree.Repr))
    ensures Run(ts, rs, tree.re) && ts[|rs|] == tree.Routes
  {
    hide Added, Acceptable, RootOk, KidsOk;
    ts := [tree.Routes];
    for i := 0 to |rs|
      invariant tree.Valid() && fresh(tree.Repr - old(tree.Repr))
      invariant |ts| == i + 1 && ts[i] == tree.Routes && Run(ts, rs[..i], tree.re)
    {
      var ok := tree.AddRoute(rs[i]);
      RunGrows(ts, rs, i, tree.Routes, tree.re);
      ts := ts + [tree.Routes];
    }
    assert rs[..|rs|] == rs;
  }

  lemma RunGrows(ts: seq<Table>, rs: seq<Route>, i: nat, t: Table, re: Engine)
    requires i < |rs| && Run(ts, rs[..i], re) && TableOk(t)
    requires if Acceptable(rs[i], re) then Added(ts[i], t, rs[i], rs[i].methods, PatternNodes(rs[i].path, '/', re))
             else t == ts[i]
    ensures Run(ts + [t], rs[..i + 1], re)
  {
    hide Added, Acceptable, RootOk;
  }

  // ---- registering and merging ----

  /** What happens to a tree: a route is registered, or a tree that was built apart is merged in. */
  datatype Event = Registered(route: Route) | MergedIn(table: Table)

  ghost predicate EventStep(t: Table, t': Table, e: Event, re: Engine) {
    match e
    case Registered(r) =>
      if Acceptable(r, re) then Added(t, t', r, r.methods, PatternNodes(r.path, '/', re)) else t' == t
    case MergedIn(ft) => forall m, q :: RouteIn(t', m, q) == OneOf(RouteIn(t, m, q), RouteIn(ft, m, q))
  }

  ghost predicate MixedRun(ts: seq<Table>, es: seq<Event>, re: Engine) {
    && |ts| == |es| + 1 && ts[0] == map[]
    && (forall i :: 0 <= i < |ts| ==> TableOk(ts[i]))
    && forall i :: 0 <= i < |es| ==> EventStep(ts[i], ts[i + 1], es[i], re)
  }

  /** The route last registered for a pattern, or the first one merged in where there was none. */
  function RouteAfter(es: seq<Event>, m: string, ks: seq<Key>, re: Engine): Option<Route> {
    if es == [] then None
    else
      var before := RouteAfter(es[..|es| - 1], m, ks, re);
      match es[|es| - 1]
      case Registered(r) =>
        if Acceptable(r, re) && Registers(r.methods, m) && PatternKeys(r.path, '/', re) == ks then Some(r) else before
      case MergedIn(ft) => OneOf(before, RouteIn(ft, m, ks))
  }

  lemma {:induction false} MixedRunTable(ts: seq<Table>, es: seq<Event>, m: string, ks: seq<Key>, re: Engine)
    requires MixedRun(ts, es, re)
    ensures RouteIn(ts[|es|], m, ks) == RouteAfter(es, m, ks, re)
  {
    if es == [] {
      EmptyLookup(ks);
    } else {
      var n := |es| - 1;
      MixedRunTable(ts[..n + 1], es[..n], m, ks, re);
      assert ts[n + 1] == ts[|es|];
      EventEffect(ts[n], ts[n + 1], es[n], m, ks, re);
    }
  }

  lemma EventEffect(t: Table, t': Table, e: Event, m: string, ks: seq<Key>, re: Engine)
    requires EventStep(t, t', e, re)
    ensures e.Registered? ==>
              RouteIn(t', m, ks) ==
              if Acceptable(e.route, re) && Registers(e.route.methods, m) && PatternKeys(e.route.path, '/', re) == ks
              then Some(e.route) else RouteIn(t, m, ks)
    ensures e.MergedIn? ==> RouteIn(t', m, ks) == OneOf(RouteIn(t, m, ks), RouteIn(e.table, m, ks))
  {
    hide Acceptable;
    if e.Registered? && Acceptable(e.route, re) {
      AddedLookup(t, t', e.route, e.route.methods, PatternNodes(e.route.path, '/', re), m, ks);
    }
  }

  /** Static routes win whatever was registered and merged, in any order. */
  lemma StaticRoutesWinInMixedRuns(ts: seq<Table>, es: seq<Event>, m: string, path: string, re: Engine)
    requires MixedRun(ts, es, re)
    requires m != "CONNECT" && path != "" && '{' !in path && '*' !in path
    requires RouteAfter(es, m, PatternKeys(path, '/', re), re).Some?
    ensures MatchRequest(ts[|es|], m, path, re) == Found(RouteAfter(es, m, PatternKeys(path, '/', re), re).value, [])
  {
    MixedRunTable(ts, es, m, PatternKeys(path, '/', re), re);
    StaticRequest(ts[|es|], m, path, re);
  }

  // ---- mixed runs of the mutable tree ----

  datatype Change = Register(route: Route) | Merge(from: Tree)

  /** The trees still to be merged in are sound, share no node, and are apart from the main tree. */
  ghost predicate Waiting(cs: seq<Change>, i: nat, es: seq<Event>, tree: Tree, below: set<TreeNode>)
    reads tree, set c | c in cs && c.Merge? :: c.from, below
  {
    && |es| == |cs|
    && (forall j :: i <= j < |cs| && cs[j].Register? ==> es[j] == Registered(cs[j].route))
    && (forall j :: i <= j < |cs| && cs[j].Merge? ==>
          && cs[j].from != tree && cs[j].from.Repr <= below && cs[j].from.Valid() && cs[j].from.Repr !! tree.Repr
          && es[j] == MergedIn(cs[j].from.Routes))
    && (forall j, k :: i <= j < k < |cs| && cs[j].Merge? && cs[k].Merge? ==> cs[j].from.Repr !! cs[k].from.Repr)
  }

  /** Every sequence of registrations and merges is a mixed run. */
  method Assemble(tree: Tree, cs: seq<Change>, hs: Handlers, ghost es: seq<Event>, ghost below: set<TreeNode>)
    returns (ghost ts: seq<Table>)
    requires tree.Valid() && tree.Routes == map[] && |es| == |cs| && Waiting(cs, 0, es, tree, below)
    modifies tree, tree.Repr, below, hs
    ensures tree.Valid() && MixedRun(ts, es, tree.re) && ts[|cs|] == tree.Routes
  {
    hide EventStep, RootOk, KidsOk, Waiting;
    ts := [tree.Routes];
    ghost var own := tree.Repr;
    for i := 0 to |cs|
      invariant tree.Valid() && fresh(tree.Repr - own - below) && |es| == |cs|
      invariant |ts| == i + 1 && ts[i] == tree.Routes && MixedRun(ts, es[..i], tree.re)
      invariant Waiting(cs, i, es, tree, below)
    {
      Apply(tree, cs, i, es, below, hs);
      MixedRunGrows(ts, es, i, tree.Routes, tree.re);
      ts := ts + [tree.Routes];
    }
    assert es[..|cs|] == es;
  }

  lemma MixedRunGrows(ts: seq<Table>, es: seq<Event>, i: nat, t: Table, re: Engine)
    requires i < |es| && MixedRun(ts, es[..i], re) && TableOk(t) && EventStep(ts[i], t, es[i], re)
    ensures MixedRun(ts + [t], es[..i + 1], re)
  {
    hide EventStep, RootOk;
  }

  /** One registration or merge; the trees that wait are left alone. */
  method Apply(tree: Tree, cs: seq<Change>, i: nat, ghost es: seq<Event>, ghost below: set<TreeNode>, hs: Handlers)
    requires tree.Valid() && i < |cs| && Waiting(cs, i, es, tree, below)
    modifies tree, tree.Repr, below, hs
    ensures tree.Valid() && fresh(tree.Repr - old(tree.Repr) - below) && |es| == |cs|
    ensures Waiting(cs, i + 1, es, tree, below) && EventStep(old(tree.Routes), tree.Routes, es[i], tree.re)
  {
    hide Added, Acceptable, RootOk, KidsOk;
    match cs[i]
    case Register(r) =>
      var ok := tree.AddRoute(r);
    case Merge(from) =>
      ghost var ms := ConbineTrees(tree, from, hs);
  }
}
