/** Two places where `Match` falls short of its documentation, with the exact conditions. */
module RouteFaults {
  import opened Text
  import opened RouteNodes

  // ---- the variant branch indexes an empty remainder ----

  /** Nodes that accept an empty remainder. */
  predicate TakesEmpty(n: Node, re: Engine) {
    n.key.kind == Any || (n.key.kind == Regexp && Accepted(n.key, "", re))
  }

  lemma {:induction false} KidsMissEmpty(n: Node, i: nat, d: char, re: Engine)
    requires KidsOk(n, d) && (n.key.kind == Any || n.key.kind == Regexp) && i <= |n.children|
    ensures MatchKids(n, i, "", d, re).Miss?
    decreases |n.children| - i
  {
    if i < |n.children| {
      assert WellFormed(n.children[i], d);
      KidsMissEmpty(n, i + 1, d, re);
    }
  }

  lemma EmptyRemainder(c: Node, d: char, re: Engine)
    requires WellFormed(c, d)
    ensures MatchNode(c, "", d, re).Fault? <==> c.key.kind == Variant
    ensures MatchNode(c, "", d, re).Hit? <==> TakesEmpty(c, re)
  {
    if c.key.kind == Any || c.key.kind == Regexp { KidsMissEmpty(c, 0, d, re); }
  }

  /** A variant child comes before every child taking the empty remainder. */
  ghost predicate VariantFirst(n: Node, i: nat, re: Engine) {
    exists j :: i <= j < |n.children| && n.children[j].key.kind == Variant && NoneTakesEmpty(n, i, j, re)
  }

  ghost predicate NoneTakesEmpty(n: Node, i: nat, j: nat, re: Engine)
    requires j <= |n.children|
  {
    forall k :: i <= k < j ==> !TakesEmpty(n.children[k], re)
  }

  /** A static node whose text is all that is left, and which has no route of its own, hands its children an
      empty remainder: the search panics exactly when a variant child comes before every child taking it. */
  lemma {:induction false} ExhaustedStaticNode(n: Node, i: nat, d: char, re: Engine)
    requires n.key.kind == Static && KidsOk(n, d) && i <= |n.children|
    ensures MatchKids(n, i, n.key.text, d, re).Fault? <==> VariantFirst(n, i, re)
    decreases |n.children| - i
  {
    if i < |n.children| {
      assert WellFormed(n.children[i], d);
      assert n.key.text[|n.key.text|..] == "";
      EmptyRemainder(n.children[i], d, re);
      ExhaustedStaticNode(n, i + 1, d, re);
      if n.children[i].key.kind == Variant {
        assert NoneTakesEmpty(n, i, i, re);
      } else if !TakesEmpty(n.children[i], re) {
        assert forall j :: i + 1 <= j <= |n.children| ==>
               NoneTakesEmpty(n, i + 1, j, re) == NoneTakesEmpty(n, i, j, re);
      }
    }
  }

  /** The node has a route, or no variant child that comes before every child taking the empty remainder. */
  ghost predicate GuardedNode(n: Node, re: Engine) {
    n.key.kind == Static && n.route.None? ==> !VariantFirst(n, 0, re)
  }

  ghost predicate Guarded(n: Node, re: Engine)
    decreases n
  {
    GuardedNode(n, re) && forall i :: 0 <= i < |n.children| ==> Guarded(n.children[i], re)
  }

  lemma {:induction false} GuardedNodeNeverFaults(n: Node, path: string, d: char, re: Engine)
    requires WellFormed(n, d) && Guarded(n, re)
    requires n.key.kind == Variant ==> path != ""
    ensures !MatchNode(n, path, d, re).Fault?
    decreases n, |n.children| + 1
  {
    if n.key.kind == Static && !(n.key.text <= path) {
    } else if n.key.kind == Static && |path| == |n.key.text| && n.route.Some? {
    } else {
      GuardedKidsNeverFault(n, 0, path, d, re);
    }
  }

  lemma {:induction false} GuardedKidsNeverFault(n: Node, i: nat, path: string, d: char, re: Engine)
    requires WellFormed(n, d) && Guarded(n, re) && i <= |n.children|
    requires n.key.kind == Static ==> n.key.text <= path
    requires n.key.kind == Static && path == n.key.text ==> !VariantFirst(n, i, re)
    requires n.key.kind == Variant ==> path != ""
    ensures !MatchKids(n, i, path, d, re).Fault?
    decreases n, |n.children| - i
  {
    if n.key.kind == Static && path == n.key.text {
      ExhaustedStaticNode(n, i, d, re);
    } else if i < |n.children| {
      var c := n.children[i];
      var cut := Cut(n, c, path, d, re);
      GuardedKidsNeverFault(n, i + 1, path, d, re);
      if cut.Some? { GuardedNodeNeverFaults(c, path[cut.value..], d, re); }
    }
  }

  /** When every static node is guarded, no request path makes `Match` panic. */
  lemma {:induction false} GuardedTreeNeverPanics(root: Node, i: nat, path: string, ps: seq<Param>, d: char, re: Engine)
    requires KidsOk(root, d) && i <= |root.children| && path != ""
    requires forall j :: 0 <= j < |root.children| ==> Guarded(root.children[j], re)
    ensures !MatchFrom(root, i, path, ps, d, re).Panic?
    decreases |root.children| - i
  {
    if i < |root.children| {
      assert WellFormed(root.children[i], d);
      GuardedNodeNeverFaults(root.children[i], path, d, re);
      match MatchNode(root.children[i], path, d, re)
      case Hit(e, steps) => GuardedTreeNeverPanics(root, i + 1, path, ps + Captures(steps), d, re);
      case Miss => GuardedTreeNeverPanics(root, i + 1, path, ps, d, re);
    }
  }

  /** Conversely, an unguarded node on a static chain makes `Match` panic on the chain's own text. */
  lemma {:induction false} UnguardedChainPanics(root: Node, i: nat, ks: seq<Key>, ps: seq<Param>, d: char, re: Engine)
    requires KidsOk(root, d) && StaticChain(ks, d) && ks != []
    requires Descend(root, ks).Some? && !GuardedNode(Descend(root, ks).value, re)
    requires i <= ChildIndex(root.children, ks[0])
    ensures MatchFrom(root, i, TextOf(ks), ps, d, re).Panic?
    decreases ChildIndex(root.children, ks[0]) - i
  {
    if i < ChildIndex(root.children, ks[0]) {
      EarlierChildrenMiss(root, ks, i, d, re);
      UnguardedChainPanics(root, i + 1, ks, ps, d, re);
    } else {
      UnguardedNodeFaults(root.children[i], ks, d, re);
    }
  }

  lemma {:induction false} UnguardedNodeFaults(c: Node, ks: seq<Key>, d: char, re: Engine)
    requires WellFormed(c, d) && StaticChain(ks, d) && ks != [] && c.key == ks[0]
    requires Descend(c, ks[1..]).Some? && Descend(c, ks[1..]).value.route.None?
    requires VariantFirst(Descend(c, ks[1..]).value, 0, re)
    ensures MatchNode(c, TextOf(ks), d, re).Fault?
    decreases |ks|, 0, 0
  {
    assert TextOf(ks) == c.key.text + TextOf(ks[1..]);
    if |ks| == 1 {
      assert TextOf(ks[1..]) == "" && ks[1..] == [];
      assert TextOf(ks) == c.key.text;
      ExhaustedStaticNode(c, 0, d, re);
    }
    else {
      assert ks[1..][0] == ks[1] && TextOf(ks[1..]) != "";
      UnguardedKidsFault(c, 0, ks[1..], d, re);
    }
  }

  lemma {:induction false} UnguardedKidsFault(n: Node, i: nat, ks: seq<Key>, d: char, re: Engine)
    requires n.key.kind == Static && KidsOk(n, d) && StaticChain(ks, d) && ks != []
    requires Descend(n, ks).Some? && Descend(n, ks).value.route.None?
    requires VariantFirst(Descend(n, ks).value, 0, re)
    requires i <= ChildIndex(n.children, ks[0])
    ensures MatchKids(n, i, n.key.text + TextOf(ks), d, re).Fault?
    decreases |ks|, 1, ChildIndex(n.children, ks[0]) - i
  {
    var at := ChildIndex(n.children, ks[0]);
    assert WellFormed(n.children[i], d) && Descend(n, ks) == Descend(n.children[at], ks[1..]);
    StaticKidsStep(n, i, TextOf(ks), d, re);
    hide MatchKids, MatchNode;
    if i < at {
      EarlierChildrenMiss(n, ks, i, d, re);
      UnguardedKidsFault(n, i + 1, ks, d, re);
    } else {
      UnguardedNodeFaults(n.children[i], ks, d, re);
    }
  }

  // ---- the exact condition ----

  /** The keys from the root down to a node that a pattern without variables may lead to. */
  ghost predicate ChainTo(root: Node, ks: seq<Key>, n: Node, d: char) {
    StaticChain(ks, d) && Descend(root, ks) == Some(n)
  }

  /** Below the chain `ks`: every node that no pattern without variables leads to is guarded. */
  ghost predicate GuardedOffChains(n: Node, ks: seq<Key>, d: char, re: Engine)
    decreases n
  {
    forall i :: 0 <= i < |n.children| ==>
      var c := n.children[i];
      if StaticChain(ks + [c.key], d) then GuardedOffChains(c, ks + [c.key], d, re) else Guarded(c, re)
  }

  lemma {:induction false} ChainOn(root: Node, ks: seq<Key>, n: Node, i: nat)
    requires Descend(root, ks) == Some(n) && i < |n.children| && ChildIndex(n.children, n.children[i].key) == i
    ensures Descend(root, ks + [n.children[i].key]) == Some(n.children[i])
    decreases |ks|
  {
    var k := n.children[i].key;
    if ks == [] {
      assert ks + [k] == [k] && [k][1..] == [];
    } else {
      assert (ks + [k])[1..] == ks[1..] + [k];
      ChainOn(root.children[ChildIndex(root.children, ks[0])], ks[1..], n, i);
    }
  }

  lemma {:induction false} ChainsGuard(root: Node, ks: seq<Key>, n: Node, d: char, re: Engine)
    requires ChainTo(root, ks, n, d) && KidsOk(n, d) && GuardedOffChains(n, ks, d, re)
    requires forall p, m :: p != [] && ChainTo(root, p, m, d) ==> GuardedNode(m, re)
    ensures forall i :: 0 <= i < |n.children| ==> Guarded(n.children[i], re)
    decreases n
  {
    forall i | 0 <= i < |n.children| ensures Guarded(n.children[i], re) {
      var c := n.children[i];
      if StaticChain(ks + [c.key], d) {
        assert WellFormed(c, d) && ChildIndex(n.children, c.key) == i;
        ChainOn(root, ks, n, i);
        assert ChainTo(root, ks + [c.key], c, d);
        ChainsGuard(root, ks + [c.key], c, d, re);
      }
    }
  }

  /** Where only nodes on static chains may be unguarded: no request panics exactly when these are guarded, too. */
  lemma NeverPanicsExactly(root: Node, d: char, re: Engine)
    requires KidsOk(root, d) && GuardedOffChains(root, [], d, re)
    ensures (forall path, ps | path != "" :: !MatchFrom(root, 0, path, ps, d, re).Panic?) <==>
            forall ks, n :: ks != [] && ChainTo(root, ks, n, d) ==> GuardedNode(n, re)
  {
    if ks, n :| ks != [] && ChainTo(root, ks, n, d) && !GuardedNode(n, re) {
      UnguardedChainPanics(root, 0, ks, [], d, re);
      assert TextOf(ks) != "";
    } else {
      ChainsGuard(root, [], root, d, re);
      forall path, ps | path != "" ensures !MatchFrom(root, 0, path, ps, d, re).Panic? {
        GuardedTreeNeverPanics(root, 0, path, ps, d, re);
      }
    }
  }

  // ---- parameters left behind by a hit without a route ----

  /** The parameters recorded by route-less hits on root children `i..w`. */
  function Stale(root: Node, i: nat, w: nat, path: string, d: char, re: Engine): seq<Param>
    requires i <= w <= |root.children|
    decreases w - i
  {
    if i == w then []
    else
      var r := MatchNode(root.children[i], path, d, re);
      (if r.Hit? then Captures(r.steps) else []) + Stale(root, i + 1, w, path, d, re)
  }

  /** A hit ends in a route unless its last node is a wildcard or an expression; those record a parameter. */
  lemma {:induction false} HitWithoutRoute(n: Node, steps: seq<Step>, path: string, end: Node, d: char, re: Engine)
    requires Explains(n, steps, path, end, d, re) && end.route.None?
    ensures Captures(steps) != []
    ensures end.key.kind == Any || end.key.kind == Regexp
    decreases |steps|
  {
    var rest := path[|steps[0].piece|..];
    if |steps| > 1 { HitWithoutRoute(steps[1].node, steps[1..], rest, end, d, re); }
  }

  /** The route found is the first routed hit among the root's children; its parameters are that hit's
      captures exactly when every earlier child missed, and otherwise follow the left-over ones. */
  lemma {:induction false} MatchParameters(root: Node, i: nat, path: string, ps: seq<Param>, d: char, re: Engine)
    returns (w: nat, end: Node, steps: seq<Step>)
    requires i <= |root.children| && MatchFrom(root, i, path, ps, d, re).Found?
    ensures i <= w < |root.children| && MatchNode(root.children[w], path, d, re) == Hit(end, steps)
    ensures Explains(root.children[w], steps, path, end, d, re)
    ensures end.route.Some?
    ensures MatchFrom(root, i, path, ps, d, re) ==
            Found(end.route.value, ps + Stale(root, i, w, path, d, re) + Captures(steps))
    ensures Stale(root, i, w, path, d, re) == [] <==>
            forall j :: i <= j < w ==> MatchNode(root.children[j], path, d, re).Miss?
    decreases |root.children| - i
  {
    hide MatchNode, Captures, Explains;
    var r := MatchNode(root.children[i], path, d, re);
    MatchNodeSound(root.children[i], path, d, re);
    if r.Hit? && r.end.route.Some? {
      w, end, steps := i, r.end, r.steps;
      assert ps + [] == ps;
    } else {
      var more := if r.Hit? then Captures(r.steps) else [];
      assert ps + [] == ps;
      w, end, steps := MatchParameters(root, i + 1, path, ps + more, d, re);
      assert ps + more + Stale(root, i + 1, w, path, d, re) == ps + Stale(root, i, w, path, d, re);
      if r.Hit? { HitWithoutRoute(root.children[i], r.steps, path, r.end, d, re); }
    }
  }

  /** Every wildcard and every expression carries a route itself. */
  ghost predicate RoutedEnds(n: Node)
    decreases n
  {
    && (n.key.kind == Any || n.key.kind == Regexp ==> n.route.Some?)
    && forall i :: 0 <= i < |n.children| ==> RoutedEnds(n.children[i])
  }

  lemma {:induction false} RoutedHit(n: Node, steps: seq<Step>, path: string, end: Node, d: char, re: Engine)
    requires Explains(n, steps, path, end, d, re) && RoutedEnds(n)
    ensures end.route.Some?
    decreases |steps|
  {
    var rest := path[|steps[0].piece|..];
    if |steps| > 1 {
      var i :| 0 <= i < |n.children| && n.children[i] == steps[1].node;
      RoutedHit(steps[1].node, steps[1..], rest, end, d, re);
    }
  }

  /** When every wildcard and expression has a route, every route found comes with the captures of its own hit, and no
      others, and it is the first hit at all. */
  lemma {:induction false} OwnParameters(root: Node, i: nat, path: string, ps: seq<Param>, d: char, re: Engine)
    returns (w: nat, end: Node, steps: seq<Step>)
    requires i <= |root.children| && MatchFrom(root, i, path, ps, d, re).Found?
    requires forall j :: 0 <= j < |root.children| ==> RoutedEnds(root.children[j])
    ensures i <= w < |root.children| && MatchNode(root.children[w], path, d, re) == Hit(end, steps)
    ensures forall j :: i <= j < w ==> MatchNode(root.children[j], path, d, re).Miss?
    ensures Explains(root.children[w], steps, path, end, d, re) && end.route.Some?
    ensures MatchFrom(root, i, path, ps, d, re) == Found(end.route.value, ps + Captures(steps))
    decreases |root.children| - i
  {
    hide MatchNode, Captures, Explains, RoutedEnds;
    MatchNodeSound(root.children[i], path, d, re);
    match MatchNode(root.children[i], path, d, re)
    case Hit(e, hit) =>
      RoutedHit(root.children[i], hit, path, e, d, re);
      w, end, steps := i, e, hit;
    case Miss => w, end, steps := OwnParameters(root, i + 1, path, ps, d, re);
  }

  /** Child `at` is the first to take an empty remainder, and no variant comes before it. */
  ghost predicate TakesFirst(n: Node, at: nat, re: Engine) {
    && at < |n.children| && TakesEmpty(n.children[at], re)
    && forall k :: 0 <= k < at ==> !TakesEmpty(n.children[k], re) && n.children[k].key.kind != Variant
  }

  /** A search that ends in `end` and has recorded the empty text for it. */
  predicate EmptyHit(r: Search, end: Node) {
    r.Hit? && r.end == end && Captures(r.steps) == [Param(ParamName(end.key), "")]
  }

  lemma EmptyTaken(c: Node, d: char, re: Engine)
    requires WellFormed(c, d) && TakesEmpty(c, re)
    ensures EmptyHit(MatchNode(c, "", d, re), c)
  {
    KidsMissEmpty(c, 0, d, re);
    assert [Step(c, "", true)][1..] == [];
  }

  lemma {:induction false} TakerIsHit(n: Node, i: nat, at: nat, d: char, re: Engine)
    requires n.key.kind == Static && KidsOk(n, d) && i <= at && TakesFirst(n, at, re)
    ensures EmptyHit(MatchKids(n, i, n.key.text, d, re), n.children[at])
    decreases at - i
  {
    assert WellFormed(n.children[i], d) && n.key.text + "" == n.key.text;
    StaticKidsStep(n, i, "", d, re);
    EmptyRemainder(n.children[i], d, re);
    hide MatchKids;
    if i < at {
      TakerIsHit(n, i + 1, at, d, re);
    } else {
      EmptyTaken(n.children[i], d, re);
      StaticStepAdds(n, MatchNode(n.children[i], "", d, re).steps);
    }
  }

  lemma StaticStepAdds(n: Node, steps: seq<Step>)
    ensures Captures([Step(n, n.key.text, false)] + steps) == Captures(steps)
  {
    assert ([Step(n, n.key.text, false)] + steps)[1..] == steps;
  }

  /** Conversely, behind a static chain to a node without a route, the first child that takes the empty remainder is hit
      by the text of the chain. If it has no route, the search goes on with its parameter recorded: whatever route is
      found in the end has it in front of its own captures. */
  lemma {:induction false} UnroutedTakerLeavesParameter(root: Node, i: nat, ks: seq<Key>, at: nat, ps: seq<Param>,
                                                        d: char, re: Engine)
    requires KidsOk(root, d) && StaticChain(ks, d) && ks != [] && i <= ChildIndex(root.children, ks[0])
    requires Descend(root, ks).Some? && Descend(root, ks).value.route.None?
    requires TakesFirst(Descend(root, ks).value, at, re) && Descend(root, ks).value.children[at].route.None?
    ensures var left := Param(ParamName(Descend(root, ks).value.children[at].key), "");
            var r := MatchFrom(root, i, TextOf(ks), ps, d, re);
            && r == MatchFrom(root, ChildIndex(root.children, ks[0]) + 1, TextOf(ks), ps + [left], d, re)
            && (r.Found? ==> ps + [left] <= r.params)
    decreases ChildIndex(root.children, ks[0]) - i
  {
    var c := ChildIndex(root.children, ks[0]);
    var left := Param(ParamName(Descend(root, ks).value.children[at].key), "");
    hide MatchNode;
    if i < c {
      EarlierChildrenMiss(root, ks, i, d, re);
      UnroutedTakerLeavesParameter(root, i + 1, ks, at, ps, d, re);
    } else {
      TakerBelow(root.children[i], ks, at, d, re);
      ParametersStay(root, c + 1, TextOf(ks), ps + [left], d, re);
    }
  }

  lemma {:induction false} TakerBelow(c: Node, ks: seq<Key>, at: nat, d: char, re: Engine)
    requires WellFormed(c, d) && StaticChain(ks, d) && ks != [] && c.key == ks[0]
    requires Descend(c, ks[1..]).Some? && Descend(c, ks[1..]).value.route.None?
    requires TakesFirst(Descend(c, ks[1..]).value, at, re)
    ensures EmptyHit(MatchNode(c, TextOf(ks), d, re), Descend(c, ks[1..]).value.children[at])
    decreases |ks|, 0, 0
  {
    hide EmptyHit, TakesFirst;
    assert TextOf(ks) == c.key.text + TextOf(ks[1..]);
    if |ks| == 1 {
      assert TextOf(ks[1..]) == "" && ks[1..] == [];
      assert TextOf(ks) == c.key.text;
      TakerIsHit(c, 0, at, d, re);
    } else {
      assert ks[1..][0] == ks[1] && TextOf(ks[1..]) != "";
      TakerBelowKids(c, 0, ks[1..], at, d, re);
    }
  }

  lemma {:induction false} TakerBelowKids(n: Node, i: nat, ks: seq<Key>, at: nat, d: char, re: Engine)
    requires n.key.kind == Static && KidsOk(n, d) && StaticChain(ks, d) && ks != []
    requires Descend(n, ks).Some? && Descend(n, ks).value.route.None?
    requires TakesFirst(Descend(n, ks).value, at, re)
    requires i <= ChildIndex(n.children, ks[0])
    ensures EmptyHit(MatchKids(n, i, n.key.text + TextOf(ks), d, re), Descend(n, ks).value.children[at])
    decreases |ks|, 1, ChildIndex(n.children, ks[0]) - i
  {
    var c := ChildIndex(n.children, ks[0]);
    assert WellFormed(n.children[i], d) && Descend(n, ks) == Descend(n.children[c], ks[1..]);
    StaticKidsStep(n, i, TextOf(ks), d, re);
    hide MatchKids, MatchNode, TakesFirst;
    if i < c {
      EarlierChildrenMiss(n, ks, i, d, re);
      TakerBelowKids(n, i + 1, ks, at, d, re);
    } else {
      TakerBelow(n.children[i], ks, at, d, re);
      StaticStepAdds(n, MatchNode(n.children[i], TextOf(ks), d, re).steps);
    }
  }

  /** Parameters once recorded stay in front. */
  lemma {:induction false} ParametersStay(root: Node, i: nat, path: string, ps: seq<Param>, d: char, re: Engine)
    requires i <= |root.children|
    ensures var r := MatchFrom(root, i, path, ps, d, re); r.Found? ==> ps <= r.params
    decreases |root.children| - i
  {
    hide MatchNode, Captures;
    if i < |root.children| {
      match MatchNode(root.children[i], path, d, re)
      case Hit(e, steps) => ParametersStay(root, i + 1, path, ps + Captures(steps), d, re);
      case Miss => ParametersStay(root, i + 1, path, ps, d, re);
      case Fault =>
    }
  }

  // ---- concrete trees ----

  function StaticNode(text: string, route: Option<Route>, kids: seq<Node>): Node {
    Node(Key(Static, text, Unset, [], None), 0, route, kids)
  }

  function VariantNode(name: string, route: Option<Route>): Node {
    Node(Key(Variant, ":" + name, AllType, [], None), 2, route, [])
  }

  /** With only `/x/{id}` registered, a request for `/x/` panics. */
  lemma TrailingSlashPanics(route: Route, re: Engine)
    ensures var root :=
            StaticNode("", None, [StaticNode("/x", None, [StaticNode("/", None, [VariantNode("id", Some(route))])])]);
            MatchFrom(root, 0, "/x/", [], '/', re).Panic?
  {
    var slash := StaticNode("/", None, [VariantNode("id", Some(route))]);
    var x := StaticNode("/x", None, [slash]);
    var root := StaticNode("", None, [x]);
    assert "/x/"[2..] == "/" && "/"[1..] == "";
    assert VariantFirst(slash, 0, re) by { assert NoneTakesEmpty(slash, 0, 0, re); }
    ExhaustedStaticNode(slash, 0, '/', re);
    assert MatchNode(slash, "/", '/', re).Fault?;
    assert Cut(x, slash, "/x/", '/', re) == Some(2);
    assert MatchKids(x, 0, "/x/", '/', re).Fault?;
  }

  // With the wildcard pattern "/a*" + "/z" and "/{name}" registered, a request for "/ab" reaches the second
  // route with a parameter of the first in front.
  lemma StaleParameter(r1: Route, r2: Route, re: Engine)
    ensures var wild := Node(Key(Any, "*", Unset, [], None), -1, None, [StaticNode("/z", Some(r1), [])]);
            var root := StaticNode("", None, [StaticNode("/a", None, [wild]),
                                              StaticNode("/", None, [VariantNode("name", Some(r2))])]);
            MatchFrom(root, 0, "/ab", [], '/', re) == Found(r2, [Param("", "b"), Param("name", "ab")])
  {
    var z := StaticNode("/z", Some(r1), []);
    var wild := Node(Key(Any, "*", Unset, [], None), -1, None, [z]);
    var v := VariantNode("name", Some(r2));
    var a := StaticNode("/a", None, [wild]);
    var s := StaticNode("/", None, [v]);
    assert "/ab"[2..] == "b" && "/ab"[1..] == "ab";
    assert MatchKids(wild, 1, "b", '/', re).Miss?;
    assert LastIndex("b", "/z") == -1;
    assert MatchKids(wild, 0, "b", '/', re).Miss?;
    var hitWild := [Step(wild, "b", true)];
    assert MatchNode(wild, "b", '/', re) == Hit(wild, hitWild);
    var hitA := [StepAt(a, "/ab", 2, '/')] + hitWild;
    assert MatchKids(a, 0, "/ab", '/', re) == Hit(wild, hitA);
    var hitV := [Step(v, "ab", true)];
    assert MatchNode(v, "ab", '/', re) == Hit(v, hitV);
    var hitS := [StepAt(s, "/ab", 1, '/')] + hitV;
    assert MatchKids(s, 0, "/ab", '/', re) == Hit(v, hitS);
    assert hitA[1..] == hitWild && hitS[1..] == hitV && hitWild[1..] == [] && hitV[1..] == [];
    assert ParamName(wild.key) == "" && ParamName(v.key) == "name";
    assert Captures(hitWild) == [Param("", "b")];
    assert Captures(hitA) == [Param("", "b")];
    assert Captures(hitV) == [Param("name", "ab")];
    assert Captures(hitS) == [Param("name", "ab")];
  }
}
