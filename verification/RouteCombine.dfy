/** Merging one route tree into another. */
module RouteCombine {
  import opened Text
  import opened RouteNodes
  import opened RouteInsert
  import opened RouteTree
  import opened RouteTable

  // ---- handlers ----

  /** The handlers of `self` after `CombineHandler`: the incoming ones go before, after, or in place of its own. */
  function CombinedHandlers(h: HandlerTable, self: Route, from: Route): seq<int> {
    match from.position
    case Before => HandlersOf(h, from) + HandlersOf(h, self)
    case After => HandlersOf(h, self) + HandlersOf(h, from)
    case Replace => HandlersOf(h, from)
  }

  function CombineHandler(h: HandlerTable, self: Route, from: Route): HandlerTable {
    h[self := CombinedHandlers(h, self, from)]
  }

  /** A pattern of a method under which both trees have a route. */
  datatype Meet = Meet(m: string, q: seq<Key>, main: Route, from: Route)

  /** All meets, one after the other. */
  function Folded(h: HandlerTable, ms: seq<Meet>): HandlerTable {
    if ms == [] then h
    else CombineHandler(Folded(h, ms[..|ms| - 1]), ms[|ms| - 1].main, ms[|ms| - 1].from)
  }

  lemma {:induction false} FoldedAppend(h: HandlerTable, a: seq<Meet>, b: seq<Meet>)
    ensures Folded(h, a + b) == Folded(Folded(h, a), b)
  {
    if b == [] {
      assert a + b == a;
    } else {
      assert (a + b)[..|a + b| - 1] == a + b[..|b| - 1];
      FoldedAppend(h, a, b[..|b| - 1]);
    }
  }

  /** The handlers of all route objects, which nodes of any tree refer to. */
  class Handlers {
    var table: HandlerTable

    constructor ()
      ensures table == map[]
    {
      table := map[];
    }

    method Combine(self: Route, from: Route)
      modifies this
      ensures table == CombineHandler(old(table), self, from)
    {
      table := table[self := CombinedHandlers(table, self, from)];
    }
  }

  // ---- what merging means for node values ----

  /** The existing route, else the incoming one. */
  function OneOf(a: Option<Route>, b: Option<Route>): Option<Route> { if a.Some? then a else b }

  /** Below a pattern of `from` up to child `k`; `|from.children|` means all of it. */
  predicate Reached(from: Node, k: int, q: seq<Key>) { q == [] || ChildIndex(from.children, q[0]) < k }

  /** The meets of `a` and `from` so far, each pattern once. */
  ghost predicate Meets(ms: seq<Meet>, m: string, a: Node, from: Node, k: int) {
    && (forall x :: x in ms ==>
          x.m == m && Reached(from, k, x.q) && Lookup(a, x.q) == Some(x.main) && Lookup(from, x.q) == Some(x.from))
    && (forall i, j :: 0 <= i < j < |ms| ==> ms[i].q != ms[j].q)
    && (forall q :: Reached(from, k, q) && Lookup(a, q).Some? && Lookup(from, q).Some? ==> HasPattern(ms, q))
  }

  predicate HasPattern(ms: seq<Meet>, q: seq<Key>) { exists i :: 0 <= i < |ms| && ms[i].q == q }

  /** The meets when `from` is merged as a child of `a`. */
  ghost predicate MeetsChild(ms: seq<Meet>, m: string, a: Node, from: Node) {
    && (forall x :: x in ms ==>
          x.m == m && x.q != [] && x.q[0] == from.key && Lookup(a, x.q) == Some(x.main)
          && Lookup(from, x.q[1..]) == Some(x.from))
    && (forall i, j :: 0 <= i < j < |ms| ==> ms[i].q != ms[j].q)
    && (forall q :: q != [] && q[0] == from.key && Lookup(a, q).Some? && Lookup(from, q[1..]).Some? ==>
        HasPattern(ms, q))
  }

  function Under(k: Key, ms: seq<Meet>): (r: seq<Meet>)
    ensures |r| == |ms| && forall i :: 0 <= i < |ms| ==> r[i] == ms[i].(q := [k] + ms[i].q)
  {
    seq(|ms|, i requires 0 <= i < |ms| => ms[i].(q := [k] + ms[i].q))
  }

  lemma {:induction false} FoldedUnder(h: HandlerTable, k: Key, ms: seq<Meet>)
    ensures Folded(h, Under(k, ms)) == Folded(h, ms)
  {
    if ms != [] {
      assert Under(k, ms)[..|ms| - 1] == Under(k, ms[..|ms| - 1]);
      FoldedUnder(h, k, ms[..|ms| - 1]);
    }
  }

  /** `b` is `a` with the whole subtree `from` merged into it, node by node. */
  ghost predicate Merged(a: Node, b: Node, from: Node) {
    forall q :: Lookup(b, q) == OneOf(Lookup(a, q), Lookup(from, q))
  }

  /** `b` is `a` with `from` merged in as a child. */
  ghost predicate MergedChild(a: Node, b: Node, from: Node) {
    forall q :: Lookup(b, q) == if q != [] && q[0] == from.key then OneOf(Lookup(a, q), Lookup(from, q[1..]))
                                else Lookup(a, q)
  }

  // ---- node values ----

  lemma MergeIntoChild(n: Node, at: nat, c: Node, from: Node, d: char)
    requires KidsOk(n, d) && at < |n.children| && n.children[at].key == from.key
    requires KidsOk(c, d) && SameOrder(n.children[at], c) && Merged(n.children[at], c, from)
    ensures var b := n.(children := n.children[at := c]); KidsOk(b, d) && MergedChild(n, b, from)
  {
    var b := n.(children := n.children[at := c]);
    assert WellFormed(n.children[at], d) && WellFormed(c, d);
    assert KidsOk(b, d) by {
      hide Lookup;
      assert forall i :: 0 <= i < |b.children| ==> SameOrder(n.children[i], b.children[i]);
    }
    hide KidsOk, WellFormed;
    forall q ensures Lookup(b, q) == if q != [] && q[0] == from.key then OneOf(Lookup(n, q), Lookup(from, q[1..]))
                                     else Lookup(n, q) {
      if q != [] { MergeIntoChildAt(n, at, c, from, q); }
    }
  }

  lemma MergeIntoChildAt(n: Node, at: nat, c: Node, from: Node, q: seq<Key>)
    requires DistinctKeys(n.children) && at < |n.children| && n.children[at].key == from.key == c.key
    requires Merged(n.children[at], c, from) && q != []
    ensures Lookup(n.(children := n.children[at := c]), q) ==
            if q[0] == from.key then OneOf(Lookup(n, q), Lookup(from, q[1..])) else Lookup(n, q)
  {
    var b := n.(children := n.children[at := c]);
    var i := ChildIndex(n.children, q[0]);
    assert forall j :: 0 <= j < |b.children| ==> b.children[j].key == n.children[j].key;
    assert ChildIndex(b.children, q[0]) == i;
    if q[0] == from.key {
      ChildIndexUnique(n.children, at);
      assert Lookup(c, q[1..]) == OneOf(Lookup(n.children[at], q[1..]), Lookup(from, q[1..]));
    }
  }

  lemma MergeAsNewChild(n: Node, from: Node, base: seq<Node>, d: char)
    requires KidsOk(n, d) && WellFormed(from, d) && ChildIndex(n.children, from.key) < 0
    requires n.key.kind == Static || from.key.kind == Static
    requires Rearranged(n.children + [from], base) && Sorted(base)
    ensures var b := n.(children := base); KidsOk(b, d) && MergedChild(n, b, from)
  {
    var b, grown := n.(children := base), n.(children := n.children + [from]);
    forall i | 0 <= i < |base|
      ensures WellFormed(base[i], d) && (n.key.kind != Static ==> base[i].key.kind == Static)
    {
      assert base[i] in n.children + [from];
    }
    hide WellFormed;
    forall q ensures Lookup(b, q) == if q != [] && q[0] == from.key then OneOf(Lookup(n, q), Lookup(from, q[1..]))
                                     else Lookup(n, q) {
      RearrangedLookup(grown, base, q);
      if q != [] { NewChildLookup(n, from, q); }
    }
  }

  lemma NewChildLookup(n: Node, from: Node, q: seq<Key>)
    requires ChildIndex(n.children, from.key) < 0 && q != []
    ensures Lookup(n.(children := n.children + [from]), q) ==
            if q[0] == from.key then Lookup(from, q[1..]) else Lookup(n, q)
  {
    var cs := n.children + [from];
    var i, j := ChildIndex(n.children, q[0]), ChildIndex(cs, q[0]);
    if i >= 0 {
      assert cs[i].key == q[0];
      assert i == j;
    } else if q[0] == from.key {
      assert cs[|n.children|].key == q[0];
      assert j == |n.children|;
    } else {
      assert forall k :: 0 <= k < |cs| ==> cs[k].key != q[0];
    }
  }

  /** The existing node after merging the route and the first `k` children of `from`. */
  ghost predicate MergedUpTo(a: Node, b: Node, from: Node, k: int) {
    forall q :: Lookup(b, q) ==
      if q == [] || ChildIndex(from.children, q[0]) < k then OneOf(Lookup(a, q), Lookup(from, q)) else Lookup(a, q)
  }

  lemma MergeNextChild(a: Node, b: Node, b': Node, from: Node, k: nat)
    requires k < |from.children| && DistinctKeys(from.children)
    requires MergedUpTo(a, b, from, k) && MergedChild(b, b', from.children[k])
    ensures MergedUpTo(a, b', from, k + 1)
  {
    ChildIndexUnique(from.children, k);
    forall q ensures Lookup(b', q) ==
      if q == [] || ChildIndex(from.children, q[0]) < k + 1 then OneOf(Lookup(a, q), Lookup(from, q)) else Lookup(a, q)
    {
      if q != [] {
        assert Lookup(b, q) == if ChildIndex(from.children, q[0]) < k then OneOf(Lookup(a, q), Lookup(from, q))
                               else Lookup(a, q);
        assert q[0] == from.children[k].key <==> ChildIndex(from.children, q[0]) == k;
      }
    }
  }

  lemma MergeRoute(a: Node, from: Node)
    ensures MergedUpTo(a, a.(route := OneOf(a.route, from.route)), from, 0)
  {
    var b := a.(route := OneOf(a.route, from.route));
    forall q ensures Lookup(b, q) ==
      if q == [] || ChildIndex(from.children, q[0]) < 0 then OneOf(Lookup(a, q), Lookup(from, q)) else Lookup(a, q) {}
  }

  lemma MergeComplete(a: Node, b: Node, from: Node)
    requires MergedUpTo(a, b, from, |from.children|)
    ensures Merged(a, b, from)
  {
  }

  // ---- linked nodes ----

  /** Two disjoint subtrees that may be merged. */
  ghost predicate Mergeable(target: TreeNode, from: TreeNode, d: char)
    reads target, target.Repr, from, from.Repr
  {
    && target.Valid() && from.Valid() && target.Repr !! from.Repr
    && KidsOk(target.Value, d) && KidsOk(from.Value, d)
  }

  /** `conbine`: merges `from` below `target`. A new child is linked in and sorted; an equal one takes over the route
      and merges the children. */
  method Conbine(target: TreeNode, from: TreeNode, hs: Handlers, ghost m: string, ghost d: char)
    returns (ghost ms: seq<Meet>)
    requires Mergeable(target, from, d) && KeyOk(from.key, d)
    requires target.key.kind == Static || from.key.kind == Static
    modifies target.Repr, from.Repr, hs
    ensures target.Valid() && target.Repr <= old(target.Repr) + old(from.Repr)
    ensures KidsOk(target.Value, d) && SameOrder(old(target.Value), target.Value)
    ensures MergedChild(old(target.Value), target.Value, old(from.Value))
    ensures MeetsChild(ms, m, old(target.Value), old(from.Value)) && hs.table == Folded(old(hs.table), ms)
    decreases from.Value, 2
  {
    hide KidsOk, WellFormed, MergedChild, Merged, Mergeable, Within, Forest, TreeNode.Valid, Less;
    hide Meets, MeetsChild, Folded, Under, Lookup, ChildIndex, DistinctKeys;
    ghost var before, v, foot := target.Value, from.Value, target.Repr - {target} + from.Repr;
    PrepareConbine(target, from, d);
    var at := FindEqual(target.children, from.key);
    if at < 0 {
      NewKey(before, target, from.key);
      ghost var i, base := AppendChild(target, from, v, foot);
      assert base == Values(target.children);
      MergeAsNewChild(before, v, base, d);
      target.Sync(foot, before.(children := base));
      ms := [];
      MeetsNobody(hs.table, m, before, v);
    } else {
      var n := target.children[at];
      PrepareChild(target, at, from, d);
      ghost var below := MergeAmong(n, target.children, at, from, hs, m, d, foot);
      ms := Under(from.key, below);
      MeetsBelow(old(hs.table), below, m, before, at, v);
      MergeIntoChild(before, at, n.Value, v, d);
      target.Sync(foot, before.(children := before.children[at := n.Value]));
    }
  }

  lemma PrepareConbine(target: TreeNode, from: TreeNode, d: char)
    requires Mergeable(target, from, d) && KeyOk(from.key, d)
    ensures var before := target.Value;
            && target.Valid() && from.Valid() && target in target.Repr && from in from.Repr && target !in from.Repr
            && target.Repr !! from.Repr
            && before == Node(target.key, target.level, target.route, Values(target.children))
            && Within(target.children, target.Repr - {target}) && Forest(target.children, target.Repr - {target})
            && Within(target.children, target.Repr - {target} + from.Repr)
            && Forest(target.children, target.Repr - {target} + from.Repr)
            && KidsOk(before, d) && WellFormed(from.Value, d) && DistinctKeys(before.children)
            && Distinct(target.children + [from]) && from.Value.key == from.key
  {
    ChildrenOf(target);
  }

  lemma PrepareChild(target: TreeNode, at: nat, from: TreeNode, d: char)
    requires Mergeable(target, from, d) && at < |target.children| && target.children[at].key == from.key
    ensures var n := target.children[at];
            && Mergeable(n, from, d) && n.Repr <= target.Repr && target !in n.Repr
            && n.Value == target.Value.children[at] && n.Value.key == from.Value.key
            && forall i :: 0 <= i < |target.children| ==> target.children[i].Repr !! from.Repr
  {
    ChildKidsOk(target.Value, at, d);
  }

  /** Merging below child `at` leaves its siblings alone. */
  method MergeAmong(n: TreeNode, ghost kids: seq<TreeNode>, ghost at: nat, from: TreeNode, hs: Handlers,
                    ghost m: string, ghost d: char, ghost foot: set<TreeNode>)
    returns (ghost ms: seq<Meet>)
    requires Within(kids, foot) && Forest(kids, foot) && at < |kids| && n == kids[at]
    requires Mergeable(n, from, d) && n.key == from.key && from.Repr <= foot
    requires forall i :: 0 <= i < |kids| ==> kids[i].Repr !! from.Repr
    modifies n.Repr, from.Repr, hs
    ensures Within(kids, foot) && Forest(kids, foot)
    ensures Values(kids) == old(Values(kids))[at := n.Value]
    ensures KidsOk(n.Value, d) && SameOrder(old(n.Value), n.Value) && Merged(old(n.Value), n.Value, old(from.Value))
    ensures Meets(ms, m, old(n.Value), old(from.Value), |old(from.Value).children|)
    ensures hs.table == Folded(old(hs.table), ms)
    decreases from.Value, 1
  {
    hide KidsOk, WellFormed, Merged, Mergeable, Meets, Folded;
    ghost var touched := n.Repr + from.Repr;
    forall i | 0 <= i < |kids| && i != at ensures kids[i].Repr !! touched {
      assert kids[i].Repr !! n.Repr;
    }
    ms := MergeInto(n, from, hs, m, d);
    forall i | 0 <= i < |kids| && i != at
      ensures kids[i].Valid() && kids[i].Repr == old(kids[i].Repr) && kids[i].Value == old(kids[i].Value)
    {
      assert old(kids[i].Repr) !! touched && kids[i] in old(kids[i].Repr);
    }
    assert n.Repr <= touched;
  }

  /** Merges the route and every child of `from` into an equal node. */
  method MergeInto(n: TreeNode, from: TreeNode, hs: Handlers, ghost m: string, ghost d: char)
    returns (ghost ms: seq<Meet>)
    requires Mergeable(n, from, d) && n.key == from.key
    modifies n.Repr, from.Repr, hs
    ensures n.Valid() && n.Repr <= old(n.Repr) + old(from.Repr)
    ensures KidsOk(n.Value, d) && SameOrder(old(n.Value), n.Value) && Merged(old(n.Value), n.Value, old(from.Value))
    ensures Meets(ms, m, old(n.Value), old(from.Value), |old(from.Value).children|)
    ensures hs.table == Folded(old(hs.table), ms)
    decreases from.Value, 0
  {
    hide Mergeable, KidsOk, WellFormed, MergedUpTo, MergedChild, Merged, Unmerged, TreeNode.Valid;
    hide Meets, MeetsChild, Folded;
    ghost var a, v, own, below := n.Value, from.Value, n.Repr, from.Repr - {from};
    PrepareMerge(n, from, d);
    var children := from.children;
    ms := MergeOwnRoute(n, from, hs, m, below);
    KidsOkIgnoresRoute(a, n.Value, d);
    for k := 0 to |children|
      invariant n.Valid() && n.Repr <= own + below
      invariant KidsOk(n.Value, d) && SameOrder(a, n.Value) && MergedUpTo(a, n.Value, v, k)
      invariant Unmerged(n, children, k, v, below)
      invariant Meets(ms, m, a, v, k) && hs.table == Folded(old(hs.table), ms)
    {
      ghost var b := n.Value;
      ChildOk(v, k, d);
      UnmergedWithin(n, children, k, v, below);
      ghost var more := MergeNext(n, children, k, v, below, own, hs, m, d);
      MergeNextChild(a, b, n.Value, v, k);
      MeetsNextChild(ms, more, m, a, b, v, k);
      FoldedAppend(old(hs.table), ms, more);
      ms := ms + more;
    }
    MergeComplete(a, n.Value, v);
  }

  lemma PrepareMerge(n: TreeNode, from: TreeNode, d: char)
    requires Mergeable(n, from, d) && n.key == from.key
    ensures var below := from.Repr - {from};
            && n.Valid() && from.Valid() && n in n.Repr && n !in from.Repr
            && KidsOk(n.Value, d) && KidsOk(from.Value, d)
            && Unmerged(n, from.children, 0, from.Value, below) && |from.children| == |from.Value.children|
            && n.key == from.Value.key && below <= from.Repr
  {
    ChildrenOf(from);
  }

  lemma KidsOkIgnoresRoute(a: Node, b: Node, d: char)
    requires KidsOk(a, d) && b.key == a.key && b.children == a.children
    ensures KidsOk(b, d)
  {
  }

  lemma UnmergedWithin(n: TreeNode, children: seq<TreeNode>, k: nat, v: Node, below: set<TreeNode>)
    requires Unmerged(n, children, k, v, below) && k < |children|
    ensures children[k].Repr <= below && children[k].key == v.children[k].key
  {
  }

  /** The route part: taken over, or its handlers are combined in place. */
  method MergeOwnRoute(n: TreeNode, from: TreeNode, hs: Handlers, ghost m: string, ghost below: set<TreeNode>)
    returns (ghost ms: seq<Meet>)
    requires n.Valid() && from.Valid() && n !in from.Repr && below == from.Repr - {from}
    requires Unmerged(n, from.children, 0, from.Value, below)
    modifies n, hs
    ensures n.Valid() && n.Repr == old(n.Repr) && SameOrder(old(n.Value), n.Value)
    ensures n.Value.children == old(n.Value).children
    ensures MergedUpTo(old(n.Value), n.Value, from.Value, 0) && Unmerged(n, from.children, 0, from.Value, below)
    ensures Meets(ms, m, old(n.Value), from.Value, 0) && hs.table == Folded(old(hs.table), ms)
  {
    hide MergedUpTo, Meets, Folded;
    ghost var a := n.Value;
    MergeRoute(a, from.Value);
    OwnMeet(old(hs.table), m, a, from.Value);
    ms := [];
    if from.route.Some? {
      if n.route.None? {
        n.Bind(from.route);
      } else {
        hs.Combine(n.route.value, from.route.value);
        ms := [Meet(m, [], n.route.value, from.route.value)];
      }
    }
  }

  lemma OwnMeet(h: HandlerTable, m: string, a: Node, from: Node)
    ensures Folded(h, []) == h
    ensures !(a.route.Some? && from.route.Some?) ==> Meets([], m, a, from, 0)
    ensures a.route.Some? && from.route.Some? ==>
              var ms := [Meet(m, [], a.route.value, from.route.value)];
              Meets(ms, m, a, from, 0) && Folded(h, ms) == CombineHandler(h, a.route.value, from.route.value)
  {
    assert forall q :: Reached(from, 0, q) && Lookup(from, q).Some? ==> q == [];
    if a.route.Some? && from.route.Some? {
      var ms := [Meet(m, [], a.route.value, from.route.value)];
      assert HasPattern(ms, []) by { assert ms[0].q == []; }
      assert ms[..0] == [];
    }
  }

  lemma MeetsNobody(h: HandlerTable, m: string, a: Node, from: Node)
    requires ChildIndex(a.children, from.key) < 0
    ensures MeetsChild([], m, a, from) && Folded(h, []) == h
  {
  }

  /** The meets below an equal child are those of the parent with its key in front. */
  lemma LookupBelow(a: Node, at: nat, k: Key)
    requires at < |a.children| && a.children[at].key == k && ChildIndex(a.children, k) == at
    ensures forall q | q != [] && q[0] == k :: Lookup(a, q) == Lookup(a.children[at], q[1..])
  {
  }

  lemma MeetsBelow(h: HandlerTable, ms: seq<Meet>, m: string, a: Node, at: nat, from: Node)
    requires DistinctKeys(a.children) && at < |a.children| && a.children[at].key == from.key
    requires Meets(ms, m, a.children[at], from, |from.children|)
    ensures MeetsChild(Under(from.key, ms), m, a, from) && Folded(h, Under(from.key, ms)) == Folded(h, ms)
  {
    ChildIndexUnique(a.children, at);
    FoldedUnder(h, from.key, ms);
    LookupBelow(a, at, from.key);
    MeetsAreBelow(ms, m, a, at, from);
    EveryMeetBelow(ms, m, a, at, from);
    hide Folded, ChildIndex, Lookup, Under, Reached, HasPattern, DistinctKeys;
  }

  lemma MeetsAreBelow(ms: seq<Meet>, m: string, a: Node, at: nat, from: Node)
    requires at < |a.children| && Meets(ms, m, a.children[at], from, |from.children|)
    requires forall q | q != [] && q[0] == from.key :: Lookup(a, q) == Lookup(a.children[at], q[1..])
    ensures var up := Under(from.key, ms);
            && (forall x :: x in up ==>
                  x.m == m && x.q != [] && x.q[0] == from.key && Lookup(a, x.q) == Some(x.main)
                  && Lookup(from, x.q[1..]) == Some(x.from))
            && (forall i, j :: 0 <= i < j < |up| ==> up[i].q != up[j].q)
  {
    hide Lookup, Reached, HasPattern;
    var up := Under(from.key, ms);
    forall i | 0 <= i < |up| ensures up[i] == ms[i].(q := up[i].q) && up[i].q[1..] == ms[i].q && ms[i] in ms {
    }
  }

  lemma EveryMeetBelow(ms: seq<Meet>, m: string, a: Node, at: nat, from: Node)
    requires at < |a.children| && Meets(ms, m, a.children[at], from, |from.children|)
    requires forall q | q != [] && q[0] == from.key :: Lookup(a, q) == Lookup(a.children[at], q[1..])
    ensures forall q :: q != [] && q[0] == from.key && Lookup(a, q).Some? && Lookup(from, q[1..]).Some? ==>
              HasPattern(Under(from.key, ms), q)
  {
    hide Lookup, Meets, Under, HasPattern;
    forall q | q != [] && q[0] == from.key && Lookup(a, q).Some? && Lookup(from, q[1..]).Some?
      ensures HasPattern(Under(from.key, ms), q)
    {
      MeetAt(ms, m, a.children[at], from, q[1..]);
      PatternUnder(from.key, ms, q[1..]);
      assert [q[0]] + q[1..] == q;
    }
  }

  lemma MeetAt(ms: seq<Meet>, m: string, a: Node, from: Node, q: seq<Key>)
    requires Meets(ms, m, a, from, |from.children|) && Lookup(a, q).Some? && Lookup(from, q).Some?
    ensures HasPattern(ms, q)
  {
    hide Lookup;
  }

  lemma PatternUnder(k: Key, ms: seq<Meet>, q: seq<Key>)
    requires HasPattern(ms, q)
    ensures HasPattern(Under(k, ms), [k] + q)
  {
    var i :| 0 <= i < |ms| && ms[i].q == q;
    assert Under(k, ms)[i].q == [k] + q;
  }

  lemma MeetsNextChild(ms: seq<Meet>, more: seq<Meet>, m: string, a: Node, b: Node, from: Node, k: nat)
    requires k < |from.children| && DistinctKeys(from.children)
    requires MergedUpTo(a, b, from, k) && Meets(ms, m, a, from, k) && MeetsChild(more, m, b, from.children[k])
    ensures Meets(ms + more, m, a, from, k + 1)
  {
    ChildIndexUnique(from.children, k);
    var all := ms + more;
    forall x | x in more
      ensures ChildIndex(from.children, x.q[0]) == k && Lookup(a, x.q) == Some(x.main)
              && Lookup(from, x.q) == Some(x.from)
    {
      assert Lookup(b, x.q) == Lookup(a, x.q);
    }
    forall i, j | 0 <= i < j < |all| ensures all[i].q != all[j].q {
      if i < |ms| <= j { assert ms[i] in ms && more[j - |ms|] in more; }
    }
    forall q | Reached(from, k + 1, q) && Lookup(a, q).Some? && Lookup(from, q).Some? ensures HasPattern(all, q) {
      if Reached(from, k, q) {
        assert HasPattern(ms, q);
        var i :| 0 <= i < |ms| && ms[i].q == q;
        assert all[i].q == q;
      } else {
        assert Lookup(b, q) == Lookup(a, q);
        assert HasPattern(more, q);
        var i :| 0 <= i < |more| && more[i].q == q;
        assert all[|ms| + i].q == q;
      }
    }
  }

  lemma ChildOk(v: Node, k: nat, d: char)
    requires KidsOk(v, d) && k < |v.children|
    ensures WellFormed(v.children[k], d) && KidsOk(v.children[k], d) && KeyOk(v.children[k].key, d)
            && DistinctKeys(v.children)
    ensures v.key.kind == Static || v.children[k].key.kind == Static
  {
  }

  lemma ChildParts(v: Node, d: char)
    requires WellFormed(v, d)
    ensures KidsOk(v, d) && KeyOk(v.key, d)
  {
  }

  /** The children of `from` not merged yet are untouched and apart from `n`. */
  ghost predicate Unmerged(n: TreeNode, children: seq<TreeNode>, k: int, v: Node, below: set<TreeNode>)
    reads n, below
  {
    && 0 <= k <= |children| == |v.children|
    && (forall j :: k <= j < |children| ==> children[j] in below && children[j].Repr <= below)
    && (forall j :: k <= j < |children| ==>
          children[j].Valid() && children[j].Value == v.children[j] && children[j].Repr !! n.Repr)
    && (forall i, j :: k <= i < j < |children| ==> children[i].Repr !! children[j].Repr)
  }

  /** One turn of the loop over the children of `from`. */
  method MergeNext(n: TreeNode, children: seq<TreeNode>, k: nat, ghost v: Node, ghost below: set<TreeNode>,
                   ghost own: set<TreeNode>, hs: Handlers, ghost m: string, ghost d: char)
    returns (ghost ms: seq<Meet>)
    requires k < |children| && n.Valid() && n.Repr <= own + below && KidsOk(n.Value, d)
    requires Unmerged(n, children, k, v, below) && WellFormed(v.children[k], d)
    requires n.key.kind == Static || children[k].key.kind == Static
    modifies n.Repr, children[k].Repr, hs
    ensures n.Valid() && n.Repr <= own + below && KidsOk(n.Value, d) && SameOrder(old(n.Value), n.Value)
    ensures MergedChild(old(n.Value), n.Value, v.children[k]) && Unmerged(n, children, k + 1, v, below)
    ensures MeetsChild(ms, m, old(n.Value), v.children[k]) && hs.table == Folded(old(hs.table), ms)
    decreases v.children[k], 3
  {
    ChildParts(v.children[k], d);
    hide KidsOk, WellFormed, MergedChild, KeyOk, MeetsChild, Folded;
    ghost var touched := n.Repr + children[k].Repr;
    forall j | k < j < |children| ensures children[j].Repr !! touched && children[j] in children[j].Repr {
      assert children[k].Repr !! children[j].Repr;
    }
    ms := Conbine(n, children[k], hs, m, d);
    forall j | k < j < |children|
      ensures children[j].Valid() && children[j].Repr == old(children[j].Repr) && children[j].Value == v.children[j]
      ensures children[j].Repr !! n.Repr
    {
      assert old(children[j].Repr) !! touched;
    }
  }

  /** Merging one root into another of the same method: the loop of `Conbine` over the incoming root's children. */
  method MergeRoots(main: TreeNode, from: TreeNode, hs: Handlers, ghost m: string) returns (ghost ms: seq<Meet>)
    requires Mergeable(main, from, '/') && RootOk(main.Value) && RootOk(from.Value)
    modifies main.Repr, from.Repr, hs
    ensures main.Valid() && main.Repr <= old(main.Repr) + old(from.Repr)
    ensures RootOk(main.Value) && Merged(old(main.Value), main.Value, old(from.Value))
    ensures MetUnder(ms, m, old(main.Value), old(from.Value)) && hs.table == Folded(old(hs.table), ms)
  {
    hide Meets, Folded;
    ms := MergeInto(main, from, hs, m, '/');
    AllMet(ms, m, old(main.Value), old(from.Value));
    assert Lookup(main.Value, []) == OneOf(Lookup(old(main.Value), []), Lookup(old(from.Value), []));
  }

  /** One turn of `Conbine`: a root of a method unknown so far is shared, otherwise the two roots are merged. */
  method ConbineMethod(main: Tree, m: string, n: TreeNode, hs: Handlers) returns (ghost ms: seq<Meet>)
    requires main.Valid() && n.Valid() && RootOk(n.Value) && n.Repr !! main.Repr
    modifies main, main.Repr, n.Repr, hs
    ensures main.Valid() && main.Repr <= old(main.Repr) + old(n.Repr)
    ensures m in main.Routes && main.Routes == old(main.Routes)[m := main.Routes[m]]
    ensures Merged(RootOf(old(main.Routes), m), main.Routes[m], old(n.Value))
    ensures MetUnder(ms, m, RootOf(old(main.Routes), m), old(n.Value)) && hs.table == Folded(old(hs.table), ms)
  {
    hide Roots, RootOk, Merged, MetUnder, Folded;
    ghost var v, foot := n.Value, main.Repr + n.Repr;
    if m in main.root {
      var target := main.root[m];
      RootWithin(main.root, main.Routes, main.Repr, m);
      ms := MergeAtRoot(target, main.root, m, main.Routes, main.Repr, n, hs);
      main.Repr, main.Routes := foot, main.Routes[m := target.Value];
    } else {
      SharedRoot(main.root, main.Routes, main.Repr, m, n);
      ms := [];
      NobodyMet(hs.table, m, v);
      main.root, main.Repr, main.Routes := main.root[m := n], foot, main.Routes[m := v];
    }
  }

  lemma RootWithin(roots: map<string, TreeNode>, t: Table, foot: set<TreeNode>, m: string)
    requires Roots(roots, t, foot) && m in roots
    ensures roots[m].Repr <= foot && m in t
  {
  }

  lemma SharedRoot(roots: map<string, TreeNode>, t: Table, foot: set<TreeNode>, m: string, n: TreeNode)
    requires Roots(roots, t, foot) && m !in roots && n.Valid() && RootOk(n.Value) && n.Repr !! foot
    ensures Roots(roots[m := n], t[m := n.Value], foot + n.Repr)
    ensures m !in t && Merged(EmptyRoot, n.Value, n.Value)
  {
    hide RootOk;
    forall k | k in roots ensures roots[k].Repr !! n.Repr {}
    forall q ensures Lookup(n.Value, q) == OneOf(Lookup(EmptyRoot, q), Lookup(n.Value, q)) { EmptyLookup(q); }
  }

  method MergeAtRoot(main: TreeNode, ghost roots: map<string, TreeNode>, ghost m: string, ghost t: Table,
                     ghost foot: set<TreeNode>, from: TreeNode, hs: Handlers) returns (ghost ms: seq<Meet>)
    requires Roots(roots, t, foot) && m in roots && roots[m] == main
    requires from.Valid() && RootOk(from.Value) && from.Repr !! foot
    modifies main.Repr, from.Repr, hs
    ensures m in t && Roots(roots, t[m := main.Value], foot + old(from.Repr))
    ensures Merged(t[m], main.Value, old(from.Value))
    ensures MetUnder(ms, m, t[m], old(from.Value)) && hs.table == Folded(old(hs.table), ms)
  {
    assert Mergeable(main, from, '/') && RootOk(main.Value);
    hide Mergeable, RootOk, Merged, MetUnder, Folded;
    ghost var touched := main.Repr + from.Repr;
    forall k | k in roots && k != m ensures roots[k].Repr !! touched && roots[k] in roots[k].Repr {
      assert roots[k].Repr !! main.Repr;
    }
    ms := MergeRoots(main, from, hs, m);
    forall k | k in roots && k != m
      ensures roots[k].Valid() && roots[k].Repr == old(roots[k].Repr) && roots[k].Value == t[k]
      ensures roots[k].Repr !! main.Repr
    {
      assert old(roots[k].Repr) !! touched;
    }
    RootsAgain(roots, m, main, t, main.Value, foot + old(from.Repr));
  }

  /** Exactly the patterns of one method under which both roots have a route. */
  ghost predicate MetUnder(ms: seq<Meet>, m: string, a: Node, from: Node) {
    && (forall x :: x in ms ==> x.m == m && Lookup(a, x.q) == Some(x.main) && Lookup(from, x.q) == Some(x.from))
    && (forall i, j :: 0 <= i < j < |ms| ==> ms[i].q != ms[j].q)
    && (forall q :: Lookup(a, q).Some? && Lookup(from, q).Some? ==> HasPattern(ms, q))
  }

  lemma AllMet(ms: seq<Meet>, m: string, a: Node, from: Node)
    requires Meets(ms, m, a, from, |from.children|)
    ensures MetUnder(ms, m, a, from)
  {
    assert forall q :: Reached(from, |from.children|, q);
  }

  lemma NobodyMet(h: HandlerTable, m: string, from: Node)
    ensures MetUnder([], m, EmptyRoot, from) && Folded(h, []) == h
  {
    forall q ensures Lookup(EmptyRoot, q).None? { EmptyLookup(q); }
  }

  /** Exactly the methods and patterns under which both trees have a route, each once. */
  ghost predicate Met(ms: seq<Meet>, t: Table, ft: Table) {
    && (forall x :: x in ms ==> RouteIn(t, x.m, x.q) == Some(x.main) && RouteIn(ft, x.m, x.q) == Some(x.from))
    && (forall i, j :: 0 <= i < j < |ms| ==> (ms[i].m, ms[i].q) != (ms[j].m, ms[j].q))
    && (forall m, q :: RouteIn(t, m, q).Some? && RouteIn(ft, m, q).Some? ==> HasPlace(ms, m, q))
  }

  predicate HasPlace(ms: seq<Meet>, m: string, q: seq<Key>) {
    exists i :: 0 <= i < |ms| && ms[i].m == m && ms[i].q == q
  }

  /** `Conbine`: afterwards the routed patterns of every method are the union of both trees', an existing route staying
      where it is, and the handlers of the existing routes were combined in place, once for every pattern under which
      both trees have a route. */
  method ConbineTrees(main: Tree, from: Tree, hs: Handlers) returns (ghost ms: seq<Meet>)
    requires main != from && main.Valid() && from.Valid() && main.Repr !! from.Repr
    modifies main, main.Repr, from.Repr, hs
    ensures main.Valid() && main.Repr <= old(main.Repr) + old(from.Repr)
    ensures forall m, q :: RouteIn(main.Routes, m, q) ==
                           OneOf(RouteIn(old(main.Routes), m, q), RouteIn(old(from.Routes), m, q))
    ensures Met(ms, old(main.Routes), old(from.Routes)) && hs.table == Folded(old(hs.table), ms)
  {
    hide Roots, RootOk, Merged, Tree.Valid, MetUnder, MetSo, Folded;
    var roots, pending := from.root, from.root.Keys;
    ghost var t0, ft, own, below := main.Routes, from.Routes, main.Repr, from.Repr;
    TakeRoots(from, main.Repr);
    NothingMet(hs.table, t0, ft);
    ms := [];
    while pending != {}
      invariant pending <= roots.Keys && main.Valid() && main.Repr <= own + below
      invariant PendingRoots(roots, pending, ft, below, main.Repr)
      invariant Progress(t0, main.Routes, ft, pending) && ft.Keys == roots.Keys
      invariant MetSo(ms, t0, ft, pending) && hs.table == Folded(old(hs.table), ms)
      decreases pending
    {
      var m :| m in pending;
      ghost var t := main.Routes;
      ghost var more := ConbineNext(main, roots, m, pending, ft, below, hs);
      ProgressStep(t0, t, main.Routes, ft, pending, m);
      FoldedAppend(old(hs.table), ms, more);
      MetMore(ms, more, t0, ft, pending, m);
      ms := ms + more;
      pending := pending - {m};
    }
    ProgressDone(t0, main.Routes, ft);
    EverythingMet(ms, t0, ft);
  }

  /** The meets of the methods that are not pending any more. */
  ghost predicate MetSo(ms: seq<Meet>, t: Table, ft: Table, pending: set<string>) {
    && (forall x :: x in ms ==>
          x.m in ft && x.m !in pending && RouteIn(t, x.m, x.q) == Some(x.main) && RouteIn(ft, x.m, x.q) == Some(x.from))
    && (forall i, j :: 0 <= i < j < |ms| ==> (ms[i].m, ms[i].q) != (ms[j].m, ms[j].q))
    && (forall m, q :: m in ft && m !in pending && RouteIn(t, m, q).Some? && RouteIn(ft, m, q).Some? ==>
        HasPlace(ms, m, q))
  }

  lemma NothingMet(h: HandlerTable, t: Table, ft: Table)
    ensures MetSo([], t, ft, ft.Keys) && Folded(h, []) == h
  {
  }

  lemma MetMore(ms: seq<Meet>, more: seq<Meet>, t: Table, ft: Table, pending: set<string>, m: string)
    requires MetSo(ms, t, ft, pending) && m in pending && m in ft && MetUnder(more, m, RootOf(t, m), ft[m])
    ensures MetSo(ms + more, t, ft, pending - {m})
  {
    var all := ms + more;
    hide Lookup;
    forall i, j | 0 <= i < j < |all| ensures (all[i].m, all[i].q) != (all[j].m, all[j].q) {
      assert all[i] in all && all[j] in all;
      if i < |ms| <= j { assert ms[i] in ms && more[j - |ms|] in more; }
    }
    forall k, q | k in ft && k !in pending - {m} && RouteIn(t, k, q).Some? && RouteIn(ft, k, q).Some?
      ensures HasPlace(all, k, q)
    {
      if k == m {
        assert HasPattern(more, q);
        var i :| 0 <= i < |more| && more[i].q == q;
        assert more[i] in more && all[|ms| + i] == more[i];
      } else {
        assert HasPlace(ms, k, q);
        var i :| 0 <= i < |ms| && ms[i].m == k && ms[i].q == q;
        assert all[i] == ms[i];
      }
    }
  }

  lemma EverythingMet(ms: seq<Meet>, t: Table, ft: Table)
    requires MetSo(ms, t, ft, {})
    ensures Met(ms, t, ft)
  {
    forall m, q | RouteIn(t, m, q).Some? && RouteIn(ft, m, q).Some? ensures HasPlace(ms, m, q) { EmptyLookup(q); }
  }

  /** The roots still to be merged are sound, known by their values, and apart from `taken` and from each other. */
  ghost predicate PendingRoots(roots: map<string, TreeNode>, pending: set<string>, ft: Table, below: set<TreeNode>,
                               taken: set<TreeNode>)
    reads below
  {
    && (forall m :: m in pending ==> m in roots && m in ft && roots[m] in below && roots[m].Repr <= below)
    && (forall m :: m in pending ==>
          roots[m].Valid() && roots[m].Value == ft[m] && RootOk(ft[m]) && roots[m].Repr !! taken)
    && (forall m, k :: m in pending && k in pending && m != k ==> roots[m].Repr !! roots[k].Repr)
  }

  ghost predicate Progress(t0: Table, t: Table, ft: Table, pending: set<string>) {
    forall m :: if m in ft && m !in pending then Merged(RootOf(t0, m), RootOf(t, m), ft[m])
                else RootOf(t, m) == RootOf(t0, m)
  }

  lemma TakeRoots(from: Tree, taken: set<TreeNode>)
    requires from.Valid() && from.Repr !! taken
    ensures PendingRoots(from.root, from.root.Keys, from.Routes, from.Repr, taken)
    ensures from.root.Keys == from.Routes.Keys
  {
  }

  method ConbineNext(main: Tree, roots: map<string, TreeNode>, m: string, ghost pending: set<string>, ghost ft: Table,
                     ghost below: set<TreeNode>, hs: Handlers) returns (ghost ms: seq<Meet>)
    requires main.Valid() && m in pending && m in roots
    requires PendingRoots(roots, pending, ft, below, main.Repr)
    modifies main, main.Repr, roots[m].Repr, hs
    ensures main.Valid() && main.Repr <= old(main.Repr) + below
    ensures PendingRoots(roots, pending - {m}, ft, below, main.Repr)
    ensures m in ft && m in main.Routes && main.Routes == old(main.Routes)[m := main.Routes[m]]
    ensures Merged(RootOf(old(main.Routes), m), main.Routes[m], ft[m])
    ensures MetUnder(ms, m, RootOf(old(main.Routes), m), ft[m]) && hs.table == Folded(old(hs.table), ms)
  {
    hide Roots, RootOk, Merged, Tree.Valid, MetUnder, Folded;
    ghost var touched := main.Repr + roots[m].Repr;
    forall k | k in pending && k != m ensures roots[k].Repr !! touched && roots[k] in roots[k].Repr {
      assert roots[k].Repr !! roots[m].Repr;
    }
    ms := ConbineMethod(main, m, roots[m], hs);
    forall k | k in pending && k != m
      ensures roots[k].Valid() && roots[k].Repr == old(roots[k].Repr) && roots[k].Value == ft[k]
      ensures roots[k].Repr !! main.Repr
    {
      assert old(roots[k].Repr) !! touched;
    }
  }

  lemma ProgressStep(t0: Table, t: Table, t': Table, ft: Table, pending: set<string>, m: string)
    requires Progress(t0, t, ft, pending) && m in pending && m in ft
    requires m in t' && t' == t[m := t'[m]] && Merged(RootOf(t, m), t'[m], ft[m])
    ensures Progress(t0, t', ft, pending - {m})
  {
  }

  lemma ProgressDone(t0: Table, t: Table, ft: Table)
    requires Progress(t0, t, ft, {})
    ensures forall m, q :: RouteIn(t, m, q) == OneOf(RouteIn(t0, m, q), RouteIn(ft, m, q))
  {
    forall m, q ensures RouteIn(t, m, q) == OneOf(RouteIn(t0, m, q), RouteIn(ft, m, q)) {
      EmptyLookup(q);
      if m in ft { assert Merged(RootOf(t0, m), RootOf(t, m), ft[m]); }
    }
  }
}
