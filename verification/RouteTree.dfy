/** The mutable route tree: linked nodes whose children are appended and sorted in place. */
module RouteTree {
  import opened Text
  import opened RouteNodes
  import opened RoutePattern
  import opened RouteInsert

  class TreeNode {
    const key: Key
    var level: int
    var route: Option<Route>
    var children: seq<TreeNode>

    /** The nodes of this subtree, and the subtree as a value. */
    ghost var Repr: set<TreeNode>
    ghost var Value: Node

    ghost predicate Valid()
      reads this, Repr
      ensures Valid() ==> this in Repr
      decreases Repr
    {
      && this in Repr
      && Value.key == key && Value.level == level && Value.route == route
      && |Value.children| == |children|
      && (forall i :: 0 <= i < |children| ==>
            && children[i] in Repr && children[i].Repr <= Repr - {this}
            && children[i].Valid() && children[i].Value == Value.children[i])
      && (forall i, j :: 0 <= i < j < |children| ==> children[i].Repr !! children[j].Repr)
    }

    ghost predicate Leaf()
      reads this, Repr
    {
      Valid() && children == [] && Repr == {this}
    }

    /** The children are sound subtrees within `foot`, whatever the ghost fields of this node say. */
    ghost predicate Linked(foot: set<TreeNode>)
      reads this, foot
    {
      this !in foot && Within(children, foot) && Forest(children, foot)
    }

    /** Recomputes the ghost fields after a child changed. */
    ghost method Sync(foot: set<TreeNode>, v: Node)
      requires Linked(foot) && v == Node(key, level, route, Values(children))
      modifies this`Repr, this`Value
      ensures Valid() && Repr == {this} + foot && Value == v
    {
      Repr, Value := {this} + foot, v;
      assert forall i :: 0 <= i < |children| ==> this !in children[i].Repr;
      assert Repr - {this} == foot;
    }

    method Bind(r: Option<Route>)
      requires Valid()
      modifies this
      ensures Valid() && Repr == old(Repr) && Value == old(Value).(route := r)
      ensures level == old(level) && children == old(children)
    {
      route := r;
      Value := Value.(route := r);
    }

    method Promote(l: int)
      requires Leaf()
      modifies this
      ensures Leaf() && level == l && route == old(route) && Value == old(Value).(level := l)
    {
      level := l;
      Value := Value.(level := l);
    }

    constructor (key: Key, level: int)
      ensures Leaf() && fresh(this) && this.key == key && Value == Node(key, level, None, [])
    {
      this.key, this.level, route, children := key, level, None, [];
      Repr, Value := {this}, Node(key, level, None, []);
    }
  }

  ghost predicate Within(kids: seq<TreeNode>, foot: set<TreeNode>)
    reads foot
  {
    forall i :: 0 <= i < |kids| ==> kids[i] in foot && kids[i].Repr <= foot
  }

  /** Sound subtrees that share no node, all of them within `foot`. */
  ghost predicate Forest(kids: seq<TreeNode>, foot: set<TreeNode>)
    requires Within(kids, foot)
    reads foot
  {
    && (forall i :: 0 <= i < |kids| ==> kids[i].Valid())
    && (forall i, j :: 0 <= i < j < |kids| ==> kids[i].Repr !! kids[j].Repr)
  }

  lemma ChildrenOf(parent: TreeNode)
    requires parent.Valid()
    ensures Within(parent.children, parent.Repr - {parent}) && Forest(parent.children, parent.Repr - {parent})
    ensures Values(parent.children) == parent.Value.children
    ensures parent.Value == Node(parent.key, parent.level, parent.route, Values(parent.children))
  {
  }

  /** `Less` on linked nodes. */
  predicate NodeLess(a: TreeNode, b: TreeNode)
    reads a, b
  {
    Less(Node(a.key, a.level, None, []), Node(b.key, b.level, None, []))
  }

  ghost predicate NodesSorted(cs: seq<TreeNode>)
    reads cs
  {
    forall i, j :: 0 <= i < j < |cs| ==> !NodeLess(cs[j], cs[i])
  }

  ghost predicate Distinct(cs: seq<TreeNode>) {
    forall i, j :: 0 <= i < j < |cs| ==> cs[i] != cs[j]
  }

  /** `Less` orders nodes by a rank, so it stays strict and transitive on its complement. */
  lemma NodeLessOrder(a: TreeNode, b: TreeNode, c: TreeNode)
    ensures NodeLess(a, b) ==> !NodeLess(b, a)
    ensures !NodeLess(b, a) && !NodeLess(c, b) ==> !NodeLess(c, a)
  {
  }

  lemma InsertedSorted(out: seq<TreeNode>, x: TreeNode, k: nat)
    requires k <= |out| && NodesSorted(out)
    requires forall j :: k <= j < |out| ==> NodeLess(x, out[j])
    requires k > 0 ==> !NodeLess(x, out[k - 1])
    ensures NodesSorted(out[..k] + [x] + out[k..])
  {
    var all := out[..k] + [x] + out[k..];
    forall i, j | 0 <= i < j < |all| ensures !NodeLess(all[j], all[i]) {
      if i == k { NodeLessOrder(x, all[j], x); }
      else if j == k { NodeLessOrder(out[i], out[k - 1], x); }
    }
  }

  /** Sorts siblings. Callers rely on the result being some sorted rearrangement, nothing more. */
  method SortNodes(cs: seq<TreeNode>) returns (out: seq<TreeNode>)
    requires Distinct(cs)
    ensures |out| == |cs| && Distinct(out) && NodesSorted(out)
    ensures forall x :: x in out <==> x in cs
  {
    hide NodeLess;
    out := [];
    for i := 0 to |cs|
      invariant |out| == i && Distinct(out) && NodesSorted(out)
      invariant forall x :: x in out <==> x in cs[..i]
    {
      var x := cs[i];
      assert cs[..i + 1] == cs[..i] + [x] && x !in cs[..i];
      var k := i;
      while k > 0 && NodeLess(x, out[k - 1])
        invariant 0 <= k <= i
        invariant forall j :: k <= j < i ==> NodeLess(x, out[j])
      {
        k := k - 1;
      }
      InsertedSorted(out, x, k);
      assert out == out[..k] + out[k..];
      out := out[..k] + [x] + out[k..];
    }
    assert cs[..|cs|] == cs;
  }

  method FindEqual(cs: seq<TreeNode>, key: Key) returns (at: int)
    ensures -1 <= at < |cs|
    ensures at >= 0 ==> cs[at].key == key
    ensures forall j :: 0 <= j < (if at < 0 then |cs| else at) ==> cs[j].key != key
  {
    at := 0;
    while at < |cs|
      invariant 0 <= at <= |cs|
      invariant forall j :: 0 <= j < at ==> cs[j].key != key
    {
      if cs[at].key == key { return; }
      at := at + 1;
    }
    at := -1;
  }

  ghost function Values(cs: seq<TreeNode>): (vs: seq<Node>)
    reads cs
    ensures |vs| == |cs| && forall i :: 0 <= i < |cs| ==> vs[i] == cs[i].Value
  {
    seq(|cs|, i requires 0 <= i < |cs| reads cs => cs[i].Value)
  }

  /** A parsed chain of unlinked nodes whose last node carries the route. */
  ghost predicate Chain(nodes: seq<TreeNode>, r: Route)
    reads nodes, set n, m | n in nodes && m in n.Repr :: m
  {
    && Distinct(nodes)
    && (forall i :: 0 <= i < |nodes| ==> nodes[i].Leaf())
    && (forall i :: 0 <= i < |nodes| ==> nodes[i].route == if i == |nodes| - 1 then Some(r) else None)
  }

  /** The parsed nodes a chain was made of. */
  ghost function ChainNodes(nodes: seq<TreeNode>): (ps: seq<PatternNode>)
    reads nodes
    ensures |ps| == |nodes| && forall i :: 0 <= i < |nodes| ==> ps[i] == PatternNode(nodes[i].key, nodes[i].level)
  {
    seq(|nodes|, i requires 0 <= i < |nodes| reads nodes => PatternNode(nodes[i].key, nodes[i].level))
  }

  /** What linking a chain below `before` promises about the node value `after`. */
  ghost predicate Linking(before: Node, after: Node, ps: seq<PatternNode>, r: Route, existed: bool,
                          displaced: Option<Route>, d: char) {
    && Inserted(before, after, ps, r, d)
    && (existed <==> Descend(before, KeysOf(ps)).Some?)
    && displaced == if Lookup(before, KeysOf(ps)) == Some(r) then None else Lookup(before, KeysOf(ps))
  }

  /** The keys below a node with key `k` are well-formed and may follow it. */
  ghost predicate KeysFit(k: Key, ks: seq<Key>, d: char) {
    ValidKeys([k] + ks) && forall i :: 0 <= i < |ks| ==> KeyOk(ks[i], d)
  }

  ghost predicate Linkable(parent: TreeNode, nodes: seq<TreeNode>, r: Route, d: char)
    reads parent, parent.Repr, nodes, set n, m | n in nodes && m in n.Repr :: m
  {
    && parent.Valid() && Chain(nodes, r) && (forall n :: n in nodes ==> n !in parent.Repr)
    && KidsOk(parent.Value, d) && KeysFit(parent.key, KeysOf(ChainNodes(nodes)), d)
  }

  /** Links `nodes` below `parent` one level at a time, as `addNodes` and `addNode` do together: an equal child is
      reused, otherwise the node is appended and the children sorted. `existed` tells whether the pattern's node was
      already there and `displaced` is the different route it then lost. */
  method AddNodes(parent: TreeNode, nodes: seq<TreeNode>, r: Route, ghost d: char)
    returns (existed: bool, displaced: Option<Route>)
    requires Linkable(parent, nodes, r, d) && nodes != []
    modifies parent.Repr, nodes
    ensures parent.Valid() && parent.Repr <= old(parent.Repr) + set n | n in nodes
    ensures Linking(old(parent.Value), parent.Value, old(ChainNodes(nodes)), r, existed, displaced, d)
    decreases |nodes|, 1
  {
    var at := FindEqual(parent.children, nodes[0].key);
    if at >= 0 {
      existed, displaced := Reuse(parent, at, nodes, r, d);
    } else {
      existed, displaced := false, None;
      Append(parent, nodes, r, d);
    }
  }

  method Reuse(parent: TreeNode, at: nat, nodes: seq<TreeNode>, r: Route, ghost d: char)
    returns (existed: bool, displaced: Option<Route>)
    requires Linkable(parent, nodes, r, d) && nodes != []
    requires at < |parent.children| && parent.children[at].key == nodes[0].key
    modifies parent.Repr, nodes
    ensures parent.Valid() && parent.Repr <= old(parent.Repr) + set n | n in nodes
    ensures Linking(old(parent.Value), parent.Value, old(ChainNodes(nodes)), r, existed, displaced, d)
    decreases |nodes|, 0
  {
    hide Linkable, Linking, KidsOk, KeysFit, Chain, Forest, Within, TreeNode.Valid;
    ghost var ps, before := ChainNodes(nodes), parent.Value;
    ghost var foot := Foot(parent, nodes);
    PrepareReuse(parent, at, nodes, r, d);
    var n, rest := parent.children[at], nodes[1..];
    existed, displaced := ContinueAmong(n, parent.children, at, rest, r, d, foot);
    ghost var after := before.(children := before.children[at := n.Value]);
    ReuseLinking(before, at, n.Value, ps, r, existed, displaced, d);
    parent.Sync(foot, after);
  }

  ghost function Foot(parent: TreeNode, nodes: seq<TreeNode>): (foot: set<TreeNode>)
    reads parent
    ensures parent !in nodes ==> parent !in foot
    ensures {parent} + foot <= {parent} + parent.Repr + set m | m in nodes
  {
    parent.Repr - {parent} + set m | m in nodes
  }

  lemma PrepareReuse(parent: TreeNode, at: nat, nodes: seq<TreeNode>, r: Route, d: char)
    requires Linkable(parent, nodes, r, d) && nodes != []
    requires at < |parent.children| && parent.children[at].key == nodes[0].key
    ensures var foot, before, n, rest := Foot(parent, nodes), parent.Value, parent.children[at], nodes[1..];
            && parent in parent.Repr && parent !in nodes && n.Repr <= parent.Repr && parent !in n.Repr
            && before == Node(parent.key, parent.level, parent.route, Values(parent.children))
            && Within(parent.children, foot) && Forest(parent.children, foot) && KidsOk(before, d)
            && Chain(rest, r) && KidsOk(n.Value, d) && KeysFit(n.key, KeysOf(ChainNodes(rest)), d)
            && ChainNodes(rest) == ChainNodes(nodes)[1..]
            && (forall i, m :: 0 <= i < |parent.children| && m in rest ==> m !in parent.children[i].Repr)
            && n.Value == before.children[at] && n.Value.key == ChainNodes(nodes)[0].key
  {
    ChildKidsOk(parent.Value, at, d);
    ChildrenOf(parent);
    TailFits(parent.key, nodes, r, d);
  }

  /** The rest of a chain is a chain that may follow its first key. */
  lemma TailFits(k: Key, nodes: seq<TreeNode>, r: Route, d: char)
    requires nodes != [] && Chain(nodes, r) && KeysFit(k, KeysOf(ChainNodes(nodes)), d)
    ensures Chain(nodes[1..], r) && KeysFit(nodes[0].key, KeysOf(ChainNodes(nodes[1..])), d) && KeyOk(nodes[0].key, d)
    ensures ChainNodes(nodes[1..]) == ChainNodes(nodes)[1..]
    ensures nodes[0] !in nodes[1..] && (k.kind == Static || nodes[0].key.kind == Static)
  {
    var ks := KeysOf(ChainNodes(nodes));
    var all := [k] + ks;
    assert [nodes[0].key] + KeysOf(ChainNodes(nodes[1..])) == ks;
    assert all[0].kind == Static || all[1].kind == Static;
    forall i | 0 <= i < |ks| - 1 ensures ks[i].kind == Static || ks[i + 1].kind == Static {
      assert all[i + 1].kind == Static || all[i + 2].kind == Static;
    }
    forall i | 0 <= i < |ks| - 1 ensures KeyOk(KeysOf(ChainNodes(nodes[1..]))[i], d) { assert KeyOk(ks[i + 1], d); }
    assert KeyOk(ks[0], d);
  }

  /** Going on below child `at` leaves its siblings alone. */
  method ContinueAmong(n: TreeNode, ghost kids: seq<TreeNode>, ghost at: nat, rest: seq<TreeNode>, r: Route,
                       ghost d: char, ghost foot: set<TreeNode>)
    returns (existed: bool, displaced: Option<Route>)
    requires Within(kids, foot) && Forest(kids, foot) && at < |kids| && n == kids[at]
    requires Chain(rest, r) && KidsOk(n.Value, d) && KeysFit(n.key, KeysOf(ChainNodes(rest)), d)
    requires forall m :: m in rest ==> m in foot
    requires forall i, m :: 0 <= i < |kids| && m in rest ==> m !in kids[i].Repr
    modifies n.Repr, rest
    ensures Within(kids, foot) && Forest(kids, foot)
    ensures Values(kids) == old(Values(kids))[at := n.Value]
    ensures Linking(old(n.Value), n.Value, old(ChainNodes(rest)), r, existed, displaced, d)
    decreases |rest|, 3
  {
    hide Linking, KidsOk, KeysFit;
    ghost var touched := n.Repr + set m | m in rest;
    forall i | 0 <= i < |kids| && i != at ensures kids[i].Repr !! touched {
      assert kids[i].Repr !! n.Repr;
    }
    existed, displaced := Continue(n, rest, r, d);
    forall i | 0 <= i < |kids| && i != at
      ensures kids[i].Valid() && kids[i].Repr == old(kids[i].Repr) && kids[i].Value == old(kids[i].Value)
    {
      assert old(kids[i].Repr) !! touched && kids[i] in old(kids[i].Repr);
    }
    assert n.Repr <= touched;
  }

  lemma ChildKidsOk(n: Node, at: nat, d: char)
    requires KidsOk(n, d) && at < |n.children|
    ensures KidsOk(n.children[at], d)
  {
    assert WellFormed(n.children[at], d);
  }

  /** The part of the insertion below an equal node: bind the route, or go on with the next level. */
  method Continue(n: TreeNode, rest: seq<TreeNode>, r: Route, ghost d: char)
    returns (existed: bool, displaced: Option<Route>)
    requires Linkable(n, rest, r, d)
    modifies n.Repr, rest
    ensures n.Valid() && n.Repr <= old(n.Repr) + set m | m in rest
    ensures Linking(old(n.Value), n.Value, old(ChainNodes(rest)), r, existed, displaced, d)
    decreases |rest|, 2
  {
    if rest == [] {
      existed, displaced := true, None;
      if n.route.Some? && n.route != Some(r) { displaced := n.route; }
      BindInserted(n.Value, r, d);
      n.Bind(Some(r));
    } else {
      existed, displaced := AddNodes(n, rest, r, d);
    }
  }

  lemma ReuseLinking(before: Node, at: nat, c: Node, ps: seq<PatternNode>, r: Route, existed: bool,
                     displaced: Option<Route>, d: char)
    requires KidsOk(before, d) && at < |before.children| && ps != [] && before.children[at].key == ps[0].key
    requires Linking(before.children[at], c, ps[1..], r, existed, displaced, d)
    ensures Linking(before, before.(children := before.children[at := c]), ps, r, existed, displaced, d)
  {
    assert KeysOf(ps[1..]) == KeysOf(ps)[1..];
    ReplaceChild(before, at, c, ps, r, d);
    ChildIndexUnique(before.children, at);
  }

  method Append(parent: TreeNode, nodes: seq<TreeNode>, r: Route, ghost d: char)
    requires Linkable(parent, nodes, r, d) && nodes != []
    requires forall i :: 0 <= i < |parent.children| ==> parent.children[i].key != nodes[0].key
    modifies parent.Repr, nodes
    ensures parent.Valid() && parent.Repr <= old(parent.Repr) + set n | n in nodes
    ensures Linking(old(parent.Value), parent.Value, old(ChainNodes(nodes)), r, false, None, d)
    decreases |nodes|, 0
  {
    hide Linkable, Linking, KidsOk, KeysFit, Chain, Forest, Within, TreeNode.Valid;
    ghost var ps, before := ChainNodes(nodes), parent.Value;
    ghost var foot, bare := Foot(parent, nodes), Node(nodes[0].key, nodes[0].level, None, []);
    var leaf, rest := nodes[0], nodes[1..];
    PrepareNew(parent, nodes, r, d);
    ghost var at, base := AppendChild(parent, leaf, bare, foot);
    assert AppendReady(before, bare, base, at, ps, d);
    assert rest == [] ==> Inserted(bare, leaf.Value, ps[1..], r, d) by { BindInserted(bare, r, d); }
    hide AppendReady, Inserted;
    if rest != [] {
      ghost var kids := parent.children;
      var _, _ := ContinueAmong(leaf, kids, at, rest, r, d, foot);
      LinkingInserted(bare, leaf.Value, ps[1..], r, d);
    }
    AppendLinking(before, bare, base, at, leaf.Value, ps, r, d);
    parent.Sync(foot, before.(children := base[at := leaf.Value]));
  }

  lemma LinkingInserted(a: Node, b: Node, ps: seq<PatternNode>, r: Route, d: char)
    requires exists existed, displaced :: Linking(a, b, ps, r, existed, displaced, d)
    ensures Inserted(a, b, ps, r, d)
  {
  }

  ghost predicate AppendReady(before: Node, bare: Node, base: seq<Node>, at: nat, ps: seq<PatternNode>, d: char) {
    && KidsOk(before, d) && WellFormed(bare, d) && ps != [] && bare == Node(ps[0].key, ps[0].level, None, [])
    && ChildIndex(before.children, ps[0].key) < 0
    && (before.key.kind == Static || bare.key.kind == Static)
    && Rearranged(before.children + [bare], base) && Sorted(base) && at < |base| && base[at] == bare
  }

  /** Appends a child and sorts. */
  method AppendChild(parent: TreeNode, leaf: TreeNode, ghost bare: Node, ghost foot: set<TreeNode>)
    returns (ghost at: nat, ghost base: seq<Node>)
    requires parent.Valid() && leaf.Valid() && leaf.Repr !! parent.Repr && parent !in foot
    requires parent.Repr - {parent} + leaf.Repr <= foot && Distinct(parent.children + [leaf])
    requires DistinctKeys(parent.Value.children) && SameOrder(bare, leaf.Value)
    requires forall i :: 0 <= i < |parent.children| ==> parent.children[i].key != leaf.key
    modifies parent`children
    ensures Within(parent.children, foot) && Forest(parent.children, foot)
    ensures at < |parent.children| && parent.children[at] == leaf
    ensures forall i :: 0 <= i < |parent.children| ==> parent.children[i].Repr <= parent.Repr - {parent} + leaf.Repr
    ensures base == Values(parent.children)[at := bare]
    ensures Rearranged(parent.Value.children + [bare], base) && Sorted(base)
  {
    var grown := SortNodes(parent.children + [leaf]);
    GrownForest(parent, leaf, grown, foot);
    GrownForest(parent, leaf, grown, parent.Repr - {parent} + leaf.Repr);
    at, base := GrownValues(parent, leaf, grown, bare);
    parent.children := grown;
  }

  lemma PrepareNew(parent: TreeNode, nodes: seq<TreeNode>, r: Route, d: char)
    requires Linkable(parent, nodes, r, d) && nodes != []
    requires forall i :: 0 <= i < |parent.children| ==> parent.children[i].key != nodes[0].key
    ensures var before, leaf, rest := parent.Value, nodes[0], nodes[1..];
            && parent.Valid() && leaf.Leaf() && leaf !in parent.Repr && parent in parent.Repr && parent !in nodes
            && Distinct(parent.children + [leaf]) && DistinctKeys(before.children) && KidsOk(before, d)
            && before == Node(parent.key, parent.level, parent.route, Values(parent.children))
            && Chain(rest, r) && KeyOk(leaf.key, d) && KeysFit(leaf.key, KeysOf(ChainNodes(rest)), d)
            && ChainNodes(rest) == ChainNodes(nodes)[1..]
            && leaf !in rest && leaf.Repr == {leaf} && KidsOk(leaf.Value, d)
            && (forall m :: m in rest ==> m.Repr == {m} && m !in parent.Repr)
            && WellFormed(Node(leaf.key, leaf.level, None, []), d)
            && (parent.key.kind == Static || leaf.key.kind == Static)
            && ChildIndex(before.children, ChainNodes(nodes)[0].key) < 0
            && leaf.Value == Node(leaf.key, leaf.level, if rest == [] then Some(r) else None, [])
  {
    ChildrenOf(parent);
    TailFits(parent.key, nodes, r, d);
    NewKey(parent.Value, parent, nodes[0].key);
  }

  lemma NewKey(n: Node, parent: TreeNode, k: Key)
    requires parent.Valid() && n == parent.Value
    requires forall i :: 0 <= i < |parent.children| ==> parent.children[i].key != k
    ensures ChildIndex(n.children, k) < 0
  {
    assert forall i :: 0 <= i < |n.children| ==> n.children[i].key == parent.children[i].key;
  }

  ghost predicate Regrown(parent: TreeNode, leaf: TreeNode, grown: seq<TreeNode>)
    reads parent, parent.Repr, leaf, leaf.Repr
  {
    && parent.Valid() && leaf.Valid() && leaf.Repr !! parent.Repr
    && Distinct(grown) && |grown| == |parent.children| + 1
    && (forall x :: x in grown ==> x in parent.children + [leaf])
    && (forall x :: x in parent.children + [leaf] ==> x in grown)
  }

  lemma GrownForest(parent: TreeNode, leaf: TreeNode, grown: seq<TreeNode>, foot: set<TreeNode>)
    requires Regrown(parent, leaf, grown) && parent.Repr - {parent} + leaf.Repr <= foot
    ensures Within(grown, foot) && Forest(grown, foot)
  {
    ChildrenOf(parent);
    var cs := parent.children + [leaf];
    assert forall i, j :: 0 <= i < j < |cs| ==> cs[i].Repr !! cs[j].Repr;
    forall i | 0 <= i < |grown| ensures grown[i] in foot && grown[i].Repr <= foot && grown[i].Valid() {
      assert grown[i] in cs;
    }
    forall i, j | 0 <= i < j < |grown| ensures grown[i].Repr !! grown[j].Repr {
      assert grown[i] in cs && grown[j] in cs && grown[i] != grown[j];
    }
  }

  lemma KeysApart(parent: TreeNode, leaf: TreeNode)
    requires parent.Valid() && DistinctKeys(parent.Value.children)
    requires forall i :: 0 <= i < |parent.children| ==> parent.children[i].key != leaf.key
    ensures forall x, y :: x in parent.children + [leaf] && y in parent.children + [leaf] && x != y ==> x.key != y.key
  {
    forall x, y | x in parent.children + [leaf] && y in parent.children + [leaf] && x != y ensures x.key != y.key {
      if x in parent.children && y in parent.children {
        var i :| 0 <= i < |parent.children| && parent.children[i] == x;
        var j :| 0 <= j < |parent.children| && parent.children[j] == y;
        assert parent.Value.children[i].key != parent.Value.children[j].key;
      }
    }
  }

  /** Child by child, the sorted values are the old ones with the new child bare. */
  lemma GrownElements(parent: TreeNode, leaf: TreeNode, grown: seq<TreeNode>, bare: Node, at: nat)
    requires Regrown(parent, leaf, grown) && SameOrder(bare, leaf.Value)
    requires at < |grown| && grown[at] == leaf
    ensures var vs, base := parent.Value.children + [bare], Values(grown)[at := bare];
            && (forall i :: 0 <= i < |base| ==>
                  base[i] in vs && SameOrder(base[i], Node(grown[i].key, grown[i].level, None, [])))
            && (forall k :: 0 <= k < |vs| ==> vs[k] in base)
  {
    hide Less;
    var vs, base, cs := parent.Value.children + [bare], Values(grown)[at := bare], parent.children + [leaf];
    ChildrenOf(parent);
    forall i | 0 <= i < |base|
      ensures base[i] in vs && SameOrder(base[i], Node(grown[i].key, grown[i].level, None, []))
    {
      assert grown[i] in cs;
      if i != at {
        assert grown[i] in parent.children;
        var k :| 0 <= k < |parent.children| && parent.children[k] == grown[i];
        assert vs[k] == base[i];
      } else { assert vs[|vs| - 1] == bare; }
    }
    forall k | 0 <= k < |vs| ensures vs[k] in base {
      assert cs[k] in grown;
      var i :| 0 <= i < |grown| && grown[i] == cs[k];
      assert base[i] == vs[k];
    }
  }

  /** The sorted children, with the new one still bare, are a sorted rearrangement as values too. */
  lemma GrownValues(parent: TreeNode, leaf: TreeNode, grown: seq<TreeNode>, bare: Node)
    returns (at: nat, base: seq<Node>)
    requires Regrown(parent, leaf, grown) && NodesSorted(grown) && DistinctKeys(parent.Value.children)
    requires SameOrder(bare, leaf.Value)
    requires forall i :: 0 <= i < |parent.children| ==> parent.children[i].key != leaf.key
    ensures at < |grown| && grown[at] == leaf && base == Values(grown)[at := bare]
    ensures Rearranged(parent.Value.children + [bare], base) && Sorted(base)
  {
    assert leaf in grown;
    at :| 0 <= at < |grown| && grown[at] == leaf;
    base := Values(grown)[at := bare];
    GrownElements(parent, leaf, grown, bare, at);
    KeysApart(parent, leaf);
    assert DistinctKeys(parent.Value.children + [bare]) by { BareKeysApart(parent, leaf, bare); }
    hide TreeNode.Valid;
    var cs := parent.children + [leaf];
    forall i, j | 0 <= i < j < |base| ensures !Less(base[j], base[i]) && base[i].key != base[j].key {
      assert !NodeLess(grown[j], grown[i]);
      assert grown[i] in cs && grown[j] in cs && grown[i].key != grown[j].key;
    }
  }

  lemma BareKeysApart(parent: TreeNode, leaf: TreeNode, bare: Node)
    requires parent.Valid() && DistinctKeys(parent.Value.children) && bare.key == leaf.key
    requires forall i :: 0 <= i < |parent.children| ==> parent.children[i].key != leaf.key
    ensures DistinctKeys(parent.Value.children + [bare])
  {
    assert forall i :: 0 <= i < |parent.children| ==> parent.Value.children[i].key == parent.children[i].key;
  }

  lemma AppendLinking(before: Node, bare: Node, base: seq<Node>, at: nat, c: Node, ps: seq<PatternNode>, r: Route,
                      d: char)
    requires AppendReady(before, bare, base, at, ps, d) && at < |base| && ps != []
    requires Inserted(bare, c, ps[1..], r, d)
    ensures Linking(before, before.(children := base[at := c]), ps, r, false, None, d)
  {
    AppendInserted(before, bare, base, at, c, ps, r, d);
  }
}
