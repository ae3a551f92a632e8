/** What inserting a pattern does to a node value: which nodes there are then, and which routes they carry. */
module RouteInsert {
  import opened Text
  import opened RouteNodes
  import opened RoutePattern

  /** What a pattern leads to. Up to the order of siblings the spots of a tree are the whole tree. */
  datatype Spot = Spot(level: int, route: Option<Route>)

  function At(n: Node, q: seq<Key>): (r: Option<Spot>)
    ensures Lookup(n, q) == if r.Some? then r.value.route else None
  {
    var e := Descend(n, q);
    if e.None? then None else Some(Spot(e.value.level, e.value.route))
  }

  /** The spots of `a`, and those on the way of the pattern where there were none, with the route on the last. */
  function GrownAt(a: Node, ps: seq<PatternNode>, r: Route, q: seq<Key>): Option<Spot> {
    var before := At(a, q);
    if before.Some? then Some(if q == KeysOf(ps) then before.value.(route := Some(r)) else before.value)
    else if q != [] && q <= KeysOf(ps) then Some(Spot(ps[|q| - 1].level, if q == KeysOf(ps) then Some(r) else None))
    else None
  }

  /** Exactly the pattern is bound to the route, on nodes reused or new; every other node and route stays. */
  ghost predicate Grown(a: Node, b: Node, ps: seq<PatternNode>, r: Route) {
    forall q :: At(b, q) == GrownAt(a, ps, r, q)
  }

  lemma GrownLookup(a: Node, b: Node, ps: seq<PatternNode>, r: Route, q: seq<Key>)
    requires Grown(a, b, ps, r)
    ensures Lookup(b, q) == if q == KeysOf(ps) then Some(r) else Lookup(a, q)
  {
    assert At(b, q) == GrownAt(a, ps, r, q);
    hide At;
    assert q == [] ==> At(a, q).Some? by { RootSpot(a); }
  }

  lemma SpotBelow(n: Node, q: seq<Key>)
    requires q != []
    ensures var i := ChildIndex(n.children, q[0]);
            At(n, q) == if i < 0 then None else At(n.children[i], q[1..])
  {
  }

  lemma RootSpot(n: Node)
    ensures At(n, []) == Some(Spot(n.level, n.route))
  {
  }

  /** Inserting again changes nothing. */
  lemma GrownAgain(a: Node, b: Node, c: Node, ps: seq<PatternNode>, r: Route)
    requires Grown(a, b, ps, r) && Grown(b, c, ps, r)
    ensures Grown(a, c, ps, r)
  {
    hide At;
    forall q ensures At(c, q) == GrownAt(a, ps, r, q) {
      assert At(c, q) == GrownAt(b, ps, r, q) && At(b, q) == GrownAt(a, ps, r, q);
    }
  }

  /** The same distinct children, possibly in another order. */
  ghost predicate Rearranged(a: seq<Node>, b: seq<Node>) {
    DistinctKeys(a) && DistinctKeys(b) && (forall x :: x in a <==> x in b)
  }

  lemma ChildIndexUnique(cs: seq<Node>, i: nat)
    requires DistinctKeys(cs) && i < |cs|
    ensures ChildIndex(cs, cs[i].key) == i
  {
  }

  lemma RearrangedLookup(n: Node, base: seq<Node>, q: seq<Key>)
    requires Rearranged(n.children, base)
    ensures At(n.(children := base), q) == At(n, q) && Lookup(n.(children := base), q) == Lookup(n, q)
  {
    if q != [] {
      var i, j := ChildIndex(n.children, q[0]), ChildIndex(base, q[0]);
      assert j >= 0 ==> base[j] in base;
      if i >= 0 {
        assert n.children[i] in base;
        var k :| 0 <= k < |base| && base[k] == n.children[i];
        ChildIndexUnique(base, k);
      }
    }
  }

  /** A child without children is a single spot. */
  lemma BareChildSpot(n: Node, bare: Node, q: seq<Key>)
    requires bare.children == [] && ChildIndex(n.children, bare.key) < 0
    ensures At(n.(children := n.children + [bare]), q) ==
            if q == [bare.key] then Some(Spot(bare.level, bare.route)) else At(n, q)
  {
    hide At, ChildIndex;
    var cs := n.children + [bare];
    if q == [] {
      RootSpot(n);
      RootSpot(n.(children := cs));
    } else {
      SpotBelow(n, q);
      SpotBelow(n.(children := cs), q);
      RootSpot(bare);
      if |q| > 1 { NoSpotBelow(bare, q[1..]); }
      var i, j := ChildIndex(n.children, q[0]), ChildIndex(cs, q[0]);
      assert cs[|n.children|] == bare && q == [q[0]] + q[1..];
      assert i >= 0 ==> cs[i].key == q[0];
    }
  }

  ghost predicate SameOrder(a: Node, b: Node) { a.key == b.key && a.level == b.level }

  /** `b` is the well-formed node `a` after inserting the pattern below it. */
  ghost predicate Inserted(a: Node, b: Node, ps: seq<PatternNode>, r: Route, d: char) {
    KidsOk(b, d) && SameOrder(a, b) && Grown(a, b, ps, r)
  }

  lemma SameIndex(a: seq<Node>, b: seq<Node>, k: Key)
    requires |a| == |b| && forall j :: 0 <= j < |a| ==> a[j].key == b[j].key
    ensures ChildIndex(a, k) == ChildIndex(b, k)
  {
  }

  lemma HeadAndTail(ks: seq<Key>, q: seq<Key>)
    requires ks != [] && q != []
    ensures q == ks <==> q[0] == ks[0] && q[1..] == ks[1..]
    ensures q <= ks <==> q[0] == ks[0] && q[1..] <= ks[1..]
  {
    assert ks == [ks[0]] + ks[1..] && q == [q[0]] + q[1..];
  }

  lemma ReplaceChildSpot(n: Node, at: nat, c: Node, ps: seq<PatternNode>, r: Route, q: seq<Key>)
    requires DistinctKeys(n.children) && at < |n.children| && ps != [] && n.children[at].key == ps[0].key == c.key
    requires Grown(n.children[at], c, ps[1..], r)
    ensures At(n.(children := n.children[at := c]), q) == GrownAt(n, ps, r, q)
  {
    var ks := KeysOf(ps);
    var b := n.(children := n.children[at := c]);
    RootSpot(n);
    RootSpot(b);
    hide At;
    if q != [] {
      SpotBelow(n, q);
      SpotBelow(b, q);
      SameIndex(n.children, b.children, q[0]);
      HeadAndTail(ks, q);
      if q[0] == ks[0] {
        ChildIndexUnique(n.children, at);
        assert KeysOf(ps[1..]) == ks[1..];
        assert At(c, q[1..]) == GrownAt(n.children[at], ps[1..], r, q[1..]);
        RootSpot(n.children[at]);
      }
    }
  }

  /** Replacing one child by an updated version of itself updates the parent, and keeps it well-formed. */
  lemma ReplaceChild(n: Node, at: nat, c: Node, ps: seq<PatternNode>, r: Route, d: char)
    requires KidsOk(n, d) && at < |n.children| && ps != [] && n.children[at].key == ps[0].key
    requires Inserted(n.children[at], c, ps[1..], r, d)
    ensures Inserted(n, n.(children := n.children[at := c]), ps, r, d)
  {
    var b := n.(children := n.children[at := c]);
    hide At, GrownAt, Lookup;
    assert WellFormed(n.children[at], d) && WellFormed(c, d);
    assert KidsOk(b, d) by {
      assert forall i :: 0 <= i < |b.children| ==> SameOrder(n.children[i], b.children[i]);
    }
    forall q ensures At(b, q) == GrownAt(n, ps, r, q) {
      ReplaceChildSpot(n, at, c, ps, r, q);
    }
  }

  lemma BindInserted(n: Node, r: Route, d: char)
    requires KidsOk(n, d)
    ensures Inserted(n, n.(route := Some(r)), [], r, d)
  {
    forall q ensures At(n.(route := Some(r)), q) == GrownAt(n, [], r, q) {}
  }

  /** Appending a new bare child and sorting keeps the node well-formed and adds a single spot. */
  lemma GrowChildren(n: Node, bare: Node, base: seq<Node>, d: char)
    requires KidsOk(n, d) && WellFormed(bare, d) && bare.route.None? && bare.children == []
    requires ChildIndex(n.children, bare.key) < 0
    requires n.key.kind == Static || bare.key.kind == Static
    requires Rearranged(n.children + [bare], base) && Sorted(base)
    ensures KidsOk(n.(children := base), d)
    ensures forall q :: At(n.(children := base), q) ==
                        if q == [bare.key] then Some(Spot(bare.level, None)) else At(n, q)
  {
    var grown := n.(children := n.children + [bare]);
    hide At;
    forall q ensures At(n.(children := base), q) ==
                     if q == [bare.key] then Some(Spot(bare.level, None)) else At(n, q) {
      BareChildSpot(n, bare, q);
      RearrangedLookup(grown, base, q);
    }
    forall i | 0 <= i < |base|
      ensures WellFormed(base[i], d) && (n.key.kind != Static ==> base[i].key.kind == Static)
    {
      assert base[i] in n.children + [bare];
    }
  }

  lemma NoSpotBelow(n: Node, q: seq<Key>)
    requires q != [] && ChildIndex(n.children, q[0]) < 0
    ensures At(n, q).None?
  {
  }

  /** It makes no difference whether the first node of the pattern is there without children. */
  lemma SameGrowth(n: Node, nb: Node, ps: seq<PatternNode>, r: Route, q: seq<Key>)
    requires ps != [] && ChildIndex(n.children, ps[0].key) < 0
    requires At(nb, q) == if q == [ps[0].key] then Some(Spot(ps[0].level, None)) else At(n, q)
    ensures GrownAt(nb, ps, r, q) == GrownAt(n, ps, r, q)
  {
    var ks := KeysOf(ps);
    if q != [] && q[0] == ks[0] { NoSpotBelow(n, q); }
    hide At;
    assert q == [ks[0]] ==> q <= ks;
  }

  /** The appended child, once its own chain hangs below it, completes the insertion. */
  lemma AppendInserted(n: Node, bare: Node, base: seq<Node>, at: nat, c: Node, ps: seq<PatternNode>, r: Route, d: char)
    requires KidsOk(n, d) && WellFormed(bare, d) && bare.children == []
    requires ps != [] && bare == Node(ps[0].key, ps[0].level, None, []) && ChildIndex(n.children, ps[0].key) < 0
    requires n.key.kind == Static || bare.key.kind == Static
    requires Rearranged(n.children + [bare], base) && Sorted(base) && at < |base| && base[at] == bare
    requires Inserted(bare, c, ps[1..], r, d)
    ensures Inserted(n, n.(children := base[at := c]), ps, r, d)
  {
    GrowChildren(n, bare, base, d);
    ReplaceChild(n.(children := base), at, c, ps, r, d);
    var b, nb := n.(children := base[at := c]), n.(children := base);
    hide At, GrownAt, KidsOk, Rearranged, Sorted;
    forall q ensures At(b, q) == GrownAt(n, ps, r, q) {
      assert At(b, q) == GrownAt(nb, ps, r, q);
      SameGrowth(n, nb, ps, r, q);
    }
  }
}
