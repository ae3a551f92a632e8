/** What registering a first and a second pattern builds, and the two faults of `RouteFaults` in trees so built. */
module RouteExamples {
  import opened Text
  import opened RouteNodes
  import opened RoutePattern
  import opened RouteInsert
  import opened RouteTable
  import opened RouteFaults

  // ---- parsing ----

  lemma ScanOn(s: Scanner, next: Scanner, path: string, re: Engine)
    requires ScannerOk(s, path) && NextMove(s, path, '/', re) == Go(next)
    ensures Scan(s, path, '/', re) == Scan(next, path, '/', re)
  {
    hide NextMove;
  }

  lemma ScanEnd(s: Scanner, nodes: seq<PatternNode>, path: string, re: Engine)
    requires ScannerOk(s, path) && NextMove(s, path, '/', re) == Done(nodes)
    ensures Scan(s, path, '/', re) == Some(nodes)
  {
    hide NextMove;
  }

  /** Braces opened and not closed again. */
  function Depth(s: string): int {
    if s == "" then 0
    else
      var c := s[|s| - 1];
      Depth(s[..|s| - 1]) + if c == '{' then 1 else if c == '}' then -1 else 0
  }

  /** All braces inside are closed inside. */
  predicate Balanced(s: string) { Depth(s) == 0 && forall k :: 0 <= k <= |s| ==> Depth(s[..k]) >= 0 }

  lemma {:induction false} PlainDepth(s: string)
    requires '{' !in s && '}' !in s
    ensures Depth(s) == 0
    decreases |s|
  {
    if s != "" { PlainDepth(s[..|s| - 1]); }
  }

  lemma PlainBalanced(s: string)
    requires '{' !in s && '}' !in s
    ensures Balanced(s)
  {
    PlainDepth(s);
    forall k | 0 <= k <= |s| ensures Depth(s[..k]) >= 0 { PlainDepth(s[..k]); }
  }

  lemma {:induction false} DepthAppend(a: string, b: string)
    ensures Depth(a + b) == Depth(a) + Depth(b)
    decreases |b|
  {
    if b == "" {
      assert a + b == a;
    } else {
      assert (a + b)[..|a + b| - 1] == a + b[..|b| - 1];
      DepthAppend(a, b[..|b| - 1]);
    }
  }

  lemma BalancedAppend(a: string, b: string)
    requires Balanced(a) && Balanced(b)
    ensures Balanced(a + b)
  {
    DepthAppend(a, b);
    forall k | 0 <= k <= |a + b| ensures Depth((a + b)[..k]) >= 0 {
      if k <= |a| {
        assert (a + b)[..k] == a[..k];
      } else {
        assert (a + b)[..k] == a + b[..k - |a|];
        DepthAppend(a, b[..k - |a|]);
      }
    }
  }

  lemma {:induction false} BracketCloses(path: string, i: nat, content: string, k: nat)
    requires i + |content| < |path| && path[i..i + |content|] == content && path[i + |content|] == '}'
    requires Balanced(content) && k <= |content|
    ensures Depth(content[..k]) >= 0 && CloseBracket(path, i + k, 1 + Depth(content[..k])) == i + |content| + 1
    decreases |content| - k
  {
    if k < |content| {
      assert content[..k + 1][..k] == content[..k] && path[i + k] == path[i..i + |content|][k];
      BracketCloses(path, i, content, k + 1);
    } else {
      assert content[..k] == content;
    }
  }

  lemma BracketChars(path: string, i: nat, content: string, rest: string)
    requires i <= |path| && path[i..] == "{" + content + "}" + rest
    ensures |path| == i + |content| + 2 + |rest| && path[i] == '{' && path[i + |content| + 1] == '}'
    ensures forall k {:trigger path[k]} :: i + 1 <= k < i + |content| + 1 ==> path[k] == content[k - i - 1]
  {
    var tail := path[i..];
    assert forall k {:trigger path[k]} :: i <= k < |path| ==> path[k] == tail[k - i];
  }

  /** What the text of a pattern says about its next variable. */
  lemma BracketAt(path: string, i: nat, content: string, rest: string)
    requires i <= |path| && path[i..] == "{" + content + "}" + rest && Balanced(content)
    ensures |path| == i + |content| + 2 + |rest| && path[i] == '{'
    ensures CloseBracket(path, i + 1, 1) == i + |content| + 2 && path[i + 1..i + |content| + 1] == content
  {
    hide *;
    BracketChars(path, i, content, rest);
    ContentAt(path, i, content, rest);
    BracketCloses(path, i + 1, content, 0);
    NoDepth(content);
  }

  lemma ContentAt(path: string, i: nat, content: string, rest: string)
    requires i <= |path| && path[i..] == "{" + content + "}" + rest
    ensures i + |content| + 2 <= |path| && path[i + 1..i + 1 + |content|] == content
  {
    BracketChars(path, i, content, rest);
  }

  lemma NoDepth(content: string)
    ensures content[..0] == "" && Depth(content[..0]) == 0
  {
  }

  /** A variable that is a whole last segment becomes a node of level two. */
  lemma LastVariable(s: Scanner, path: string, content: string, key: Key, re: Engine)
    requires ScannerOk(s, path) && s.i < |path| && s.level == 0 && s.target == -1 && s.start < s.i
    requires path[s.i..] == "{" + content + "}" && Balanced(content)
    requires BracketKey(content, re) == Some(key)
    ensures Scan(s, path, '/', re) == Some(Flushed(s, path) + [PatternNode(key, 2)])
  {
    hide Scan, NextMove, Flushed, BracketKey;
    var added := Flushed(s, path) + [PatternNode(key, 2)];
    var last := Scanner(|path|, |path|, 0, -1, added);
    LastBracket(s, path, content, key, re);
    AtEnd(last, path, re);
    ScanOn(s, last, path, re);
    ScanEnd(last, added, path, re);
  }

  lemma LastBracket(s: Scanner, path: string, content: string, key: Key, re: Engine)
    requires ScannerOk(s, path) && s.i < |path| && s.level == 0 && s.target == -1 && s.start < s.i
    requires path[s.i..] == "{" + content + "}" && Balanced(content)
    requires BracketKey(content, re) == Some(key)
    ensures NextMove(s, path, '/', re) ==
            Go(Scanner(|path|, |path|, 0, -1, Flushed(s, path) + [PatternNode(key, 2)]))
  {
    hide Flushed, BracketKey, CloseBracket;
    assert path[s.i..] == "{" + content + "}" + "";
    BracketAt(path, s.i, content, "");
    var flushed := Flushed(s, path);
    var first := PatternNode(key, if key.kind == Regexp then 0 else 1);
    assert SetLevel(flushed + [first], |flushed|, 2) == flushed + [PatternNode(key, 2)];
  }

  lemma AtEnd(s: Scanner, path: string, re: Engine)
    requires s.i == s.start == |path| && s.target == -1 && s.level == 0
    ensures NextMove(s, path, '/', re) == Done(s.nodes)
  {
  }

  /** A delimiter ends the static text before it, any other plain character belongs to it. */
  lemma PlainMove(s: Scanner, path: string, re: Engine)
    requires ScannerOk(s, path) && s.i < |path| && path[s.i] != '{' && path[s.i] != '*'
    ensures NextMove(s, path, '/', re) ==
            Go(if path[s.i] == '/' then Scanner(s.i + 1, s.i, 0, -1, Flushed(s, path)) else s.(i := s.i + 1))
  {
  }

  lemma PlainName(name: string, re: Engine)
    requires forall c :: c in name ==> IsAlpha(c)
    ensures BracketKey(name, re) == Some(VariantKey(name, AllType, []))
  {
    assert IndexByte(name, ':') < 0;
    assert IndexByte("", '[') < 0;
    assert !ContainsAny(name, "()[]|*+?.") by { assert forall i :: 0 <= i < |name| ==> name[i] in name; }
    assert SplitBracket(name) == (name, "", "");
  }

  /** `/x/{id}` is two static texts and a variable. */
  lemma IdPattern(p: string, re: Engine)
    requires p == "/x/{id}"
    ensures Parse(p, '/', re) ==
            Some([PatternNode(StaticKey("/x"), 0), PatternNode(StaticKey("/"), 0),
                  PatternNode(VariantKey("id", AllType, []), 2)])
  {
    hide NextMove, Scan;
    var x := [PatternNode(StaticKey("/x"), 0)];
    assert p[0..2] == "/x" && p[2..3] == "/" && p[3..] == "{" + "id" + "}";
    var s0, s1, s2, s3 := Scanner(0, 0, 0, -1, []), Scanner(1, 0, 0, -1, []), Scanner(2, 0, 0, -1, []),
        Scanner(3, 2, 0, -1, x);
    PlainMove(s0, p, re);
    PlainMove(s1, p, re);
    PlainMove(s2, p, re);
    assert Flushed(s2, p) == x;
    assert Flushed(s3, p) + [PatternNode(VariantKey("id", AllType, []), 2)] ==
           [PatternNode(StaticKey("/x"), 0), PatternNode(StaticKey("/"), 0),
            PatternNode(VariantKey("id", AllType, []), 2)];
    PlainName("id", re);
    PlainBalanced("id");
    LastVariable(s3, p, "id", VariantKey("id", AllType, []), re);
    ScanOn(s2, s3, p, re);
    ScanOn(s1, s2, p, re);
    ScanOn(s0, s1, p, re);
    assert Normal(p, '/') == p;
  }

  /** `/{name}` is a static text and a variable. */
  lemma NamePattern(p: string, re: Engine)
    requires p == "/{name}"
    ensures Parse(p, '/', re) ==
            Some([PatternNode(StaticKey("/"), 0), PatternNode(VariantKey("name", AllType, []), 2)])
  {
    hide NextMove, Scan;
    assert p[0..1] == "/" && p[1..] == "{" + "name" + "}";
    var s0, s1 := Scanner(0, 0, 0, -1, []), Scanner(1, 0, 0, -1, []);
    PlainMove(s0, p, re);
    assert Flushed(s1, p) + [PatternNode(VariantKey("name", AllType, []), 2)] ==
           [PatternNode(StaticKey("/"), 0), PatternNode(VariantKey("name", AllType, []), 2)];
    PlainName("name", re);
    PlainBalanced("name");
    LastVariable(s1, p, "name", VariantKey("name", AllType, []), re);
    ScanOn(s0, s1, p, re);
    assert Normal(p, '/') == p;
  }

  /** `/a*` followed by `/z` is a static text, a wildcard and a static text. */
  lemma StarPattern(p: string, re: Engine)
    requires p == "/a*" + "/z"
    ensures Parse(p, '/', re) ==
            Some([PatternNode(StaticKey("/a"), 0), PatternNode(Key(Any, "*", Unset, [], None), -1),
                  PatternNode(StaticKey("/z"), 0)])
  {
    hide Scan;
    var star := [PatternNode(StaticKey("/a"), 0), PatternNode(Key(Any, "*", Unset, [], None), -1)];
    var all := star + [PatternNode(StaticKey("/z"), 0)];
    assert p == "/a*/z" && p[0..2] == "/a" && p[2..3] == "*" && p[3..5] == "/z" && AlnumEnd(p, 3) == 3;
    var s0, s1, s2 := Scanner(0, 0, 0, -1, []), Scanner(1, 0, 0, -1, []), Scanner(2, 0, 0, -1, []);
    var s3, s4, s5 := Scanner(3, 3, 0, -1, star), Scanner(4, 3, 0, -1, star), Scanner(5, 3, 0, -1, star);
    assert NextMove(s2, p, '/', re) == Go(s3) && NextMove(s5, p, '/', re) == Done(all);
    hide NextMove;
    PlainMove(s0, p, re);
    PlainMove(s1, p, re);
    PlainMove(s3, p, re);
    PlainMove(s4, p, re);
    assert all == [PatternNode(StaticKey("/a"), 0), PatternNode(Key(Any, "*", Unset, [], None), -1),
                   PatternNode(StaticKey("/z"), 0)];
    ScanEnd(s5, all, p, re);
    ScanOn(s4, s5, p, re);
    ScanOn(s3, s4, p, re);
    ScanOn(s2, s3, p, re);
    ScanOn(s1, s2, p, re);
    ScanOn(s0, s1, p, re);
    assert Normal(p, '/') == p;
  }

  // ---- the trees of one pattern ----

  /** The nodes of a parsed pattern hung below each other, the last one with the route. */
  function Branch(n: Node, ps: seq<PatternNode>, r: Route): Node
    decreases |ps|
  {
    if ps == [] then n.(route := Some(r))
    else n.(children := [Branch(Node(ps[0].key, ps[0].level, None, []), ps[1..], r)])
  }

  lemma BranchRoot(n: Node, ps: seq<PatternNode>, r: Route)
    ensures SameOrder(n, Branch(n, ps, r))
  {
  }

  /** These keys may follow a node with this key. */
  ghost predicate MayFollow(k: Key, ps: seq<PatternNode>) {
    && AllOk(ps, '/') && (ps != [] && k.kind != Static ==> ps[0].key.kind == Static)
    && forall i :: 0 <= i < |ps| - 1 ==> ps[i].key.kind == Static || ps[i + 1].key.kind == Static
  }

  lemma AcceptableFollows(r: Route, re: Engine)
    requires Acceptable(r, re)
    ensures MayFollow(RootKey, PatternNodes(r.path, '/', re)) && PatternNodes(r.path, '/', re) != []
  {
    var ps := PatternNodes(r.path, '/', re);
    ParseKeysOk(r.path, '/', re);
    hide Parse;
    var ks := KeysOf(ps);
    forall i | 0 <= i < |ps| - 1 ensures ps[i].key.kind == Static || ps[i + 1].key.kind == Static {
      assert ks[i].kind == Static || ks[i + 1].kind == Static;
    }
  }

  lemma FollowsOn(k: Key, ps: seq<PatternNode>)
    requires MayFollow(k, ps) && ps != []
    ensures MayFollow(ps[0].key, ps[1..]) && KeyOk(ps[0].key, '/')
  {
    assert forall i :: 0 <= i < |ps[1..]| ==> ps[1..][i] == ps[i + 1];
  }

  /** Such a branch is what inserting its pattern into a bare node gives. */
  lemma {:induction false} BranchInserted(n: Node, ps: seq<PatternNode>, r: Route)
    requires n.children == [] && n.route.None? && MayFollow(n.key, ps)
    ensures Inserted(n, Branch(n, ps, r), ps, r, '/') && Strict(Branch(n, ps, r))
    decreases |ps|
  {
    if ps == [] {
      BindInserted(n, r, '/');
    } else {
      BranchBelow(n, ps, r);
      AppendInserted(n, Node(ps[0].key, ps[0].level, None, []), [Node(ps[0].key, ps[0].level, None, [])], 0,
                     Branch(Node(ps[0].key, ps[0].level, None, []), ps[1..], r), ps, r, '/');
    }
  }

  lemma {:induction false} BranchBelow(n: Node, ps: seq<PatternNode>, r: Route)
    requires n.children == [] && n.route.None? && MayFollow(n.key, ps) && ps != []
    ensures var bare := Node(ps[0].key, ps[0].level, None, []);
            var c := Branch(bare, ps[1..], r);
            && WellFormed(bare, '/') && Inserted(bare, c, ps[1..], r, '/') && Strict(c)
            && Rearranged(n.children + [bare], [bare]) && Branch(n, ps, r) == n.(children := [bare][0 := c])
    decreases |ps|, 0
  {
    var bare := Node(ps[0].key, ps[0].level, None, []);
    FollowsOn(n.key, ps);
    BranchInserted(bare, ps[1..], r);
    hide Inserted, Strict;
    assert [] + [bare] == [bare];
  }

  // ---- the order of siblings ----

  /** The order of all siblings is decided. */
  ghost predicate Strict(n: Node)
    decreases n
  {
    && (forall i, j :: 0 <= i < j < |n.children| ==> Less(n.children[i], n.children[j]))
    && forall i :: 0 <= i < |n.children| ==> Strict(n.children[i])
  }

  /** Siblings in a decided order have no other sorted order. */
  lemma {:induction false} OneOrder(cs: seq<Node>, ds: seq<Node>)
    requires DistinctKeys(cs) && DistinctKeys(ds) && Sorted(ds) && forall x :: x in cs <==> x in ds
    requires forall i, j :: 0 <= i < j < |cs| ==> Less(cs[i], cs[j])
    ensures cs == ds
    decreases |cs|
  {
    BothEmpty(cs, ds);
    if cs != [] {
      var i :| 0 <= i < |ds| && ds[i] == cs[0];
      assert ds[0] in cs;
      var j :| 0 <= j < |cs| && cs[j] == ds[0];
      BothFirst(cs, ds, j, i);
      forall x ensures x in cs[1..] <==> x in ds[1..] {
        RestWithout(cs, x);
        RestWithout(ds, x);
      }
      OneOrder(cs[1..], ds[1..]);
    }
  }

  lemma BothEmpty(cs: seq<Node>, ds: seq<Node>)
    requires forall x :: x in cs <==> x in ds
    ensures cs == [] <==> ds == []
    ensures cs != [] ==> cs[0] in ds
  {
    assert (cs != [] ==> cs[0] in cs) && (ds != [] ==> ds[0] in ds);
  }

  lemma BothFirst(cs: seq<Node>, ds: seq<Node>, j: nat, i: nat)
    requires Sorted(ds) && forall i, j :: 0 <= i < j < |cs| ==> Less(cs[i], cs[j])
    requires j < |cs| && i < |ds| && cs[j] == ds[0] && ds[i] == cs[0]
    ensures ds[0] == cs[0]
  {
  }

  lemma RestWithout(cs: seq<Node>, x: Node)
    requires DistinctKeys(cs) && cs != []
    ensures x in cs[1..] <==> x in cs && x != cs[0]
  {
    if x in cs[1..] {
      var i :| 0 <= i < |cs[1..]| && cs[1..][i] == x;
      assert cs[i + 1] == x;
    }
  }

  lemma ChildSpots(a: Node, b: Node, i: nat, q: seq<Key>)
    requires DistinctKeys(a.children) && i < |a.children| && forall p :: At(a, p) == At(b, p)
    ensures var j := ChildIndex(b.children, a.children[i].key);
            j >= 0 && At(a.children[i], q) == At(b.children[j], q)
  {
    var k := a.children[i].key;
    ChildIndexUnique(a.children, i);
    SpotBelow(a, [k]);
    SpotBelow(b, [k]);
    SpotBelow(a, [k] + q);
    SpotBelow(b, [k] + q);
    RootSpot(a.children[i]);
    hide At, ChildIndex;
    assert ([k] + q)[1..] == q && [k][1..] == [];
    assert At(a, [k]) == At(b, [k]) && At(a, [k] + q) == At(b, [k] + q);
  }

  /** Where the order of siblings is decided, the spots decide the whole tree. */
  lemma {:induction false} SpotsDecide(a: Node, b: Node)
    requires KidsOk(a, '/') && KidsOk(b, '/') && a.key == b.key && Strict(a) && forall q :: At(a, q) == At(b, q)
    ensures a == b
    decreases a
  {
    RootSpot(a);
    RootSpot(b);
    assert At(a, []) == At(b, []);
    forall i | 0 <= i < |a.children| ensures a.children[i] in b.children {
      ChildSpots(a, b, i, []);
      var j := ChildIndex(b.children, a.children[i].key);
      forall q ensures At(a.children[i], q) == At(b.children[j], q) { ChildSpots(a, b, i, q); }
      assert WellFormed(a.children[i], '/') && WellFormed(b.children[j], '/');
      SpotsDecide(a.children[i], b.children[j]);
    }
    forall j | 0 <= j < |b.children| ensures b.children[j] in a.children {
      ChildSpots(b, a, j, []);
      var i := ChildIndex(a.children, b.children[j].key);
      assert a.children[i] in b.children;
      ChildIndexUnique(b.children, j);
      var k :| 0 <= k < |b.children| && b.children[k] == a.children[i];
      ChildIndexUnique(b.children, k);
    }
    hide At, Strict, WellFormed;
    OneOrder(a.children, b.children);
  }

  // ---- registered trees ----

  /** Registering a first route builds exactly the branch of its pattern, under each of its methods. */
  lemma FirstRoute(t: Table, r: Route, m: string, re: Engine)
    requires TableOk(t) && Acceptable(r, re) && Added(map[], t, r, r.methods, PatternNodes(r.path, '/', re))
    requires Registers(r.methods, m)
    ensures RootOf(t, m) == Branch(EmptyRoot, PatternNodes(r.path, '/', re), r)
  {
    var ps := PatternNodes(r.path, '/', re);
    AcceptableFollows(r, re);
    hide PatternNodes, Acceptable;
    BranchInserted(EmptyRoot, ps, r);
    assert Grown(EmptyRoot, RootOf(t, m), ps, r);
    EmptyRootOk();
    SpotsDecide(Branch(EmptyRoot, ps, r), RootOf(t, m));
  }

  /** With only `/x/{id}` registered, a request for `/x/` panics. */
  lemma IdTreePanics(t: Table, r: Route, re: Engine)
    requires r.path == "/x/{id}" && Registers(r.methods, "GET")
    requires TableOk(t) && Added(map[], t, r, r.methods, PatternNodes(r.path, '/', re))
    ensures Acceptable(r, re) && MatchRequest(t, "GET", "/x/", re).Panic?
  {
    IdPattern(r.path, re);
    var ps := PatternNodes(r.path, '/', re);
    var ks := KeysOf(ps);
    assert ks[0].kind == Static && ks[1].kind == Static && |ks| == 3;
    hide Parse;
    FirstRoute(t, r, "GET", re);
    TrailingSlashPanics(r, re);
    IdBranch(ps, r);
  }

  lemma IdBranch(ps: seq<PatternNode>, r: Route)
    requires ps == [PatternNode(StaticKey("/x"), 0), PatternNode(StaticKey("/"), 0),
                    PatternNode(VariantKey("id", AllType, []), 2)]
    ensures var slash := StaticNode("/", None, [VariantNode("id", Some(r))]);
            Branch(EmptyRoot, ps, r) == StaticNode("", None, [StaticNode("/x", None, [slash])])
  {
    var v := Node(ps[2].key, 2, None, []);
    var slash := Node(ps[1].key, 0, None, []);
    var x := Node(ps[0].key, 0, None, []);
    assert ps[1..][1..] == [ps[2]] && ps[1..][0] == ps[1] && [ps[2]][1..] == [];
    assert Branch(v, [], r) == VariantNode("id", Some(r));
    assert Branch(slash, [ps[2]], r) == StaticNode("/", None, [VariantNode("id", Some(r))]);
    assert Branch(x, ps[1..], r) == StaticNode("/x", None, [StaticNode("/", None, [VariantNode("id", Some(r))])]);
  }

  /** A second pattern whose first node is new and sorted behind the first hangs below its own branch. */
  lemma SecondRoute(t: Table, t': Table, ps: seq<PatternNode>, r1: Route, r2: Route, m: string, re: Engine)
    requires TableOk(t) && TableOk(t') && Registers(r2.methods, m) && Acceptable(r2, re)
    requires Added(t, t', r2, r2.methods, PatternNodes(r2.path, '/', re))
    requires RootOf(t, m) == Branch(EmptyRoot, ps, r1) && MayFollow(RootKey, ps) && ps != []
    requires var p, q := ps[0], PatternNodes(r2.path, '/', re)[0];
             p.key != q.key && Less(Node(p.key, p.level, None, []), Node(q.key, q.level, None, []))
    ensures var qs := PatternNodes(r2.path, '/', re);
            qs != [] && RootOf(t', m) == EmptyRoot.(children := [
              Branch(Node(ps[0].key, ps[0].level, None, []), ps[1..], r1),
              Branch(Node(qs[0].key, qs[0].level, None, []), qs[1..], r2)])
  {
    var qs := PatternNodes(r2.path, '/', re);
    AcceptableFollows(r2, re);
    hide PatternNodes, Acceptable;
    var n, bare := Branch(EmptyRoot, ps, r1), Node(qs[0].key, qs[0].level, None, []);
    var x, y := n.children[0], Branch(bare, qs[1..], r2);
    BranchInserted(EmptyRoot, ps, r1);
    BranchBelow(EmptyRoot, qs, r2);
    BranchRoot(Node(ps[0].key, ps[0].level, None, []), ps[1..], r1);
    BranchRoot(bare, qs[1..], r2);
    SecondChild(n, x, bare, y, qs, r2);
    var c := n.(children := [x, y]);
    assert Grown(n, RootOf(t', m), qs, r2);
    SpotsDecide(c, RootOf(t', m));
  }

  lemma SecondChild(n: Node, x: Node, bare: Node, y: Node, qs: seq<PatternNode>, r: Route)
    requires n.children == [x] && KidsOk(n, '/') && Strict(n) && n.key.kind == Static && qs != []
    requires bare == Node(qs[0].key, qs[0].level, None, []) && WellFormed(bare, '/') && Less(x, bare)
    requires x.key != bare.key
    requires Inserted(bare, y, qs[1..], r, '/') && Strict(y)
    ensures var c := n.(children := [x, y]); Inserted(n, c, qs, r, '/') && Strict(c)
  {
    hide Inserted, Strict, WellFormed;
    assert [x] + [bare] == [x, bare] && [x, bare][1 := y] == [x, y];
    assert DistinctKeys([x, bare]) && Sorted([x, bare]) && Rearranged([x, bare], [x, bare]);
    assert n.children[1..] == [];
    AppendInserted(n, bare, [x, bare], 1, y, qs, r, '/');
    StrictPair(n, x, y) by { YOrder(bare, y, qs, r); }
  }

  lemma YOrder(bare: Node, y: Node, qs: seq<PatternNode>, r: Route)
    requires qs != [] && Inserted(bare, y, qs[1..], r, '/')
    ensures SameOrder(bare, y)
  {
  }

  lemma StrictPair(n: Node, x: Node, y: Node)
    requires n.children == [x] && Strict(n) && Strict(y) && Less(x, y)
    ensures Strict(n.(children := [x, y]))
  {
    assert Strict(n.children[0]);
  }

  /** With the wildcard pattern registered before `/{name}`, a request for `/ab` is answered by the second route with a
      parameter of the first in front. */
  lemma StaleTreeRegistered(t1: Table, t2: Table, r1: Route, r2: Route, re: Engine)
    requires r1.path == "/a*" + "/z" && r2.path == "/{name}"
    requires Registers(r1.methods, "GET") && Registers(r2.methods, "GET") && TableOk(t1) && TableOk(t2)
    requires Added(map[], t1, r1, r1.methods, PatternNodes(r1.path, '/', re))
    requires Added(t1, t2, r2, r2.methods, PatternNodes(r2.path, '/', re))
    ensures Acceptable(r1, re) && Acceptable(r2, re)
    ensures MatchRequest(t2, "GET", "/ab", re) == Found(r2, [Param("", "b"), Param("name", "ab")])
  {
    StarPattern(r1.path, re);
    NamePattern(r2.path, re);
    var ps, qs := PatternNodes(r1.path, '/', re), PatternNodes(r2.path, '/', re);
    assert KeysOf(ps)[0] == ps[0].key && KeysOf(ps)[2] == ps[2].key && KeysOf(qs)[0] == qs[0].key;
    assert Acceptable(r1, re) && Acceptable(r2, re);
    AcceptableFollows(r1, re);
    hide Parse, MatchFrom, Added, TableOk, MayFollow;
    FirstRoute(t1, r1, "GET", re);
    SecondRoute(t1, t2, ps, r1, r2, "GET", re);
    StarBranches(ps, qs, r1, r2);
    StaleParameter(r1, r2, re);
  }

  lemma StarBranches(ps: seq<PatternNode>, qs: seq<PatternNode>, r1: Route, r2: Route)
    requires ps == [PatternNode(StaticKey("/a"), 0), PatternNode(Key(Any, "*", Unset, [], None), -1),
                    PatternNode(StaticKey("/z"), 0)]
    requires qs == [PatternNode(StaticKey("/"), 0), PatternNode(VariantKey("name", AllType, []), 2)]
    ensures var wild := Node(Key(Any, "*", Unset, [], None), -1, None, [StaticNode("/z", Some(r1), [])]);
            && Branch(Node(ps[0].key, 0, None, []), ps[1..], r1) == StaticNode("/a", None, [wild])
            && Branch(Node(qs[0].key, 0, None, []), qs[1..], r2) ==
               StaticNode("/", None, [VariantNode("name", Some(r2))])
  {
    assert ps[1..][1..] == [ps[2]] && ps[1..][0] == ps[1] && [ps[2]][1..] == [] && qs[1..] == [qs[1]]
           && [qs[1]][1..] == [];
    assert Branch(Node(ps[2].key, 0, None, []), [], r1) == StaticNode("/z", Some(r1), []);
    assert Branch(Node(qs[1].key, 2, None, []), [], r2) == VariantNode("name", Some(r2));
    assert Branch(Node(ps[1].key, -1, None, []), [ps[2]], r1) ==
           Node(Key(Any, "*", Unset, [], None), -1, None, [StaticNode("/z", Some(r1), [])]);
  }
}
