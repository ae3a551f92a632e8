/** One variable or wildcard behind a static prefix: which node the bracket becomes, and which requests it answers. */
module RouteVariables {
  import opened Text
  import opened RouteNodes
  import opened RoutePattern
  import opened RouteTable
  import opened RouteExamples

  // ---- parsing ----

  /** A pattern without variables that ends where the next segment begins. */
  predicate Prefix(p: string) { p != "" && p[|p| - 1] == '/' && '{' !in p && '*' !in p }

  /** The scanner behind a text without variables. */
  function Front(s: Scanner, p: string): (f: Scanner)
    requires ScannerOk(s, p)
    ensures ScannerOk(f, p) && f.i == |p|
    decreases |p| - s.i
  {
    if s.i == |p| then s
    else Front(if p[s.i] == '/' then Scanner(s.i + 1, s.i, 0, -1, Flushed(s, p)) else s.(i := s.i + 1), p)
  }

  lemma FlushedFront(s: Scanner, p: string, tail: string)
    requires ScannerOk(s, p)
    ensures ScannerOk(s, p + tail) && Flushed(s, p + tail) == Flushed(s, p)
  {
    assert (p + tail)[s.start..s.i] == p[s.start..s.i];
  }

  lemma {:induction false} FrontScan(s: Scanner, p: string, tail: string, re: Engine)
    requires ScannerOk(s, p) && s.level == 0 && s.target == -1 && '{' !in p && '*' !in p
    ensures var f := Front(s, p);
            && f.level == 0 && f.target == -1 && ScannerOk(s, p + tail) && ScannerOk(f, p + tail)
            && Scan(s, p + tail, '/', re) == Scan(f, p + tail, '/', re)
            && (s.i < |p| && p[|p| - 1] == '/' ==> f.start == |p| - 1)
    decreases |p| - s.i
  {
    hide Scan, NextMove, Flushed;
    FlushedFront(s, p, tail);
    if s.i < |p| {
      assert (p + tail)[s.i] == p[s.i] && p[s.i] in p;
      var next := if p[s.i] == '/' then Scanner(s.i + 1, s.i, 0, -1, Flushed(s, p)) else s.(i := s.i + 1);
      PlainMove(s, p + tail, re);
      ScanOn(s, next, p + tail, re);
      FrontScan(next, p, tail, re);
    }
  }

  lemma NormalPrefix(p: string, tail: string)
    requires Prefix(p)
    ensures Normal(p + tail, '/') == Normal(p, '/') + tail && Prefix(Normal(p, '/')) && p + tail != ""
  {
    var np := Normal(p, '/');
    assert forall i :: 0 <= i < |p| ==> p[i] in p;
    if p[0] != '/' { Joined("/", p, tail); }
    assert np[|np| - 1] == p[|p| - 1];
    assert forall c :: c in np ==> c in p || c == '/';
  }

  /** What follows a prefix is scanned behind the prefix's own nodes. */
  lemma AfterPrefix(p: string, tail: string, re: Engine) returns (f: Scanner)
    requires Prefix(p)
    ensures var np := Normal(p, '/');
            && Normal(p + tail, '/') == np + tail && ScannerOk(f, np + tail) && f.level == 0 && f.target == -1
            && f.i == |np| && f.start < f.i && f == Front(Scanner(0, 0, 0, -1, []), np)
            && Parse(p + tail, '/', re) == Scan(f, np + tail, '/', re)
            && Flushed(f, np + tail) == PatternNodes(p, '/', re)
  {
    hide Scan, NextMove, Flush;
    var np := Normal(p, '/');
    NormalPrefix(p, tail);
    NormalPrefix(p, "");
    var s := Scanner(0, 0, 0, -1, []);
    f := Front(s, np);
    FrontScan(s, np, tail, re);
    FrontScan(s, np, "", re);
    assert np + "" == np && p + "" == p;
    FlushedFront(f, np, tail);
    PrefixEnds(f, np, re);
    assert Parse(p, '/', re) == Some(Flushed(f, np));
  }

  lemma PrefixEnds(f: Scanner, p: string, re: Engine)
    requires ScannerOk(f, p) && f.i == |p| && f.target == -1
    ensures Scan(f, p, '/', re) == Some(Flushed(f, p))
  {
  }

  /** A bracket behind a prefix adds the node of its key. */
  lemma VariableAfter(p: string, content: string, key: Key, re: Engine)
    requires Prefix(p) && Balanced(content) && BracketKey(content, re) == Some(key)
    ensures Parse(p + ("{" + content + "}"), '/', re) == Some(PatternNodes(p, '/', re) + [PatternNode(key, 2)])
  {
    hide Scan, NextMove, Flushed, BracketKey, PatternNodes, Normal, Parse;
    var tail := "{" + content + "}";
    var f := AfterPrefix(p, tail, re);
    var path := Normal(p, '/') + tail;
    assert path[f.i..] == tail;
    LastVariable(f, path, content, key, re);
  }

  lemma {:induction false} AlnumTail(path: string, i: nat)
    requires i <= |path| && forall k :: i <= k < |path| ==> IsAlnum(path[k])
    ensures AlnumEnd(path, i) == |path|
    decreases |path| - i
  {
    if i < |path| { AlnumTail(path, i + 1); }
  }

  /** A wildcard behind a prefix adds its node, of level minus one. */
  lemma WildcardAfter(p: string, name: string, re: Engine)
    requires Prefix(p) && forall c :: c in name ==> IsAlnum(c)
    ensures Parse(p + ("*" + name), '/', re) ==
            Some(PatternNodes(p, '/', re) + [PatternNode(Key(Any, "*" + name, Unset, [], None), -1)])
  {
    hide Flushed, PatternNodes, Normal, Parse, Scan;
    var tail := "*" + name;
    var f := AfterPrefix(p, tail, re);
    var path := Normal(p, '/') + tail;
    assert path[f.i] == '*' && path[f.i..] == tail;
    assert forall k :: f.i + 1 <= k < |path| ==> path[k] == name[k - f.i - 1] && path[k] in name;
    AlnumTail(path, f.i + 1);
    hide AlnumEnd;
    assert path[f.i..|path|] == tail;
    assert StarMove(f, path) == Done(Flushed(f, path) + [PatternNode(Key(Any, tail, Unset, [], None), -1)]);
    ScanEnd(f, Flushed(f, path) + [PatternNode(Key(Any, tail, Unset, [], None), -1)], path, re);
  }

  /** The nodes of a prefix are static texts that join to it. */
  lemma PrefixNodes(p: string, re: Engine)
    requires Prefix(p)
    ensures var ps := PatternNodes(p, '/', re);
            && ps != [] && (forall i :: 0 <= i < |ps| ==> ps[i].key.kind == Static)
            && TextOf(KeysOf(ps)) == Normal(p, '/') && StaticChain(KeysOf(ps), '/')
  {
    StaticPattern(p, '/', re);
    var ps := PatternNodes(p, '/', re);
    assert forall i :: 0 <= i < |ps| ==> KeysOf(ps)[i] == ps[i].key;
  }

  lemma PrefixRequest(m: string, p: string, s: string)
    requires Prefix(p) && m != "CONNECT"
    ensures RequestPath(m, p + s) == Normal(p, '/') + s
  {
    NormalPrefix(p, s);
    assert (p + s)[0] == p[0];
    assert p[0] != '/' ==> !("/" <= p + s) && p + s != "/";
    assert p[0] == '/' ==> "/" <= p + s;
  }

  /** A prefix with one more node is an acceptable pattern. */
  lemma OneMoreAcceptable(r: Route, p: string, last: PatternNode, re: Engine)
    requires Prefix(p) && Parse(r.path, '/', re) == Some(PatternNodes(p, '/', re) + [last]) && r.methods != []
    ensures Acceptable(r, re) && PatternNodes(r.path, '/', re) == PatternNodes(p, '/', re) + [last]
  {
    var ps := PatternNodes(p, '/', re);
    PrefixNodes(p, re);
    hide Parse;
    var ks := PatternKeys(r.path, '/', re);
    assert forall i :: 0 <= i < |ks| - 1 ==> ks[i] == ps[i].key;
  }

  // ---- chains of static nodes without routes ----

  function Bare(x: PatternNode): Node { Node(x.key, x.level, None, []) }

  /** The chain of the nodes below `n`, the last one with these children. */
  function Hung(n: Node, ps: seq<PatternNode>, kids: seq<Node>): Node
    decreases |ps|
  {
    if ps == [] then n.(children := kids)
    else n.(children := [Hung(Bare(ps[0]), ps[1..], kids)])
  }

  function Leaf(x: PatternNode, r: Route): (n: Node)
    ensures n == Branch(Bare(x), [], r)
  {
    Node(x.key, x.level, Some(r), [])
  }

  lemma {:induction false} BranchHung(n: Node, ps: seq<PatternNode>, x: PatternNode, xs: seq<PatternNode>, r: Route)
    ensures Branch(n, ps + [x] + xs, r) == Hung(n, ps, [Branch(Bare(x), xs, r)])
    decreases |ps|
  {
    var all := ps + [x] + xs;
    if ps == [] {
      assert all[1..] == xs && all[0] == x;
    } else {
      assert all[1..] == ps[1..] + [x] + xs && all[0] == ps[0];
      BranchHung(Bare(ps[0]), ps[1..], x, xs, r);
    }
  }

  /** The searches end alike and have recorded the same. */
  predicate Alike(a: Search, b: Search) {
    match a
    case Fault => b.Fault?
    case Miss => b.Miss?
    case Hit(e, steps) => b.Hit? && b.end == e && Captures(b.steps) == Captures(steps)
  }

  lemma UncapturedStep(s: Step, steps: seq<Step>)
    requires !s.captured
    ensures Captures([s] + steps) == Captures(steps)
  {
    assert ([s] + steps)[1..] == steps;
  }

  /** A root with these children. */
  function Over(kids: seq<Node>): Node { EmptyRoot.(children := kids) }

  /** A static node hands what follows its text to its children. */
  lemma {:induction false} KidsAlike(n: Node, i: nat, rest: string, d: char, re: Engine)
    requires n.key.kind == Static && i <= |n.children|
    ensures Alike(MatchKids(n, i, n.key.text + rest, d, re), MatchKids(Over(n.children), i, rest, d, re))
    decreases |n.children| - i
  {
    if i < |n.children| {
      StaticKidsStep(n, i, rest, d, re);
      StaticKidsStep(Over(n.children), i, rest, d, re);
      assert "" + rest == rest;
      KidsAlike(n, i + 1, rest, d, re);
      hide MatchKids, MatchNode, Captures;
      var r := MatchNode(n.children[i], rest, d, re);
      if r.Hit? {
        UncapturedStep(Step(n, n.key.text, false), r.steps);
        UncapturedStep(Step(Over(n.children), "", false), r.steps);
      }
    }
  }

  /** A chain without routes is the search among the children of its last node. */
  lemma {:induction false} HungAlike(n: Node, ps: seq<PatternNode>, kids: seq<Node>, rest: string, d: char, re: Engine)
    requires n.key.kind == Static && forall i :: 0 <= i < |ps| ==> ps[i].key.kind == Static
    ensures Alike(MatchKids(Hung(n, ps, kids), 0, n.key.text + (TextOf(KeysOf(ps)) + rest), d, re),
                  MatchKids(Over(kids), 0, rest, d, re))
    decreases |ps|
  {
    if ps == [] {
      assert TextOf(KeysOf(ps)) + rest == rest;
      KidsAlike(n.(children := kids), 0, rest, d, re);
    } else {
      var bare, ks := Bare(ps[0]), KeysOf(ps);
      var h := Hung(n, ps, kids);
      assert KeysOf(ps[1..]) == ks[1..];
      HungAlike(bare, ps[1..], kids, rest, d, re);
      Joined(ks[0].text, TextOf(ks[1..]), rest);
      OnlyKid(h, TextOf(ks) + rest, d, re);
      HungRoot(bare, ps[1..], kids);
      StaticWithoutRoute(h.children[0], TextOf(ks[1..]) + rest, d, re);
    }
  }

  lemma HungRoot(n: Node, ps: seq<PatternNode>, kids: seq<Node>)
    ensures Hung(n, ps, kids).key == n.key && Hung(n, ps, kids).route == n.route
  {
  }

  lemma StaticWithoutRoute(n: Node, rest: string, d: char, re: Engine)
    requires n.key.kind == Static && n.route.None?
    ensures MatchNode(n, n.key.text + rest, d, re) == MatchKids(n, 0, n.key.text + rest, d, re)
  {
  }

  lemma OnlyKid(n: Node, rest: string, d: char, re: Engine)
    requires n.key.kind == Static && |n.children| == 1
    ensures Alike(MatchKids(n, 0, n.key.text + rest, d, re), MatchNode(n.children[0], rest, d, re))
  {
    StaticKidsStep(n, 0, rest, d, re);
    var r := MatchNode(n.children[0], rest, d, re);
    assert MatchKids(n, 1, n.key.text + rest, d, re) == Miss;
    hide MatchKids, MatchNode, Captures;
    if r.Hit? { UncapturedStep(Step(n, n.key.text, false), r.steps); }
  }

  /** What `Match` makes of the only child's search. */
  function Answer(a: Search): Matched {
    match a
    case Fault => Panic
    case Miss => NoRoute
    case Hit(e, steps) => if e.route.Some? then Found(e.route.value, Captures(steps)) else NoRoute
  }

  lemma {:induction false} LaterKids(kids: seq<Node>, i: nat, s: string, d: char, re: Engine)
    requires i < |kids|
    ensures Alike(MatchKids(Over(kids), i + 1, s, d, re), MatchKids(Over(kids[1..]), i, s, d, re))
    decreases |kids| - i
  {
    if i + 1 < |kids| {
      assert "" + s == s && kids[1..][i] == kids[i + 1];
      StaticKidsStep(Over(kids), i + 1, s, d, re);
      StaticKidsStep(Over(kids[1..]), i, s, d, re);
      LaterKids(kids, i + 1, s, d, re);
      hide MatchKids, MatchNode, Captures;
      var r := MatchNode(kids[i + 1], s, d, re);
      if r.Hit? {
        UncapturedStep(Step(Over(kids), "", false), r.steps);
        UncapturedStep(Step(Over(kids[1..]), "", false), r.steps);
      }
    }
  }

  /** The first child answers, or the others do. */
  lemma FirstKid(kids: seq<Node>, s: string, d: char, re: Engine)
    requires kids != []
    ensures Answer(MatchKids(Over(kids), 0, s, d, re)) ==
            var first := MatchNode(kids[0], s, d, re);
            if first.Miss? then Answer(MatchKids(Over(kids[1..]), 0, s, d, re)) else Answer(first)
  {
    assert "" + s == s;
    StaticKidsStep(Over(kids), 0, s, d, re);
    LaterKids(kids, 0, s, d, re);
    hide MatchKids, MatchNode, Captures;
    var r := MatchNode(kids[0], s, d, re);
    if r.Hit? { UncapturedStep(Step(Over(kids), "", false), r.steps); }
  }

  /** In a tree that is one chain, a request behind the prefix is answered by the children of the chain's end. */
  lemma PathBelow(root: Node, p: string, kids: seq<Node>, s: string, d: char, re: Engine)
    requires Prefix(p) && root == Hung(EmptyRoot, PatternNodes(p, '/', re), kids)
    ensures MatchFrom(root, 0, Normal(p, '/') + s, [], d, re) == Answer(MatchKids(Over(kids), 0, s, d, re))
  {
    hide MatchNode, MatchKids, Captures, PatternNodes, Normal;
    var ps, path := PatternNodes(p, '/', re), Normal(p, '/') + s;
    PrefixNodes(p, re);
    HungAlike(EmptyRoot, ps, kids, s, d, re);
    assert "" + path == path;
    OnlyKid(root, path, d, re);
    assert [] + Captures([]) == Captures([]);
    OnlyChild(root, path, d, re);
  }

  lemma RequestBelow(t: Table, m: string, p: string, kids: seq<Node>, s: string, re: Engine)
    requires Prefix(p) && m != "CONNECT" && RootOf(t, m) == Hung(EmptyRoot, PatternNodes(p, '/', re), kids)
    ensures MatchRequest(t, m, p + s, re) == Answer(MatchKids(Over(kids), 0, s, '/', re))
  {
    hide MatchFrom, MatchKids, PatternNodes, Normal, RequestPath, Hung;
    PrefixRequest(m, p, s);
    PathBelow(RootOf(t, m), p, kids, s, '/', re);
  }

  lemma OnlyChild(root: Node, path: string, d: char, re: Engine)
    requires |root.children| == 1
    ensures MatchFrom(root, 0, path, [], d, re) == Answer(MatchNode(root.children[0], path, d, re))
  {
    hide MatchNode, Captures;
    var r := MatchNode(root.children[0], path, d, re);
    if r.Hit? { assert [] + Captures(r.steps) == Captures(r.steps); }
    assert forall q :: MatchFrom(root, 1, path, q, d, re) == NoRoute;
  }
}
