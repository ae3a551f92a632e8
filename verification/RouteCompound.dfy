/** Two variables in one segment, such as `{from}-{to}`: how the segment is split, and who answers when a single
    variable is registered beside them. */
module RouteCompound {
  import opened Text
  import opened RouteNodes
  import opened RoutePattern
  import opened RouteTable
  import opened RouteExamples
  import opened RouteVariables
  import opened RouteTypes
  import opened RoutePriority

  // ---- parsing ----

  /** A text between two variables of a segment. */
  predicate Separator(sep: string) {
    sep != "" && '/' !in sep && '{' !in sep && '}' !in sep && '*' !in sep
  }

  /** Plain characters belong to the pending text. */
  lemma {:induction false} PlainRun(s: Scanner, path: string, to: nat, re: Engine)
    requires ScannerOk(s, path) && s.i <= to <= |path|
    requires forall k :: s.i <= k < to ==> path[k] != '/' && path[k] != '{' && path[k] != '*'
    ensures ScannerOk(s.(i := to), path) && Scan(s, path, '/', re) == Scan(s.(i := to), path, '/', re)
    decreases |path| - s.i
  {
    hide NextMove, Scan;
    if s.i < to {
      PlainMove(s, path, re);
      ScanOn(s, s.(i := s.i + 1), path, re);
      PlainRun(s.(i := s.i + 1), path, to, re);
    }
  }

  function CompoundTail(sep: string, kb: Key): seq<PatternNode> {
    [PatternNode(StaticKey(sep), 0), PatternNode(kb, 2)]
  }

  /** The first variable of the segment gets the level of them all. */
  lemma CompoundAfter(p: string, a: string, ka: Key, sep: string, b: string, kb: Key, re: Engine)
    requires Prefix(p) && Separator(sep) && Balanced(a) && Balanced(b)
    requires BracketKey(a, re) == Some(ka) && BracketKey(b, re) == Some(kb) && ka.kind == kb.kind == Variant
    ensures Parse(p + ("{" + a + "}" + (sep + "{" + b + "}")), '/', re) ==
            Some(PatternNodes(p, '/', re) + [PatternNode(ka, 3)] + CompoundTail(sep, kb))
  {
    hide Scan, NextMove, Flushed, BracketKey, PatternNodes, Normal, Parse;
    var rest := sep + "{" + b + "}";
    var text := "{" + a + "}" + rest;
    var f := AfterPrefix(p, text, re);
    var path, ps := Normal(p, '/') + text, PatternNodes(p, '/', re);
    assert path[f.i..] == text;
    FirstBracket(f, path, a, ka, rest, re);
    var close := f.i + |a| + 2;
    assert path[close..] == rest;
    SeparatorAhead(path, close, sep, "{" + b + "}");
    var s1 := Scanner(close, close, 1, |ps|, ps + [PatternNode(ka, 1)]);
    ScanOn(f, s1, path, re);
    PlainRun(s1, path, close + |sep|, re);
    SecondBracket(s1.(i := close + |sep|), path, |ps|, ka, sep, b, kb, re);
  }

  lemma SeparatorAhead(path: string, i: nat, sep: string, rest: string)
    requires i <= |path| && path[i..] == sep + rest && Separator(sep)
    ensures i + |sep| <= |path| && path[i..i + |sep|] == sep && path[i + |sep|..] == rest && path[i] != '/'
            && i < |path|
    ensures forall k {:trigger path[k]} :: i <= k < i + |sep| ==> path[k] != '/' && path[k] != '{' && path[k] != '*'
  {
    var tail := path[i..];
    assert forall k {:trigger path[k]} :: i <= k < i + |sep| ==> path[k] == tail[k - i] == sep[k - i];
    assert forall k :: 0 <= k < |sep| ==> sep[k] in sep;
    assert tail[|sep|..] == rest && tail[..|sep|] == sep;
  }

  lemma SecondBracket(s: Scanner, path: string, at: nat, ka: Key, sep: string, b: string, kb: Key, re: Engine)
    requires ScannerOk(s, path) && s.level == 1 && s.target == at == |s.nodes| - 1 && s.start < s.i
    requires s.nodes[at] == PatternNode(ka, 1) && path[s.start..s.i] == sep && path[s.i..] == "{" + b + "}"
    requires Balanced(b) && BracketKey(b, re) == Some(kb) && kb.kind == Variant
    ensures Scan(s, path, '/', re) == Some(s.nodes[..at] + [PatternNode(ka, 3)] + CompoundTail(sep, kb))
  {
    hide BracketKey, CloseBracket, Scan;
    assert path[s.i..] == "{" + b + "}" + "";
    BracketAt(path, s.i, b, "");
    var done := s.nodes[..at] + [PatternNode(ka, 3)] + CompoundTail(sep, kb);
    var added := s.nodes + [PatternNode(StaticKey(sep), 0)] + [PatternNode(kb, 2)];
    assert SetLevel(added, at, 3) == done;
    var last := Scanner(|path|, |path|, 0, -1, done);
    assert NextMove(s, path, '/', re) == Go(last);
    AtEnd(last, path, re);
    hide NextMove;
    ScanOn(s, last, path, re);
    ScanEnd(last, done, path, re);
  }

  // ---- searching the segment ----

  function CompoundNode(ka: Key, sep: string, kb: Key, r: Route): (n: Node)
    ensures n == Branch(Bare(PatternNode(ka, 3)), CompoundTail(sep, kb), r)
  {
    var tail := CompoundTail(sep, kb);
    assert tail[1..] == [tail[1]] && tail[1..][1..] == [];
    var inner := Node(StaticKey(sep), 0, None, [Leaf(PatternNode(kb, 2), r)]);
    assert inner == Branch(Bare(tail[0]), tail[1..], r);
    Node(ka, 3, None, [inner])
  }

  /** The segment is split at the first separator. Nothing need stand in front of it, but something must follow it. */
  function SplitAnswer(a: string, sep: string, b: string, s: string, r: Route, otherwise: Matched): Matched {
    var i := Index(s, sep);
    if i < 0 then otherwise
    else if i + |sep| == |s| then Panic
    else Found(r, [Param(b, s[i + |sep|..]), Param(a, s[..i])])
  }

  /** What the leaf behind the separator does with what is left. */
  lemma BehindSeparator(sep: string, b: string, r: Route, rest: string, re: Engine)
    requires '/' !in rest
    ensures var leaf := Leaf(VariableNode(b), r);
            var r := MatchNode(Node(StaticKey(sep), 0, None, [leaf]), sep + rest, '/', re);
            if rest == "" then r.Fault?
            else r.Hit? && r.end == leaf && Captures(r.steps) == [Param(b, rest)]
  {
    var leaf := Leaf(VariableNode(b), r);
    var n := Node(StaticKey(sep), 0, None, [leaf]);
    StaticWithoutRoute(n, rest, '/', re);
    OnlyKid(n, rest, '/', re);
    if rest != "" { assert rest[0] in rest && MatchKids(leaf, 0, rest, '/', re) == Miss; }
    LeafCapture(leaf, rest);
    assert (":" + b)[1..] == b;
  }

  lemma SplitAt(s: string, sep: string)
    requires Separator(sep)
    ensures var i := Index(s, sep);
            i >= 0 ==> i + |sep| <= |s| && s[i..] == sep + s[i + |sep|..] && s[..i] + s[i..] == s
  {
    var i := Index(s, sep);
    if i >= 0 {
      assert OccursAt(s, sep, i);
      assert s[i..] == s[i..i + |sep|] + s[i + |sep|..];
    }
  }

  lemma CompoundSearch(a: string, sep: string, b: string, r: Route, s: string, re: Engine)
    requires Separator(sep) && s != "" && '/' !in s
    ensures var i := Index(s, sep);
            var found := MatchNode(CompoundNode(VariableNode(a).key, sep, VariableNode(b).key, r), s, '/', re);
            if i < 0 then found.Miss?
            else if i + |sep| == |s| then found.Fault?
            else found.Hit? && found.end.route == Some(r)
                 && Captures(found.steps) == [Param(b, s[i + |sep|..]), Param(a, s[..i])]
  {
    var n, i := CompoundNode(VariableNode(a).key, sep, VariableNode(b).key, r), Index(s, sep);
    var c := n.children[0];
    assert s[0] in s;
    assert MatchNode(n, s, '/', re) == MatchKids(n, 0, s, '/', re) && MatchKids(n, 1, s, '/', re) == Miss;
    SplitAt(s, sep);
    if i < 0 {
      assert Cut(n, c, s, '/', re) == None;
    } else {
      BehindSeparator(sep, b, r, s[i + |sep|..], re);
      assert '/' !in s[..i] && Cut(n, c, s, '/', re) == Some(i);
      hide MatchNode, Index, Cut;
      var inner := MatchNode(c, s[i..], '/', re);
      assert (":" + a)[1..] == a;
      if inner.Hit? {
        assert ([StepAt(n, s, i, '/')] + inner.steps)[1..] == inner.steps;
      }
    }
  }

  lemma CompoundKids(a: string, sep: string, b: string, r: Route, others: seq<Node>, s: string, re: Engine)
    requires Separator(sep) && s != "" && '/' !in s
    ensures var n := CompoundNode(VariableNode(a).key, sep, VariableNode(b).key, r);
            Answer(MatchKids(Over([n] + others), 0, s, '/', re)) ==
            SplitAnswer(a, sep, b, s, r, Answer(MatchKids(Over(others), 0, s, '/', re)))
  {
    var n := CompoundNode(VariableNode(a).key, sep, VariableNode(b).key, r);
    CompoundSearch(a, sep, b, r, s, re);
    hide MatchNode, MatchKids, Index, Captures;
    assert ([n] + others)[1..] == others;
    FirstKid([n] + others, s, '/', re);
  }

  // ---- registered ----

  lemma CompoundText(p: string, a: string, sep: string, b: string)
    ensures p + "{" + a + "}" + sep + "{" + b + "}" == p + ("{" + a + "}" + (sep + "{" + b + "}"))
  {
  }

  lemma CompoundAccepted(r: Route, p: string, a: string, sep: string, b: string, re: Engine)
    requires Prefix(p) && Word(a) && Word(b) && Separator(sep) && r.methods != []
    requires r.path == p + "{" + a + "}" + sep + "{" + b + "}"
    ensures Acceptable(r, re)
    ensures Parse(r.path, '/', re) == Some(PatternNodes(p, '/', re) + [PatternNode(VariableNode(a).key, 3)] +
                                           CompoundTail(sep, VariableNode(b).key))
  {
    PlainContent(a, re);
    PlainContent(b, re);
    CompoundText(p, a, sep, b);
    hide Word, Separator, BracketKey;
    CompoundAfter(p, a, VariableNode(a).key, sep, b, VariableNode(b).key, re);
    PrefixNodes(p, re);
    hide Parse, Prefix, StaticChain;
    CompoundValid(PatternNodes(p, '/', re), VariableNode(a).key, sep, VariableNode(b).key);
  }

  lemma CompoundValid(ps: seq<PatternNode>, ka: Key, sep: string, kb: Key)
    requires forall i :: 0 <= i < |ps| ==> ps[i].key.kind == Static
    ensures ValidKeys(KeysOf(ps + [PatternNode(ka, 3)] + CompoundTail(sep, kb)))
  {
    var all := ps + [PatternNode(ka, 3)] + CompoundTail(sep, kb);
    assert forall i :: 0 <= i < |ps| ==> all[i] == ps[i];
    assert all[|ps| + 1] == PatternNode(StaticKey(sep), 0);
  }

  /** `p{a}sep{b}` alone: a request splits its segment at the first separator. Without one nothing is found, and with
      nothing behind it the search panics. */
  lemma CompoundAlone(t: Table, r: Route, m: string, p: string, a: string, sep: string, b: string, s: string,
                      re: Engine)
    requires FirstRegistered(t, r, m, re) && Prefix(p) && Word(a) && Word(b) && Separator(sep)
    requires r.path == p + "{" + a + "}" + sep + "{" + b + "}" && s != "" && '/' !in s
    ensures MatchRequest(t, m, p + s, re) == SplitAnswer(a, sep, b, s, r, NoRoute)
  {
    var ps, ka, kb := PatternNodes(p, '/', re), VariableNode(a).key, VariableNode(b).key;
    var n := CompoundNode(ka, sep, kb, r);
    assert [n] + [] == [n] && Answer(MatchKids(Over([]), 0, s, '/', re)) == NoRoute;
    hide *;
    HasMethods(r, m);
    CompoundAccepted(r, p, a, sep, b, re);
    ParsedKeys(r.path, re);
    FirstTree(t, r, m, re);
    BranchHung(EmptyRoot, ps, PatternNode(ka, 3), CompoundTail(sep, kb), r);
    NotConnect(t, r, m, re);
    RequestBelow(t, m, p, [n], s, re);
    CompoundKids(a, sep, b, r, [], s, re);
  }

  lemma HasMethods(r: Route, m: string)
    requires Registers(r.methods, m)
    ensures r.methods != []
  {
  }

  lemma NotConnect(t: Table, r: Route, m: string, re: Engine)
    requires FirstRegistered(t, r, m, re)
    ensures m != "CONNECT" && Registers(r.methods, m)
  {
  }

  lemma FirstTree(t: Table, r: Route, m: string, re: Engine)
    requires FirstRegistered(t, r, m, re) && Acceptable(r, re)
    ensures RootOf(t, m) == Branch(EmptyRoot, PatternNodes(r.path, '/', re), r)
  {
    hide Acceptable, Added;
    FirstRoute(t, r, m, re);
  }

  /** With `p{c}` registered besides, in either order, the split comes first; the single variable answers the segments
      without a separator. */
  lemma CompoundOrSingle(t1: Table, t2: Table, rc: Route, rs: Route, compoundFirst: bool, m: string, p: string,
                         a: string, sep: string, b: string, c: string, s: string, re: Engine)
    requires Prefix(p) && Word(a) && Word(b) && Word(c) && Separator(sep) && a != c && m != "CONNECT"
    requires rc.path == p + "{" + a + "}" + sep + "{" + b + "}" && rs.path == p + "{" + c + "}"
    requires Registers(rc.methods, m) && Registers(rs.methods, m) && TableOk(t1) && TableOk(t2)
    requires var (r1, r2) := if compoundFirst then (rc, rs) else (rs, rc);
             && Added(map[], t1, r1, r1.methods, PatternNodes(r1.path, '/', re))
             && Added(t1, t2, r2, r2.methods, PatternNodes(r2.path, '/', re))
    requires s != "" && '/' !in s
    ensures MatchRequest(t2, m, p + s, re) == SplitAnswer(a, sep, b, s, rc, Found(rs, [Param(c, s)]))
  {
    var x, y, tail := PatternNode(VariableNode(a).key, 3), VariableNode(c), CompoundTail(sep, VariableNode(b).key);
    var kids := [CompoundNode(x.key, sep, VariableNode(b).key, rc), Leaf(y, rs)];
    assert Less(kids[0], kids[1]) && x.key.text[1..] == a && y.key.text[1..] == c;
    assert s[0] in s && Accepts(y.key, s) && ParamName(y.key) == c && y.key.kind == Variant;
    assert [kids[0]] + [kids[1]] == kids;
    Joined(p, "{", c);
    Joined(p, "{" + c, "}");
    hide *;
    HasMethods(rc, m);
    HasMethods(rs, m);
    CompoundAccepted(rc, p, a, sep, b, re);
    PlainContent(c, re);
    VariableAfter(p, c, y.key, re);
    OneMoreAcceptable(rs, p, y, re);
    assert PatternNodes(p, '/', re) + [y] + [] == PatternNodes(p, '/', re) + [y];
    if compoundFirst {
      SecondBranch(t1, t2, p, x, tail, y, [], rc, rs, kids, m, re);
    } else {
      SecondBranch(t1, t2, p, y, [], x, tail, rs, rc, kids, m, re);
    }
    RequestBelow(t2, m, p, kids, s, re);
    CompoundKids(a, sep, b, rc, [kids[1]], s, re);
    VariableLeaf(y, rs, s, re);
  }
}
