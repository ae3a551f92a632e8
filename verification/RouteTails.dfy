/** Text behind a variable, an expression or a wildcard: where the value ends, for HTTP methods and for CONNECT. */
module RouteTails {
  import opened Text
  import opened RouteNodes
  import opened RoutePattern
  import opened RouteTable
  import opened RouteExamples
  import opened RouteVariables
  import opened RouteTypes
  import opened RoutePriority
  import opened RouteCompound

  /** The last text of a pattern: one static node. */
  predicate Tail(t: string) {
    t != "" && '{' !in t && '}' !in t && '*' !in t && forall i :: 1 <= i < |t| ==> t[i] != '/'
  }

  // ---- parsing ----

  /** The scanner behind a node takes the rest of the pattern as one static text. */
  lemma TailScan(s: Scanner, path: string, t: string, re: Engine)
    requires ScannerOk(s, path) && s.start == s.i < |path| && path[s.i..] == t && Tail(t)
    requires t[0] == '/' ==> s.level == 0 && s.target == -1
    ensures Scan(s, path, '/', re) ==
            Some(SetLevel(s.nodes, s.target, s.level) + [PatternNode(StaticKey(t), 0)])
  {
    TailChars(path, s.i, t);
    var last := s.(i := |path|);
    if t[0] == '/' {
      var next := Scanner(s.i + 1, s.i, 0, -1, s.nodes);
      assert Flushed(s, path) == s.nodes;
      PlainMove(s, path, re);
      ScanOn(s, next, path, re);
      PlainRun(next, path, |path|, re);
      assert next.(i := |path|) == last;
    } else {
      PlainRun(s, path, |path|, re);
    }
    assert path[s.i..|path|] == t;
    hide Scan;
    ScanEnd(last, SetLevel(s.nodes, s.target, s.level) + [PatternNode(StaticKey(t), 0)], path, re);
  }

  lemma TailChars(path: string, i: nat, t: string)
    requires i < |path| && path[i..] == t && Tail(t)
    ensures path[i] == t[0] && path[i] != '{' && path[i] != '*'
    ensures forall k {:trigger path[k]} :: i + 1 <= k < |path| ==> path[k] != '/' && path[k] != '{' && path[k] != '*'
  {
    var tail := path[i..];
    assert forall k {:trigger path[k]} :: i <= k < |path| ==> path[k] == tail[k - i] == t[k - i];
    assert forall k :: 0 <= k < |t| ==> t[k] in t;
  }

  lemma VariableTail(p: string, content: string, key: Key, t: string, re: Engine)
    requires Prefix(p) && Balanced(content) && BracketKey(content, re) == Some(key) && Tail(t)
    ensures exists level :: Parse(p + ("{" + content + "}" + t), '/', re) ==
                            Some(PatternNodes(p, '/', re) + [PatternNode(key, level)] + [PatternNode(StaticKey(t), 0)])
  {
    hide Scan, NextMove, Flushed, BracketKey, PatternNodes, Normal, Parse;
    var text := "{" + content + "}" + t;
    var f := AfterPrefix(p, text, re);
    var path, ps := Normal(p, '/') + text, PatternNodes(p, '/', re);
    assert path[f.i..] == text;
    FirstBracket(f, path, content, key, t, re);
    var close := f.i + |content| + 2;
    assert path[close..] == t && path[close] == t[0];
    var next := NextMove(f, path, '/', re).next;
    ScanOn(f, next, path, re);
    assert next.nodes[..|ps|] == ps && |next.nodes| == |ps| + 1 && next.nodes[|ps|].key == key;
    TailScan(next, path, t, re);
    var nodes := SetLevel(next.nodes, next.target, next.level);
    assert nodes == ps + [PatternNode(key, nodes[|ps|].level)];
  }

  lemma WildcardTail(p: string, w: string, t: string, re: Engine)
    requires Prefix(p) && (forall c :: c in w ==> IsAlnum(c)) && Tail(t) && !IsAlnum(t[0])
    ensures Parse(p + ("*" + w + t), '/', re) ==
            Some(PatternNodes(p, '/', re) + [PatternNode(Key(Any, "*" + w, Unset, [], None), -1)] +
                 [PatternNode(StaticKey(t), 0)])
  {
    hide Flushed, PatternNodes, Normal, Parse, Scan;
    var text := "*" + w + t;
    var f := AfterPrefix(p, text, re);
    var path, end := Normal(p, '/') + text, f.i + 1 + |w|;
    assert path[f.i] == '*' && path[f.i..] == text && path[end..] == t && path[end] == t[0];
    assert forall k :: f.i + 1 <= k < end ==> path[k] == w[k - f.i - 1] && path[k] in w;
    AlnumUntil(path, f.i + 1, end);
    hide AlnumEnd;
    assert path[f.i..end] == "*" + w;
    var next := Scanner(end, end, 0, -1, Flushed(f, path) + [PatternNode(Key(Any, "*" + w, Unset, [], None), -1)]);
    assert StarMove(f, path) == Go(next);
    ScanOn(f, next, path, re);
    TailScan(next, path, t, re);
  }

  lemma {:induction false} AlnumUntil(path: string, i: nat, end: nat)
    requires i <= end < |path| && !IsAlnum(path[end]) && forall k :: i <= k < end ==> IsAlnum(path[k])
    ensures AlnumEnd(path, i) == end
    decreases end - i
  {
    if i < end { AlnumUntil(path, i + 1, end); }
  }

  // ---- searching ----

  function TailLeaf(t: string, r: Route): Node { Node(StaticKey(t), 0, Some(r), []) }

  function TailNode(key: Key, level: int, t: string, r: Route): (n: Node)
    ensures n == Branch(Bare(PatternNode(key, level)), [PatternNode(StaticKey(t), 0)], r)
  {
    var tail := [PatternNode(StaticKey(t), 0)];
    assert tail[1..] == [] && TailLeaf(t, r) == Branch(Bare(tail[0]), tail[1..], r);
    Node(key, level, None, [TailLeaf(t, r)])
  }

  lemma LeafTakes(t: string, r: Route, rest: string, d: char, re: Engine)
    ensures MatchNode(TailLeaf(t, r), rest, d, re) ==
            if rest == t then Hit(TailLeaf(t, r), [Step(TailLeaf(t, r), t, false)]) else Miss
  {
  }

  /** The only child of a node and where its part begins decide what the node answers. */
  lemma TailAnswer(n: Node, t: string, r: Route, s: string, d: char, re: Engine)
    requires n.children == [TailLeaf(t, r)] && n.key.kind != Static && (n.key.kind == Variant ==> s != "")
    ensures var cut := Cut(n, n.children[0], s, d, re);
            var found := MatchKids(n, 0, s, d, re);
            if cut.Some? && s[cut.value..] == t then
              found.Hit? && Answer(found) ==
              Found(r, if n.key.kind == Variant && s[0] == d then [] else [Param(ParamName(n.key), s[..cut.value])])
            else found == Miss
  {
    var cut := Cut(n, n.children[0], s, d, re);
    assert MatchKids(n, 1, s, d, re) == Miss;
    if cut.Some? {
      LeafTakes(t, r, s[cut.value..], d, re);
      hide MatchNode, Cut;
      var step, last := StepAt(n, s, cut.value, d), Step(TailLeaf(t, r), t, false);
      assert [step] + [last] == [step, last] && [step, last][1..] == [last] && [last][1..] == [];
      assert Captures([]) == [] && Captures([last]) == [];
    }
  }

  lemma WildcardTakes(w: string, t: string, r: Route, s: string, d: char, re: Engine)
    requires t != ""
    ensures var n := TailNode(WildcardNode(w).key, -1, t, r);
            Answer(MatchNode(n, s, d, re)) ==
            if HasSuffix(s, t) then Found(r, [Param(w, s[..|s| - |t|])]) else NoRoute
  {
    var n := TailNode(WildcardNode(w).key, -1, t, r);
    assert ("*" + w)[1..] == w;
    TailAnswer(n, t, r, s, d, re);
    LastAtEnd(s, t);
    hide Captures, MatchKids, LastIndex;
  }

  /** What is left behind the last occurrence is nothing exactly at the end. */
  lemma LastAtEnd(s: string, t: string)
    requires t != ""
    ensures var i := LastIndex(s, t);
            && (HasSuffix(s, t) <==> i >= 0 && s[i..] == t)
            && (HasSuffix(s, t) ==> i == |s| - |t|)
  {
    if HasSuffix(s, t) { assert OccursAt(s, t, |s| - |t|); }
  }

  lemma ExpressionTakes(key: Key, level: int, t: string, r: Route, s: string, d: char, re: Engine)
    requires key.kind == Regexp && t != ""
    ensures var i := if d in s then IndexByte(s, d) else Index(s, t);
            Answer(MatchNode(TailNode(key, level, t, r), s, d, re)) ==
            if i >= 0 && Accepted(key, s[..i], re) && s[i..] == t then Found(r, [Param(ParamName(key), s[..i])])
            else NoRoute
  {
    hide Captures, Accepted, IndexByte, Index;
    TailAnswer(TailNode(key, level, t, r), t, r, s, d, re);
    hide MatchKids;
  }

  lemma VariableTakes(key: Key, level: int, t: string, r: Route, s: string, d: char, re: Engine)
    requires key.kind == Variant && t != ""
    ensures var i := Index(s, t);
            Answer(MatchNode(TailNode(key, level, t, r), s, d, re)) ==
            if s == "" then Panic
            else if s[0] == d then (if s == t then Found(r, []) else NoRoute)
            else if i >= 0 && d !in s[..i] && Accepts(key, s[..i]) && s[i..] == t
            then Found(r, [Param(ParamName(key), s[..i])])
            else NoRoute
  {
    hide Captures, Accepts, Index;
    if s != "" {
      TailAnswer(TailNode(key, level, t, r), t, r, s, d, re);
      assert s[0..] == s;
      hide MatchKids;
    }
  }

  // ---- registered ----

  /** The request that a method sees as the prefix and `s`: only for HTTP methods a missing first delimiter is put
      in front. */
  function RequestFor(m: string, p: string, s: string): string {
    if m == "CONNECT" then Normal(p, '/') + s else p + s
  }

  predicate Registered(t: Table, r: Route, m: string, re: Engine) {
    Registers(r.methods, m) && RootOf(t, m) == Branch(EmptyRoot, PatternNodes(r.path, '/', re), r)
  }

  lemma FirstOf(t: Table, r: Route, m: string, re: Engine)
    requires TableOk(t) && Added(map[], t, r, r.methods, PatternNodes(r.path, '/', re)) && Registers(r.methods, m)
    requires Acceptable(r, re)
    ensures Registered(t, r, m, re)
  {
    hide Acceptable, Added;
    FirstRoute(t, r, m, re);
  }

  /** CONNECT requests are split at dots, all others at slashes. */
  lemma MethodDelimiter(t: Table, m: string, p: string, s: string, re: Engine)
    requires Prefix(p)
    ensures MatchRequest(t, m, RequestFor(m, p, s), re) ==
            MatchFrom(RootOf(t, m), 0, Normal(p, '/') + s, [], if m == "CONNECT" then '.' else '/', re)
  {
    if m != "CONNECT" { PrefixRequest(m, p, s); }
    hide MatchFrom;
  }

  lemma TailRequest(t: Table, r: Route, m: string, p: string, key: Key, level: int, tail: string, s: string, re: Engine)
    requires Prefix(p) && Registered(t, r, m, re)
    requires Parse(r.path, '/', re) ==
             Some(PatternNodes(p, '/', re) + [PatternNode(key, level)] + [PatternNode(StaticKey(tail), 0)])
    ensures MatchRequest(t, m, RequestFor(m, p, s), re) ==
            Answer(MatchNode(TailNode(key, level, tail, r), s, if m == "CONNECT" then '.' else '/', re))
  {
    var d := if m == "CONNECT" then '.' else '/';
    var n := TailNode(key, level, tail, r);
    hide MatchNode, MatchKids, MatchFrom, MatchRequest, RequestFor, Captures, Parse, Normal, Prefix, Hung;
    MethodDelimiter(t, m, p, s, re);
    BranchHung(EmptyRoot, PatternNodes(p, '/', re), PatternNode(key, level), [PatternNode(StaticKey(tail), 0)], r);
    PathBelow(RootOf(t, m), p, [n], s, d, re);
    FirstKid([n], s, d, re);
    assert [n][1..] == [];
    NoKids(s, d, re);
  }

  lemma NoKids(s: string, d: char, re: Engine)
    ensures Answer(MatchKids(Over([]), 0, s, d, re)) == NoRoute
  {
  }

  lemma TailAccepted(r: Route, p: string, key: Key, level: int, tail: string, re: Engine)
    requires Prefix(p) && r.methods != []
    requires Parse(r.path, '/', re) ==
             Some(PatternNodes(p, '/', re) + [PatternNode(key, level)] + [PatternNode(StaticKey(tail), 0)])
    ensures Acceptable(r, re)
  {
    PrefixNodes(p, re);
    hide Parse;
    var ps := PatternNodes(p, '/', re);
    var all := ps + [PatternNode(key, level)] + [PatternNode(StaticKey(tail), 0)];
    assert forall i :: 0 <= i < |ps| ==> all[i] == ps[i];
    assert PatternNodes(r.path, '/', re) == all && all[|ps| + 1].key.kind == Static;
  }

  /** `p*wt` alone answers exactly the requests that end in `t`, and the value is all before the last `t`, delimiters
      included. */
  lemma WildcardText(t: Table, r: Route, m: string, p: string, w: string, tail: string, s: string, re: Engine)
    requires TableOk(t) && Added(map[], t, r, r.methods, PatternNodes(r.path, '/', re)) && Registers(r.methods, m)
    requires Prefix(p) && (forall c :: c in w ==> IsAlnum(c)) && Tail(tail) && !IsAlnum(tail[0])
    requires r.path == p + "*" + w + tail
    ensures MatchRequest(t, m, RequestFor(m, p, s), re) ==
            if HasSuffix(s, tail) then Found(r, [Param(w, s[..|s| - |tail|])]) else NoRoute
  {
    var key := WildcardNode(w).key;
    assert tail != "" && key == Key(Any, "*" + w, Unset, [], None);
    WildcardWords(p, w, tail);
    hide *;
    HasMethods(r, m);
    WildcardTail(p, w, tail, re);
    TailAccepted(r, p, key, -1, tail, re);
    FirstOf(t, r, m, re);
    TailRequest(t, r, m, p, key, -1, tail, s, re);
    WildcardTakes(w, tail, r, s, if m == "CONNECT" then '.' else '/', re);
  }

  lemma WildcardWords(p: string, w: string, tail: string)
    ensures p + "*" + w + tail == p + ("*" + w + tail)
  {
  }

  /** `p{n}t` alone splits the rest of a request at the first `t`, which must end it. The value holds no delimiter,
      which is a dot for CONNECT and a slash for the other methods; in front of a delimiter the variable takes nothing,
      and then it is no parameter at all. */
  lemma VariableText(t: Table, r: Route, m: string, p: string, n: string, tail: string, s: string, re: Engine)
    requires TableOk(t) && Added(map[], t, r, r.methods, PatternNodes(r.path, '/', re)) && Registers(r.methods, m)
    requires Prefix(p) && Word(n) && Tail(tail) && r.path == p + "{" + n + "}" + tail
    ensures var d, i := if m == "CONNECT" then '.' else '/', Index(s, tail);
            MatchRequest(t, m, RequestFor(m, p, s), re) ==
            if s == "" then Panic
            else if s[0] == d then (if s == tail then Found(r, []) else NoRoute)
            else if i >= 0 && d !in s[..i] && s[i..] == tail then Found(r, [Param(n, s[..i])])
            else NoRoute
  {
    var key := VariableNode(n).key;
    assert tail != "" && ParamName(key) == n && key.kind == Variant;
    assert forall x :: Accepts(key, x);
    hide *;
    LongerText(p, n, tail);
    PlainContent(n, re);
    HasMethods(r, m);
    VariableTail(p, n, key, tail, re);
    var level :| Parse(r.path, '/', re) ==
                 Some(PatternNodes(p, '/', re) + [PatternNode(key, level)] + [PatternNode(StaticKey(tail), 0)]);
    TailAccepted(r, p, key, level, tail, re);
    FirstOf(t, r, m, re);
    TailRequest(t, r, m, p, key, level, tail, s, re);
    VariableTakes(key, level, tail, r, s, if m == "CONNECT" then '.' else '/', re);
  }

  /** An expression before a text ends at the first delimiter, or at the first `t` when there is none. */
  lemma ExpressionText(t: Table, r: Route, m: string, p: string, n: string, raw: string, tail: string, s: string,
                       re: Engine)
    requires TableOk(t) && Added(map[], t, r, r.methods, PatternNodes(r.path, '/', re)) && Registers(r.methods, m)
    requires Prefix(p) && Word(n) && Tail(tail) && r.path == p + "{" + n + ":" + raw + "}" + tail
    requires raw != "" && raw[0] == '[' && Balanced(raw)
    requires exists i :: 0 <= i < |Expression(raw)| && Expression(raw)[i] in "()[]*+?.^$\\"
    requires Expression(raw) !in ["0-9]+", "\\d+", "a-z]+", "A-Za-z]+", "a-zA-Z]+"]
    requires re.compiles("^(" + Expression(raw) + ")$")
    ensures var d := if m == "CONNECT" then '.' else '/';
            var i := if d in s then IndexByte(s, d) else Index(s, tail);
            MatchRequest(t, m, RequestFor(m, p, s), re) ==
            if i >= 0 && re.matches("^(" + Expression(raw) + ")$", s[..i]) && s[i..] == tail
            then Found(r, [Param(n, s[..i])])
            else NoRoute
  {
    var key := Key(Regexp, ":" + n, Unset, [], Some("^(" + Expression(raw) + ")$"));
    assert tail != "" && ParamName(key) == n && key.kind == Regexp;
    assert forall x :: Accepted(key, x, re) == re.matches("^(" + Expression(raw) + ")$", x);
    OtherExpression(n, "", raw, re);
    assert "" + raw == raw;
    var content := n + ":" + raw;
    NamedBalanced(n, "", raw);
    assert n + ":" + ("" + raw) == content;
    ExpressionWords(p, n, raw, tail);
    hide *;
    HasMethods(r, m);
    VariableTail(p, content, key, tail, re);
    var level :| Parse(r.path, '/', re) ==
                 Some(PatternNodes(p, '/', re) + [PatternNode(key, level)] + [PatternNode(StaticKey(tail), 0)]);
    TailAccepted(r, p, key, level, tail, re);
    FirstOf(t, r, m, re);
    TailRequest(t, r, m, p, key, level, tail, s, re);
    ExpressionTakes(key, level, tail, r, s, if m == "CONNECT" then '.' else '/', re);
  }

  lemma ExpressionWords(p: string, n: string, raw: string, tail: string)
    ensures p + "{" + n + ":" + raw + "}" + tail == p + ("{" + (n + ":" + raw) + "}" + tail)
  {
  }

  /** Methods are registered in upper case, whatever case they are given in. */
  lemma MethodNames(methods: seq<string>, m: string)
    ensures Registers(methods, m) <==>
            exists i :: 0 <= i < |methods| && |methods[i]| == |m| && forall k :: 0 <= k < |m| ==>
              if 'a' <= methods[i][k] <= 'z' then m[k] as int == methods[i][k] as int - 32 else m[k] == methods[i][k]
  {
    forall i | 0 <= i < |methods|
      ensures ToUpper(methods[i]) == m <==>
              |methods[i]| == |m| && forall k :: 0 <= k < |m| ==>
                if 'a' <= methods[i][k] <= 'z' then m[k] as int == methods[i][k] as int - 32 else m[k] == methods[i][k]
    {
      UpperExactly(methods[i], m);
    }
  }

  lemma UpperExactly(s: string, m: string)
    ensures ToUpper(s) == m <==>
            |s| == |m| && forall k :: 0 <= k < |m| ==>
              if 'a' <= s[k] <= 'z' then m[k] as int == s[k] as int - 32 else m[k] == s[k]
  {
    var up := ToUpper(s);
    assert forall k :: 0 <= k < |s| ==> up[k] == UpperByte(s[k]);
  }
}
