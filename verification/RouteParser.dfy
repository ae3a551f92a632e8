/** The pattern parser as the source writes it: one loop that allocates the nodes. */
module RouteParser {
  import opened Text
  import opened RouteNodes
  import opened RoutePattern
  import opened RouteTree

  /** Freshly parsed, unlinked nodes with the given keys and levels. */
  ghost predicate ParsedAs(nodes: seq<TreeNode>, ps: seq<PatternNode>)
    reads nodes, set n, m | n in nodes && m in n.Repr :: m
  {
    && |nodes| == |ps| && Distinct(nodes)
    && forall i :: 0 <= i < |nodes| ==>
         nodes[i].Leaf() && nodes[i].route.None? && nodes[i].key == ps[i].key && nodes[i].level == ps[i].level
  }

  method AddParsed(nodes: seq<TreeNode>, key: Key, level: int, ghost ps: seq<PatternNode>) returns (out: seq<TreeNode>)
    requires ParsedAs(nodes, ps)
    ensures ParsedAs(out, ps + [PatternNode(key, level)])
    ensures |out| == |nodes| + 1 && nodes <= out && fresh(out[|nodes|])
  {
    var n := new TreeNode(key, level);
    out := nodes + [n];
  }

  method FlushStatic(nodes: seq<TreeNode>, path: string, start: nat, i: nat, ghost ps: seq<PatternNode>)
    returns (out: seq<TreeNode>)
    requires start <= i <= |path| && ParsedAs(nodes, ps)
    ensures ParsedAs(out, Flush(ps, path, start, i))
    ensures nodes <= out && forall n :: n in out ==> n in nodes || fresh(n)
  {
    out := nodes;
    if i > start { out := AddParsed(nodes, StaticKey(path[start..i]), 0, ps); }
  }

  method AssignLevel(nodes: seq<TreeNode>, target: int, level: int, ghost ps: seq<PatternNode>)
    requires ParsedAs(nodes, ps) && target < |nodes|
    modifies if target >= 0 then {nodes[target]} else {}
    ensures ParsedAs(nodes, SetLevel(ps, target, level))
  {
    if target >= 0 {
      nodes[target].Promote(level);
    }
  }

  /** Adds a variable node; the first of a segment becomes its target, and a bracket that ends its segment settles
      the target's level. */
  method LinkBracket(flushed: seq<TreeNode>, key: Key, ends: bool, level0: nat, target0: int,
                     ghost s: Scanner, ghost ps: seq<PatternNode>, ghost close: nat)
    returns (out: seq<TreeNode>, level: nat, target: int)
    requires ParsedAs(flushed, ps) && -1 <= target0 == s.target < |s.nodes| <= |ps| && level0 == s.level
    requires level0 > 0 ==> target0 >= 0
    modifies if target0 >= 0 then {flushed[target0]} else {}
    ensures ParsedAs(out, Linked(s, ps, key, close, ends).nodes)
    ensures Linked(s, ps, key, close, ends) ==
            Scanner(close, close, level, target, Linked(s, ps, key, close, ends).nodes)
    ensures |out| == |flushed| + 1 && flushed <= out && fresh(out[|flushed|])
  {
    hide KeyOk;
    level, target := level0, target0;
    var nodeLevel := if key.kind == Regexp then 0 else level + 1;
    if level == 0 { target := |flushed|; }
    out := AddParsed(flushed, key, nodeLevel, ps);
    level := level + 1;
    if ends {
      level := level + 1;
      assert target < |flushed| ==> out[target] == flushed[target0];
      AssignLevel(out, target, level, ps + [PatternNode(key, nodeLevel)]);
      target, level := -1, 0;
    }
  }

  /** Looks for the bracket that closes the one before `from`. */
  method FindClose(path: string, from: nat) returns (closed: bool, i: nat)
    requires from <= |path|
    ensures closed <==> CloseBracket(path, from, 1) >= 0
    ensures closed ==> i == CloseBracket(path, from, 1) > from
  {
    var depth := 1;
    i := from;
    while i < |path| && depth > 0
      invariant from <= i <= |path| && CloseBracket(path, i, depth) == CloseBracket(path, from, 1)
    {
      if path[i] == '{' { depth := depth + 1; } else if path[i] == '}' { depth := depth - 1; }
      i := i + 1;
    }
    closed := depth == 0;
  }

  /** The bracket branch: `ok` is false when the bracket is not closed or its expression does not compile. */
  method ParseBracket(path: string, d: char, re: Engine, nodes: seq<TreeNode>, start: nat, at: nat, level0: nat,
                      target0: int, ghost s: Scanner)
    returns (ok: bool, out: seq<TreeNode>, i: nat, level: nat, target: int)
    requires ScannerOk(s, path) && at < |path| && ParsedAs(nodes, s.nodes)
    requires s == Scanner(at, start, level0, target0, s.nodes)
    modifies if target0 >= 0 then {nodes[target0]} else {}
    ensures if ok then ArrivedAt(BracketMove(s, path, d, re), out, i, level, target)
            else BracketMove(s, path, d, re).Fail?
    ensures forall n :: n in out ==> n in nodes || fresh(n)
  {
    hide BracketKey, CloseBracket, Flushed, Linked, ParsedAs, ArrivedAt;
    ok, out, level, target := false, nodes, level0, target0;
    var closed;
    closed, i := FindClose(path, at + 1);
    if closed {
      var key := BracketKey(path[at + 1..i - 1], re);
      if key.Some? {
        ok := true;
        out, level, target := FlushAndLink(path, key.value, i == |path| || path[i] == d, nodes,
                                             start, at, level0, target0, s, i);
      }
    }
  }

  method FlushAndLink(path: string, key: Key, ends: bool, nodes: seq<TreeNode>, start: nat, at: nat, level0: nat,
                      target0: int, ghost s: Scanner, ghost close: nat)
    returns (out: seq<TreeNode>, level: nat, target: int)
    requires ScannerOk(s, path) && at < |path| && ParsedAs(nodes, s.nodes)
    requires s == Scanner(at, start, level0, target0, s.nodes)
    modifies if target0 >= 0 then {nodes[target0]} else {}
    ensures ArrivedAt(Go(Linked(s, Flushed(s, path), key, close, ends)), out, close, level, target)
    ensures forall n :: n in out ==> n in nodes || fresh(n)
  {
    hide KeyOk, Linked;
    var flushed := FlushStatic(nodes, path, start, at, s.nodes);
    out, level, target := LinkBracket(flushed, key, ends, level0, target0, s, Flushed(s, path), close);
  }

  /** The loop variables agree with where a move leads. */
  ghost predicate ArrivedAt(m: Move, nodes: seq<TreeNode>, i: nat, level: nat, target: int)
    reads nodes, set n, m | n in nodes && m in n.Repr :: m
  {
    m.Go? && ParsedAs(nodes, m.next.nodes) && m.next == Scanner(i, i, level, target, m.next.nodes)
  }

  /** The wildcard branch. */
  method ParseStar(path: string, nodes: seq<TreeNode>, start: nat, at: nat, ghost s: Scanner)
    returns (out: seq<TreeNode>, i: nat)
    requires ScannerOk(s, path) && at < |path| && ParsedAs(nodes, s.nodes)
    requires s == Scanner(at, start, s.level, s.target, s.nodes)
    ensures at < i <= |path| && (StarMove(s, path).Done? <==> i == |path|)
    ensures StarMove(s, path).Done? ==> ParsedAs(out, StarMove(s, path).nodes)
    ensures StarMove(s, path).Go? ==>
              StarMove(s, path).next == Scanner(i, i, s.level, s.target, StarMove(s, path).next.nodes)
    ensures StarMove(s, path).Go? ==> ParsedAs(out, StarMove(s, path).next.nodes)
    ensures forall n :: n in out ==> n in nodes || fresh(n)
  {
    hide KeyOk, Flush;
    out := FlushStatic(nodes, path, start, at, s.nodes);
    i := at + 1;
    while i < |path| && IsAlnum(path[i])
      invariant at < i <= |path| && AlnumEnd(path, i) == AlnumEnd(path, at + 1)
    {
      i := i + 1;
    }
    out := AddParsed(out, Key(Any, path[at..i], Unset, [], None), -1, Flushed(s, path));
  }

  /** `parsePath`: the loop over `i`, `startOffset`, `level` and `target` allocates exactly the nodes of `Parse`. */
  method ParsePath(pattern: string, d: char, re: Engine) returns (r: Option<seq<TreeNode>>)
    ensures r.Some? <==> Parse(pattern, d, re).Some?
    ensures r.Some? ==> ParsedAs(r.value, Parse(pattern, d, re).value) && forall n :: n in r.value ==> fresh(n)
  {
    hide BracketMove, StarMove, KeyOk;
    if pattern == "" { return None; }
    var path := if d == '/' && pattern[0] != '/' then "/" + pattern else pattern;
    var i: nat, start: nat, level: nat, target := 0, 0, 0, -1;
    var nodes: seq<TreeNode> := [];
    ghost var s := Scanner(0, 0, 0, -1, []);
    while i < |path|
      invariant ScannerOk(s, path) && s == Scanner(i, start, level, target, s.nodes)
      invariant ParsedAs(nodes, s.nodes) && forall n :: n in nodes ==> fresh(n)
      invariant target >= 0 ==> fresh(nodes[target])
      invariant Scan(s, path, d, re) == Parse(pattern, d, re)
      decreases |path| - i
    {
      ghost var move := NextMove(s, path, d, re);
      if path[i] == d {
        nodes := FlushStatic(nodes, path, start, i, s.nodes);
        start, target, level := i, -1, 0;
        i := i + 1;
      } else if path[i] == '{' {
        var ok;
        ok, nodes, i, level, target := ParseBracket(path, d, re, nodes, start, i, level, target, s);
        if !ok { return None; }
        start := i;
      } else if path[i] == '*' {
        nodes, i := ParseStar(path, nodes, start, i, s);
        if i == |path| { return Some(nodes); }
        start := i;
      } else {
        i := i + 1;
      }
      s := move.next;
      assert target >= 0 ==> nodes[target] in nodes;
    }
    AssignLevel(nodes, target, level, s.nodes);
    nodes := FlushStatic(nodes, path, start, i, SetLevel(s.nodes, target, level));
    r := Some(nodes);
  }
}
