/** The backtracking matcher on the linked tree, recording parameters in a shared buffer. */
module RouteMatcher {
  import opened Text
  import opened RouteNodes
  import opened RouteTree

  class ParamBuffer {
    var list: seq<Param>

    constructor ()
      ensures list == []
    {
      list := [];
    }
  }

  /** `Panicked` stands for the index-out-of-range panic. */
  datatype Outcome = Panicked | Nothing | Reached(node: TreeNode)

  /** The outcome and the buffer after a search of `node` agree with the search on values. */
  ghost predicate Agrees(r: Outcome, node: TreeNode, spec: Search, before: seq<Param>, after: seq<Param>)
    reads node, node.Repr
  {
    match spec
    case Fault => r.Panicked?
    case Miss => r.Nothing? && after == before
    case Hit(e, steps) =>
      r.Reached? && r.node in node.Repr && r.node.Repr <= node.Repr && r.node.Valid() && r.node.Value == e &&
      after == before + Captures(steps)
  }

  /** `matchNode`. A search that finds nothing leaves the buffer as it was; a hit adds its captures, deepest first. */
  method SearchNode(node: TreeNode, path: string, d: char, re: Engine, params: ParamBuffer) returns (r: Outcome)
    requires node.Valid()
    modifies params
    ensures Agrees(r, node, MatchNode(node.Value, path, d, re), old(params.list), params.list)
    decreases node.Repr, 1
  {
    match node.key.kind
    case Static =>
      if !(node.key.text <= path) { return Nothing; }
      if |path| == |node.key.text| && node.route.Some? { return Reached(node); }
      r := SearchChildren(node, path, d, re, params);
    case Any =>
      r := SearchChildren(node, path, d, re, params);
      if r.Nothing? {
        params.list := params.list + [Param(ParamName(node.key), path)];
        r := Reached(node);
      }
    case Variant =>
      if path == "" { return Panicked; }
      if path[0] == d {
        r := SearchChildren(node, path, d, re, params);
      } else if (IndexByte(path, d) == -1 || |node.children| == 0) && node.route.Some? {
        if !Accepts(node.key, path) { return Nothing; }
        params.list := params.list + [Param(ParamName(node.key), path)];
        r := Reached(node);
      } else {
        r := SearchChildren(node, path, d, re, params);
      }
    case Regexp =>
      r := SearchChildren(node, path, d, re, params);
      if r.Nothing? && IndexByte(path, d) == -1 && Accepted(node.key, path, re) {
        params.list := params.list + [Param(ParamName(node.key), path)];
        r := Reached(node);
      }
  }

  /** The loop over the children, with the remainder and the capture each kind of node prescribes. */
  method SearchChildren(node: TreeNode, path: string, d: char, re: Engine, params: ParamBuffer) returns (r: Outcome)
    requires node.Valid()
    requires node.key.kind == Static ==> node.key.text <= path
    requires node.key.kind == Variant ==> path != ""
    modifies params
    ensures Agrees(r, node, MatchKids(node.Value, 0, path, d, re), old(params.list), params.list)
    decreases node.Repr, 0, 1
  {
    hide MatchNode, Cut, Captures;
    var i := 0;
    while i < |node.children|
      invariant 0 <= i <= |node.children| && params.list == old(params.list)
      invariant MatchKids(node.Value, i, path, d, re) == MatchKids(node.Value, 0, path, d, re)
    {
      var cut := ChildCut(node, node.children[i], path, d, re);
      if cut.Some? {
        r := SearchChild(node, i, path, cut.value, d, re, params);
        if !r.Nothing? { return; }
      }
      i := i + 1;
    }
    r := Nothing;
  }

  /** One child: on a hit the parent's capture follows the deeper ones, otherwise the buffer is cut back. */
  method SearchChild(node: TreeNode, i: nat, path: string, cut: nat, d: char, re: Engine, params: ParamBuffer)
    returns (r: Outcome)
    requires node.Valid() && i < |node.children|
    requires node.key.kind == Static ==> node.key.text <= path
    requires node.key.kind == Variant ==> path != ""
    requires Cut(node.Value, node.Value.children[i], path, d, re) == Some(cut)
    modifies params
    ensures var spec := MatchNode(node.Value.children[i], path[cut..], d, re);
            Agrees(r, node, if spec.Hit? then Hit(spec.end, [StepAt(node.Value, path, cut, d)] + spec.steps) else spec,
                   old(params.list), params.list)
    decreases node.Repr, 0, 0
  {
    hide MatchNode, Cut, Captures;
    var paramsLen := |params.list|;
    r := SearchNode(node.children[i], path[cut..], d, re, params);
    if r.Reached? {
      var step := StepAt(Node(node.key, node.level, node.route, []), path, cut, d);
      if step.captured { params.list := params.list + [Param(ParamName(node.key), path[..cut])]; }
      CapturesPrefixed(node.Value, path, cut, d, MatchNode(node.Value.children[i], path[cut..], d, re).steps);
    } else if r.Nothing? {
      params.list := params.list[..paramsLen];
    }
  }

  lemma CapturesPrefixed(n: Node, path: string, cut: nat, d: char, steps: seq<Step>)
    requires cut <= |path| && (n.key.kind == Variant ==> path != "")
    ensures var s := StepAt(n, path, cut, d);
            Captures([s] + steps) == Captures(steps) + if s.captured then [Param(ParamName(n.key), path[..cut])] else []
  {
    assert ([StepAt(n, path, cut, d)] + steps)[1..] == steps;
  }

  /** Where the child's part of the path begins, branch by branch. */
  method ChildCut(node: TreeNode, c: TreeNode, path: string, d: char, re: Engine) returns (r: Option<nat>)
    requires node.Valid() && c.Valid()
    requires node.key.kind == Static ==> node.key.text <= path
    requires node.key.kind == Variant ==> path != ""
    ensures r == Cut(node.Value, c.Value, path, d, re)
  {
    match node.key.kind
    case Static => return Some(|node.key.text|);
    case Any =>
      var idx := LastIndex(path, c.key.text);
      if idx > -1 { return Some(idx); }
      return None;
    case Variant =>
      if path[0] == d { return Some(0); }
      var idx := Index(path, c.key.text);
      if idx > -1 && IndexByte(path[..idx], d) == -1 && Accepts(node.key, path[..idx]) { return Some(idx); }
      return None;
    case Regexp =>
      var idx := IndexByte(path, d);
      if idx == -1 { idx := Index(path, c.key.text); }
      if idx > -1 && Accepted(node.key, path[..idx], re) { return Some(idx); }
      return None;
  }
}
