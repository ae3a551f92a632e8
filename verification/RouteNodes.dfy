/** The route tree as a value: what its nodes hold, how a path is matched against it, and which route a
    pattern owns. `RouteTree` keeps the mutable tree and proves it equal to these values. */
module RouteNodes {
  import opened Text

  datatype Kind = Static | Variant | Any | Regexp

  /** `Unset` is the zero value carried by nodes that are not variants. */
  datatype Content = Unset | AllType | NumberType | CharType

  datatype Position = Replace | Before | After

  /** A reference to a route object: the fields that never change, `id` among them. The handlers of the object change in
      place and live in a `HandlerTable`, so every node that holds the reference sees the same ones. */
  datatype Route = Route(id: int, path: string, methods: seq<string>, position: Position)

  type HandlerTable = map<Route, seq<int>>

  function HandlersOf(h: HandlerTable, r: Route): seq<int> { if r in h then h[r] else [] }

  /** Everything `Equal` compares. */
  datatype Key = Key(kind: Kind, text: string, content: Content, values: seq<string>, regex: Option<string>)

  datatype Node = Node(key: Key, level: int, route: Option<Route>, children: seq<Node>)

  /** The regular-expression library: which sources compile and which texts a source accepts. */
  datatype Engine = Engine(compiles: string -> bool, matches: (string, string) -> bool)

  /** One matched node. `captured` says whether `piece` is recorded as a parameter. */
  datatype Step = Step(node: Node, piece: string, captured: bool)

  /** `Fault` is the index-out-of-range panic of the variant branch on an empty remainder. */
  datatype Search = Fault | Miss | Hit(end: Node, steps: seq<Step>)

  datatype Param = Param(name: string, value: string)

  // ---- shape of a well-formed tree ----

  /** Static nodes come first, longer texts before shorter; the others by descending level. */
  predicate Less(a: Node, b: Node) {
    if a.key.kind == Static then
      if b.key.kind == Static then |a.key.text| > |b.key.text| else true
    else
      b.key.kind != Static && a.level > b.level
  }

  ghost predicate Sorted(cs: seq<Node>) {
    forall i, j :: 0 <= i < j < |cs| ==> !Less(cs[j], cs[i])
  }

  ghost predicate DistinctKeys(cs: seq<Node>) {
    forall i, j :: 0 <= i < j < |cs| ==> cs[i].key != cs[j].key
  }

  /** Key shapes the parser produces: a static text holds the delimiter only as its first byte. */
  predicate KeyOk(k: Key, d: char) {
    && k.text != ""
    && (k.kind == Static ==> forall i :: 1 <= i < |k.text| ==> k.text[i] != d)
    && (k.kind != Variant ==> k.content == Unset && k.values == [])
    && (k.kind == Variant ==> k.content != Unset)
    && (k.kind == Regexp <==> k.regex.Some?)
  }

  ghost predicate KidsOk(n: Node, d: char)
    decreases n, 0
  {
    && Sorted(n.children)
    && DistinctKeys(n.children)
    && (forall i :: 0 <= i < |n.children| ==> WellFormed(n.children[i], d))
    && (n.key.kind != Static ==> forall i :: 0 <= i < |n.children| ==> n.children[i].key.kind == Static)
  }

  ghost predicate WellFormed(n: Node, d: char)
    decreases n, 1
  {
    KeyOk(n.key, d) && KidsOk(n, d)
  }

  // ---- exact lookup of a pattern ----

  function ChildIndex(cs: seq<Node>, k: Key): (r: int)
    ensures -1 <= r < |cs|
    ensures r >= 0 ==> cs[r].key == k
    ensures forall i :: 0 <= i < (if r < 0 then |cs| else r) ==> cs[i].key != k
  {
    if cs == [] then -1
    else if cs[0].key == k then 0
    else var r := ChildIndex(cs[1..], k); if r < 0 then -1 else r + 1
  }

  /** The route bound to a parsed pattern: descend through equal nodes. */
  function Lookup(n: Node, ks: seq<Key>): Option<Route>
    decreases |ks|
  {
    if ks == [] then n.route
    else
      var i := ChildIndex(n.children, ks[0]);
      if i < 0 then None else Lookup(n.children[i], ks[1..])
  }

  // ---- matching a request path ----

  predicate ValidType(content: string, typ: Content) {
    match typ
    case NumberType => forall i :: 0 <= i < |content| ==> IsDigit(content[i])
    case CharType => forall i :: 0 <= i < |content| ==> IsAlpha(content[i])
    case _ => true
  }

  /** The variant checks on a captured value: its content type and, when given, its enumeration. */
  predicate Accepts(k: Key, piece: string) {
    ValidType(piece, k.content) && (k.values == [] || piece in k.values)
  }

  /** Where the remainder handed to `child` starts, or `None` when `child` is skipped. */
  function Cut(n: Node, child: Node, path: string, d: char, re: Engine): (r: Option<nat>)
    requires n.key.kind == Static ==> n.key.text <= path
    requires n.key.kind == Variant ==> path != ""
    ensures r.Some? ==> r.value <= |path|
  {
    match n.key.kind
    case Static => Some(|n.key.text|)
    case Any =>
      var i := LastIndex(path, child.key.text);
      if i < 0 then None else Some(i)
    case Variant =>
      if path[0] == d then Some(0)
      else
        var i := Index(path, child.key.text);
        if i < 0 || d in path[..i] || !Accepts(n.key, path[..i]) then None else Some(i)
    case Regexp =>
      var slash := IndexByte(path, d);
      var i := if slash >= 0 then slash else Index(path, child.key.text);
      if i < 0 || !Accepted(n.key, path[..i], re) then None else Some(i)
  }

  predicate Accepted(k: Key, piece: string, re: Engine) {
    k.regex.Some? && re.matches(k.regex.value, piece)
  }

  function StepAt(n: Node, path: string, cut: nat, d: char): Step
    requires cut <= |path|
    requires n.key.kind == Variant ==> path != ""
  {
    Step(n, path[..cut], !(n.key.kind == Static || (n.key.kind == Variant && path[0] == d)))
  }

  /** `matchNode` without its parameter buffer: the steps taken are returned instead. */
  function MatchNode(n: Node, path: string, d: char, re: Engine): Search
    decreases n, |n.children| + 1
  {
    match n.key.kind
    case Static =>
      if !(n.key.text <= path) then Miss
      else if |path| == |n.key.text| && n.route.Some? then Hit(n, [Step(n, path, false)])
      else MatchKids(n, 0, path, d, re)
    case Any =>
      var r := MatchKids(n, 0, path, d, re);
      if r.Miss? then Hit(n, [Step(n, path, true)]) else r
    case Variant =>
      if path == "" then Fault
      else if path[0] == d then MatchKids(n, 0, path, d, re)
      else if (d !in path || n.children == []) && n.route.Some? then
        if Accepts(n.key, path) then Hit(n, [Step(n, path, true)]) else Miss
      else MatchKids(n, 0, path, d, re)
    case Regexp =>
      var r := MatchKids(n, 0, path, d, re);
      if r.Miss? && d !in path && Accepted(n.key, path, re) then Hit(n, [Step(n, path, true)]) else r
  }

  function MatchKids(n: Node, i: nat, path: string, d: char, re: Engine): Search
    requires i <= |n.children|
    requires n.key.kind == Static ==> n.key.text <= path
    requires n.key.kind == Variant ==> path != ""
    decreases n, |n.children| - i
  {
    if i == |n.children| then Miss
    else
      var c := n.children[i];
      var cut := Cut(n, c, path, d, re);
      if cut.None? then MatchKids(n, i + 1, path, d, re)
      else
        match MatchNode(c, path[cut.value..], d, re)
        case Miss => MatchKids(n, i + 1, path, d, re)
        case Fault => Fault
        case Hit(e, steps) => Hit(e, [StepAt(n, path, cut.value, d)] + steps)
  }

  /** The node text without its leading ':' or '*'. */
  function ParamName(k: Key): string {
    if k.text == "" then "" else k.text[1..]
  }

  /** Parameters recorded by a search: captured pieces, deepest node first. */
  function Captures(steps: seq<Step>): seq<Param> {
    if steps == [] then []
    else Captures(steps[1..]) +
         if steps[0].captured then [Param(ParamName(steps[0].node.key), steps[0].piece)] else []
  }

  function Pieces(steps: seq<Step>): string {
    if steps == [] then "" else steps[0].piece + Pieces(steps[1..])
  }

  // ---- soundness of a hit ----

  /** What one step of a hit promises about the text it consumed; `rest` is what follows the piece. */
  ghost predicate StepSound(s: Step, rest: string, last: bool, d: char, re: Engine) {
    match s.node.key.kind
    case Static => s.piece == s.node.key.text && !s.captured && (last ==> s.node.route.Some?)
    case Any => s.captured
    case Variant =>
      if s.captured then
        && s.piece + rest != ""
        && Accepts(s.node.key, s.piece)
        && (d in s.piece ==> last && s.node.children == [])
        && (last ==> s.node.route.Some?)
      else s.piece == "" && rest != "" && rest[0] == d && !last
    case Regexp => s.captured && Accepted(s.node.key, s.piece, re) && d !in s.piece
  }

  /** The steps lead from `n` down the tree, child by child, and consume exactly `path`. */
  ghost predicate Explains(n: Node, steps: seq<Step>, path: string, end: Node, d: char, re: Engine)
    decreases |steps|
  {
    && steps != []
    && steps[0].node == n
    && steps[0].piece <= path
    && var rest := path[|steps[0].piece|..];
    && StepSound(steps[0], rest, |steps| == 1, d, re)
    && if |steps| == 1 then rest == "" && end == n
       else steps[1].node in n.children && Explains(steps[1].node, steps[1..], rest, end, d, re)
  }

  lemma {:induction false} MatchNodeSound(n: Node, path: string, d: char, re: Engine)
    ensures var r := MatchNode(n, path, d, re); r.Hit? ==> Explains(n, r.steps, path, r.end, d, re)
    decreases n, |n.children| + 1
  {
    if !(n.key.kind == Static && !(n.key.text <= path)) && !(n.key.kind == Variant && path == "") {
      MatchKidsSound(n, 0, path, d, re);
      assert path[|path|..] == "";
    }
  }

  lemma {:induction false} MatchKidsSound(n: Node, i: nat, path: string, d: char, re: Engine)
    requires i <= |n.children|
    requires n.key.kind == Static ==> n.key.text <= path
    requires n.key.kind == Variant ==> path != ""
    ensures var r := MatchKids(n, i, path, d, re); r.Hit? ==> Explains(n, r.steps, path, r.end, d, re)
    decreases n, |n.children| - i
  {
    if i < |n.children| {
      var c := n.children[i];
      var cut := Cut(n, c, path, d, re);
      MatchKidsSound(n, i + 1, path, d, re);
      if cut.Some? {
        MatchNodeSound(c, path[cut.value..], d, re);
        var inner := MatchNode(c, path[cut.value..], d, re);
        if inner.Hit? { ExplainsExtended(n, c, path, cut.value, inner.steps, inner.end, d, re); }
      }
    }
  }

  /** A hit in a child, prefixed with the parent's own step, is explained from the parent. */
  lemma ExplainsExtended(n: Node, c: Node, path: string, cut: nat, inner: seq<Step>, end: Node, d: char, re: Engine)
    requires n.key.kind == Static ==> n.key.text <= path
    requires n.key.kind == Variant ==> path != ""
    requires c in n.children && Cut(n, c, path, d, re) == Some(cut)
    requires Explains(c, inner, path[cut..], end, d, re)
    ensures Explains(n, [StepAt(n, path, cut, d)] + inner, path, end, d, re)
  {
    var steps := [StepAt(n, path, cut, d)] + inner;
    assert steps[1..] == inner && steps[1].node == c;
    assert path[|steps[0].piece|..] == path[cut..];
    assert path[..cut] + path[cut..] == path;
    assert StepSound(steps[0], path[cut..], false, d, re);
  }

  lemma {:induction false} ExplainedPieces(n: Node, steps: seq<Step>, path: string, end: Node, d: char, re: Engine)
    requires Explains(n, steps, path, end, d, re)
    ensures Pieces(steps) == path
    decreases |steps|
  {
    var rest := path[|steps[0].piece|..];
    assert path == steps[0].piece + rest;
    if |steps| > 1 { ExplainedPieces(steps[1].node, steps[1..], rest, end, d, re); }
  }

  // ---- the outer loop of Match ----

  datatype Matched = Panic | NoRoute | Found(route: Route, params: seq<Param>)

  /** `Match` from root child `i` on: a hit on a node without a route is passed over, but the
      parameters it recorded (`params`) stay in the buffer. */
  function MatchFrom(root: Node, i: nat, path: string, params: seq<Param>, d: char, re: Engine): Matched
    requires i <= |root.children|
    decreases |root.children| - i
  {
    if i == |root.children| then NoRoute
    else
      match MatchNode(root.children[i], path, d, re)
      case Fault => Panic
      case Miss => MatchFrom(root, i + 1, path, params, d, re)
      case Hit(e, steps) =>
        if e.route.Some? then Found(e.route.value, params + Captures(steps))
        else MatchFrom(root, i + 1, path, params + Captures(steps), d, re)
  }

  // ---- static routes win ----

  /** The keys of a pattern without variables: every text after the first starts with the delimiter. */
  ghost predicate StaticChain(ks: seq<Key>, d: char) {
    forall i :: 0 <= i < |ks| ==> ks[i].kind == Static && KeyOk(ks[i], d) && (i > 0 ==> ks[i].text[0] == d)
  }

  function TextOf(ks: seq<Key>): string {
    if ks == [] then "" else ks[0].text + TextOf(ks[1..])
  }

  function Descend(n: Node, ks: seq<Key>): (r: Option<Node>)
    ensures Lookup(n, ks) == if r.Some? then r.value.route else None
    decreases |ks|
  {
    if ks == [] then Some(n)
    else
      var i := ChildIndex(n.children, ks[0]);
      if i < 0 then None else Descend(n.children[i], ks[1..])
  }

  /** Children sorted before the one a static pattern descends into do not match its text. */
  lemma EarlierChildrenMiss(n: Node, ks: seq<Key>, j: nat, d: char, re: Engine)
    requires KidsOk(n, d) && ks != [] && StaticChain(ks, d)
    requires j < ChildIndex(n.children, ks[0])
    ensures MatchNode(n.children[j], TextOf(ks), d, re).Miss?
  {
    var at := ChildIndex(n.children, ks[0]);
    var sib := n.children[j].key;
    assert WellFormed(n.children[j], d) && WellFormed(n.children[at], d);
    assert !Less(n.children[at], n.children[j]);
    assert sib.kind == Static && |sib.text| >= |ks[0].text|;
    var path := TextOf(ks);
    assert path == ks[0].text + TextOf(ks[1..]);
    if |ks| > 1 { assert ks[1..][0] == ks[1] && TextOf(ks[1..])[0] == d; }
    assert |ks| > 1 ==> path[|ks[0].text|] == d;
    assert |sib.text| == |ks[0].text| ==> sib.text != ks[0].text;
    assert path[..|ks[0].text|] == ks[0].text;
  }

  /** One turn of the static branch's loop: the child sees what follows the node's own text. */
  lemma StaticKidsStep(n: Node, i: nat, rest: string, d: char, re: Engine)
    requires n.key.kind == Static && i < |n.children|
    ensures var path := n.key.text + rest;
            MatchKids(n, i, path, d, re) ==
            match MatchNode(n.children[i], rest, d, re)
            case Miss => MatchKids(n, i + 1, path, d, re)
            case Fault => Fault
            case Hit(e, steps) => Hit(e, [Step(n, n.key.text, false)] + steps)
  {
    var path := n.key.text + rest;
    assert path[|n.key.text|..] == rest && path[..|n.key.text|] == n.key.text;
  }

  /** A registered static pattern is found on its own text from any node, whatever its siblings are. */
  lemma {:induction false} StaticKidsWin(n: Node, i: nat, path: string, ks: seq<Key>, d: char, re: Engine)
    requires n.key.kind == Static && KidsOk(n, d) && StaticChain(ks, d) && ks != []
    requires path == n.key.text + TextOf(ks)
    requires Lookup(n, ks).Some? && i <= ChildIndex(n.children, ks[0])
    ensures var r := MatchKids(n, i, path, d, re);
            r.Hit? && r.end.route == Lookup(n, ks) && Captures(r.steps) == []
    decreases |ks|, ChildIndex(n.children, ks[0]) - i
  {
    var at := ChildIndex(n.children, ks[0]);
    assert WellFormed(n.children[i], d) && Lookup(n, ks) == Lookup(n.children[at], ks[1..]);
    StaticKidsStep(n, i, TextOf(ks), d, re);
    hide MatchKids, MatchNode;
    if i < at {
      EarlierChildrenMiss(n, ks, i, d, re);
      StaticKidsWin(n, i + 1, path, ks, d, re);
    } else {
      StaticNodeWins(n.children[i], ks, d, re);
      var inner := MatchNode(n.children[i], TextOf(ks), d, re);
      var step := Step(n, n.key.text, false);
      assert ([step] + inner.steps)[1..] == inner.steps;
    }
  }

  lemma {:induction false} StaticNodeWins(c: Node, ks: seq<Key>, d: char, re: Engine)
    requires WellFormed(c, d) && StaticChain(ks, d) && ks != [] && c.key == ks[0]
    requires Lookup(c, ks[1..]).Some?
    ensures var r := MatchNode(c, TextOf(ks), d, re);
            r.Hit? && r.end.route == Lookup(c, ks[1..]) && Captures(r.steps) == []
    decreases |ks|, -1
  {
    var path := TextOf(ks);
    assert path == c.key.text + TextOf(ks[1..]);
    if |ks| == 1 {
      assert TextOf(ks[1..]) == "";
      assert Captures([Step(c, path, false)][1..]) == [];
    } else {
      assert ks[1..][0] == ks[1] && TextOf(ks[1..]) != "";
      StaticKidsWin(c, 0, path, ks[1..], d, re);
    }
  }

  /** Static routes win: Match on the text of a registered static pattern returns its route with no parameters. */
  lemma {:induction false} StaticRouteWins(root: Node, i: nat, ks: seq<Key>, d: char, re: Engine)
    requires KidsOk(root, d) && StaticChain(ks, d) && ks != []
    requires Lookup(root, ks).Some? && i <= ChildIndex(root.children, ks[0])
    ensures MatchFrom(root, i, TextOf(ks), [], d, re) == Found(Lookup(root, ks).value, [])
    decreases ChildIndex(root.children, ks[0]) - i
  {
    if i < ChildIndex(root.children, ks[0]) {
      EarlierChildrenMiss(root, ks, i, d, re);
      StaticRouteWins(root, i + 1, ks, d, re);
    } else {
      StaticNodeWins(root.children[i], ks, d, re);
    }
  }
}
