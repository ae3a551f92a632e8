/** The pattern parser: which nodes a route pattern such as "/web/{int:id}-{name}" stands for. */
module RoutePattern {
  import opened Text
  import opened RouteNodes

  /** A parsed node before it is linked into a tree. */
  datatype PatternNode = PatternNode(key: Key, level: int)

  function StaticKey(text: string): Key { Key(Static, text, Unset, [], None) }

  /** Position just after the bracket closing `depth` open ones, or -1. */
  function CloseBracket(path: string, i: nat, depth: nat): (r: int)
    requires i <= |path|
    ensures r == -1 || i <= r <= |path|
    ensures r >= 0 && depth > 0 ==> r > i
    decreases |path| - i
  {
    if depth == 0 then i
    else if i == |path| then -1
    else CloseBracket(path, i + 1, if path[i] == '{' then depth + 1 else if path[i] == '}' then depth - 1 else depth)
  }

  function AlnumEnd(path: string, i: nat): (r: nat)
    requires i <= |path|
    ensures i <= r <= |path|
    ensures forall k :: i <= k < r ==> IsAlnum(path[k])
    ensures r < |path| ==> !IsAlnum(path[r])
    decreases |path| - i
  {
    if i < |path| && IsAlnum(path[i]) then AlnumEnd(path, i + 1) else i
  }

  function NamedType(typStr: string): (r: Content)
    ensures r != Unset
  {
    if typStr == "int" then NumberType else if typStr == "string" then CharType else AllType
  }

  function VariantKey(name: string, content: Content, values: seq<string>): (k: Key)
    requires content != Unset
    ensures KeyOk(k, '/') && k.kind == Variant
  {
    Key(Variant, ":" + name, content, values, None)
  }

  /** The node for a variable with an expression: common classes and enumerations become variants, everything else
      an expression node, `None` when it does not compile. */
  function PatternKey(name: string, declared: Content, pattern: string, re: Engine): (r: Option<Key>)
    requires declared != Unset
    ensures r.Some? ==> KeyOk(r.value, '/') && r.value.kind != Static && r.value.kind != Any
  {
    if pattern == "0-9]+" || pattern == "\\d+" then Some(VariantKey(name, NumberType, []))
    else if pattern in ["a-z]+", "A-Za-z]+", "a-zA-Z]+"] then Some(VariantKey(name, CharType, []))
    else if !ContainsAny(pattern, "()[]*+?.^$\\") then Some(VariantKey(name, declared, SplitByte(pattern, '|')))
    else
      var source := "^(" + pattern + ")$";
      if re.compiles(source) then Some(Key(Regexp, ":" + name, Unset, [], Some(source))) else None
  }

  /** The text between braces as name, type and raw expression: `name`, `name:type`, `name:type[expression]` or,
      when the name itself holds expression bytes, an anonymous expression. */
  function SplitBracket(content: string): (string, string, string) {
    var colon := IndexByte(content, ':');
    var head := if colon < 0 then content else content[..colon];
    var tail := if colon < 0 then "" else content[colon + 1..];
    var open := IndexByte(tail, '[');
    var typStr := if open < 0 then tail else tail[..open];
    var declared := if open < 0 then "" else tail[open..];
    if head != "" && ContainsAny(head, "()[]|*+?.") then ("var", typStr, head) else (head, typStr, declared)
  }

  function BracketKey(content: string, re: Engine): (r: Option<Key>)
    ensures r.Some? ==> KeyOk(r.value, '/') && r.value.kind != Static && r.value.kind != Any
  {
    var (name, typStr, raw) := SplitBracket(content);
    if raw == "" then Some(VariantKey(name, NamedType(typStr), []))
    else
      var pattern := if "[" <= raw && HasSuffix(raw, "]") && |raw| > 1 then raw[1..|raw| - 1] else raw;
      PatternKey(name, NamedType(typStr), pattern, re)
  }

  /** The static text pending between `start` and `i`, if any. */
  function Flush(nodes: seq<PatternNode>, path: string, start: nat, i: nat): (out: seq<PatternNode>)
    requires start <= i <= |path|
    ensures nodes <= out
  {
    if i > start then nodes + [PatternNode(StaticKey(path[start..i]), 0)] else nodes
  }

  function SetLevel(nodes: seq<PatternNode>, target: int, level: int): seq<PatternNode>
    requires target < |nodes|
  {
    if target < 0 then nodes else nodes[target := nodes[target].(level := level)]
  }

  /** The parser's variables before byte `i`: `start` begins the pending static text, `level` counts the brackets
      of the current segment and `target` is the node that will receive the segment's level (-1 for none). */
  datatype Scanner = Scanner(i: nat, start: nat, level: nat, target: int, nodes: seq<PatternNode>)

  datatype Move = Fail | Done(nodes: seq<PatternNode>) | Go(next: Scanner)

  predicate ScannerOk(s: Scanner, path: string) {
    s.start <= s.i <= |path| && -1 <= s.target < |s.nodes| && (s.level > 0 ==> s.target >= 0)
  }

  function Flushed(s: Scanner, path: string): seq<PatternNode>
    requires ScannerOk(s, path)
  {
    Flush(s.nodes, path, s.start, s.i)
  }

  function BracketMove(s: Scanner, path: string, d: char, re: Engine): (m: Move)
    requires ScannerOk(s, path) && s.i < |path|
    ensures m.Go? ==> ScannerOk(m.next, path) && m.next.i > s.i && m.next.start == m.next.i
    ensures !m.Done?
  {
    var flushed := Flushed(s, path);
    var close := CloseBracket(path, s.i + 1, 1);
    if close < 0 then Fail
    else
      var key := BracketKey(path[s.i + 1..close - 1], re);
      if key.None? then Fail
      else
        Go(Linked(s, flushed, key.value, close, close == |path| || path[close] == d))
  }

  /** The scanner after a bracket ending at `close`; a bracket that ends its segment settles the target's level. */
  function Linked(s: Scanner, flushed: seq<PatternNode>, key: Key, close: nat, ends: bool): Scanner
    requires |s.nodes| <= |flushed| && -1 <= s.target < |s.nodes|
  {
    var added := flushed + [PatternNode(key, if key.kind == Regexp then 0 else s.level + 1)];
    var target := if s.level == 0 then |flushed| else s.target;
    if ends then Scanner(close, close, 0, -1, SetLevel(added, target, s.level + 2))
    else Scanner(close, close, s.level + 1, target, added)
  }

  function StarMove(s: Scanner, path: string): (m: Move)
    requires ScannerOk(s, path) && s.i < |path|
    ensures m.Go? ==> ScannerOk(m.next, path) && m.next.i > s.i && m.next.start == m.next.i
    ensures !m.Fail?
  {
    var end := AlnumEnd(path, s.i + 1);
    var added := Flushed(s, path) + [PatternNode(Key(Any, path[s.i..end], Unset, [], None), -1)];
    if end == |path| then Done(added) else Go(Scanner(end, end, s.level, s.target, added))
  }

  function NextMove(s: Scanner, path: string, d: char, re: Engine): (m: Move)
    requires ScannerOk(s, path)
    ensures m.Go? ==> ScannerOk(m.next, path) && m.next.i > s.i
  {
    if s.i == |path| then Done(Flush(SetLevel(s.nodes, s.target, s.level), path, s.start, s.i))
    else if path[s.i] == d then Go(Scanner(s.i + 1, s.i, 0, -1, Flushed(s, path)))
    else if path[s.i] == '{' then BracketMove(s, path, d, re)
    else if path[s.i] == '*' then StarMove(s, path)
    else Go(s.(i := s.i + 1))
  }

  function Scan(s: Scanner, path: string, d: char, re: Engine): Option<seq<PatternNode>>
    requires ScannerOk(s, path)
    decreases |path| - s.i
  {
    match NextMove(s, path, d, re)
    case Fail => None
    case Done(nodes) => Some(nodes)
    case Go(next) => Scan(next, path, d, re)
  }

  /** HTTP patterns are read as if they began with '/'. */
  function Normal(path: string, d: char): string {
    if d == '/' && path != "" && path[0] != '/' then "/" + path else path
  }

  function Parse(path: string, d: char, re: Engine): Option<seq<PatternNode>> {
    if path == "" then None else Scan(Scanner(0, 0, 0, -1, []), Normal(path, d), d, re)
  }

  function KeysOf(nodes: seq<PatternNode>): (ks: seq<Key>)
    ensures |ks| == |nodes| && forall i :: 0 <= i < |nodes| ==> ks[i] == nodes[i].key
  {
    seq(|nodes|, i requires 0 <= i < |nodes| => nodes[i].key)
  }

  /** No two variable nodes may touch. */
  predicate ValidKeys(ks: seq<Key>) {
    ks != [] && forall i :: 0 <= i < |ks| - 1 ==> ks[i].kind == Static || ks[i + 1].kind == Static
  }

  predicate AllOk(nodes: seq<PatternNode>, d: char) {
    forall i :: 0 <= i < |nodes| ==> KeyOk(nodes[i].key, d)
  }

  /** The pending text holds the delimiter at most as its first byte. */
  ghost predicate Pending(path: string, d: char, start: nat, i: nat)
    requires start <= i <= |path|
  {
    forall j :: start < j < i ==> path[j] != d
  }

  lemma FlushOk(nodes: seq<PatternNode>, path: string, d: char, start: nat, i: nat)
    requires start <= i <= |path| && AllOk(nodes, d) && Pending(path, d, start, i)
    ensures AllOk(Flush(nodes, path, start, i), d)
  {
    if i > start {
      var text := path[start..i];
      assert forall j :: 1 <= j < |text| ==> text[j] == path[start + j];
    }
  }

  lemma MoveKeysOk(s: Scanner, path: string, d: char, re: Engine)
    requires ScannerOk(s, path) && AllOk(s.nodes, d) && Pending(path, d, s.start, s.i)
    ensures var m := NextMove(s, path, d, re);
            && (m.Done? ==> AllOk(m.nodes, d))
            && (m.Go? ==> AllOk(m.next.nodes, d) && Pending(path, d, m.next.start, m.next.i))
  {
    FlushOk(s.nodes, path, d, s.start, s.i);
    if s.i == |path| {
      FlushOk(SetLevel(s.nodes, s.target, s.level), path, d, s.start, s.i);
    } else if path[s.i] == d {
    } else if path[s.i] == '{' {
      BracketMoveOk(s, path, d, re);
    } else if path[s.i] == '*' {
      var end := AlnumEnd(path, s.i + 1);
      AppendOk(Flushed(s, path), PatternNode(Key(Any, path[s.i..end], Unset, [], None), -1), d);
    }
  }

  lemma AppendOk(nodes: seq<PatternNode>, n: PatternNode, d: char)
    requires AllOk(nodes, d) && KeyOk(n.key, d)
    ensures AllOk(nodes + [n], d)
  {
  }

  lemma LinkedOk(s: Scanner, flushed: seq<PatternNode>, key: Key, close: nat, ends: bool, d: char)
    requires |s.nodes| <= |flushed| && -1 <= s.target < |s.nodes|
    requires AllOk(flushed, d) && KeyOk(key, d)
    ensures AllOk(Linked(s, flushed, key, close, ends).nodes, d)
  {
    AppendOk(flushed, PatternNode(key, if key.kind == Regexp then 0 else s.level + 1), d);
  }

  lemma BracketMoveOk(s: Scanner, path: string, d: char, re: Engine)
    requires ScannerOk(s, path) && s.i < |path| && AllOk(Flushed(s, path), d)
    ensures var m := BracketMove(s, path, d, re); m.Go? ==> AllOk(m.next.nodes, d)
  {
    hide BracketKey;
    var flushed := Flushed(s, path);
    var close := CloseBracket(path, s.i + 1, 1);
    if close >= 0 && BracketKey(path[s.i + 1..close - 1], re).Some? {
      var key := BracketKey(path[s.i + 1..close - 1], re).value;
      assert KeyOk(key, d);
      LinkedOk(s, flushed, key, close, close == |path| || path[close] == d, d);
    }
  }

  /** Every parsed node has a well-formed key. */
  lemma {:induction false} ScanKeysOk(s: Scanner, path: string, d: char, re: Engine)
    requires ScannerOk(s, path) && AllOk(s.nodes, d) && Pending(path, d, s.start, s.i)
    ensures var r := Scan(s, path, d, re); r.Some? ==> AllOk(r.value, d)
    decreases |path| - s.i
  {
    MoveKeysOk(s, path, d, re);
    var m := NextMove(s, path, d, re);
    if m.Go? { ScanKeysOk(m.next, path, d, re); }
  }

  lemma ParseKeysOk(path: string, d: char, re: Engine)
    requires Parse(path, d, re).Some?
    ensures AllOk(Parse(path, d, re).value, d)
  {
    ScanKeysOk(Scanner(0, 0, 0, -1, []), Normal(path, d), d, re);
  }

  lemma StaticFlush(nodes: seq<PatternNode>, path: string, d: char, start: nat, i: nat)
    requires start <= i <= |path| && Pending(path, d, start, i)
    requires StaticChain(KeysOf(nodes), d) && TextOf(KeysOf(nodes)) == path[..start]
    requires nodes != [] ==> start < i && path[start] == d
    ensures var ks := KeysOf(Flush(nodes, path, start, i)); StaticChain(ks, d) && TextOf(ks) == path[..i]
  {
    if i > start {
      hide TextOf;
      var k := StaticKey(path[start..i]);
      assert forall j :: 1 <= j < |k.text| ==> k.text[j] == path[start + j];
      assert KeysOf(Flush(nodes, path, start, i)) == KeysOf(nodes) + [k];
      TextOfAppend(KeysOf(nodes), k);
      assert path[..start] + k.text == path[..i];
    }
  }

  /** A pattern without '{' and '*' parses to static nodes only, cut at the delimiters: joined, their texts are
      the pattern again. */
  lemma {:induction false} StaticScan(s: Scanner, path: string, d: char, re: Engine)
    requires ScannerOk(s, path) && s.level == 0 && s.target == -1
    requires '{' !in path && '*' !in path && Pending(path, d, s.start, s.i)
    requires StaticChain(KeysOf(s.nodes), d) && TextOf(KeysOf(s.nodes)) == path[..s.start]
    requires s.nodes != [] ==> s.start < s.i && path[s.start] == d
    ensures var r := Scan(s, path, d, re);
            r.Some? && StaticChain(KeysOf(r.value), d) && TextOf(KeysOf(r.value)) == path
    decreases |path| - s.i
  {
    StaticFlush(s.nodes, path, d, s.start, s.i);
    if s.i == |path| {
      assert path[..s.i] == path;
    } else {
      assert path[s.i] in path;
      StaticScan(NextMove(s, path, d, re).next, path, d, re);
    }
  }

  lemma {:induction false} TextOfAppend(ks: seq<Key>, k: Key)
    ensures TextOf(ks + [k]) == TextOf(ks) + k.text
  {
    if ks == [] {
      assert TextOf([k]) == k.text + TextOf([k][1..]);
    } else {
      assert (ks + [k])[1..] == ks[1..] + [k];
      TextOfAppend(ks[1..], k);
    }
  }

  lemma StaticPattern(path: string, d: char, re: Engine)
    requires path != "" && '{' !in path && '*' !in path
    ensures Parse(path, d, re).Some?
    ensures var ks := KeysOf(Parse(path, d, re).value);
            StaticChain(ks, d) && ValidKeys(ks) && TextOf(ks) == Normal(path, d)
  {
    assert TextOf(KeysOf([])) == "";
    StaticScan(Scanner(0, 0, 0, -1, []), Normal(path, d), d, re);
  }
}
