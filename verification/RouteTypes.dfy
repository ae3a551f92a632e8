/** Which texts a typed variable, an enumeration or an expression accepts, from the pattern's text to the request's. */
module RouteTypes {
  import opened Text
  import opened RouteNodes
  import opened RoutePattern
  import opened RouteTable
  import opened RouteExamples
  import opened RouteVariables

  /** The table after registering `r` as its first route. */
  ghost predicate FirstRegistered(t: Table, r: Route, m: string, re: Engine) {
    TableOk(t) && Added(map[], t, r, r.methods, PatternNodes(r.path, '/', re)) && Registers(r.methods, m)
    && m != "CONNECT"
  }

  // ---- the bracket's text ----

  /** Letters only, or no name at all. */
  predicate Word(n: string) { forall i :: 0 <= i < |n| ==> 'a' <= n[i] <= 'z' || 'A' <= n[i] <= 'Z' }

  lemma WordPlain(n: string)
    requires Word(n)
    ensures ':' !in n && '{' !in n && '}' !in n && '[' !in n && !ContainsAny(n, "()[]|*+?.")
  {
  }

  /** Name, type and expression of a bracket. */
  lemma SplitTyped(n: string, typ: string, raw: string)
    requires Word(n) && '[' !in typ && (raw == "" || raw[0] == '[')
    ensures SplitBracket(n + ":" + (typ + raw)) == (n, typ, raw)
  {
    WordPlain(n);
    FirstOccurrence(n, ':', typ + raw);
    if raw == "" {
      assert typ + raw == typ;
      NoByte(typ, '[');
    } else {
      assert raw == "[" + raw[1..];
      Joined(typ, "[", raw[1..]);
      FirstOccurrence(typ, '[', raw[1..]);
      assert (typ + raw)[|typ|..] == raw;
    }
    hide IndexByte, ContainsAny;
  }

  lemma TypedKey(n: string, typ: string, re: Engine)
    requires Word(n) && '[' !in typ
    ensures BracketKey(n + ":" + typ, re) ==
            Some(VariantKey(n, NamedType(typ), []))
  {
    SplitTyped(n, typ, "");
    assert typ + "" == typ;
  }

  /** One of the texts of an enumeration: no byte of an expression, no brace and no bar. */
  predicate PlainValue(v: string) { forall c :: c in v ==> c !in "()[]{}*+?.^$\\|" }

  lemma {:induction false} JoinedPlain(vs: seq<string>)
    requires forall i :: 0 <= i < |vs| ==> PlainValue(vs[i])
    ensures forall c :: c in JoinByte(vs, '|') ==> c == '|' || c !in "()[]{}*+?.^$\\|"
    decreases |vs|
  {
    if |vs| > 1 { JoinedPlain(vs[1..]); }
  }

  /** Square brackets around an expression are dropped. */
  lemma UnwrappedKey(n: string, typ: string, pattern: string, re: Engine)
    requires Word(n) && '[' !in typ
    ensures BracketKey(n + ":" + (typ + ("[" + pattern + "]")), re) == PatternKey(n, NamedType(typ), pattern, re)
  {
    var raw := "[" + pattern + "]";
    SplitTyped(n, typ, raw);
    assert raw[1..|raw| - 1] == pattern && raw[|raw| - 1..] == "]" && raw[..1] == "[";
    hide SplitBracket, PatternKey;
  }

  /** An enumeration becomes a variable with the declared type and these values. */
  lemma EnumKey(n: string, typ: string, vs: seq<string>, re: Engine)
    requires Word(n) && '[' !in typ && vs != [] && forall i :: 0 <= i < |vs| ==> PlainValue(vs[i])
    ensures BracketKey(n + ":" + (typ + ("[" + JoinByte(vs, '|') + "]")), re) ==
            Some(VariantKey(n, NamedType(typ), vs))
  {
    hide *;
    UnwrappedKey(n, typ, JoinByte(vs, '|'), re);
    JoinedEnum(n, NamedType(typ), vs, re);
  }

  lemma JoinedEnum(n: string, declared: Content, vs: seq<string>, re: Engine)
    requires declared != Unset && vs != [] && forall i :: 0 <= i < |vs| ==> PlainValue(vs[i])
    ensures PatternKey(n, declared, JoinByte(vs, '|'), re) == Some(VariantKey(n, declared, vs))
  {
    hide *;
    NoBars(vs);
    SplitJoined(vs, '|');
    EnumNotSpecial(vs);
    PlainPattern(n, declared, JoinByte(vs, '|'), re);
  }

  lemma EnumNotSpecial(vs: seq<string>)
    requires forall i :: 0 <= i < |vs| ==> PlainValue(vs[i])
    ensures var pattern := JoinByte(vs, '|');
            && !ContainsAny(pattern, "()[]*+?.^$\\") && pattern != "0-9]+" && pattern != "\\d+"
            && pattern !in ["a-z]+", "A-Za-z]+", "a-zA-Z]+"]
  {
    hide *;
    JoinedPlain(vs);
    NotSpecial(JoinByte(vs, '|'));
  }

  lemma NoBars(vs: seq<string>)
    requires forall i :: 0 <= i < |vs| ==> PlainValue(vs[i])
    ensures forall i :: 0 <= i < |vs| ==> '|' !in vs[i]
  {
  }

  lemma PlainPattern(n: string, declared: Content, pattern: string, re: Engine)
    requires declared != Unset && !ContainsAny(pattern, "()[]*+?.^$\\")
    requires pattern != "0-9]+" && pattern != "\\d+" && pattern !in ["a-z]+", "A-Za-z]+", "a-zA-Z]+"]
    ensures PatternKey(n, declared, pattern, re) == Some(VariantKey(n, declared, SplitByte(pattern, '|')))
  {
    hide ContainsAny, SplitByte;
  }

  lemma NotSpecial(pattern: string)
    requires forall c :: c in pattern ==> c == '|' || c !in "()[]{}*+?.^$\\|"
    ensures !ContainsAny(pattern, "()[]*+?.^$\\")
    ensures pattern != "0-9]+" && pattern != "\\d+" && pattern !in ["a-z]+", "A-Za-z]+", "a-zA-Z]+"]
  {
    forall i | 0 <= i < |pattern| ensures pattern[i] !in "()[]*+?.^$\\" {
      assert pattern[i] in pattern;
      assert forall c :: c in "()[]*+?.^$\\" ==> c in "()[]{}*+?.^$\\|";
    }
    assert "0-9]+"[4] == '+' && "\\d+"[2] == '+' && "a-z]+"[4] == '+' && "A-Za-z]+"[7] == '+' && "a-zA-Z]+"[7] == '+';
  }

  // ---- what the first registered pattern answers ----

  /** The node of a variable at the end of the tree, searched with the rest of the request. */
  lemma VariableLeaf(x: PatternNode, r: Route, s: string, re: Engine)
    requires x.key.kind == Variant
    ensures Answer(MatchKids(Over([Leaf(x, r)]), 0, s, '/', re)) ==
            if s == "" then Panic
            else if s[0] == '/' || !Accepts(x.key, s) then NoRoute
            else Found(r, [Param(ParamName(x.key), s)])
  {
    hide Accepts;
    var n := Leaf(x, r);
    if s != "" { assert MatchKids(n, 0, s, '/', re) == Miss; }
    LeafSearch(n, s, re);
    LeafCapture(n, s);
  }

  lemma ExpressionLeaf(x: PatternNode, r: Route, s: string, re: Engine)
    requires x.key.kind == Regexp
    ensures Answer(MatchKids(Over([Leaf(x, r)]), 0, s, '/', re)) ==
            if '/' !in s && Accepted(x.key, s, re) then Found(r, [Param(ParamName(x.key), s)]) else NoRoute
  {
    hide Accepted;
    var n := Leaf(x, r);
    assert MatchKids(n, 0, s, '/', re) == Miss;
    LeafSearch(n, s, re);
    LeafCapture(n, s);
  }

  lemma LeafSearch(n: Node, s: string, re: Engine)
    ensures Answer(MatchKids(Over([n]), 0, s, '/', re)) == Answer(MatchNode(n, s, '/', re))
  {
    assert "" + s == s;
    OnlyKid(Over([n]), s, '/', re);
  }

  lemma LeafCapture(n: Node, s: string)
    ensures Captures([Step(n, s, true)]) == [Param(ParamName(n.key), s)]
  {
    assert [Step(n, s, true)][1..] == [] && Captures([]) == [];
  }

  /** A request behind the prefix of the only pattern is answered by its last node alone. */
  lemma FirstAnswers(t: Table, r: Route, m: string, p: string, content: string, key: Key, s: string, re: Engine)
    requires FirstRegistered(t, r, m, re) && Prefix(p) && r.path == p + ("{" + content + "}")
    requires Balanced(content) && BracketKey(content, re) == Some(key)
    ensures Acceptable(r, re)
    ensures MatchRequest(t, m, p + s, re) ==
            Answer(MatchKids(Over([Leaf(PatternNode(key, 2), r)]), 0, s, '/', re))
  {
    hide MatchKids, BracketKey, Parse, Acceptable, PatternNodes;
    var ps := PatternNodes(p, '/', re);
    VariableAfter(p, content, key, re);
    OneMoreAcceptable(r, p, PatternNode(key, 2), re);
    FirstRoute(t, r, m, re);
    assert ps + [PatternNode(key, 2)] + [] == ps + [PatternNode(key, 2)];
    BranchHung(EmptyRoot, ps, PatternNode(key, 2), [], r);
    RequestBelow(t, m, p, [Leaf(PatternNode(key, 2), r)], s, re);
  }

  /** A variable that is the only pattern: the whole rest of the request is its value, if it is accepted. */
  lemma VariableAnswers(t: Table, r: Route, m: string, p: string, n: string, content: string, typ: Content,
                        values: seq<string>, s: string, re: Engine)
    requires FirstRegistered(t, r, m, re) && Prefix(p) && r.path == p + ("{" + content + "}") && typ != Unset
    requires Balanced(content) && BracketKey(content, re) == Some(VariantKey(n, typ, values))
    ensures Acceptable(r, re)
    ensures MatchRequest(t, m, p + s, re) ==
            if s == "" then Panic
            else if s[0] == '/' || !ValidType(s, typ) || (values != [] && s !in values) then NoRoute
            else Found(r, [Param(n, s)])
  {
    var x := PatternNode(VariantKey(n, typ, values), 2);
    FirstAnswers(t, r, m, p, content, x.key, s, re);
    VariableLeaf(x, r, s, re);
    assert (":" + n)[1..] == n;
    hide MatchKids, MatchRequest, Acceptable, BracketKey, ValidType;
  }

  lemma TypedContent(n: string, typ: string, re: Engine)
    requires Word(n) && '[' !in typ && '{' !in typ && '}' !in typ
    ensures var content := n + ":" + typ;
            Balanced(content) && BracketKey(content, re) == Some(VariantKey(n, NamedType(typ), []))
  {
    TypedKey(n, typ, re);
    WordPlain(n);
    PlainBalanced(n + ":" + typ);
    hide BracketKey;
  }

  lemma BracketText(p: string, n: string, typ: string)
    ensures p + "{" + n + ":" + typ + "}" == p + ("{" + (n + ":" + typ) + "}")
  {
  }

  /** A declared type without an expression. */
  lemma DeclaredAnswers(t: Table, r: Route, m: string, p: string, n: string, typ: string, s: string, re: Engine)
    requires FirstRegistered(t, r, m, re) && Prefix(p) && Word(n) && r.path == p + "{" + n + ":" + typ + "}"
    requires '[' !in typ && '{' !in typ && '}' !in typ && s != "" && s[0] != '/'
    ensures MatchRequest(t, m, p + s, re) ==
            if ValidType(s, NamedType(typ)) then Found(r, [Param(n, s)]) else NoRoute
  {
    hide *;
    TypedContent(n, typ, re);
    BracketText(p, n, typ);
    VariableAnswers(t, r, m, p, n, n + ":" + typ, NamedType(typ), [], s, re);
  }

  lemma IntText(p: string, n: string, s: string)
    ensures p + "{" + n + ":int}" == p + "{" + n + ":" + "int" + "}" && '[' !in "int" && '{' !in "int" && '}' !in "int"
    ensures ValidType(s, NamedType("int")) <==> forall i :: 0 <= i < |s| ==> '0' <= s[i] <= '9'
  {
    assert ":int}" == ":" + "int" + "}";
  }

  lemma StringText(p: string, n: string, s: string)
    ensures p + "{" + n + ":string}" == p + "{" + n + ":" + "string" + "}"
    ensures '[' !in "string" && '{' !in "string" && '}' !in "string"
    ensures ValidType(s, NamedType("string")) <==>
            forall i :: 0 <= i < |s| ==> 'a' <= s[i] <= 'z' || 'A' <= s[i] <= 'Z'
  {
    assert ":string}" == ":" + "string" + "}";
  }

  /** `p{n:int}` answers exactly the requests `p` followed by digits. */
  lemma IntegersOnly(t: Table, r: Route, m: string, p: string, n: string, s: string, re: Engine)
    requires FirstRegistered(t, r, m, re) && Prefix(p) && Word(n) && r.path == p + "{" + n + ":int}"
    requires s != "" && s[0] != '/'
    ensures MatchRequest(t, m, p + s, re) ==
            if forall i :: 0 <= i < |s| ==> '0' <= s[i] <= '9' then Found(r, [Param(n, s)]) else NoRoute
  {
    hide *;
    IntText(p, n, s);
    DeclaredAnswers(t, r, m, p, n, "int", s, re);
  }

  /** `p{n:string}` answers exactly the requests `p` followed by letters. */
  lemma LettersOnly(t: Table, r: Route, m: string, p: string, n: string, s: string, re: Engine)
    requires FirstRegistered(t, r, m, re) && Prefix(p) && Word(n) && r.path == p + "{" + n + ":string}"
    requires s != "" && s[0] != '/'
    ensures MatchRequest(t, m, p + s, re) ==
            if forall i :: 0 <= i < |s| ==> 'a' <= s[i] <= 'z' || 'A' <= s[i] <= 'Z' then Found(r, [Param(n, s)])
            else NoRoute
  {
    hide *;
    StringText(p, n, s);
    DeclaredAnswers(t, r, m, p, n, "string", s, re);
  }

  lemma PlainContent(n: string, re: Engine)
    requires Word(n)
    ensures Balanced(n) && BracketKey(n, re) == Some(VariantKey(n, AllType, []))
  {
    WordPlain(n);
    PlainBalanced(n);
    assert forall c :: c in n ==> IsAlpha(c);
    PlainName(n, re);
  }

  lemma AnyText(s: string)
    ensures ValidType(s, AllType)
  {
  }

  /** `p{n}` answers every request behind `p` that does not go on with a delimiter; the value may hold more of them. An
      empty rest panics, and one that begins with the delimiter finds nothing. */
  lemma AnythingElse(t: Table, r: Route, m: string, p: string, n: string, s: string, re: Engine)
    requires FirstRegistered(t, r, m, re) && Prefix(p) && Word(n) && r.path == p + "{" + n + "}"
    ensures MatchRequest(t, m, p + s, re) ==
            if s == "" then Panic else if s[0] == '/' then NoRoute else Found(r, [Param(n, s)])
  {
    hide *;
    PlainContent(n, re);
    Joined(p, "{", n);
    Joined(p, "{" + n, "}");
    VariableAnswers(t, r, m, p, n, n, AllType, [], s, re);
    AnyText(s);
  }

  lemma EnumContent(n: string, typ: string, vs: seq<string>, re: Engine)
    requires Word(n) && typ in ["", "int", "string"]
    requires vs != [] && forall i :: 0 <= i < |vs| ==> PlainValue(vs[i])
    ensures var content := n + ":" + (typ + ("[" + JoinByte(vs, '|') + "]"));
            Balanced(content) && BracketKey(content, re) == Some(VariantKey(n, NamedType(typ), vs))
  {
    hide *;
    EnumKey(n, typ, vs, re);
    EnumBraces(vs);
    WordPlain(n);
    BracesIn(n, typ, JoinByte(vs, '|'));
    PlainBalanced(n + ":" + (typ + ("[" + JoinByte(vs, '|') + "]")));
  }

  lemma EnumBraces(vs: seq<string>)
    requires forall i :: 0 <= i < |vs| ==> PlainValue(vs[i])
    ensures '{' !in JoinByte(vs, '|') && '}' !in JoinByte(vs, '|')
  {
    JoinedPlain(vs);
    hide JoinByte, PlainValue;
    assert '{' in "()[]{}*+?.^$\\|" && '}' in "()[]{}*+?.^$\\|";
  }

  lemma BracesIn(n: string, typ: string, list: string)
    requires typ in ["", "int", "string"] && '{' !in n && '}' !in n && '{' !in list && '}' !in list
    ensures var content := n + ":" + (typ + ("[" + list + "]")); '{' !in content && '}' !in content
  {
  }

  lemma EnumText(p: string, n: string, typ: string, list: string)
    ensures p + "{" + n + ":" + typ + "[" + list + "]}" == p + ("{" + (n + ":" + (typ + ("[" + list + "]"))) + "}")
  {
  }

  /** An enumeration answers exactly its values; with a declared type, those of them that are of the type. */
  lemma ValuesOnly(t: Table, r: Route, m: string, p: string, n: string, typ: string, vs: seq<string>, s: string,
                   re: Engine)
    requires FirstRegistered(t, r, m, re) && Prefix(p) && Word(n) && typ in ["", "int", "string"]
    requires vs != [] && forall i :: 0 <= i < |vs| ==> PlainValue(vs[i])
    requires r.path == p + "{" + n + ":" + typ + "[" + JoinByte(vs, '|') + "]}" && s != "" && s[0] != '/'
    ensures var typed := match typ
                         case "int" => forall i :: 0 <= i < |s| ==> '0' <= s[i] <= '9'
                         case "string" => forall i :: 0 <= i < |s| ==> 'a' <= s[i] <= 'z' || 'A' <= s[i] <= 'Z'
                         case _ => true;
            MatchRequest(t, m, p + s, re) == if s in vs && typed then Found(r, [Param(n, s)]) else NoRoute
  {
    hide *;
    var list := JoinByte(vs, '|');
    EnumContent(n, typ, vs, re);
    EnumText(p, n, typ, list);
    VariableAnswers(t, r, m, p, n, n + ":" + (typ + ("[" + list + "]")), NamedType(typ), vs, s, re);
    TypeOf(typ, s);
  }

  lemma TypeOf(typ: string, s: string)
    requires typ in ["", "int", "string"]
    ensures ValidType(s, NamedType(typ)) <==>
            match typ
            case "int" => forall i :: 0 <= i < |s| ==> '0' <= s[i] <= '9'
            case "string" => forall i :: 0 <= i < |s| ==> 'a' <= s[i] <= 'z' || 'A' <= s[i] <= 'Z'
            case _ => true
  {
  }

  /** The expression in a bracket: square brackets around all of it are dropped. */
  function Expression(raw: string): string {
    if |raw| > 1 && raw[0] == '[' && raw[|raw| - 1] == ']' then raw[1..|raw| - 1] else raw
  }

  lemma Wrapped(raw: string)
    requires raw != "" && raw[0] == '['
    ensures "[" <= raw && (HasSuffix(raw, "]") <==> raw[|raw| - 1] == ']')
  {
    assert raw[|raw| - 1..] == [raw[|raw| - 1]];
  }

  lemma ExpressionKey(n: string, typ: string, raw: string, re: Engine)
    requires Word(n) && '[' !in typ && raw != "" && raw[0] == '['
    ensures BracketKey(n + ":" + (typ + raw), re) == PatternKey(n, NamedType(typ), Expression(raw), re)
  {
    SplitTyped(n, typ, raw);
    hide SplitBracket, PatternKey, NamedType, Word;
    Wrapped(raw);
  }

  lemma NamedBalanced(n: string, typ: string, raw: string)
    requires Word(n) && '{' !in typ && '}' !in typ && Balanced(raw)
    ensures Balanced(n + ":" + (typ + raw))
  {
    WordPlain(n);
    PlainBalanced(n + ":");
    PlainBalanced(typ);
    BalancedAppend(typ, raw);
    BalancedAppend(n + ":", typ + raw);
  }

  lemma ExpressionContent(p: string, n: string, typ: string, raw: string)
    requires Word(n) && '{' !in typ && '}' !in typ && Balanced(raw)
    ensures var content := n + ":" + (typ + raw);
            Balanced(content) && p + "{" + n + ":" + typ + raw + "}" == p + ("{" + content + "}")
  {
    NamedBalanced(n, typ, raw);
    hide Balanced, Word;
  }

  /** Five expressions in square brackets are read as classes: the ones with letters accept letters of either case. */
  lemma ClassesOnly(t: Table, r: Route, m: string, p: string, n: string, typ: string, c: string, s: string, re: Engine)
    requires FirstRegistered(t, r, m, re) && Prefix(p) && Word(n) && '[' !in typ && '{' !in typ && '}' !in typ
    requires r.path == p + "{" + n + ":" + typ + "[" + c + "]}"
    requires c in ["0-9]+", "\\d+", "a-z]+", "A-Za-z]+", "a-zA-Z]+"] && s != "" && s[0] != '/'
    ensures var accepted := if c in ["0-9]+", "\\d+"] then forall i :: 0 <= i < |s| ==> '0' <= s[i] <= '9'
                            else forall i :: 0 <= i < |s| ==> 'a' <= s[i] <= 'z' || 'A' <= s[i] <= 'Z';
            MatchRequest(t, m, p + s, re) == if accepted then Found(r, [Param(n, s)]) else NoRoute
  {
    hide FirstRegistered, MatchRequest, Word, Prefix, BracketKey, NamedType;
    var content := n + ":" + (typ + ("[" + c + "]"));
    var typed := if c in ["0-9]+", "\\d+"] then NumberType else CharType;
    UnwrappedKey(n, typ, c, re);
    EnumText(p, n, typ, c);
    NoBraces(n, typ, c);
    VariableAnswers(t, r, m, p, n, content, typed, [], s, re);
  }

  lemma NoBraces(n: string, typ: string, c: string)
    requires Word(n) && '{' !in typ && '}' !in typ && c in ["0-9]+", "\\d+", "a-z]+", "A-Za-z]+", "a-zA-Z]+"]
    ensures Balanced(n + ":" + (typ + ("[" + c + "]")))
  {
    WordPlain(n);
    PlainBalanced(n + ":" + (typ + ("[" + c + "]")));
  }

  /** Any other expression is left to the expression library, for segments without the delimiter. */
  lemma ExpressionsOnly(t: Table, r: Route, m: string, p: string, n: string, typ: string, raw: string, s: string,
                        re: Engine)
    requires FirstRegistered(t, r, m, re) && Prefix(p) && Word(n) && '[' !in typ
    requires r.path == p + "{" + n + ":" + typ + raw + "}" && '{' !in typ && '}' !in typ && Balanced(raw)
    requires raw != "" && raw[0] == '['
    requires exists i :: 0 <= i < |Expression(raw)| && Expression(raw)[i] in "()[]*+?.^$\\"
    requires Expression(raw) !in ["0-9]+", "\\d+", "a-z]+", "A-Za-z]+", "a-zA-Z]+"]
    requires re.compiles("^(" + Expression(raw) + ")$")
    ensures MatchRequest(t, m, p + s, re) ==
            if '/' !in s && re.matches("^(" + Expression(raw) + ")$", s) then Found(r, [Param(n, s)]) else NoRoute
  {
    hide FirstRegistered, MatchRequest, Word, Prefix, BracketKey, NamedType;
    var source := "^(" + Expression(raw) + ")$";
    var x := PatternNode(Key(Regexp, ":" + n, Unset, [], Some(source)), 2);
    OtherExpression(n, typ, raw, re);
    ExpressionContent(p, n, typ, raw);
    FirstAnswers(t, r, m, p, n + ":" + (typ + raw), x.key, s, re);
    ExpressionLeaf(x, r, s, re);
    assert (":" + n)[1..] == n;
  }

  lemma OtherExpression(n: string, typ: string, raw: string, re: Engine)
    requires Word(n) && '[' !in typ && raw != "" && raw[0] == '['
    requires exists i :: 0 <= i < |Expression(raw)| && Expression(raw)[i] in "()[]*+?.^$\\"
    requires Expression(raw) !in ["0-9]+", "\\d+", "a-z]+", "A-Za-z]+", "a-zA-Z]+"]
    requires re.compiles("^(" + Expression(raw) + ")$")
    ensures BracketKey(n + ":" + (typ + raw), re) ==
            Some(Key(Regexp, ":" + n, Unset, [], Some("^(" + Expression(raw) + ")$")))
  {
    hide BracketKey, Word, NamedType;
    ExpressionKey(n, typ, raw, re);
    assert ContainsAny(Expression(raw), "()[]*+?.^$\\");
    hide Expression, ContainsAny;
  }

  /** A bracket that is only an expression captures its text as `var`. */
  lemma UnnamedExpression(t: Table, r: Route, m: string, p: string, raw: string, s: string, re: Engine)
    requires FirstRegistered(t, r, m, re) && Prefix(p) && r.path == p + "{" + raw + "}"
    requires Balanced(raw) && ':' !in raw
    requires exists i :: 0 <= i < |raw| && raw[i] in "()[]|*+?."
    requires exists i :: 0 <= i < |Expression(raw)| && Expression(raw)[i] in "()[]*+?.^$\\"
    requires Expression(raw) !in ["0-9]+", "\\d+", "a-z]+", "A-Za-z]+", "a-zA-Z]+"]
    requires re.compiles("^(" + Expression(raw) + ")$")
    ensures MatchRequest(t, m, p + s, re) ==
            if '/' !in s && re.matches("^(" + Expression(raw) + ")$", s) then Found(r, [Param("var", s)]) else NoRoute
  {
    hide FirstRegistered, MatchRequest, Prefix, BracketKey, NamedType;
    var x := PatternNode(Key(Regexp, ":var", Unset, [], Some("^(" + Expression(raw) + ")$")), 2);
    UnnamedKey(raw, re);
    Joined(p, "{", raw);
    Joined(p, "{" + raw, "}");
    FirstAnswers(t, r, m, p, raw, x.key, s, re);
    ExpressionLeaf(x, r, s, re);
  }

  lemma UnnamedSplit(raw: string)
    requires ':' !in raw && exists i :: 0 <= i < |raw| && raw[i] in "()[]|*+?."
    ensures raw != "" && SplitBracket(raw) == ("var", "", raw)
  {
    NoByte(raw, ':');
    NoByte("", '[');
    assert ContainsAny(raw, "()[]|*+?.");
    hide IndexByte, ContainsAny;
  }

  lemma ExpressionBytes(raw: string)
    requires raw != "" && exists i :: 0 <= i < |Expression(raw)| && Expression(raw)[i] in "()[]*+?.^$\\"
    ensures (if "[" <= raw && HasSuffix(raw, "]") && |raw| > 1 then raw[1..|raw| - 1] else raw) == Expression(raw)
    ensures ContainsAny(Expression(raw), "()[]*+?.^$\\")
  {
    assert raw[|raw| - 1..] == [raw[|raw| - 1]];
    hide ContainsAny;
    assert ContainsAny(Expression(raw), "()[]*+?.^$\\") by {
      var i :| 0 <= i < |Expression(raw)| && Expression(raw)[i] in "()[]*+?.^$\\";
      SomeByte(Expression(raw), i);
    }
  }

  lemma SomeByte(s: string, i: nat)
    requires i < |s| && s[i] in "()[]*+?.^$\\"
    ensures ContainsAny(s, "()[]*+?.^$\\")
  {
  }

  lemma UnnamedKey(raw: string, re: Engine)
    requires ':' !in raw && exists i :: 0 <= i < |raw| && raw[i] in "()[]|*+?."
    requires exists i :: 0 <= i < |Expression(raw)| && Expression(raw)[i] in "()[]*+?.^$\\"
    requires Expression(raw) !in ["0-9]+", "\\d+", "a-z]+", "A-Za-z]+", "a-zA-Z]+"]
    requires re.compiles("^(" + Expression(raw) + ")$")
    ensures BracketKey(raw, re) == Some(Key(Regexp, ":var", Unset, [], Some("^(" + Expression(raw) + ")$")))
  {
    UnnamedSplit(raw);
    ExpressionBytes(raw);
    hide SplitBracket, ContainsAny, IndexByte;
    assert ":" + "var" == ":var";
  }
}
