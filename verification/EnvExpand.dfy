/** Expansion of environment references in configuration strings. */
module EnvExpand {
  import opened Text

  datatype Result = Ok(value: string) | EmptyName(ref: string) | NotSet(name: string)

  type Environment = string -> Option<string>

  /** `$${` at position `i`. */
  predicate EscapeAt(s: string, i: nat) { i + 2 < |s| && s[i] == '$' && s[i + 1] == '$' && s[i + 2] == '{' }

  /** `${` at position `i`. */
  predicate RefAt(s: string, i: nat) { i + 1 < |s| && s[i] == '$' && s[i + 1] == '{' }

  /** `lookupEnvRef`: the name before `:-`, and what follows it as the default. */
  function Lookup(ref: string, env: Environment): Result {
    var cut := Index(ref, ":-");
    var name := TrimSpace(if cut < 0 then ref else ref[..cut]);
    if name == "" then EmptyName(ref)
    else if env(name).Some? then Ok(env(name).value)
    else if cut >= 0 then Ok(ref[cut + 2..])
    else NotSet(name)
  }

  // ---- what a string is made of ----

  /** `Open` is a reference that is never closed; it runs to the end of the string. */
  datatype Piece = Plain(c: char) | Escaped | Ref(text: string) | Open(text: string)

  function Pieces(s: string): (ps: seq<Piece>)
    decreases |s|
  {
    if s == "" then []
    else if EscapeAt(s, 0) then [Escaped] + Pieces(s[3..])
    else if RefAt(s, 0) then
      var end := IndexByte(s, '}');
      if end < 0 then [Open(s)] else [Ref(s[2..end])] + Pieces(s[end + 1..])
    else [Plain(s[0])] + Pieces(s[1..])
  }

  /** The text a piece was read from. */
  function Source(p: Piece): string {
    match p
    case Plain(c) => [c]
    case Escaped => "$${"
    case Ref(text) => "${" + text + "}"
    case Open(text) => text
  }

  function Value(p: Piece, env: Environment): Result {
    match p
    case Plain(c) => Ok([c])
    case Escaped => Ok("${")
    case Ref(text) => Lookup(text, env)
    case Open(text) => Ok(text)
  }

  function SourceOf(ps: seq<Piece>): string { if ps == [] then "" else Source(ps[0]) + SourceOf(ps[1..]) }

  /** The values one after the other, or the first error. */
  function ValueOf(ps: seq<Piece>, env: Environment): Result {
    if ps == [] then Ok("")
    else
      var v := Value(ps[0], env);
      if !v.Ok? then v
      else
        var rest := ValueOf(ps[1..], env);
        if rest.Ok? then Ok(v.value + rest.value) else rest
  }

  /** What a string expands to. */
  function Expand(s: string, env: Environment): Result { ValueOf(Pieces(s), env) }

  // ---- the loop ----

  method ExpandString(s: string, env: Environment) returns (r: Result)
    ensures r == Expand(s, env)
  {
    hide Lookup, Expand, IndexByte;
    if Index(s, "${") < 0 {
      NothingToExpand(s, env);
      return Ok(s);
    }
    NothingToExpand("", env);
    var b := "";
    var i := 0;
    assert s[0..] == s;
    while i < |s|
      invariant 0 <= i <= |s|
      invariant Expand(s, env) == Prepend(b, Expand(s[i..], env))
      decreases |s| - i
    {
      StepAt(s, i, env);
      if EscapeAt(s, i) {
        b := b + "${";
        i := i + 3;
        continue;
      }
      if RefAt(s, i) {
        var end := IndexByte(s[i..], '}');
        if end < 0 {
          b := b + s[i..];
          return Ok(b);
        }
        var ref := s[i + 2..i + end];
        var val := Lookup(ref, env);
        if !val.Ok? { return val; }
        b := b + val.value;
        i := i + end + 1;
        continue;
      }
      b := b + [s[i]];
      i := i + 1;
    }
    assert s[i..] == "" && b + "" == b;
    return Ok(b);
  }

  lemma StepAt(s: string, i: nat, env: Environment)
    requires i < |s|
    ensures EscapeAt(s, i) ==> Expand(s[i..], env) == Prepend("${", Expand(s[i + 3..], env))
    ensures !EscapeAt(s, i) && RefAt(s, i) ==>
              var end := IndexByte(s[i..], '}');
              && (end < 0 ==> Expand(s[i..], env) == Ok(s[i..]))
              && (end >= 0 ==> 2 <= end < |s| - i && var v := Lookup(s[i + 2..i + end], env);
                    Expand(s[i..], env) == if v.Ok? then Prepend(v.value, Expand(s[i + end + 1..], env)) else v)
    ensures !EscapeAt(s, i) && !RefAt(s, i) ==> Expand(s[i..], env) == Prepend([s[i]], Expand(s[i + 1..], env))
  {
    hide Lookup, Expand;
    var t := s[i..];
    assert (EscapeAt(s, i) <==> EscapeAt(t, 0)) && (RefAt(s, i) <==> RefAt(t, 0));
    ExpandStep(t, env);
    assert |t| >= 3 ==> t[3..] == s[i + 3..];
    assert t[1..] == s[i + 1..];
    var end := IndexByte(t, '}');
    assert 2 <= end < |t| ==> t[2..end] == s[i + 2..i + end] && t[end + 1..] == s[i + end + 1..];
  }

  function Prepend(b: string, r: Result): Result { if r.Ok? then Ok(b + r.value) else r }

  /** The three branches of the scan at the beginning of a string. */
  lemma ExpandStep(s: string, env: Environment)
    requires s != ""
    ensures EscapeAt(s, 0) ==> |s| >= 3 && Expand(s, env) == Prepend("${", Expand(s[3..], env))
    ensures !EscapeAt(s, 0) && RefAt(s, 0) ==>
              var end := IndexByte(s, '}');
              && (end < 0 ==> Expand(s, env) == Ok(s))
              && (end >= 0 ==> end >= 2 && var v := Lookup(s[2..end], env);
                    Expand(s, env) == if v.Ok? then Prepend(v.value, Expand(s[end + 1..], env)) else v)
    ensures !EscapeAt(s, 0) && !RefAt(s, 0) ==> Expand(s, env) == Prepend([s[0]], Expand(s[1..], env))
  {
    hide Lookup;
    assert s + "" == s && ValueOf([], env) == Ok("");
    assert [Open(s)][1..] == [];
  }

  lemma RefOccurs(s: string, k: int)
    ensures OccursAt(s, "${", k) <==> 0 <= k && RefAt(s, k)
  {
    assert 0 <= k && k + 2 <= |s| ==> s[k..k + 2] == [s[k], s[k + 1]];
  }

  lemma {:induction false} NoRefs(s: string, env: Environment)
    requires forall k: nat :: !RefAt(s, k)
    ensures Expand(s, env) == Ok(s)
    decreases |s|
  {
    if s != "" {
      hide Expand;
      ExpandStep(s, env);
      assert !RefAt(s, 0) && !RefAt(s, 1);
      assert forall k: nat :: RefAt(s[1..], k) ==> RefAt(s, k + 1);
      NoRefs(s[1..], env);
    }
  }

  lemma NothingToExpand(s: string, env: Environment)
    requires forall k :: !OccursAt(s, "${", k)
    ensures Expand(s, env) == Ok(s)
  {
    forall k: nat ensures !RefAt(s, k) {
      assert !OccursAt(s, "${", k);
      RefOccurs(s, k);
    }
    NoRefs(s, env);
  }

  // ---- properties ----

  lemma SourceCons(p: Piece, ps: seq<Piece>)
    ensures SourceOf([p] + ps) == Source(p) + SourceOf(ps)
  {
    assert ([p] + ps)[1..] == ps;
  }

  /** Every character belongs to one piece, in order: text outside references is copied as it is. */
  lemma {:induction false} PiecesCoverString(s: string)
    ensures SourceOf(Pieces(s)) == s
    decreases |s|
  {
    if s != "" {
      var (p, k) := FirstPiece(s);
      PiecesCoverString(s[k..]);
      SourceCons(p, Pieces(s[k..]));
      FirstPieceHolds(s);
      assert s == s[..k] + s[k..];
    }
  }

  /** The first piece of a string and its length in the string. */
  function FirstPiece(s: string): (r: (Piece, nat))
    requires s != ""
    ensures 0 < r.1 <= |s| && Pieces(s) == [r.0] + Pieces(s[r.1..])
  {
    if EscapeAt(s, 0) then (Escaped, 3)
    else if RefAt(s, 0) then
      var end := IndexByte(s, '}');
      if end < 0 then (Open(s), |s|) else (Ref(s[2..end]), end + 1)
    else (Plain(s[0]), 1)
  }

  lemma FirstPieceHolds(s: string)
    requires s != ""
    ensures Source(FirstPiece(s).0) == s[..FirstPiece(s).1]
  {
    hide Pieces;
    var (p, k) := FirstPiece(s);
    if p.Ref? {
      var end := IndexByte(s, '}');
      assert s[..end + 1] == s[..2] + s[2..end] + s[end..end + 1];
      assert s[..2] == "${" && s[end..end + 1] == "}";
    } else if p.Escaped? {
      assert s[..3] == "$${";
    }
  }

  /** `${` written as `$${`, everywhere. */
  function Escape(s: string): (e: string)
    ensures s != "" ==> e != "" && e[0] == s[0]
    decreases |s|
  {
    if s == "" then ""
    else if RefAt(s, 0) then "$${" + Escape(s[2..])
    else [s[0]] + Escape(s[1..])
  }

  lemma EscapeNeverOpens(s: string)
    ensures !RefAt(Escape(s), 0)
  {
    if s != "" && !RefAt(s, 0) && |s| >= 2 {
      assert Escape(s)[1] == Escape(s[1..])[0];
    }
  }

  /** Escaping and expanding undo each other, whatever the environment. */
  lemma {:induction false} EscapeThenExpand(s: string, env: Environment)
    ensures Expand(Escape(s), env) == Ok(s)
    decreases |s|
  {
    hide Expand;
    var e := Escape(s);
    if s == "" {
      NoRefs("", env);
    } else if RefAt(s, 0) {
      ExpandStep(e, env);
      assert e[3..] == Escape(s[2..]);
      EscapeThenExpand(s[2..], env);
      assert s == "${" + s[2..];
    } else {
      var t := Escape(s[1..]);
      assert e == [s[0]] + t && e[1..] == t;
      assert EscapeAt(e, 0) ==> RefAt(t, 0);
      EscapeNeverOpens(s);
      EscapeNeverOpens(s[1..]);
      ExpandStep(e, env);
      EscapeThenExpand(s[1..], env);
      assert s == [s[0]] + s[1..];
    }
  }

  /** `${name}` becomes the value of the variable, which may be empty, or else the text behind `:-`; spaces around the
      name do not count. Without a value and without that text, expanding fails with the name. */
  lemma ReferenceExpands(a: string, name: string, b: string, default: string, rest: string, env: Environment)
    requires Blank(a) && Blank(b) && Trimmed(name) && ':' !in name && '}' !in name && '}' !in default
    ensures Expand("${" + a + name + b + "}" + rest, env) ==
            if env(name).Some? then Prepend(env(name).value, Expand(rest, env)) else NotSet(name)
    ensures Expand("${" + a + name + b + ":-" + default + "}" + rest, env) ==
            Prepend(if env(name).Some? then env(name).value else default, Expand(rest, env))
  {
    hide *;
    NameAlone(a, name, b, env);
    NameAndDefault(a, name, b, default, env);
    BlankPlain(a);
    BlankPlain(b);
    OneReference(a + name + b, rest, env);
    OneReference(a + name + b + ":-" + default, rest, env);
    ReferenceText(a, name, b, default);
  }

  lemma ReferenceText(a: string, name: string, b: string, default: string)
    ensures "${" + a + name + b + "}" == "${" + (a + name + b) + "}"
    ensures "${" + a + name + b + ":-" + default + "}" == "${" + (a + name + b + ":-" + default) + "}"
  {
  }

  lemma BlankPlain(a: string)
    requires Blank(a)
    ensures '}' !in a && ':' !in a
  {
  }

  lemma OneReference(ref: string, rest: string, env: Environment)
    requires '}' !in ref
    ensures Expand("${" + ref + "}" + rest, env) ==
            var v := Lookup(ref, env); if v.Ok? then Prepend(v.value, Expand(rest, env)) else v
  {
    hide Expand, Lookup;
    var s := "${" + ref + "}" + rest;
    ExpandStep(s, env);
    assert s == ("${" + ref) + ['}'] + rest && s[0] == '$' && s[1] == '{';
    FirstOccurrence("${" + ref, '}', rest);
    assert s[2..|ref| + 2] == ref;
  }

  lemma NameAlone(a: string, name: string, b: string, env: Environment)
    requires Blank(a) && Blank(b) && Trimmed(name) && ':' !in name
    ensures Lookup(a + name + b, env) == if env(name).Some? then Ok(env(name).value) else NotSet(name)
  {
    var ref := a + name + b;
    BlankPlain(a);
    BlankPlain(b);
    NoDefault(ref);
    TrimsBlanks(a, name, b);
  }

  lemma NameAndDefault(a: string, name: string, b: string, default: string, env: Environment)
    requires Blank(a) && Blank(b) && Trimmed(name) && ':' !in name
    ensures Lookup(a + name + b + ":-" + default, env) ==
            Ok(if env(name).Some? then env(name).value else default)
  {
    var front := a + name + b;
    var ref := front + ":-" + default;
    BlankPlain(a);
    BlankPlain(b);
    DefaultAt(front, default);
    TrimsBlanks(a, name, b);
    assert ref[..|front|] == front && ref[|front| + 2..] == default;
    hide Index, TrimSpace;
  }

  lemma NoDefault(ref: string)
    requires ':' !in ref
    ensures Index(ref, ":-") < 0
  {
    forall k | 0 <= k && k + 2 <= |ref| ensures !OccursAt(ref, ":-", k) {
      assert ref[k..k + 2][0] == ref[k] && ref[k] in ref;
    }
  }

  lemma DefaultAt(front: string, default: string)
    requires ':' !in front
    ensures Index(front + ":-" + default, ":-") == |front|
  {
    var ref := front + ":-" + default;
    assert ref[|front|..|front| + 2] == ":-" && OccursAt(ref, ":-", |front|);
    forall k | 0 <= k < |front| ensures !OccursAt(ref, ":-", k) {
      assert ref[k] == front[k] && front[k] in front;
      if k + 2 <= |ref| { assert ref[k..k + 2][0] == ref[k]; }
    }
  }

  /** A reference without a name is refused, default or not. */
  lemma NamelessReference(a: string, default: string, rest: string, env: Environment)
    requires Blank(a) && '}' !in default
    ensures Expand("${" + a + "}" + rest, env) == EmptyName(a)
    ensures Expand("${" + a + ":-" + default + "}" + rest, env) == EmptyName(a + ":-" + default)
  {
    hide Expand;
    BlankPlain(a);
    NoDefault(a);
    DefaultAt(a, default);
    LeftTrimmed(a, "");
    assert a + "" == a && TrimSpace(a) == "" && (a + ":-" + default)[..|a|] == a;
    OneReference(a, rest, env);
    OneReference(a + ":-" + default, rest, env);
    assert "${" + a + ":-" + default + "}" + rest == "${" + (a + ":-" + default) + "}" + rest;
  }
}
