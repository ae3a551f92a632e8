/** Leaf paths of a JSON document from its token stream, against the recursive definition on the document. */
module JsonTokens {
  import opened Text

  /** A token of the decoder. `off` is the position after a string, the only one that is used. */
  datatype Token = ObjectOpen | ObjectClose | ArrayOpen | ArrayClose | Str(text: string, off: int) | Other

  datatype Json = Scalar | Text(text: string, off: int) | Array(items: seq<Json>) | Object(members: seq<Member>)

  datatype Member = Member(key: string, off: int, value: Json)

  // ---- the definition on documents ----

  function LeafPath(path: seq<string>, key: string): string {
    if path == [] then ToLower(key) else ToLower(JoinByte(path, '.') + "." + key)
  }

  /** Each leaf with the position of the key last written for its path. Arrays are leaves, empty objects have none. */
  function Leaves(members: seq<Member>, path: seq<string>, out: map<string, int>): map<string, int>
    decreases members
  {
    if members == [] then out
    else
      var m := members[0];
      Leaves(members[1..], path,
             if m.value.Object? then Leaves(m.value.members, path + [m.key], out)
             else out[LeafPath(path, m.key) := m.off])
  }

  /** Paths are in lower case, their elements joined by dots: `{"Server":{"Port":..}}` has the leaf `server.port`. */
  lemma PathsAreLower(outer: string, key: string, off: int, at: int)
    ensures var doc := [Member(outer, off, Object([Member(key, at, Scalar)]))];
            var path := ToLower(outer) + "." + ToLower(key);
            && Leaves(doc, [], map[]) == map[path := at]
            && Leaves([Member(key, at, Scalar)], [], map[]) == map[ToLower(key) := at]
  {
    OneLeaf([], key, at);
    OneLeaf([outer], key, at);
    var inner, empty: map<string, int> := [Member(key, at, Scalar)], map[];
    var doc := [Member(outer, off, Object(inner))];
    assert doc[1..] == [] && [] + [outer] == [outer] && JoinByte([outer], '.') == outer;
    assert ToLower(outer + "." + key) == ToLower(outer) + "." + ToLower(key);
    assert Leaves(doc, [], empty) == Leaves(doc[1..], [], Leaves(inner, [outer], empty));
  }

  lemma OneLeaf(path: seq<string>, key: string, at: int)
    ensures Leaves([Member(key, at, Scalar)], path, map[]) == map[LeafPath(path, key) := at]
  {
    assert [Member(key, at, Scalar)][1..] == [];
  }

  predicate NonEmptyKeys(members: seq<Member>)
    decreases members
  {
    members == [] ||
    (members[0].key != "" && (members[0].value.Object? ==> NonEmptyKeys(members[0].value.members))
     && NonEmptyKeys(members[1..]))
  }

  function Tokens(v: Json): seq<Token>
    decreases v, 0
  {
    match v
    case Scalar => [Other]
    case Text(s, off) => [Str(s, off)]
    case Array(items) => [ArrayOpen] + ItemTokens(items) + [ArrayClose]
    case Object(members) => [ObjectOpen] + MemberTokens(members) + [ObjectClose]
  }

  function ItemTokens(items: seq<Json>): seq<Token>
    decreases items
  {
    if items == [] then [] else Tokens(items[0]) + ItemTokens(items[1..])
  }

  function MemberTokens(members: seq<Member>): seq<Token>
    decreases members
  {
    if members == [] then []
    else [Str(members[0].key, members[0].off)] + Tokens(members[0].value) + MemberTokens(members[1..])
  }

  // ---- the machine ----

  /** `skip` is the bracket depth inside an array, zero outside of arrays. */
  datatype Machine = Machine(path: seq<string>, depth: nat, pending: string, pendOff: int, skip: nat,
                             out: map<string, int>)

  function Consume(s: Machine): Machine {
    s.(pending := "", pendOff := 0,
       out := if s.pending == "" then s.out else s.out[LeafPath(s.path, s.pending) := s.pendOff])
  }

  function Step(s: Machine, t: Token): Machine {
    if s.skip > 0 then
      if t.ArrayOpen? || t.ObjectOpen? then s.(skip := s.skip + 1)
      else if t.ArrayClose? || t.ObjectClose? then s.(skip := s.skip - 1)
      else s
    else
      match t
      case ObjectOpen =>
        s.(path := if s.pending != "" then s.path + [s.pending] else s.path,
           pending := "", pendOff := 0, depth := s.depth + 1)
      case ObjectClose =>
        s.(depth := if s.depth > 0 then s.depth - 1 else 0, path := if |s.path| > 0 then s.path[..|s.path| - 1] else [])
      case ArrayOpen => Consume(s).(skip := 1)
      case ArrayClose => s
      case Str(text, off) =>
        if s.depth > 0 && s.pending == "" then s.(pending := text, pendOff := if text == "" then 0 else off)
        else Consume(s)
      case Other => Consume(s)
  }

  function Run(s: Machine, ts: seq<Token>): Machine
    decreases |ts|
  {
    if ts == [] then s else Run(Step(s, ts[0]), ts[1..])
  }

  function Start(): Machine { Machine([], 0, "", 0, 0, map[]) }

  /** The loop over the inside of an array. */
  method SkipArray(ts: seq<Token>, start: nat, ghost s: Machine) returns (closed: bool, i: nat)
    requires start <= |ts| && s.skip == 1
    ensures start <= i <= |ts|
    ensures closed ==> i > start && Run(s, ts[start..]) == Run(s.(skip := 0), ts[i..])
    ensures !closed ==> Run(s, ts[start..]).out == s.out
  {
    i := start;
    var inner: nat := 1;
    while inner > 0
      invariant start <= i <= |ts| && (inner == 0 ==> i > start)
      invariant Run(s.(skip := inner), ts[i..]) == Run(s, ts[start..])
      decreases |ts| - i
    {
      if i == |ts| { return false, i; }
      var d := ts[i];
      i := i + 1;
      if d.ArrayOpen? || d.ObjectOpen? { inner := inner + 1; }
      else if d.ArrayClose? || d.ObjectClose? { inner := inner - 1; }
    }
    closed := true;
  }

  /** `jsonLeafOffsets` on the tokens before the end of the file or the first syntax error. */
  method LeafOffsets(ts: seq<Token>) returns (out: map<string, int>)
    ensures out == Run(Start(), ts).out
  {
    hide LeafPath;
    out := map[];
    var path: seq<string>, depth: nat, pending, pendOff := [], 0, "", 0;
    var i := 0;
    while i < |ts|
      invariant 0 <= i <= |ts|
      invariant Run(Machine(path, depth, pending, if pending == "" then 0 else pendOff, 0, out), ts[i..]) ==
                Run(Start(), ts)
    {
      var t := ts[i];
      i := i + 1;
      match t
      case ObjectOpen =>
        if pending != "" {
          path, pending := path + [pending], "";
        }
        depth := depth + 1;
      case ObjectClose =>
        if depth > 0 { depth := depth - 1; }
        if |path| > 0 { path := path[..|path| - 1]; }
      case ArrayOpen =>
        if pending != "" {
          out, pending := out[LeafPath(path, pending) := pendOff], "";
        }
        var closed;
        closed, i := SkipArray(ts, i, Machine(path, depth, "", 0, 1, out));
        if !closed { return; }
      case ArrayClose =>
      case Str(text, off) =>
        if depth > 0 && pending == "" {
          pending, pendOff := text, off;
        } else if pending != "" {
          out, pending := out[LeafPath(path, pending) := pendOff], "";
        }
      case Other =>
        if pending != "" {
          out, pending := out[LeafPath(path, pending) := pendOff], "";
        }
    }
  }

  // ---- agreement ----

  lemma {:induction false} RunAppend(s: Machine, a: seq<Token>, b: seq<Token>)
    ensures Run(s, a + b) == Run(Run(s, a), b)
    decreases |a|
  {
    hide Step;
    if a == [] {
      assert a + b == b;
    } else {
      assert (a + b)[1..] == a[1..] + b;
      RunAppend(Step(s, a[0]), a[1..], b);
    }
  }

  lemma RunOne(s: Machine, t: Token)
    ensures Run(s, [t]) == Step(s, t)
  {
  }

  /** Inside an array every value is skipped. */
  lemma {:induction false} SkipValue(s: Machine, v: Json)
    requires s.skip > 0
    ensures Run(s, Tokens(v)) == s
    decreases v, 0
  {
    hide Run, ItemTokens, MemberTokens;
    match v
    case Scalar => RunOne(s, Other);
    case Text(text, off) => RunOne(s, Str(text, off));
    case Array(items) =>
      SkipItems(s.(skip := s.skip + 1), items);
      Bracketed(s, ArrayOpen, ItemTokens(items), ArrayClose);
    case Object(members) =>
      SkipMembers(s.(skip := s.skip + 1), members);
      Bracketed(s, ObjectOpen, MemberTokens(members), ObjectClose);
  }

  lemma Bracketed(s: Machine, open: Token, inner: seq<Token>, close: Token)
    ensures Run(s, [open] + inner + [close]) == Step(Run(Step(s, open), inner), close)
  {
    hide Step, Run;
    RunAppend(s, [open] + inner, [close]);
    RunAppend(s, [open], inner);
    RunOne(s, open);
    RunOne(Run(Step(s, open), inner), close);
  }

  lemma {:induction false} SkipItems(s: Machine, items: seq<Json>)
    requires s.skip > 0
    ensures Run(s, ItemTokens(items)) == s
    decreases items
  {
    if items != [] {
      hide Run, Tokens;
      SkipValue(s, items[0]);
      SkipItems(s, items[1..]);
      RunAppend(s, Tokens(items[0]), ItemTokens(items[1..]));
    }
  }

  lemma {:induction false} SkipMembers(s: Machine, members: seq<Member>)
    requires s.skip > 0
    ensures Run(s, MemberTokens(members)) == s
    decreases members
  {
    if members != [] {
      var key := Str(members[0].key, members[0].off);
      SkipValue(s, members[0].value);
      SkipMembers(s, members[1..]);
      RunOne(s, key);
      hide Run, Tokens;
      RunAppend(s, [key] + Tokens(members[0].value), MemberTokens(members[1..]));
      RunAppend(s, [key], Tokens(members[0].value));
    }
  }

  /** The members of an object add exactly its leaves. */
  lemma {:induction false} MembersRun(s: Machine, members: seq<Member>)
    requires s.skip == 0 && s.depth > 0 && s.pending == "" && s.pendOff == 0 && NonEmptyKeys(members)
    ensures Run(s, MemberTokens(members)) == s.(out := Leaves(members, s.path, s.out))
    decreases members, 1
  {
    if members != [] {
      var m := members[0];
      var key := Str(m.key, m.off);
      var s1 := s.(pending := m.key, pendOff := m.off);
      var out := if m.value.Object? then Leaves(m.value.members, s.path + [m.key], s.out)
                 else s.out[LeafPath(s.path, m.key) := m.off];
      MemberValueRun(s1, m);
      MembersRun(s.(out := out), members[1..]);
      RunOne(s, key);
      hide Run, Tokens, LeafPath;
      RunAppend(s, [key] + Tokens(m.value), MemberTokens(members[1..]));
      RunAppend(s, [key], Tokens(m.value));
    }
  }

  lemma {:induction false} MemberValueRun(s: Machine, m: Member)
    requires s.skip == 0 && s.depth > 0 && s.pending == m.key != "" && s.pendOff == m.off
    requires m.value.Object? ==> NonEmptyKeys(m.value.members)
    ensures Run(s, Tokens(m.value)) ==
            s.(pending := "", pendOff := 0,
               out := if m.value.Object? then Leaves(m.value.members, s.path + [m.key], s.out)
                      else s.out[LeafPath(s.path, m.key) := m.off])
    decreases m.value, 0
  {
    hide Run, ItemTokens, MemberTokens, LeafPath, Leaves;
    match m.value
    case Scalar => RunOne(s, Other);
    case Text(text, off) => RunOne(s, Str(text, off));
    case Array(items) =>
      SkipItems(Step(s, ArrayOpen), items);
      Bracketed(s, ArrayOpen, ItemTokens(items), ArrayClose);
    case Object(members) =>
      MembersRun(Step(s, ObjectOpen), members);
      Bracketed(s, ObjectOpen, MemberTokens(members), ObjectClose);
  }

  /** On the tokens of an object without empty keys the machine finds exactly the leaves of the object. */
  lemma MachineFindsLeaves(members: seq<Member>)
    requires NonEmptyKeys(members)
    ensures Run(Start(), Tokens(Object(members))).out == Leaves(members, [], map[])
  {
    hide Run, MemberTokens;
    MembersRun(Step(Start(), ObjectOpen), members);
    Bracketed(Start(), ObjectOpen, MemberTokens(members), ObjectClose);
  }

  /** The leaves in document order. */
  function LeafList(members: seq<Member>, path: seq<string>): seq<(string, int)>
    decreases members
  {
    if members == [] then []
    else
      var m := members[0];
      (if m.value.Object? then LeafList(m.value.members, path + [m.key]) else [(LeafPath(path, m.key), m.off)]) +
      LeafList(members[1..], path)
  }

  /** The last entry for a path. */
  function LastFor(ls: seq<(string, int)>, k: string): Option<int> {
    if ls == [] then None
    else if ls[|ls| - 1].0 == k then Some(ls[|ls| - 1].1)
    else LastFor(ls[..|ls| - 1], k)
  }

  lemma {:induction false} LastForAppend(a: seq<(string, int)>, b: seq<(string, int)>, k: string)
    ensures LastFor(a + b, k) == if LastFor(b, k).Some? then LastFor(b, k) else LastFor(a, k)
  {
    if b == [] {
      assert a + b == a;
    } else {
      assert (a + b)[..|a + b| - 1] == a + b[..|b| - 1];
      LastForAppend(a, b[..|b| - 1], k);
    }
  }

  /** A path is found exactly when some leaf has it, with the position of the last such key in the document. */
  lemma {:induction false} LastLeafWins(members: seq<Member>, path: seq<string>, out: map<string, int>, k: string)
    ensures var found, last := Leaves(members, path, out), LastFor(LeafList(members, path), k);
            && (k in found <==> last.Some? || k in out)
            && (k in found ==> found[k] == if last.Some? then last.value else out[k])
    decreases members
  {
    hide LeafPath;
    if members != [] {
      var m := members[0];
      var first := if m.value.Object? then LeafList(m.value.members, path + [m.key])
                   else [(LeafPath(path, m.key), m.off)];
      var out' := if m.value.Object? then Leaves(m.value.members, path + [m.key], out)
                  else out[LeafPath(path, m.key) := m.off];
      if m.value.Object? { LastLeafWins(m.value.members, path + [m.key], out, k); }
      LastLeafWins(members[1..], path, out', k);
      LastForAppend(first, LeafList(members[1..], path), k);
    }
  }

  lemma {:induction false} LeavesSnoc(ms: seq<Member>, m: Member, path: seq<string>, out: map<string, int>)
    ensures var before := Leaves(ms, path, out);
            Leaves(ms + [m], path, out) == if m.value.Object? then Leaves(m.value.members, path + [m.key], before)
                                           else before[LeafPath(path, m.key) := m.off]
    decreases |ms|
  {
    hide LeafPath;
    if ms == [] {
      assert [] + [m] == [m];
      assert forall x: map<string, int> :: Leaves([m][1..], path, x) == x;
    } else {
      assert (ms + [m])[1..] == ms[1..] + [m];
      var first := ms[0];
      var out' := if first.value.Object? then Leaves(first.value.members, path + [first.key], out)
                  else out[LeafPath(path, first.key) := first.off];
      LeavesSnoc(ms[1..], m, path, out');
    }
  }

  lemma {:induction false} TokensSnoc(ms: seq<Member>, m: Member)
    ensures MemberTokens(ms + [m]) == MemberTokens(ms) + ([Str(m.key, m.off)] + Tokens(m.value))
    decreases |ms|
  {
    hide Tokens;
    if ms == [] {
      assert [] + [m] == [m];
    } else {
      assert (ms + [m])[1..] == ms[1..] + [m];
      TokensSnoc(ms[1..], m);
    }
  }

  lemma {:induction false} NoEmptyPath(ms: seq<Member>, path: seq<string>, out: map<string, int>)
    requires NonEmptyKeys(ms) && "" !in out
    ensures "" !in Leaves(ms, path, out)
    decreases ms
  {
    if ms != [] {
      var m := ms[0];
      assert LeafPath(path, m.key) != "";
      hide LeafPath;
      if m.value.Object? { NoEmptyPath(m.value.members, path + [m.key], out); }
      NoEmptyPath(ms[1..], path,
                  if m.value.Object? then Leaves(m.value.members, path + [m.key], out)
                  else out[LeafPath(path, m.key) := m.off]);
    }
  }

  /** Behind an empty key a string passes for the key itself. */
  lemma EmptyKeyRun(s: Machine, off: int, v: Json)
    requires s.skip == 0 && s.depth > 0 && s.pending == "" && s.pendOff == 0 && !v.Object?
    ensures Run(s, [Str("", off)] + Tokens(v)) ==
            if v.Text? then s.(pending := v.text, pendOff := if v.text == "" then 0 else v.off) else s
  {
    hide Run, ItemTokens;
    RunAppend(s, [Str("", off)], Tokens(v));
    RunOne(s, Str("", off));
    match v
    case Scalar => RunOne(s, Other);
    case Text(text, o) => RunOne(s, Str(text, o));
    case Array(items) =>
      SkipItems(Step(s, ArrayOpen), items);
      Bracketed(s, ArrayOpen, ItemTokens(items), ArrayClose);
    case Object(_) =>
  }

  function DropLast(path: seq<string>): seq<string> { if path == [] then [] else path[..|path| - 1] }

  /** Behind an empty key an object adds its leaves to the path around it, and the path loses its last element. */
  lemma EmptyKeyObject(s: Machine, off: int, inner: seq<Member>)
    requires s.skip == 0 && s.depth > 0 && s.pending == "" && s.pendOff == 0 && NonEmptyKeys(inner)
    ensures Run(s, [Str("", off)] + Tokens(Object(inner))) ==
            s.(path := DropLast(s.path), out := Leaves(inner, s.path, s.out))
  {
    hide Run, MemberTokens, Leaves;
    RunAppend(s, [Str("", off)], Tokens(Object(inner)));
    RunOne(s, Str("", off));
    MembersRun(Step(s, ObjectOpen), inner);
    Bracketed(s, ObjectOpen, MemberTokens(inner), ObjectClose);
  }

  lemma RunAt(s: Machine, ts: seq<Token>, i: nat)
    requires i < |ts|
    ensures Run(s, ts[i..]) == Run(Step(s, ts[i]), ts[i + 1..])
  {
    assert ts[i..][1..] == ts[i + 1..];
  }

  /** In `{"x": {"": {}, "y": 1}}` the position of `x.y` is recorded under `y`. */
  lemma PathLost(x: int, e: int, y: int)
    ensures var doc := Object([Member("x", x, Object([Member("", e, Object([])), Member("y", y, Scalar)]))]);
            && Run(Start(), Tokens(doc)).out == map["y" := y]
            && Leaves(doc.members, [], map[]) == map["x.y" := y]
  {
    var ts := [ObjectOpen, Str("x", x), ObjectOpen, Str("", e), ObjectOpen, ObjectClose, Str("y", y), Other,
               ObjectClose, ObjectClose];
    PathLostTokens(x, e, y);
    PathLostLeaves(x, e, y);
    hide *;
    PathLostFront(ts, x, e);
    PathLostBack(ts, y);
    assert ts[0..] == ts;
  }

  lemma PathLostFront(ts: seq<Token>, x: int, e: int)
    requires |ts| == 10 && ts[..6] == [ObjectOpen, Str("x", x), ObjectOpen, Str("", e), ObjectOpen, ObjectClose]
    ensures Run(Start(), ts[0..]) == Run(Machine([], 2, "", 0, 0, map[]), ts[6..])
  {
    var path, first := ["x"], ts[..6];
    assert path[..0] == [] && [] + ["x"] == path && forall i :: 0 <= i < 6 ==> ts[i] == first[i];
    hide Run, Consume;
    RunAt(Machine([], 0, "", 0, 0, map[]), ts, 0);
    RunAt(Machine([], 1, "", 0, 0, map[]), ts, 1);
    RunAt(Machine([], 1, "x", x, 0, map[]), ts, 2);
    RunAt(Machine(path, 2, "", 0, 0, map[]), ts, 3);
    RunAt(Machine(path, 2, "", 0, 0, map[]), ts, 4);
    RunAt(Machine(path, 3, "", 0, 0, map[]), ts, 5);
  }

  lemma PathLostBack(ts: seq<Token>, y: int)
    requires |ts| == 10 && ts[6..] == [Str("y", y), Other, ObjectClose, ObjectClose]
    ensures Run(Machine([], 2, "", 0, 0, map[]), ts[6..]).out == map["y" := y]
  {
    var under, last := map["y" := y], ts[6..];
    assert LeafPath([], "y") == "y" && forall i :: 0 <= i < 4 ==> ts[6 + i] == last[i];
    hide Run, LeafPath;
    RunAt(Machine([], 2, "", 0, 0, map[]), ts, 6);
    RunAt(Machine([], 2, "y", y, 0, map[]), ts, 7);
    RunAt(Machine([], 2, "", 0, 0, under), ts, 8);
    RunAt(Machine([], 1, "", 0, 0, under), ts, 9);
    RunNothing(Machine([], 0, "", 0, 0, under));
    assert ts[10..] == [];
  }

  lemma RunNothing(s: Machine)
    ensures Run(s, []) == s
  {
  }

  lemma PathLostTokens(x: int, e: int, y: int)
    ensures Tokens(Object([Member("x", x, Object([Member("", e, Object([])), Member("y", y, Scalar)]))])) ==
            [ObjectOpen, Str("x", x), ObjectOpen, Str("", e), ObjectOpen, ObjectClose, Str("y", y), Other, ObjectClose,
             ObjectClose]
  {
    var empty, leaf := Member("", e, Object([])), Member("y", y, Scalar);
    var outer := Member("x", x, Object([empty, leaf]));
    assert MemberTokens([]) == [] && [empty, leaf][1..] == [leaf] && [leaf][1..] == [] && [outer][1..] == [];
    assert Tokens(Object([])) == [ObjectOpen, ObjectClose];
    assert MemberTokens([leaf]) == [Str("y", y), Other];
    var inner := [Str("", e), ObjectOpen, ObjectClose, Str("y", y), Other];
    assert MemberTokens([empty, leaf]) == inner;
    assert Tokens(outer.value) == [ObjectOpen] + inner + [ObjectClose];
    assert MemberTokens([outer]) == [Str("x", x)] + Tokens(outer.value) + MemberTokens([]);
    assert Tokens(Object([outer])) == [ObjectOpen] + MemberTokens([outer]) + [ObjectClose];
  }

  lemma PathLostLeaves(x: int, e: int, y: int)
    ensures Leaves([Member("x", x, Object([Member("", e, Object([])), Member("y", y, Scalar)]))], [], map[]) ==
            map["x.y" := y]
  {
    var empty, leaf := Member("", e, Object([])), Member("y", y, Scalar);
    var outer := Member("x", x, Object([empty, leaf]));
    assert LeafPath(["x"], "y") == "x.y" && [] + ["x"] == ["x"];
    assert [empty, leaf][1..] == [leaf] && [leaf][1..] == [] && [outer][1..] == [];
    hide LeafPath;
    assert Leaves([leaf], ["x"], map[]) == map["x.y" := y];
    assert Leaves([empty, leaf], ["x"], map[]) == map["x.y" := y];
  }

  // ---- the leaves of an object under an empty key ----

  function Dotted(ls: seq<(string, int)>): (r: seq<(string, int)>)
    ensures |r| == |ls| && forall i :: 0 <= i < |ls| ==> r[i] == ("." + ls[i].0, ls[i].1)
  {
    seq(|ls|, i requires 0 <= i < |ls| => ("." + ls[i].0, ls[i].1))
  }

  lemma DottedPath(path: seq<string>, key: string)
    ensures LeafPath([""] + path, key) == "." + LeafPath(path, key)
  {
    assert ([""] + path)[1..] == path;
    var rest := if path == [] then key else JoinByte(path, '.') + "." + key;
    assert JoinByte([""] + path, '.') + "." + key == "." + rest;
    assert ToLower("." + rest) == "." + ToLower(rest);
  }

  lemma {:induction false} DottedLeaves(ms: seq<Member>, path: seq<string>)
    ensures LeafList(ms, [""] + path) == Dotted(LeafList(ms, path))
    decreases ms
  {
    hide LeafPath;
    if ms != [] {
      var m := ms[0];
      if m.value.Object? {
        DottedLeaves(m.value.members, path + [m.key]);
        assert [""] + (path + [m.key]) == [""] + path + [m.key];
      } else {
        DottedPath(path, m.key);
      }
      DottedLeaves(ms[1..], path);
    }
  }

  lemma {:induction false} LastForIn(ls: seq<(string, int)>, k: string)
    ensures LastFor(ls, k).Some? ==> exists i :: 0 <= i < |ls| && ls[i] == (k, LastFor(ls, k).value)
  {
    if ls != [] && ls[|ls| - 1].0 != k { LastForIn(ls[..|ls| - 1], k); }
    if ls != [] { assert ls[|ls| - 1] == (ls[|ls| - 1].0, ls[|ls| - 1].1); }
  }

  lemma {:induction false} LeafListSnoc(ms: seq<Member>, m: Member, path: seq<string>)
    ensures LeafList(ms + [m], path) == LeafList(ms, path) + LeafList([m], path)
    decreases |ms|
  {
    hide LeafPath;
    if ms == [] {
      assert [] + [m] == [m];
    } else {
      assert (ms + [m])[1..] == ms[1..] + [m];
      LeafListSnoc(ms[1..], m, path);
    }
  }

  /** `found` is `before` with these leaves on top. */
  ghost predicate Holds(found: map<string, int>, ls: seq<(string, int)>, before: map<string, int>) {
    forall k :: && (k in found <==> LastFor(ls, k).Some? || k in before)
                && (k in found ==> found[k] == if LastFor(ls, k).Some? then LastFor(ls, k).value else before[k])
  }

  lemma LeavesHold(ms: seq<Member>, path: seq<string>, before: map<string, int>)
    ensures Holds(Leaves(ms, path, before), LeafList(ms, path), before)
  {
    hide Leaves, LeafList;
    var ls, found := LeafList(ms, path), Leaves(ms, path, before);
    forall k ensures && (k in found <==> LastFor(ls, k).Some? || k in before)
                     && (k in found ==> found[k] == if LastFor(ls, k).Some? then LastFor(ls, k).value else before[k]) {
      LastLeafWins(ms, path, before, k);
    }
  }

  lemma HeldNothing(a: map<string, int>, before: map<string, int>)
    requires Holds(a, [], before)
    ensures a == before
  {
    assert forall k :: LastFor([], k) == None;
    assert forall k :: k in a <==> k in before;
  }

  lemma HeldApart(a: map<string, int>, b: map<string, int>, ls: seq<(string, int)>, before: map<string, int>)
    requires Holds(a, ls, before) && Holds(b, Dotted(ls), before) && Increasing(ls) && ls != []
    requires forall i, k :: 0 <= i < |ls| && k in before ==> before[k] < ls[i].1
    ensures a != b
  {
    var n := |ls| - 1;
    var k := "." + ls[n].0;
    assert LastFor(Dotted(ls), k) == Some(ls[n].1);
    LastForIn(ls, k);
    hide LastFor, Dotted;
    assert k in b && b[k] == ls[n].1;
    assert k in before ==> before[k] < ls[n].1;
  }

  /** Without leaves nothing is added; with leaves at positions of their own, the path makes a difference. */
  lemma PathMatters(inner: seq<Member>, before: map<string, int>)
    requires var ls := LeafList(inner, []);
             Increasing(ls) && forall i, k :: 0 <= i < |ls| && k in before ==> before[k] < ls[i].1
    ensures Leaves(inner, [], before) == Leaves(inner, [""], before) <==> LeafList(inner, []) == []
  {
    DottedLeaves(inner, []);
    assert [""] + [] == [""];
    LeavesHold(inner, [], before);
    LeavesHold(inner, [""], before);
    var ls, a, b := LeafList(inner, []), Leaves(inner, [], before), Leaves(inner, [""], before);
    hide LeafList, Leaves, Holds, Increasing;
    if ls == [] {
      assert Dotted(ls) == [];
      HeldNothing(a, before);
      HeldNothing(b, before);
    } else {
      HeldApart(a, b, ls, before);
    }
  }

  // ---- the exact condition ----

  /** The positions of the leaves grow along the document. */
  predicate Positioned(members: seq<Member>) { Increasing(LeafList(members, [])) }

  /** After any members with keys, one more member is recorded as it should be exactly when its key is not empty, or it
      is an object without leaves. */
  lemma KeyFoundExactly(ms: seq<Member>, key: string, off: int, v: Json)
    requires NonEmptyKeys(ms) && (v.Object? ==> NonEmptyKeys(v.members))
    requires v.Object? ==> Positioned(ms + [Member(key, off, v)])
    ensures var all := ms + [Member(key, off, v)];
            Run(Start(), Tokens(Object(all))).out == Leaves(all, [], map[]) <==>
            key != "" || (v.Object? && LeafList(v.members, []) == [])
  {
    var m := Member(key, off, v);
    if key != "" {
      NonEmptySnoc(ms, m);
      MachineFindsLeaves(ms + [m]);
    } else {
      LeavesSnoc(ms, m, [], map[]);
      EmptyKeyBehind(ms, off, v);
      if v.Object? {
        ObjectPositions(ms, off, v);
        PathMatters(v.members, Leaves(ms, [], map[]));
        assert [] + [""] == [""];
      } else {
        NoEmptyPath(ms, [], map[]);
        assert LeafPath([], "") == "";
      }
    }
  }

  /** What is recorded of a document that ends with an empty key. */
  lemma EmptyKeyBehind(ms: seq<Member>, off: int, v: Json)
    requires NonEmptyKeys(ms) && (v.Object? ==> NonEmptyKeys(v.members))
    ensures var before := Leaves(ms, [], map[]);
            Run(Start(), Tokens(Object(ms + [Member("", off, v)]))).out ==
            if v.Object? then Leaves(v.members, [], before) else before
  {
    var m := Member("", off, v);
    var s := Step(Start(), ObjectOpen);
    TokensSnoc(ms, m);
    MembersRun(s, ms);
    hide Run, Tokens, MemberTokens, Leaves, LeafPath;
    var s1 := s.(out := Leaves(ms, [], map[]));
    if v.Object? { EmptyKeyObject(s1, off, v.members); } else { EmptyKeyRun(s1, off, v); }
    RunAppend(s, MemberTokens(ms), [Str("", off)] + Tokens(v));
    TokensOfObject(ms + [m]);
    Bracketed(Start(), ObjectOpen, MemberTokens(ms + [m]), ObjectClose);
  }

  predicate Increasing(ls: seq<(string, int)>) {
    forall i, j :: 0 <= i < j < |ls| ==> ls[i].1 < ls[j].1
  }

  lemma BothIncrease(front: seq<(string, int)>, ls: seq<(string, int)>)
    requires Increasing(front + Dotted(ls))
    ensures Increasing(ls) && forall i, j :: 0 <= i < |ls| && 0 <= j < |front| ==> front[j].1 < ls[i].1
  {
    var all := front + Dotted(ls);
    forall i, j | 0 <= i < j < |ls| ensures ls[i].1 < ls[j].1 {
      assert all[|front| + i].1 < all[|front| + j].1;
    }
    forall i, j | 0 <= i < |ls| && 0 <= j < |front| ensures front[j].1 < ls[i].1 {
      assert all[j].1 < all[|front| + i].1;
    }
  }

  lemma ObjectPositions(ms: seq<Member>, off: int, v: Json)
    requires v.Object? && Positioned(ms + [Member("", off, v)])
    ensures var ls, before := LeafList(v.members, []), Leaves(ms, [], map[]);
            Increasing(ls) && forall i, k :: 0 <= i < |ls| && k in before ==> before[k] < ls[i].1
  {
    var m, front, ls, before := Member("", off, v), LeafList(ms, []), LeafList(v.members, []), Leaves(ms, [], map[]);
    LeafListSnoc(ms, m, []);
    DottedLeaves(v.members, []);
    OnlyMember(m);
    assert [""] + [] == [""];
    hide LeafList, Leaves;
    BothIncrease(front, ls);
    forall i, k | 0 <= i < |ls| && k in before ensures before[k] < ls[i].1 {
      LastLeafWins(ms, [], map[], k);
      LastForIn(front, k);
    }
  }

  lemma OnlyMember(m: Member)
    requires m.value.Object?
    ensures LeafList([m], []) == LeafList(m.value.members, [m.key])
  {
    assert [m][1..] == [] && [] + [m.key] == [m.key];
  }

  lemma TokensOfObject(ms: seq<Member>)
    ensures Tokens(Object(ms)) == [ObjectOpen] + MemberTokens(ms) + [ObjectClose]
  {
  }

  lemma {:induction false} NonEmptySnoc(ms: seq<Member>, m: Member)
    requires NonEmptyKeys(ms) && m.key != "" && (m.value.Object? ==> NonEmptyKeys(m.value.members))
    ensures NonEmptyKeys(ms + [m])
    decreases |ms|
  {
    if ms == [] {
      assert [] + [m] == [m];
    } else {
      assert (ms + [m])[1..] == ms[1..] + [m];
      NonEmptySnoc(ms[1..], m);
    }
  }
}
