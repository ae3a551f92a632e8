/** Handler prototypes and the pool of instances: every request runs on an instance of its own, and the global
    middlewares stand once in front of its chain, exactly when no initialisation failed before. */
module HandlerPool {
  import opened Text

  datatype Transport = Http | Rpc

  /** A middleware as it is declared. `Create` needs a router and may name the transports it supports. */
  datatype Middleware =
    | AnySide(f: int) | OnlyHttp(f: int) | OnlyRpc(f: int) | Create(f: int, transports: set<Transport>) | Unknown

  /** An entry of a chain; `Creator` is built when the handler is initialised. */
  datatype Entry = Func(f: int) | Creator(f: int, transports: set<Transport>)

  /** A field of a controller. One that holds a middleware is filled by name; it is only kept when the types fit. */
  datatype Field = Plain | Injected(name: string, fits: bool, f: int)

  /** `skipped` are the middlewares that the controller's configuration blocks for this function, `action` is the
      function found by its name. */
  datatype Controller = Controller(fields: seq<Field>, skipped: set<string>, action: Option<int>)

  /** What never changes of a handler. */
  datatype Spec = Spec(transport: Transport, controller: Option<Controller>, typed: Option<Entry>)

  // ---- chains ----

  /** `buildMiddlewares`: what does not fit the transport is left out. */
  function Built(mids: seq<Middleware>, t: Transport): seq<Entry> {
    if mids == [] then []
    else
      (match mids[0]
       case AnySide(f) => [Func(f)]
       case OnlyHttp(f) => if t.Http? then [Func(f)] else []
       case OnlyRpc(f) => if t.Rpc? then [Func(f)] else []
       case Create(f, ts) => [Creator(f, ts)]
       case Unknown => []) + Built(mids[1..], t)
  }

  /** Naming no transport at all means both. */
  predicate Supports(e: Entry, t: Transport) { e.Creator? && e.transports != {} ==> t in e.transports }

  function Supported(es: seq<Entry>, t: Transport): (r: seq<Entry>)
    ensures forall e :: e in r <==> e in es && Supports(e, t)
  {
    if es == [] then [] else (if Supports(es[0], t) then [es[0]] else []) + Supported(es[1..], t)
  }

  lemma {:induction false} SupportedAppend(a: seq<Entry>, b: seq<Entry>, t: Transport)
    ensures Supported(a + b, t) == Supported(a, t) + Supported(b, t)
  {
    hide Supports;
    if a == [] {
      assert a + b == b;
    } else {
      assert (a + b)[1..] == a[1..] + b;
      SupportedAppend(a[1..], b, t);
    }
  }

  lemma {:induction false} SupportedTwice(es: seq<Entry>, t: Transport)
    ensures Supported(Supported(es, t), t) == Supported(es, t)
  {
    hide Supports;
    if es != [] {
      SupportedTwice(es[1..], t);
      var r := Supported(es[1..], t);
      if Supports(es[0], t) { assert ([es[0]] + r)[1..] == r; } else { assert [] + r == r; }
    }
  }

  /** The filter that runs in place over the finished chain. */
  method KeepSupported(es: seq<Entry>, t: Transport) returns (kept: seq<Entry>)
    ensures kept == Supported(es, t)
  {
    kept := [];
    for i := 0 to |es|
      invariant kept == Supported(es[..i], t)
    {
      assert es[..i + 1] == es[..i] + [es[i]];
      SupportedAppend(es[..i], [es[i]], t);
      if Supports(es[i], t) { kept := kept + [es[i]]; }
    }
    assert es[..|es|] == es;
  }

  lemma {:induction false} BuiltAppend(a: seq<Middleware>, b: seq<Middleware>, t: Transport)
    ensures Built(a + b, t) == Built(a, t) + Built(b, t)
  {
    if a == [] {
      assert a + b == b;
    } else {
      assert (a + b)[1..] == a[1..] + b;
      BuiltAppend(a[1..], b, t);
    }
  }

  /** Which middlewares run on a transport, wherever they stand: those for both sides, those for this side, and the ones
      that name this transport or none. */
  lemma RunsOn(a: seq<Middleware>, m: Middleware, b: seq<Middleware>, t: Transport)
    ensures var runs := if m.Unknown? then []
                        else if m.Create? then
                          (if m.transports == {} || t in m.transports then [Creator(m.f, m.transports)] else [])
                        else if m.AnySide? || (m.OnlyHttp? && t == Http) || (m.OnlyRpc? && t == Rpc) then [Func(m.f)]
                        else [];
            Supported(Built(a + [m] + b, t), t) == Supported(Built(a, t), t) + runs + Supported(Built(b, t), t)
  {
    assert [m][1..] == [] && Built([m][1..], t) == [];
    assert forall e: Entry :: [e][1..] == [];
    var one := Built([m], t);
    assert |one| <= 1;
    if one != [] { assert one == [one[0]] && Supported(one, t) == if Supports(one[0], t) then one else []; }
    BuiltAppend(a, [m], t);
    BuiltAppend(a + [m], b, t);
    hide Built, Supported;
    SupportedAppend(Built(a, t), Built([m], t), t);
    SupportedAppend(Built(a, t) + Built([m], t), Built(b, t), t);
  }

  // ---- controllers ----

  function Fields(s: Spec): seq<Field> { if s.controller.Some? then s.controller.value.fields else [] }

  /** What these fields add to a chain. */
  function Entries(fields: seq<Field>, skipped: set<string>): (r: seq<Entry>)
    ensures forall e :: e in r ==> e.Func?
  {
    if fields == [] then []
    else
      (match fields[0]
       case Plain => []
       case Injected(name, fits, f) => if fits && name !in skipped then [Func(f)] else []) +
      Entries(fields[1..], skipped)
  }

  /** What the first `k` fields of the controller add. */
  function FieldEntries(s: Spec, k: nat): (r: seq<Entry>)
    ensures forall e :: e in r ==> e.Func?
  {
    if s.controller.None? || k > |Fields(s)| then [] else Entries(Fields(s)[..k], s.controller.value.skipped)
  }

  lemma {:induction false} EntriesAppend(a: seq<Field>, b: seq<Field>, skipped: set<string>)
    ensures Entries(a + b, skipped) == Entries(a, skipped) + Entries(b, skipped)
  {
    if a == [] {
      assert a + b == b;
    } else {
      assert (a + b)[1..] == a[1..] + b;
      EntriesAppend(a[1..], b, skipped);
    }
  }

  /** A field adds an entry, wherever it stands, exactly when it holds a middleware of its type that the configuration
      does not block. */
  lemma FieldRuns(a: seq<Field>, x: Field, b: seq<Field>, skipped: set<string>)
    ensures var runs := if x.Injected? && x.fits && x.name !in skipped then [Func(x.f)] else [];
            Entries(a + [x] + b, skipped) == Entries(a, skipped) + runs + Entries(b, skipped)
  {
    assert [x][1..] == [];
    EntriesAppend(a, [x], skipped);
    EntriesAppend(a + [x], b, skipped);
  }

  /** The first field whose middleware is not registered. */
  function FirstMissing(fields: seq<Field>, registered: set<string>): (k: nat)
    ensures k <= |fields|
    ensures k < |fields| ==> fields[k].Injected? && fields[k].name !in registered
    ensures forall i :: 0 <= i < k && fields[i].Injected? ==> fields[i].name in registered
  {
    if fields == [] || (fields[0].Injected? && fields[0].name !in registered) then 0
    else 1 + FirstMissing(fields[1..], registered)
  }

  /** The handler's own function at the end of the chain. */
  function Core(s: Spec): (r: seq<Entry>)
    ensures |r| <= 1
  {
    if s.typed.Some? then [s.typed.value]
    else if s.controller.Some? && s.controller.value.action.Some? then [Func(s.controller.value.action.value)]
    else []
  }

  /** A chain while it is initialised, after `k` fields. */
  function Begun(globals: seq<Middleware>, funcs: seq<Entry>, s: Spec, k: nat): seq<Entry> {
    Built(globals, s.transport) + funcs + FieldEntries(s, k)
  }

  /** The chain of an initialised handler. */
  function FullChain(globals: seq<Middleware>, funcs: seq<Entry>, s: Spec): seq<Entry> {
    Supported(Begun(globals, funcs, s, |Fields(s)|) + Core(s), s.transport)
  }

  /** The entries of an instance whose initialisation failed at these fields, one time after the other. */
  function Pile(globals: seq<Middleware>, funcs: seq<Entry>, s: Spec, fails: seq<nat>): seq<Entry> {
    if fails == [] then funcs
    else Begun(globals, Pile(globals, funcs, s, fails[..|fails| - 1]), s, fails[|fails| - 1])
  }

  lemma {:induction false} FuncsSupported(es: seq<Entry>, t: Transport)
    requires forall e :: e in es ==> e.Func?
    ensures Supported(es, t) == es
  {
    if es != [] {
      FuncsSupported(es[1..], t);
      assert es[0] in es && [es[0]] + es[1..] == es;
    }
  }

  lemma BegunSupported(globals: seq<Middleware>, funcs: seq<Entry>, s: Spec, k: nat)
    ensures Supported(Begun(globals, funcs, s, k), s.transport) ==
            Supported(Built(globals, s.transport), s.transport) + Supported(funcs, s.transport) + FieldEntries(s, k)
  {
    hide Supported, Built, FieldEntries;
    SupportedAppend(Built(globals, s.transport) + funcs, FieldEntries(s, k), s.transport);
    SupportedAppend(Built(globals, s.transport), funcs, s.transport);
    FuncsSupported(FieldEntries(s, k), s.transport);
  }

  /** Every failed initialisation leaves the global middlewares and the entries of the fields before the failure. */
  predicate LeavesNothing(globals: seq<Middleware>, s: Spec, fails: seq<nat>) {
    fails == [] || (Supported(Built(globals, s.transport), s.transport) == []
                    && forall i :: 0 <= i < |fails| ==> FieldEntries(s, fails[i]) == [])
  }

  lemma {:induction false} PileGrows(globals: seq<Middleware>, funcs: seq<Entry>, s: Spec, fails: seq<nat>)
    ensures var base, pile := Supported(funcs, s.transport), Supported(Pile(globals, funcs, s, fails), s.transport);
            && |pile| >= |base| && (|pile| == |base| ==> pile == base)
            && (|pile| == |base| <==> LeavesNothing(globals, s, fails))
    decreases |fails|
  {
    hide Supported, Built, FieldEntries, Begun;
    if fails != [] {
      var n := |fails| - 1;
      PileGrows(globals, funcs, s, fails[..n]);
      BegunSupported(globals, Pile(globals, funcs, s, fails[..n]), s, fails[n]);
      assert fails == fails[..n] + [fails[n]];
      assert LeavesNothing(globals, s, fails) <==>
             LeavesNothing(globals, s, fails[..n]) && FieldEntries(s, fails[n]) == []
             && Supported(Built(globals, s.transport), s.transport) == [];
      var front, pile := Supported(Built(globals, s.transport), s.transport),
                         Supported(Pile(globals, funcs, s, fails[..n]), s.transport);
      if front == [] && FieldEntries(s, fails[n]) == [] { assert [] + pile + [] == pile; }
    }
  }

  /** The chain of an instance is the one of its prototype exactly when no initialisation of it failed, or the failures
      left nothing behind: no global middleware for the transport, and no entry of a field. */
  lemma ChainRightExactly(globals: seq<Middleware>, funcs: seq<Entry>, s: Spec, fails: seq<nat>)
    ensures FullChain(globals, Pile(globals, funcs, s, fails), s) == FullChain(globals, funcs, s) <==>
            LeavesNothing(globals, s, fails)
  {
    hide Supported, Built, FieldEntries, Begun, LeavesNothing;
    PileGrows(globals, funcs, s, fails);
    FullSupported(globals, funcs, s);
    FullSupported(globals, Pile(globals, funcs, s, fails), s);
    hide FullChain, Pile;
  }

  lemma FullSupported(globals: seq<Middleware>, funcs: seq<Entry>, s: Spec)
    ensures FullChain(globals, funcs, s) ==
            Supported(Built(globals, s.transport), s.transport) + Supported(funcs, s.transport)
            + FieldEntries(s, |Fields(s)|) + Supported(Core(s), s.transport)
  {
    hide Supported, Built, FieldEntries, Begun, Core;
    SupportedAppend(Begun(globals, funcs, s, |Fields(s)|), Core(s), s.transport);
    BegunSupported(globals, funcs, s, |Fields(s)|);
  }

  /** Initialising a finished chain again would put the global middlewares in front a second time. */
  lemma InitTwiceDoubles(globals: seq<Middleware>, funcs: seq<Entry>, t: Transport)
    ensures var s := Spec(t, None, None);
            var full := FullChain(globals, funcs, s);
            && FullChain(globals, full, s) == Supported(Built(globals, t), t) + full
            && (FullChain(globals, full, s) == full <==> Supported(Built(globals, t), t) == [])
  {
    hide Built, Supports;
    var s := Spec(t, None, None);
    var full := FullChain(globals, funcs, s);
    FullSupported(globals, full, s);
    SupportedTwice(Begun(globals, funcs, s, 0) + [], t);
    assert Supported([], t) == [] && FieldEntries(s, 0) == [];
    assert Supported(Built(globals, t), t) + full + [] + [] == Supported(Built(globals, t), t) + full;
    assert |Supported(Built(globals, t), t) + full| == |Supported(Built(globals, t), t)| + |full|;
  }

  // ---- handlers ----

  class Handler {
    const id: int
    const spec: Spec
    var funcs: seq<Entry>
    var pos: int
    var inited: bool

    constructor (id: int, spec: Spec, funcs: seq<Entry>)
      ensures this.id == id && this.spec == spec && this.funcs == funcs && pos == -1 && !inited
    {
      this.id, this.spec, this.funcs, pos, inited := id, spec, funcs, -1, false;
    }

    /** Builds the chain, once. It panics at a field whose middleware is not registered, and leaves the chain as it is
        then. */
    method Init(globals: seq<Middleware>, registered: set<string>) returns (ok: bool)
      modifies this
      ensures old(inited) ==> ok && inited && funcs == old(funcs) && pos == old(pos)
      ensures !old(inited) ==>
                var k := FirstMissing(Fields(spec), registered);
                && (ok <==> k == |Fields(spec)|) && inited == ok
                && (ok ==> funcs == FullChain(globals, old(funcs), spec) && pos == -1)
                && (!ok ==> funcs == Begun(globals, old(funcs), spec, k) && pos == old(pos))
    {
      if inited { return true; }
      hide Supported;
      funcs := Built(globals, spec.transport) + funcs;
      ok := Inject(registered);
      if !ok { return; }
      if spec.typed.Some? {
        funcs := funcs + [spec.typed.value];
      } else if spec.controller.Some? && spec.controller.value.action.Some? {
        funcs := funcs + [Func(spec.controller.value.action.value)];
      }
      assert funcs == Begun(globals, old(funcs), spec, |Fields(spec)|) + Core(spec);
      var kept := KeepSupported(funcs, spec.transport);
      funcs := kept;
      pos := -1;
      inited := true;
    }

    /** The loop over the fields of a new controller. */
    method Inject(registered: set<string>) returns (ok: bool)
      modifies this`funcs
      ensures var k := FirstMissing(Fields(spec), registered);
              (ok <==> k == |Fields(spec)|) && funcs == old(funcs) + FieldEntries(spec, k)
    {
      if spec.controller.None? { return true; }
      var fields, skipped := spec.controller.value.fields, spec.controller.value.skipped;
      for i := 0 to |fields|
        invariant funcs == old(funcs) + Entries(fields[..i], skipped)
        invariant i <= FirstMissing(fields, registered)
      {
        assert fields[..i + 1] == fields[..i] + [fields[i]];
        EntriesAppend(fields[..i], [fields[i]], skipped);
        match fields[i] {
          case Plain =>
          case Injected(name, fits, f) =>
            if name !in registered { return false; }
            if fits && name !in skipped { funcs := funcs + [Func(f)]; }
        }
      }
      ok := true;
    }

    method Clone() returns (h: Handler)
      ensures fresh(h) && h.id == id && h.spec == spec && h.funcs == funcs && h.pos == pos && !h.inited
    {
      h := new Handler(id, spec, funcs);
      h.pos := pos;
    }

    method Reset()
      modifies this`pos
      ensures pos == -1
    {
      pos := -1;
    }
  }

  predicate NoDuplicates(s: seq<Handler>) { forall i, j :: 0 <= i < j < |s| ==> s[i] != s[j] }

  /** What the manager keeps for one handler id: the prototype and the stack of instances. */
  class Slot {
    const globals: seq<Middleware>
    const model: Handler
    var stack: seq<Handler>
    /** Instances handed out and not returned yet. */
    ghost var lent: set<Handler>
    /** The fields at which initialising an instance failed. */
    ghost var fails: map<Handler, seq<nat>>

    /** The prototype is never initialised; pooled instances stand in the pool once and are not handed out. */
    ghost predicate Valid()
      reads this, model, stack
    {
      && !model.inited && model.pos == -1 && model !in lent
      && (forall h :: h in stack ==> IsInstance(h) && h.pos == -1 && h !in lent && h != model)
      && NoDuplicates(stack)
    }

    /** The chain of an instance follows from the prototype and the failures of this instance. */
    ghost predicate IsInstance(h: Handler)
      reads this, h, model
    {
      && h in fails && h.spec == model.spec
      && var base := Pile(globals, model.funcs, model.spec, fails[h]);
         h.funcs == if h.inited then FullChain(globals, base, model.spec) else base
    }

    constructor (globals: seq<Middleware>, model: Handler)
      requires !model.inited && model.pos == -1
      ensures Valid() && this.globals == globals && this.model == model && stack == [] && lent == {} && fails == map[]
    {
      this.globals, this.model, stack, lent, fails := globals, model, [], {}, map[];
    }

    /** An instance for one request, pooled or cloned, and made ready. Nobody else holds it, and it is not the
        prototype. When initialising it panics, the instance goes to the pool as it is. */
    method Acquire(registered: set<string>) returns (h: Handler, ok: bool)
      requires Valid()
      modifies this`stack, this`lent, this`fails, stack
      ensures Valid() && IsInstance(h) && h !in old(lent) && h != model && h.pos == -1 && h.inited == ok
      ensures if old(stack) == [] then fresh(h) else h == old(stack)[|old(stack)| - 1]
      ensures ok ==> h !in stack && lent == old(lent) + {h}
                     && stack == (if old(stack) == [] then [] else old(stack)[..|old(stack)| - 1])
      ensures !ok ==> lent == old(lent) && |stack| > 0 && stack[|stack| - 1] == h
                      && stack[..|stack| - 1] == (if old(stack) == [] then [] else old(stack)[..|old(stack)| - 1])
      ensures var k := FirstMissing(Fields(model.spec), registered);
              var before := if old(stack) == [] then [] else old(fails)[h];
              && (ok <==> k == |Fields(model.spec)| || (old(stack) != [] && old(stack[|stack| - 1].inited)))
              && fails == old(fails)[h := if ok then before else before + [k]]
    {
      hide FullChain, Pile, Begun, Fields, FirstMissing, FieldEntries, NoDuplicates;
      h := Get();
      ghost var before := fails[h];
      ok := h.Init(globals, registered);
      if !ok {
        ghost var k := FirstMissing(Fields(model.spec), registered);
        PileOnce(globals, model.funcs, model.spec, before, k);
        fails := fails[h := before + [k]];
        Release(h);
      }
    }

    method Get() returns (h: Handler)
      requires Valid()
      modifies this`stack, this`lent, this`fails
      ensures Valid() && IsInstance(h) && h.pos == -1
      ensures h !in old(lent) && h != model && h !in stack && lent == old(lent) + {h}
      ensures if old(stack) == [] then fresh(h) && stack == [] && !h.inited && fails == old(fails)[h := []]
              else h == old(stack)[|old(stack)| - 1] && stack == old(stack)[..|old(stack)| - 1] && fails == old(fails)
    {
      hide FullChain, Pile;
      if |stack| > 0 {
        h := stack[|stack| - 1];
        assert h in stack && IsInstance(h);
        stack := stack[..|stack| - 1];
        assert forall x :: x in stack ==> x in old(stack) && x != h;
      } else {
        h := model.Clone();
        fails := fails[h := []];
        NoPile(globals, model.funcs, model.spec);
      }
      lent := lent + {h};
    }

    /** After a request, however far its chain ran, the instance comes back for the next one. */
    method Release(h: Handler)
      requires Valid() && h in lent && IsInstance(h)
      modifies this`stack, this`lent, h`pos
      ensures Valid() && lent == old(lent) - {h} && stack == old(stack) + [h] && h.pos == -1
    {
      hide FullChain, Pile;
      h.Reset();
      stack := stack + [h];
      lent := lent - {h};
    }
  }

  lemma NoPile(globals: seq<Middleware>, funcs: seq<Entry>, s: Spec)
    ensures Pile(globals, funcs, s, []) == funcs
  {
  }

  lemma PileOnce(globals: seq<Middleware>, funcs: seq<Entry>, s: Spec, fails: seq<nat>, k: nat)
    ensures Pile(globals, funcs, s, fails + [k]) == Begun(globals, Pile(globals, funcs, s, fails), s, k)
  {
    assert (fails + [k])[..|fails|] == fails;
  }

  /** A controller whose only field asks for the middleware 2, and whose function is 3. */
  function LateSpec(): Spec { Spec(Http, Some(Controller([Injected("session", true, 2)], {}, Some(3))), None) }

  lemma LateChain(globals: seq<Middleware>, s: Spec)
    requires globals == [AnySide(1)] && s == LateSpec()
    ensures FirstMissing(Fields(s), {}) == 0 && FirstMissing(Fields(s), {"session"}) == 1
    ensures FullChain(globals, Pile(globals, [], s, [0]), s) == [Func(1), Func(1), Func(2), Func(3)]
  {
    var fields, pile := Fields(s), [Func(1)];
    assert fields[1..] == [] && fields[..0] == [] && fields[..1] == fields && globals[1..] == [];
    assert FirstMissing([], {"session"}) == 0;
    assert Entries([], {}) == [] && Built(globals[1..], Http) == [];
    assert Built(globals, Http) == [Func(1)] && Entries(fields, {}) == [Func(2)];
    assert FieldEntries(s, 0) == [] && FieldEntries(s, 1) == [Func(2)] && Core(s) == [Func(3)];
    hide Built, FieldEntries, Core, Supported;
    assert [0][..0] == [] && Pile(globals, [], s, []) == [];
    assert Pile(globals, [], s, [0]) == [Func(1)] + [] + [] == pile;
    FullSupported(globals, pile, s);
    FuncsSupported([Func(1)], Http);
    FuncsSupported([Func(3)], Http);
  }

  /** A controller asks for a middleware that is registered only after the first request: the second request runs the
      global middleware twice. */
  method LateMiddleware() returns (h: Handler, first: bool, second: bool)
    ensures !first && second && h.inited && h.funcs == [Func(1), Func(1), Func(2), Func(3)]
  {
    hide FullChain, Pile, FirstMissing;
    var s := LateSpec();
    var model := new Handler(7, s, []);
    var slot := new Slot([AnySide(1)], model);
    LateChain([AnySide(1)], s);
    h, first := slot.Acquire({});
    assert [] + [0] == [0] && slot.fails[h] == [0];
    var again;
    again, second := slot.Acquire({"session"});
    h := again;
  }
}
