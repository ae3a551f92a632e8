/** How discovered services become proxy routes without displacing routes the process serves itself. */
module RouteStore {
  import opened Text
  import opened RouteNodes
  import opened RoutePattern
  import opened RouteTable

  datatype ServiceNode = ServiceNode(id: string, address: string, protocol: Option<string>)

  datatype Endpoint = Endpoint(methods: seq<string>, path: string)

  datatype Service = Service(name: string, nodes: seq<ServiceNode>, endpoints: seq<Endpoint>)

  datatype HandlerType = LocalHandler | ProxyHandler | SubscriberHandler

  /** The nodes this process registered, by id and by folded address. */
  datatype Identity = Identity(ids: set<string>, addrs: set<string>)

  type Models = map<int, HandlerType>

  /** What requests see: the routes, the handlers of every route object, and the handler prototypes. */
  datatype World = World(routes: Table, handlers: HandlerTable, models: Models)

  /** Address folding and the content hash of proxy handlers belong to other code. */
  datatype Environment = Environment(fold: string -> string, proxyId: (string, string) -> nat)

  // ---- which nodes a service may be forwarded to ----

  function IdentityOf(locals: seq<Service>, env: Environment): Identity {
    Identity(set s, n | s in locals && n in s.nodes :: n.id,
             set s, n | s in locals && n in s.nodes :: env.fold(n.address))
  }

  predicate IsSelf(n: ServiceNode, me: Identity, env: Environment) {
    n.id in me.ids || env.fold(n.address) in me.addrs
  }

  predicate SpeaksHttp(n: ServiceNode) {
    n.protocol.None? || n.protocol.value == "" || ToLower(n.protocol.value) in ["http", "https"]
  }

  /** A protocol name of a node that takes HTTP requests, in any case of its letters. */
  predicate HttpName(p: string) {
    p == "" || (4 <= |p| <= 5 && p[0] in "hH" && p[1] in "tT" && p[2] in "tT" && p[3] in "pP"
                && (|p| == 5 ==> p[4] in "sS"))
  }

  /** A node that no service of the process has, by id or by folded address, and that may take HTTP requests. */
  ghost predicate Foreign(n: ServiceNode, locals: seq<Service>, env: Environment) {
    && (forall s, o :: s in locals && o in s.nodes ==> o.id != n.id && env.fold(o.address) != env.fold(n.address))
    && (n.protocol.Some? ==> HttpName(n.protocol.value))
  }

  /** Exactly the foreign nodes, in order: `at` are their positions. */
  ghost predicate ForeignNodes(nodes: seq<ServiceNode>, at: seq<nat>, all: seq<ServiceNode>, locals: seq<Service>,
                               env: Environment) {
    && |at| == |nodes| && (forall i, j :: 0 <= i < j < |at| ==> at[i] < at[j])
    && (forall i :: 0 <= i < |at| ==> at[i] < |all| && nodes[i] == all[at[i]])
    && (forall k :: 0 <= k < |all| ==> (k in at <==> Foreign(all[k], locals, env)))
  }

  /** The service has a node that a proxy route may forward to. */
  ghost predicate Forwardable(s: Service, locals: seq<Service>, env: Environment) {
    exists n :: n in s.nodes && Foreign(n, locals, env)
  }

  // ---- local and proxy routes ----

  /** The route for this method and pattern holds a handler known to be the process's own. */
  predicate ServedLocally(w: World, m: string, ks: seq<Key>) {
    var r := RouteIn(w.routes, m, ks);
    r.Some? && exists h :: h in HandlersOf(w.handlers, r.value) && h in w.models && w.models[h] != ProxyHandler
  }

  /** Proxy handlers have non-negative ids and every other handler a negative one. */
  ghost predicate ModelsOk(models: Models, localSeq: nat) {
    forall id :: id in models ==> (models[id] == ProxyHandler <==> id >= 0) && (id < 0 ==> -id <= localSeq)
  }

  /** Route ids are drawn from a counter, and every handler of a route has a prototype. */
  ghost predicate WorldOk(w: World, lastRoute: int) {
    forall r :: r in w.handlers ==> r.id <= lastRoute && forall h :: h in w.handlers[r] ==> h in w.models
  }

  /** Prototypes and handlers of known routes stay as they are. */
  ghost predicate Extends(w: World, w': World) {
    && (forall id :: id in w.models ==> id in w'.models && w'.models[id] == w.models[id])
    && (forall r :: r in w.handlers ==> r in w'.handlers && w'.handlers[r] == w.handlers[r])
  }

  /** No HTTP route the process serves itself changes, nor its handlers, and no handler prototype is overwritten. */
  ghost predicate LocalsKept(w: World, w': World) {
    && Extends(w, w')
    && forall m, ks :: m != "CONNECT" && ServedLocally(w, m, ks) ==>
         RouteIn(w'.routes, m, ks) == RouteIn(w.routes, m, ks) && ServedLocally(w', m, ks)
  }

  predicate AllProxies(handlers: seq<int>, models: Models) {
    forall h :: h in handlers ==> h in models && models[h] == ProxyHandler
  }

  /** A handler of the route is not known to be a proxy. */
  predicate MaybeLocal(r: Option<Route>, w: World) {
    r.Some? && !AllProxies(HandlersOf(w.handlers, r.value), w.models)
  }

  predicate AnyMaybeLocal(w: World, methods: seq<string>, path: string, re: Engine) {
    exists i :: 0 <= i < |methods| && MaybeLocal(FindRoute(w.routes, methods[i], path, re), w)
  }

  // ---- what one endpoint does ----

  function WithProxy(models: Models, id: int): Models { if id in models then models else models[id := ProxyHandler] }

  /** A proxy route for the endpoint is registered with a new route object; the pattern may be refused. */
  ghost predicate EndpointStored(w: World, w': World, r: Route, s: Service, e: Endpoint, env: Environment, re: Engine) {
    var id := env.proxyId(s.name, e.path);
    && w'.models == WithProxy(w.models, id) && w'.handlers == w.handlers[r := [id]]
    && if Acceptable(r, re) then Added(w.routes, w'.routes, r, e.methods, PatternNodes(e.path, '/', re))
       else w'.routes == w.routes
  }

  /** Exactly what storing one endpoint of a forwardable service does. */
  ghost predicate EndpointStep(w: World, w': World, r: Route, s: Service, e: Endpoint, env: Environment, re: Engine) {
    if "CONNECT" in e.methods || AnyMaybeLocal(w, e.methods, e.path, re) then w' == w
    else EndpointStored(w, w', r, s, e, env, re)
  }

  function RootedPath(path: string): string { if "/" <= path then path else "/" + path }

  /** A path without a leading slash gets one, and the parser would read it the same way. */
  lemma RootedReads(path: string)
    ensures RootedPath(path) == if path == "" then "/" else Normal(path, '/')
    ensures RootedPath(path)[0] == '/'
  {
  }

  /** A route of the process's own is registered with a new handler; the pattern may be refused. */
  ghost predicate LocalStored(w: World, w': World, r: Route, id: int, re: Engine) {
    && id !in w.models && w'.models == w.models[id := LocalHandler] && w'.handlers == w.handlers[r := [id]]
    && if Acceptable(r, re) then Added(w.routes, w'.routes, r, r.methods, PatternNodes(r.path, '/', re))
       else w'.routes == w.routes
  }

  // ---- what a round does ----

  /** The route of a discovered endpoint, with the shared proxy handler. */
  predicate IsProxyRouteOf(r: Route, h: HandlerTable, s: Service, e: Endpoint, env: Environment) {
    r.path == e.path && r.methods == e.methods && HandlersOf(h, r) == [env.proxyId(s.name, e.path)]
  }

  /** A route object made after `since` for an endpoint without CONNECT of a forwardable service. */
  ghost predicate Explained(r: Route, h: HandlerTable, services: seq<Service>, locals: seq<Service>, env: Environment,
                            since: int) {
    && since < r.id && r in h
    && exists s, e :: s in services && e in s.endpoints && Forwardable(s, locals, env) && "CONNECT" !in e.methods
                      && IsProxyRouteOf(r, h, s, e, env)
  }

  /** Whatever changed is now bound to such a route. */
  ghost predicate ChangesExplained(w: World, w': World, services: seq<Service>, locals: seq<Service>, env: Environment,
                                   since: int) {
    forall m, ks :: RouteIn(w'.routes, m, ks) != RouteIn(w.routes, m, ks) ==>
      RouteIn(w'.routes, m, ks).Some? &&
      Explained(RouteIn(w'.routes, m, ks).value, w'.handlers, services, locals, env, since)
  }

  /** An endpoint that asks for a route: HTTP methods only and an acceptable pattern. */
  predicate Wanted(e: Endpoint, re: Engine) {
    && e.methods != [] && !Registers(e.methods, "CONNECT")
    && Parse(e.path, '/', re).Some? && ValidKeys(PatternKeys(e.path, '/', re))
  }

  /** Some method of the endpoint is served by the process itself, or all are bound to a proxy route of this round. */
  ghost predicate Settled(w: World, e: Endpoint, services: seq<Service>, locals: seq<Service>, env: Environment,
                          re: Engine, since: int) {
    var ks := PatternKeys(e.path, '/', re);
    || (exists m :: Registers(e.methods, m) && ServedLocally(w, m, ks))
    || (forall m :: Registers(e.methods, m) ==>
          RouteIn(w.routes, m, ks).Some? &&
          Explained(RouteIn(w.routes, m, ks).value, w.handlers, services, locals, env, since))
  }

  ghost predicate AllSettled(w: World, services: seq<Service>, all: seq<Service>, locals: seq<Service>,
                             env: Environment, re: Engine, since: int) {
    forall s, e :: s in services && e in s.endpoints && Forwardable(s, locals, env) && Wanted(e, re) ==>
      Settled(w, e, all, locals, env, re, since)
  }

  /** A round keeps the local routes, explains every change, and settles every endpoint that asks for a route. */
  ghost predicate RoundDone(w: World, w': World, services: seq<Service>, locals: seq<Service>, env: Environment,
                            re: Engine, since: int) {
    && LocalsKept(w, w') && ChangesExplained(w, w', services, locals, env, since)
    && AllSettled(w', services, services, locals, env, re, since)
  }

  class Router {
    const tree: Tree
    const env: Environment
    var handlers: HandlerTable
    var models: Models
    var localSeq: nat
    var nextRouteId: int

    ghost function Value(): World
      reads this, tree
    {
      World(tree.Routes, handlers, models)
    }

    ghost predicate Valid()
      reads this, tree, tree.Repr
    {
      tree.Valid() && ModelsOk(models, localSeq) && WorldOk(Value(), nextRouteId)
    }

    constructor (re: Engine, env: Environment)
      ensures Valid() && fresh(tree) && tree.Repr == {} && tree.re == re && this.env == env
      ensures Value() == World(map[], map[], map[]) && localSeq == 0 && nextRouteId == 0
    {
      var t := new Tree(re);
      tree, this.env, handlers, models, localSeq, nextRouteId := t, env, map[], map[], 0, 0;
    }

    /** A local or subscriber handler gets an id no prototype has. */
    method GenerateLocalHandler(kind: HandlerType) returns (id: int)
      requires Valid() && kind != ProxyHandler
      modifies this
      ensures Valid() && id !in old(models) && Value() == old(Value()).(models := old(models)[id := kind])
      ensures localSeq == old(localSeq) + 1 && id == -(localSeq as int) && nextRouteId == old(nextRouteId)
    {
      localSeq := localSeq + 1;
      id := -(localSeq as int);
      models := models[id := kind];
    }

    /** The end of `addRoute`: a route of the process's own, with a new route object and a new handler. */
    method RegisterLocal(methods: seq<string>, path: string) returns (r: Route, ok: bool)
      requires Valid()
      modifies this, tree, tree.Repr
      ensures Valid() && fresh(tree.Repr - old(tree.Repr)) && nextRouteId == old(nextRouteId) + 1
      ensures r == Route(nextRouteId, RootedPath(path), methods, Replace) && (ok <==> Acceptable(r, tree.re))
      ensures LocalStored(old(Value()), Value(), r, -(localSeq as int), tree.re)
    {
      hide Roots, RouteIn, Added, Acceptable, ModelsOk;
      var id := GenerateLocalHandler(LocalHandler);
      nextRouteId := nextRouteId + 1;
      r := Route(nextRouteId, RootedPath(path), methods, Replace);
      handlers := handlers[r := [id]];
      ok := tree.AddRoute(r);
    }

    /** A proxy handler's prototype is shared by all refreshes of the same service and path. */
    method GenerateProxyHandler(service: string, path: string) returns (id: int)
      requires Valid()
      modifies `models
      ensures Valid() && id == env.proxyId(service, path) && id in models && models[id] == ProxyHandler
      ensures models == WithProxy(old(models), id)
    {
      id := env.proxyId(service, path);
      if id !in models { models := models[id := ProxyHandler]; }
    }

    /** `localIdentity`: ids and folded addresses of exactly the own nodes; `None` while nothing is registered. */
    method LocalIdentity(locals: seq<Service>) returns (me: Option<Identity>)
      ensures me == if locals == [] then None else Some(IdentityOf(locals, env))
    {
      if |locals| == 0 { return None; }
      var ids, addrs := {}, {};
      for i := 0 to |locals|
        invariant Identity(ids, addrs) == IdentityOf(locals[..i], env)
      {
        var nodes := locals[i].nodes;
        for j := 0 to |nodes|
          invariant ids == IdentityOf(locals[..i], env).ids + set n | n in nodes[..j] :: n.id
          invariant addrs == IdentityOf(locals[..i], env).addrs + set n | n in nodes[..j] :: env.fold(n.address)
        {
          assert nodes[..j + 1] == nodes[..j] + [nodes[j]];
          ids, addrs := ids + {nodes[j].id}, addrs + {env.fold(nodes[j].address)};
        }
        assert nodes[..|nodes|] == nodes;
        IdentityGrows(locals, i, env);
      }
      assert locals[..|locals|] == locals;
      me := Some(Identity(ids, addrs));
    }

    /** `filteSelf` and `filteHttpNodes`: the nodes a proxy route may forward to, in order. */
    method ForwardNodes(s: Service, me: Identity, ghost locals: seq<Service>)
      returns (nodes: seq<ServiceNode>, ghost at: seq<nat>)
      requires me == IdentityOf(locals, env)
      ensures ForeignNodes(nodes, at, s.nodes, locals, env)
    {
      hide IsSelf, SpeaksHttp, Foreign, IdentityOf;
      nodes, at := [], [];
      for i := 0 to |s.nodes|
        invariant ForeignNodes(nodes, at, s.nodes[..i], locals, env)
      {
        var n := s.nodes[i];
        ForeignExactly(n, locals, env);
        if !IsSelf(n, me, env) && SpeaksHttp(n) { nodes, at := nodes + [n], at + [i]; }
      }
      assert s.nodes[..|s.nodes|] == s.nodes;
    }

    /** Whether one of the methods already has a route with a handler that is, or may be, local. */
    method HasLocalRoute(methods: seq<string>, path: string) returns (r: bool)
      requires Valid()
      ensures r <==> AnyMaybeLocal(Value(), methods, path, tree.re)
    {
      hide FindRoute, Roots;
      for i := 0 to |methods|
        invariant forall k :: 0 <= k < i ==> !MaybeLocal(FindRoute(tree.Routes, methods[k], path, tree.re), Value())
      {
        var route := tree.RouteOf(methods[i], path);
        if route.Some? {
          var proxies := OnlyProxies(HandlersOf(handlers, route.value));
          if !proxies { return true; }
        }
      }
      r := false;
    }

    method OnlyProxies(ids: seq<int>) returns (r: bool)
      ensures r <==> AllProxies(ids, models)
    {
      for j := 0 to |ids|
        invariant forall k :: 0 <= k < j ==> ids[k] in models && models[ids[k]] == ProxyHandler
      {
        var h := ids[j];
        if h !in models || models[h] != ProxyHandler {
          assert h in ids;
          return false;
        }
      }
      r := true;
    }

    /** One endpoint of a forwardable service: nothing, or a new proxy route under its pattern. The route object is made
        in any case. */
    method StoreEndpoint(s: Service, e: Endpoint)
      requires Valid()
      modifies this, tree, tree.Repr
      ensures Valid() && fresh(tree.Repr - old(tree.Repr)) && nextRouteId == old(nextRouteId) + 1
      ensures var r := Route(old(nextRouteId) + 1, e.path, e.methods, Replace);
              EndpointStep(old(Value()), Value(), r, s, e, env, tree.re)
    {
      hide Roots, RouteIn, Added, Acceptable, AnyMaybeLocal, ModelsOk;
      nextRouteId := nextRouteId + 1;
      var r := Route(nextRouteId, e.path, e.methods, Replace);
      if "CONNECT" in e.methods { return; }
      var shielded := HasLocalRoute(e.methods, e.path);
      if shielded { return; }
      var id := GenerateProxyHandler(s.name, e.path);
      handlers := handlers[r := [id]];
      var ok := tree.AddRoute(r);
    }

    /** One service: nothing is stored unless some node may be forwarded to. */
    method StoreService(s: Service, me: Identity, ghost locals: seq<Service>)
      requires Valid() && me == IdentityOf(locals, env)
      modifies this, tree, tree.Repr
      ensures Valid() && fresh(tree.Repr - old(tree.Repr)) && nextRouteId >= old(nextRouteId)
      ensures RoundDone(old(Value()), Value(), [s], locals, env, tree.re, old(nextRouteId))
    {
      hide Roots, IdentityOf, Foreign, RouteIn, LocalsKept, WorldOk, ModelsOk, ChangesExplained, Settled, Forwardable,
        EndpointStep;
      ghost var w0, since := Value(), nextRouteId;
      NothingDone(w0, locals, env, tree.re, since);
      var nodes, at := ForwardNodes(s, me, locals);
      SomeForeign(nodes, at, s, locals, env);
      if |nodes| == 0 {
        RoundOf(w0, w0, s, [], locals, env, tree.re, since);
        return;
      }
      for i := 0 to |s.endpoints|
        invariant Valid() && fresh(tree.Repr - old(tree.Repr)) && nextRouteId >= since
        invariant LocalsKept(w0, Value()) && ChangesExplained(w0, Value(), [s], locals, env, since)
        invariant EndpointsSettled(Value(), s.endpoints[..i], s, locals, env, tree.re, since)
      {
        ghost var w, r := Value(), Route(nextRouteId + 1, s.endpoints[i].path, s.endpoints[i].methods, Replace);
        StoreEndpoint(s, s.endpoints[i]);
        EndpointDone(w0, w, Value(), r, s, i, locals, env, tree.re, since);
      }
      assert s.endpoints[..|s.endpoints|] == s.endpoints;
      RoundOf(w0, Value(), s, s.endpoints, locals, env, tree.re, since);
    }

    /** `store`: one round over the discovered services; without a known identity it does nothing. */
    method Store(services: seq<Service>, locals: seq<Service>)
      requires Valid()
      modifies this, tree, tree.Repr
      ensures Valid() && fresh(tree.Repr - old(tree.Repr)) && nextRouteId >= old(nextRouteId)
      ensures locals == [] ==> Value() == old(Value())
      ensures locals != [] ==>
                RoundDone(old(Value()), Value(), services, locals, env, tree.re, old(nextRouteId))
    {
      hide Roots, RouteIn, LocalsKept, WorldOk, ModelsOk, RoundDone, IdentityOf;
      ghost var w0, since := Value(), nextRouteId;
      NothingDone(w0, locals, env, tree.re, since);
      var me := LocalIdentity(locals);
      if |services| == 0 || me.None? { return; }
      for i := 0 to |services|
        invariant Valid() && fresh(tree.Repr - old(tree.Repr)) && nextRouteId >= since
        invariant RoundDone(w0, Value(), services[..i], locals, env, tree.re, since)
      {
        ghost var w, mid := Value(), nextRouteId;
        StoreService(services[i], me.value, locals);
        RoundsJoin(w0, w, Value(), services[..i], services[i], locals, env, tree.re, since, mid);
        assert services[..i + 1] == services[..i] + [services[i]];
      }
      assert services[..|services|] == services;
    }

    /** Any number of rounds: the worlds between them, and what the process serves itself at the end. */
    method StoreRounds(rounds: seq<Round>) returns (ghost ws: seq<World>)
      requires Valid()
      modifies this, tree, tree.Repr
      ensures Valid() && fresh(tree.Repr - old(tree.Repr))
      ensures |ws| == |rounds| + 1 && ws[0] == old(Value()) && ws[|rounds|] == Value() && Rounds(ws)
      ensures LocalsKept(old(Value()), Value())
    {
      hide Roots, RouteIn, LocalsKept, WorldOk, ModelsOk, ChangesExplained, AllSettled, IdentityOf;
      ghost var w0 := Value();
      KeptTransitive(w0, w0, w0);
      ws := [w0];
      for i := 0 to |rounds|
        invariant Valid() && fresh(tree.Repr - old(tree.Repr))
        invariant |ws| == i + 1 && ws[0] == w0 && ws[i] == Value() && Rounds(ws) && LocalsKept(w0, Value())
      {
        ghost var w := Value();
        Store(rounds[i].services, rounds[i].locals);
        KeptTransitive(w0, w, Value());
        KeptTransitive(w, w, w);
        ws := ws + [Value()];
      }
    }
  }

  /** A route registered by the process itself is served locally under all its methods. */
  lemma LocalIsServed(w: World, w': World, r: Route, id: int, re: Engine, m: string)
    requires LocalStored(w, w', r, id, re) && Acceptable(r, re) && Registers(r.methods, m)
    ensures RouteIn(w'.routes, m, PatternKeys(r.path, '/', re)) == Some(r)
    ensures ServedLocally(w', m, PatternKeys(r.path, '/', re))
  {
    var ks := PatternKeys(r.path, '/', re);
    AddedLookup(w.routes, w'.routes, r, r.methods, PatternNodes(r.path, '/', re), m, ks);
    hide RouteIn, Added, Acceptable;
    assert HandlersOf(w'.handlers, r) == [id] && id in [id] && id in w'.models;
  }

  /** A new router, a route of its own, and any rounds of discovery: the route still answers for its pattern. */
  method ServeAndDiscover(re: Engine, env: Environment, methods: seq<string>, path: string, rounds: seq<Round>)
    returns (router: Router, r: Route)
    ensures router.Valid() && r.path == RootedPath(path) && r.methods == methods
    ensures Acceptable(r, re) ==> forall m | Registers(methods, m) && m != "CONNECT" ::
              RouteIn(router.Value().routes, m, PatternKeys(r.path, '/', re)) == Some(r)
              && ServedLocally(router.Value(), m, PatternKeys(r.path, '/', re))
  {
    hide Roots, RouteIn, Added, Acceptable, WorldOk, ModelsOk, LocalStored, Registers, ServedLocally, PatternKeys;
    router := new Router(re, env);
    ghost var w := router.Value();
    var ok;
    r, ok := router.RegisterLocal(methods, path);
    ghost var served := router.Value();
    if ok {
      forall m | Registers(methods, m)
        ensures RouteIn(served.routes, m, PatternKeys(r.path, '/', re)) == Some(r)
        ensures ServedLocally(served, m, PatternKeys(r.path, '/', re))
      {
        LocalIsServed(w, served, r, -(router.localSeq as int), re, m);
      }
    }
    ghost var ws := router.StoreRounds(rounds);
  }

  // ---- identities ----

  lemma IdentityGrows(locals: seq<Service>, i: nat, env: Environment)
    requires i < |locals|
    ensures var a, b, nodes := IdentityOf(locals[..i], env), IdentityOf(locals[..i + 1], env), locals[i].nodes;
            && b.ids == a.ids + (set n | n in nodes :: n.id)
            && b.addrs == a.addrs + set n | n in nodes :: env.fold(n.address)
  {
    assert locals[..i + 1] == locals[..i] + [locals[i]];
    var a, b := IdentityOf(locals[..i], env), IdentityOf(locals[..i + 1], env);
    forall n | n in locals[i].nodes ensures n.id in b.ids && env.fold(n.address) in b.addrs {
      assert locals[i] in locals[..i + 1];
    }
    forall s, n | s in locals[..i] && n in s.nodes ensures n.id in b.ids && env.fold(n.address) in b.addrs {
      assert s in locals[..i + 1];
    }
  }

  /** Neither own nor of another protocol, told from the identity. */
  lemma ForeignExactly(n: ServiceNode, locals: seq<Service>, env: Environment)
    ensures Foreign(n, locals, env) <==> !IsSelf(n, IdentityOf(locals, env), env) && SpeaksHttp(n)
  {
    hide SpeaksHttp, HttpName;
    HttpNode(n);
    var me := IdentityOf(locals, env);
    if n.id in me.ids {
      var s, o :| s in locals && o in s.nodes && o.id == n.id;
    }
    if env.fold(n.address) in me.addrs {
      var s, o :| s in locals && o in s.nodes && env.fold(o.address) == env.fold(n.address);
    }
  }

  lemma HttpNode(n: ServiceNode)
    ensures SpeaksHttp(n) <==> (n.protocol.Some? ==> HttpName(n.protocol.value))
  {
    if n.protocol.Some? { HttpNames(n.protocol.value); }
    hide HttpName;
  }

  lemma HttpNames(p: string)
    ensures HttpName(p) <==> p == "" || ToLower(p) in ["http", "https"]
  {
    var low := ToLower(p);
    assert 4 <= |p| ==> low[0] == LowerByte(p[0]) && low[1] == LowerByte(p[1]) && low[2] == LowerByte(p[2])
                        && low[3] == LowerByte(p[3]);
    assert 5 <= |p| ==> low[4] == LowerByte(p[4]);
    assert |low| == 4 ==> low == [low[0], low[1], low[2], low[3]];
    assert |low| == 5 ==> low == [low[0], low[1], low[2], low[3], low[4]];
  }

  lemma SomeForeign(nodes: seq<ServiceNode>, at: seq<nat>, s: Service, locals: seq<Service>, env: Environment)
    requires ForeignNodes(nodes, at, s.nodes, locals, env)
    ensures Forwardable(s, locals, env) <==> nodes != []
  {
    hide Foreign;
    if nodes != [] {
      assert at[0] in at && s.nodes[at[0]] in s.nodes;
    }
    if n :| n in s.nodes && Foreign(n, locals, env) {
      var k :| 0 <= k < |s.nodes| && s.nodes[k] == n;
      assert k in at;
    }
  }

  // ---- one endpoint ----

  /** A prototype is known to be local exactly when it is not known to be a proxy, as long as all are known. */
  lemma LocalIsMaybeLocal(w: World, m: string, ks: seq<Key>, lastRoute: int)
    requires WorldOk(w, lastRoute)
    ensures MaybeLocal(RouteIn(w.routes, m, ks), w) <==> ServedLocally(w, m, ks)
  {
    hide RouteIn;
  }

  /** Binding a pattern none of whose HTTP routes may be local leaves every local HTTP route alone. */
  lemma ProxyKeepsLocals(w: World, w': World, r: Route, re: Engine)
    requires Acceptable(r, re) && Added(w.routes, w'.routes, r, r.methods, PatternNodes(r.path, '/', re))
             && Extends(w, w')
    requires !AnyMaybeLocal(w, r.methods, r.path, re)
    ensures LocalsKept(w, w')
    ensures forall m, ks :: RouteIn(w'.routes, m, ks) != RouteIn(w.routes, m, ks) ==>
            RouteIn(w'.routes, m, ks) == Some(r)
    ensures forall m :: Registers(r.methods, m) ==> RouteIn(w'.routes, m, PatternKeys(r.path, '/', re)) == Some(r)
  {
    var keys := PatternKeys(r.path, '/', re);
    forall m, ks
      ensures RouteIn(w'.routes, m, ks) != RouteIn(w.routes, m, ks) ==> RouteIn(w'.routes, m, ks) == Some(r)
      ensures m != "CONNECT" && ServedLocally(w, m, ks) ==> RouteIn(w'.routes, m, ks) == RouteIn(w.routes, m, ks)
    {
      AddedLookup(w.routes, w'.routes, r, r.methods, PatternNodes(r.path, '/', re), m, ks);
      if Registers(r.methods, m) {
        var i :| 0 <= i < |r.methods| && ToUpper(r.methods[i]) == m;
        if m != "CONNECT" { assert FindRoute(w.routes, r.methods[i], r.path, re) == RouteIn(w.routes, m, keys); }
      }
    }
    hide RouteIn;
    forall m, ks | m != "CONNECT" && ServedLocally(w, m, ks) ensures ServedLocally(w', m, ks) {
      ServedOn(w, w', m, ks);
    }
    forall m | Registers(r.methods, m) ensures RouteIn(w'.routes, m, keys) == Some(r) {
      AddedLookup(w.routes, w'.routes, r, r.methods, PatternNodes(r.path, '/', re), m, keys);
    }
  }

  lemma ServedOn(w: World, w': World, m: string, ks: seq<Key>)
    requires Extends(w, w') && ServedLocally(w, m, ks) && RouteIn(w'.routes, m, ks) == RouteIn(w.routes, m, ks)
    ensures ServedLocally(w', m, ks)
  {
    hide RouteIn;
    var r := RouteIn(w.routes, m, ks).value;
    var h :| h in HandlersOf(w.handlers, r) && h in w.models && w.models[h] != ProxyHandler;
    assert h in HandlersOf(w'.handlers, r) && h in w'.models && w'.models[h] != ProxyHandler;
  }

  ghost predicate EndpointsSettled(w: World, es: seq<Endpoint>, s: Service, locals: seq<Service>, env: Environment,
                                   re: Engine, since: int) {
    forall e :: e in es && Wanted(e, re) ==> Settled(w, e, [s], locals, env, re, since)
  }

  /** One endpoint keeps the local routes and adds its own proxy route, or is served locally already. */
  lemma EndpointEffect(w: World, w': World, r: Route, s: Service, e: Endpoint, locals: seq<Service>, env: Environment,
                       re: Engine, since: int)
    requires EndpointStep(w, w', r, s, e, env, re) && WorldOk(w, r.id - 1) && since < r.id
    requires r == Route(r.id, e.path, e.methods, Replace) && e in s.endpoints && Forwardable(s, locals, env)
    ensures LocalsKept(w, w') && Extends(w, w') && ChangesExplained(w, w', [s], locals, env, since)
    ensures Wanted(e, re) ==> Settled(w', e, [s], locals, env, re, since)
  {
    hide RouteIn, Forwardable;
    assert s in [s];
    if "CONNECT" in e.methods {
      KeptReflexive(w);
      ConnectRegisters(e.methods);
    } else if AnyMaybeLocal(w, e.methods, e.path, re) {
      KeptReflexive(w);
      if Wanted(e, re) { MaybeLocalSettles(w, e, [s], locals, env, re, since, r.id - 1); }
    } else {
      assert Extends(w, w') && HandlersOf(w'.handlers, r) == [env.proxyId(s.name, e.path)];
      assert IsProxyRouteOf(r, w'.handlers, s, e, env);
      assert Explained(r, w'.handlers, [s], locals, env, since);
      if Acceptable(r, re) {
        ProxyKeepsLocals(w, w', r, re);
      } else {
        forall m, ks | m != "CONNECT" && ServedLocally(w, m, ks) ensures ServedLocally(w', m, ks) {
          ServedOn(w, w', m, ks);
        }
      }
    }
  }

  lemma ConnectRegisters(methods: seq<string>)
    ensures "CONNECT" in methods ==> Registers(methods, "CONNECT")
  {
    if "CONNECT" in methods {
      var i :| 0 <= i < |methods| && methods[i] == "CONNECT";
      assert ToUpper(methods[i]) == "CONNECT";
    }
  }

  lemma MaybeLocalSettles(w: World, e: Endpoint, all: seq<Service>, locals: seq<Service>, env: Environment, re: Engine,
                          since: int, lastRoute: int)
    requires AnyMaybeLocal(w, e.methods, e.path, re) && Wanted(e, re) && WorldOk(w, lastRoute)
    ensures Settled(w, e, all, locals, env, re, since)
  {
    hide RouteIn, Explained;
    var i :| 0 <= i < |e.methods| && MaybeLocal(FindRoute(w.routes, e.methods[i], e.path, re), w);
    var m := ToUpper(e.methods[i]);
    assert Registers(e.methods, m) && m != "CONNECT";
    LocalIsMaybeLocal(w, m, PatternKeys(e.path, '/', re), lastRoute);
  }

  // ---- composing ----

  lemma KeptReflexive(w: World)
    ensures LocalsKept(w, w)
  {
  }

  lemma KeptTransitive(w0: World, w1: World, w2: World)
    requires (w0 == w1 || LocalsKept(w0, w1)) && (w1 == w2 || LocalsKept(w1, w2))
    ensures LocalsKept(w0, w2)
  {
    hide RouteIn, ServedLocally;
  }

  /** What settled an endpoint lasts, since local routes are kept and changes are explained. */
  lemma SettledLasts(w: World, w': World, e: Endpoint, a: seq<Service>, b: seq<Service>, all: seq<Service>,
                     locals: seq<Service>, env: Environment, re: Engine, since: int, mid: int)
    requires Settled(w, e, a, locals, env, re, since) && Wanted(e, re) && since <= mid
    requires LocalsKept(w, w') && ChangesExplained(w, w', b, locals, env, mid)
    requires forall s :: s in a || s in b ==> s in all
    ensures Settled(w', e, all, locals, env, re, since)
  {
    hide RouteIn, ServedLocally, Explained;
    var ks := PatternKeys(e.path, '/', re);
    if m :| Registers(e.methods, m) && ServedLocally(w, m, ks) {
      assert ServedLocally(w', m, ks);
    } else {
      forall m | Registers(e.methods, m)
        ensures RouteIn(w'.routes, m, ks).Some?
        ensures Explained(RouteIn(w'.routes, m, ks).value, w'.handlers, all, locals, env, since)
      {
        if RouteIn(w'.routes, m, ks) == RouteIn(w.routes, m, ks) {
          ExplainedOn(RouteIn(w.routes, m, ks).value, w, w', a, all, locals, env, since, since);
        } else {
          ExplainedOn(RouteIn(w'.routes, m, ks).value, w', w', b, all, locals, env, since, mid);
        }
      }
    }
  }

  lemma ExplainedOn(r: Route, w: World, w': World, a: seq<Service>, b: seq<Service>, locals: seq<Service>,
                    env: Environment, since: int, mid: int)
    requires Explained(r, w.handlers, a, locals, env, mid) && (w == w' || Extends(w, w')) && since <= mid
    requires forall s :: s in a ==> s in b
    ensures Explained(r, w'.handlers, b, locals, env, since)
  {
    hide Forwardable;
    var s, e :| s in a && e in s.endpoints && Forwardable(s, locals, env) && "CONNECT" !in e.methods
                && IsProxyRouteOf(r, w.handlers, s, e, env);
    assert s in b && IsProxyRouteOf(r, w'.handlers, s, e, env);
  }

  lemma ChangesTransitive(w0: World, w1: World, w2: World, a: seq<Service>, b: seq<Service>, all: seq<Service>,
                          locals: seq<Service>, env: Environment, since: int, mid: int)
    requires ChangesExplained(w0, w1, a, locals, env, since) && ChangesExplained(w1, w2, b, locals, env, mid)
             && Extends(w1, w2)
    requires since <= mid && forall s :: s in a || s in b ==> s in all
    ensures ChangesExplained(w0, w2, all, locals, env, since)
  {
    hide RouteIn, Explained;
    forall m, ks | RouteIn(w2.routes, m, ks) != RouteIn(w0.routes, m, ks)
      ensures RouteIn(w2.routes, m, ks).Some?
      ensures Explained(RouteIn(w2.routes, m, ks).value, w2.handlers, all, locals, env, since)
    {
      if RouteIn(w2.routes, m, ks) != RouteIn(w1.routes, m, ks) {
        ExplainedOn(RouteIn(w2.routes, m, ks).value, w2, w2, b, all, locals, env, since, mid);
      } else {
        ExplainedOn(RouteIn(w1.routes, m, ks).value, w1, w2, a, all, locals, env, since, since);
      }
    }
  }

  lemma NothingDone(w: World, locals: seq<Service>, env: Environment, re: Engine, since: int)
    ensures LocalsKept(w, w) && RoundDone(w, w, [], locals, env, re, since)
    ensures forall s :: ChangesExplained(w, w, [s], locals, env, since)
    ensures forall s :: EndpointsSettled(w, [], s, locals, env, re, since)
  {
    KeptReflexive(w);
  }

  lemma RoundOf(w: World, w': World, s: Service, es: seq<Endpoint>, locals: seq<Service>, env: Environment, re: Engine,
                since: int)
    requires LocalsKept(w, w') && ChangesExplained(w, w', [s], locals, env, since)
    requires EndpointsSettled(w', es, s, locals, env, re, since) && (es == s.endpoints || !Forwardable(s, locals, env))
    ensures RoundDone(w, w', [s], locals, env, re, since)
  {
    hide LocalsKept, ChangesExplained, Settled, Forwardable, Wanted;
  }

  lemma EndpointDone(w0: World, w: World, w': World, r: Route, s: Service, i: nat, locals: seq<Service>,
                     env: Environment, re: Engine, since: int)
    requires i < |s.endpoints| && Forwardable(s, locals, env) && WorldOk(w, r.id - 1) && since < r.id
    requires r == Route(r.id, s.endpoints[i].path, s.endpoints[i].methods, Replace)
    requires EndpointStep(w, w', r, s, s.endpoints[i], env, re)
    requires LocalsKept(w0, w) && ChangesExplained(w0, w, [s], locals, env, since)
    requires EndpointsSettled(w, s.endpoints[..i], s, locals, env, re, since)
    ensures LocalsKept(w0, w') && ChangesExplained(w0, w', [s], locals, env, since)
    ensures EndpointsSettled(w', s.endpoints[..i + 1], s, locals, env, re, since)
  {
    hide LocalsKept, ChangesExplained, Settled, Forwardable, Wanted, EndpointStep, WorldOk, Extends;
    EndpointEffect(w, w', r, s, s.endpoints[i], locals, env, re, since);
    KeptTransitive(w0, w, w');
    ChangesTransitive(w0, w, w', [s], [s], [s], locals, env, since, since);
    forall e | e in s.endpoints[..i + 1] && Wanted(e, re) ensures Settled(w', e, [s], locals, env, re, since) {
      if e != s.endpoints[i] {
        assert e in s.endpoints[..i];
        SettledLasts(w, w', e, [s], [s], [s], locals, env, re, since, since);
      }
    }
  }

  /** A round over some services and one more service are a round over all of them. */
  lemma RoundsJoin(w0: World, w1: World, w2: World, a: seq<Service>, s: Service, locals: seq<Service>, env: Environment,
                   re: Engine, since: int, mid: int)
    requires RoundDone(w0, w1, a, locals, env, re, since) && RoundDone(w1, w2, [s], locals, env, re, mid)
             && since <= mid
    ensures RoundDone(w0, w2, a + [s], locals, env, re, since)
  {
    assert Extends(w1, w2);
    hide LocalsKept, ChangesExplained, Settled, Forwardable, Wanted, Extends;
    KeptTransitive(w0, w1, w2);
    ChangesTransitive(w0, w1, w2, a, [s], a + [s], locals, env, since, mid);
    forall x, e | x in a + [s] && e in x.endpoints && Forwardable(x, locals, env) && Wanted(e, re)
      ensures Settled(w2, e, a + [s], locals, env, re, since)
    {
      if x in a {
        SettledLasts(w1, w2, e, a, [s], a + [s], locals, env, re, since, mid);
      } else {
        assert x in [s];
        SettledWider(w2, e, [s], a + [s], locals, env, re, since, mid);
      }
    }
  }

  lemma SettledWider(w: World, e: Endpoint, a: seq<Service>, all: seq<Service>, locals: seq<Service>, env: Environment,
                     re: Engine, since: int, mid: int)
    requires Settled(w, e, a, locals, env, re, mid) && since <= mid && forall s :: s in a ==> s in all
    ensures Settled(w, e, all, locals, env, re, since)
  {
    hide RouteIn, ServedLocally, Explained;
    var ks := PatternKeys(e.path, '/', re);
    if !(exists m :: Registers(e.methods, m) && ServedLocally(w, m, ks)) {
      forall m | Registers(e.methods, m)
        ensures Explained(RouteIn(w.routes, m, ks).value, w.handlers, all, locals, env, since)
      {
        ExplainedOn(RouteIn(w.routes, m, ks).value, w, w, a, all, locals, env, since, mid);
      }
    }
  }

  // ---- any number of rounds ----

  datatype Round = Round(services: seq<Service>, locals: seq<Service>)

  /** The worlds between rounds, interleaved with whatever else keeps the local routes. */
  ghost predicate Rounds(ws: seq<World>) {
    |ws| > 0 && forall i :: 0 <= i < |ws| - 1 ==> LocalsKept(ws[i], ws[i + 1])
  }

  /** Local routes survive discovery: over any number of rounds, every HTTP method and pattern served by the process
      itself keeps its route and handlers. */
  lemma {:induction false} LocalRoutesSurvive(ws: seq<World>, m: string, ks: seq<Key>)
    requires Rounds(ws) && m != "CONNECT" && ServedLocally(ws[0], m, ks)
    ensures var w, w' := ws[0], ws[|ws| - 1];
            && RouteIn(w'.routes, m, ks) == RouteIn(w.routes, m, ks) && ServedLocally(w', m, ks)
            && HandlersOf(w'.handlers, RouteIn(w.routes, m, ks).value) ==
               HandlersOf(w.handlers, RouteIn(w.routes, m, ks).value)
    decreases |ws|
  {
    hide RouteIn;
    if |ws| > 1 {
      assert LocalsKept(ws[0], ws[1]);
      LocalRoutesSurvive(ws[1..], m, ks);
    }
  }
}
