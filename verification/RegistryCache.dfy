/** The registry cache, driven by watcher events and by lookups. */
module RegistryCache {
  import opened Text
  import opened RegistryEntries

  /** `failed` says that an error status is set; `listExpiry` is the expiry of the cached full list. */
  datatype State = State(cache: map<string, seq<Service>>, ttls: map<string, int>, watched: set<string>, failed: bool,
                         listExpiry: Option<int>)

  /** The backend's answer to a lookup. */
  datatype Answer = Failure | Found(services: seq<Service>)

  // ---- operations on values ----

  function SetEntry(c: State, name: string, services: seq<Service>, expiry: int): State {
    c.(cache := c.cache[name := services], ttls := c.ttls[name := expiry])
  }

  /** Nothing is thrown away while an error status is set. */
  function DelEntry(c: State, name: string): State {
    if c.failed then c else c.(cache := c.cache - {name}, ttls := c.ttls - {name})
  }

  /** Whether an event rewrites a cached list, which also renews its expiry. */
  predicate Rewrites(services: seq<Service>, e: Event) {
    e.service.nodes != [] &&
    match e.action
    case Create | Update => true
    case Delete => LastOf(services, e.service.version) != -1
    case Override => false
  }

  function UpdateState(c: State, e: Event, expiry: int): State {
    var c1 := c.(listExpiry := None);
    var name := e.service.name;
    if name !in c.watched || name !in c.cache then c1
    else
      match Applied(c.cache[name], e)
      case None => DelEntry(c1, name)
      case Some(services) => if Rewrites(c.cache[name], e) then SetEntry(c1, name, services, expiry) else c1
  }

  predicate Fresh(c: State, name: string, now: int) {
    name in c.cache && c.cache[name] != [] && name in c.ttls && now <= c.ttls[name]
  }

  /** A lookup: the cached list while it is fresh, else the answer of the backend; a stale list covers a failure. */
  function GetState(c: State, name: string, now: int, ttl: nat, answer: Answer): (State, Option<seq<Service>>) {
    if Fresh(c, name, now) then (c, Some(c.cache[name]))
    else
      var c1 := c.(watched := c.watched + {name});
      match answer
      case Failure =>
        if name in c.cache && c.cache[name] != [] then (c1.(failed := true), Some(c.cache[name])) else (c1, None)
      case Found(services) => (SetEntry(c1.(failed := false), name, services, now + ttl), Some(services))
  }

  /** What an event does to the entry it is about: creating or updating gives it a new expiry; deleting does so only for
      a version that is listed, unless it removes the entry; overriding a listed version removes the entry. An event
      without nodes removes it when it deletes, and does nothing otherwise. The full list is out of date in any case. */
  lemma EventEffects(c: State, name: string, e: Event, expiry: int)
    requires e.service.name == name && name in c.watched && name in c.cache && !c.failed && Grouped(c.cache[name], name)
    ensures var c' := UpdateState(c, e, expiry);
            var listed := exists s :: s in c.cache[name] && s.version == e.service.version;
            var kept, gone := c'.cache == c.cache && c'.ttls == c.ttls, name !in c'.cache && name !in c'.ttls;
            && c'.listExpiry == None
            && (forall n :: n != name ==> (n in c'.cache <==> n in c.cache) && (n in c'.ttls <==> n in c.ttls))
            && (if e.service.nodes == [] then (if e.action == Delete then gone else kept)
                else match e.action
                     case Create | Update => name in c'.cache && name in c'.ttls && c'.ttls[name] == expiry
                     case Delete => if listed then gone || (name in c'.ttls && c'.ttls[name] == expiry) else kept
                     case Override => if listed then gone else kept)
  {
    var services := c.cache[name];
    assert LastOf(services, e.service.version) != -1 <==>
           exists s :: s in services && s.version == e.service.version;
    hide LastOf, Grouped, Merged, Without, OtherVersions;
  }

  /** An answer of the backend is given out unasked until its time is over, if it lists anything. Then the backend
      decides again, and the old list covers its failure. */
  lemma AnswerLasts(c: State, name: string, now: int, ttl: nat, services: seq<Service>, later: int, ttl': nat,
                    answer: Answer)
    requires name !in c.cache
    ensures var (c1, r) := GetState(c, name, now, ttl, Found(services));
            && r == Some(services)
            && var (c2, r2) := GetState(c1, name, later, ttl', answer);
            if services != [] && later <= now + ttl then c2 == c1 && r2 == Some(services)
            else if answer.Found? then r2 == Some(answer.services)
            else r2 == if services != [] then Some(services) else None
  {
  }

  // ---- the backend ----

  datatype Registration = Registration(version: string, node: Node)

  /** Live registrations by service name and node id. */
  type Live = map<(string, string), Registration>

  function LiveAt(live: Live, name: string, version: string, id: string): Option<Node> {
    if (name, id) in live && live[(name, id)].version == version then Some(live[(name, id)].node) else None
  }

  /** The list is the live nodes of the service, grouped by version. */
  ghost predicate Agrees(services: seq<Service>, name: string, live: Live) {
    Grouped(services, name) && forall v, id :: NodeAt(services, v, id) == LiveAt(live, name, v, id)
  }

  /** What a run of events leaves under a name, a version and an id. */
  function AfterAll(es: seq<Event>, name: string, v: string, id: string, before: Option<Node>): Option<Node>
    requires forall e :: e in es ==> |e.service.nodes| == 1
  {
    if es == [] then before
    else AfterAll(es[1..], name, v, id, if es[0].service.name == name then After(es[0], v, id, before) else before)
  }

  /** Either some event decides, or nothing changes. */
  lemma {:induction false} DecidesOrKeeps(es: seq<Event>, name: string, v: string, id: string, a: Option<Node>,
                                          b: Option<Node>)
    requires forall e :: e in es ==> |e.service.nodes| == 1
    ensures AfterAll(es, name, v, id, a) == AfterAll(es, name, v, id, b) ||
            (AfterAll(es, name, v, id, a) == a && AfterAll(es, name, v, id, b) == b)
  {
    hide After;
    if es != [] {
      var a', b' := if es[0].service.name == name then After(es[0], v, id, a) else a,
                    if es[0].service.name == name then After(es[0], v, id, b) else b;
      DecidesOrKeeps(es[1..], name, v, id, a', b');
      assert a' == b' || (a' == a && b' == b) by { AfterKeeps(es[0], v, id, a, b); }
    }
  }

  lemma AfterKeeps(e: Event, v: string, id: string, a: Option<Node>, b: Option<Node>)
    requires |e.service.nodes| == 1
    ensures After(e, v, id, a) == After(e, v, id, b) || (After(e, v, id, a) == a && After(e, v, id, b) == b)
  {
  }

  lemma {:induction false} AfterAllAppend(es: seq<Event>, e: Event, name: string, v: string, id: string,
                                          a: Option<Node>)
    requires (forall x :: x in es ==> |x.service.nodes| == 1) && |e.service.nodes| == 1
    ensures var b := AfterAll(es, name, v, id, a);
            AfterAll(es + [e], name, v, id, a) == if e.service.name == name then After(e, v, id, b) else b
  {
    hide After;
    if es == [] {
      assert es + [e] == [e];
    } else {
      assert (es + [e])[1..] == es[1..] + [e];
      AfterAllAppend(es[1..], e, name, v, id, if es[0].service.name == name then After(es[0], v, id, a) else a);
    }
  }

  // ---- runs ----

  /** The backend, the events on their way in order, and the cache. */
  datatype System = System(live: Live, pending: seq<Event>, cache: State)

  datatype Step = Put(name: string, version: string, info: string, node: Node)
                | Drop(name: string, id: string)
                | Deliver(expiry: int)
                | Get(name: string, now: int, ttl: nat, answer: Answer)

  /** A node keeps its version while it lives; a lookup sees the backend as it is, or fails. */
  ghost predicate Legal(s: System, step: Step) {
    match step
    case Put(name, version, info, node) =>
      (name, node.id) in s.live ==> s.live[(name, node.id)].version == version
    case Drop(name, id) => (name, id) in s.live
    case Deliver(_) => s.pending != []
    case Get(name, _, _, answer) => answer.Found? ==> Agrees(answer.services, name, s.live)
  }

  /** `decode` of the previous value gives the event of a removal; `info` is not compared. */
  function Next(s: System, step: Step): System
    requires step.Deliver? ==> s.pending != []
    requires step.Drop? ==> (step.name, step.id) in s.live
  {
    match step
    case Put(name, version, info, node) =>
      var action := if (name, node.id) in s.live then Update else Create;
      s.(live := s.live[(name, node.id) := Registration(version, node)],
         pending := s.pending + [Event(action, Service(name, version, info, [node]))])
    case Drop(name, id) =>
      var r := s.live[(name, id)];
      s.(live := s.live - {(name, id)}, pending := s.pending + [Event(Delete, Service(name, r.version, "", [r.node]))])
    case Deliver(expiry) =>
      s.(pending := s.pending[1..], cache := UpdateState(s.cache.(failed := false), s.pending[0], expiry))
    case Get(name, now, ttl, answer) => s.(cache := GetState(s.cache, name, now, ttl, answer).0)
  }

  ghost predicate NodesKeyed(s: System) {
    && (forall k :: k in s.live ==> s.live[k].node.id == k.1)
    && (forall e :: e in s.pending ==> OneNode(e, e.service.name))
  }

  /** The events on their way change nothing in the backend's present state. */
  ghost predicate Settled(s: System)
    requires NodesKeyed(s)
  {
    forall name, v, id :: AfterAll(s.pending, name, v, id, LiveAt(s.live, name, v, id)) == LiveAt(s.live, name, v, id)
  }

  /** A cached list lags behind the backend by exactly the events on their way. */
  ghost predicate CaughtUp(s: System, name: string)
    requires NodesKeyed(s) && name in s.cache.cache
  {
    && Grouped(s.cache.cache[name], name)
    && forall v, id ::
         AfterAll(s.pending, name, v, id, NodeAt(s.cache.cache[name], v, id)) == LiveAt(s.live, name, v, id)
  }

  ghost predicate Inv(s: System) {
    && NodesKeyed(s) && Settled(s) && s.cache.cache.Keys <= s.cache.watched
    && forall name :: name in s.cache.cache ==> CaughtUp(s, name)
  }

  /** A registration changes the live nodes as its event says, exactly when the node was not live under another
      version. */
  lemma PutIsItsEvent(live: Live, name: string, version: string, info: string, node: Node)
    ensures (forall n, v, id :: LiveAt(live[(name, node.id) := Registration(version, node)], n, v, id) ==
               if n == name then After(Event(Create, Service(name, version, info, [node])), v, id,
                                       LiveAt(live, n, v, id))
               else LiveAt(live, n, v, id))
            <==> ((name, node.id) in live ==> live[(name, node.id)].version == version)
  {
    var live' := live[(name, node.id) := Registration(version, node)];
    var e := Event(Create, Service(name, version, info, [node]));
    if (name, node.id) in live && live[(name, node.id)].version != version {
      var v := live[(name, node.id)].version;
      assert LiveAt(live', name, v, node.id) != After(e, v, node.id, LiveAt(live, name, v, node.id));
    }
  }

  /** A backend change at one place, followed by its event, keeps everything caught up. */
  lemma BackendStep(s: System, e: Event, live': Live)
    requires Inv(s) && OneNode(e, e.service.name)
    requires forall k :: k in live' ==> live'[k].node.id == k.1
    requires forall n, v, id :: LiveAt(live', n, v, id) ==
               if n == e.service.name then After(e, v, id, LiveAt(s.live, n, v, id)) else LiveAt(s.live, n, v, id)
    ensures Inv(s.(live := live', pending := s.pending + [e]))
  {
    hide After, LiveAt, NodeAt, Grouped;
    var s' := s.(live := live', pending := s.pending + [e]);
    forall n, v, id ensures AfterAll(s'.pending, n, v, id, LiveAt(live', n, v, id)) == LiveAt(live', n, v, id) {
      AfterAllAppend(s.pending, e, n, v, id, LiveAt(live', n, v, id));
      DecidesOrKeeps(s.pending, n, v, id, LiveAt(s.live, n, v, id), LiveAt(live', n, v, id));
      AfterKeeps(e, v, id, LiveAt(s.live, n, v, id), LiveAt(live', n, v, id));
      AfterTwice(e, v, id, LiveAt(s.live, n, v, id));
    }
    forall n, v, id | n in s.cache.cache
      ensures AfterAll(s'.pending, n, v, id, NodeAt(s.cache.cache[n], v, id)) == LiveAt(live', n, v, id)
    {
      AfterAllAppend(s.pending, e, n, v, id, NodeAt(s.cache.cache[n], v, id));
    }
    assert forall n :: n in s.cache.cache ==> CaughtUp(s, n) && CaughtUp(s', n);
  }

  lemma AfterTwice(e: Event, v: string, id: string, a: Option<Node>)
    requires |e.service.nodes| == 1
    ensures After(e, v, id, After(e, v, id, a)) == After(e, v, id, a)
  {
  }

  lemma PutKeeps(s: System, step: Step)
    requires Inv(s) && step.Put? && Legal(s, step)
    ensures Inv(Next(s, step))
  {
    PutIsItsEvent(s.live, step.name, step.version, step.info, step.node);
    hide NodeAt, Grouped, CaughtUp, Settled, AfterAll;
    var live' := s.live[(step.name, step.node.id) := Registration(step.version, step.node)];
    var action := if (step.name, step.node.id) in s.live then Update else Create;
    BackendStep(s, Event(action, Service(step.name, step.version, step.info, [step.node])), live');
  }

  lemma DropKeeps(s: System, step: Step)
    requires Inv(s) && step.Drop? && Legal(s, step)
    ensures Inv(Next(s, step))
  {
    hide NodeAt, Grouped, CaughtUp, Settled, AfterAll;
    var r := s.live[(step.name, step.id)];
    BackendStep(s, Event(Delete, Service(step.name, r.version, "", [r.node])), s.live - {(step.name, step.id)});
  }

  lemma DeliverKeeps(s: System, step: Step)
    requires Inv(s) && step.Deliver? && Legal(s, step)
    ensures Inv(Next(s, step))
  {
    hide After, LiveAt, NodeAt, Grouped, Applied, Rewrites;
    var e, rest, s' := s.pending[0], s.pending[1..], Next(s, step);
    assert e in s.pending && s'.cache.cache.Keys <= s.cache.cache.Keys;
    forall n, v, id ensures AfterAll(rest, n, v, id, LiveAt(s.live, n, v, id)) == LiveAt(s.live, n, v, id) {
      var l := LiveAt(s.live, n, v, id);
      var l' := if e.service.name == n then After(e, v, id, l) else l;
      assert AfterAll(s.pending, n, v, id, l) == AfterAll(rest, n, v, id, l');
      DecidesOrKeeps(rest, n, v, id, l, l');
    }
    forall n | n in s'.cache.cache ensures CaughtUp(s', n) {
      DeliverEntry(s, step, n);
    }
  }

  lemma NotRewritten(services: seq<Service>, e: Event)
    ensures !Rewrites(services, e) && Applied(services, e).Some? ==> Applied(services, e).value == services
  {
  }

  lemma DeliverEntry(s: System, step: Step, n: string)
    requires Inv(s) && step.Deliver? && Legal(s, step) && n in Next(s, step).cache.cache
    ensures NodesKeyed(Next(s, step)) && CaughtUp(Next(s, step), n)
  {
    hide After, LiveAt, NodeAt, Grouped, Applied, Rewrites, Settled;
    var e, rest, s' := s.pending[0], s.pending[1..], Next(s, step);
    assert e in s.pending && CaughtUp(s, n);
    var was, now := s.cache.cache[n], s'.cache.cache[n];
    NotRewritten(was, e);
    if n == e.service.name { AppliedHolds(was, n, e, "", ""); }
    forall v, id ensures AfterAll(rest, n, v, id, NodeAt(now, v, id)) == LiveAt(s.live, n, v, id) {
      var b := NodeAt(was, v, id);
      var b' := if e.service.name == n then After(e, v, id, b) else b;
      assert AfterAll(s.pending, n, v, id, b) == AfterAll(rest, n, v, id, b');
      if n == e.service.name { AppliedHolds(was, n, e, v, id); }
      assert NodeAt(now, v, id) == b';
    }
  }

  lemma GetKeeps(s: System, step: Step)
    requires Inv(s) && step.Get? && Legal(s, step)
    ensures Inv(Next(s, step))
  {
    hide After, LiveAt, NodeAt, Grouped;
    var s' := Next(s, step);
    forall n | n in s'.cache.cache ensures CaughtUp(s', n) {
      if n in s.cache.cache && s'.cache.cache[n] == s.cache.cache[n] { assert CaughtUp(s, n); }
    }
  }

  lemma StepKeeps(s: System, step: Step)
    requires Inv(s) && Legal(s, step)
    ensures Inv(Next(s, step))
  {
    hide Inv, Next, Legal;
    match step
    case Put(_, _, _, _) => PutKeeps(s, step);
    case Drop(_, _) => DropKeeps(s, step);
    case Deliver(_) => DeliverKeeps(s, step);
    case Get(_, _, _, _) => GetKeeps(s, step);
  }

  ghost predicate LegalRun(s: System, steps: seq<Step>)
    decreases |steps|
  {
    steps == [] || (Legal(s, steps[0]) && LegalRun(Next(s, steps[0]), steps[1..]))
  }

  ghost function Run(s: System, steps: seq<Step>): System
    requires LegalRun(s, steps)
    decreases |steps|
  {
    if steps == [] then s else Run(Next(s, steps[0]), steps[1..])
  }

  lemma {:induction false} RunKeeps(s: System, steps: seq<Step>)
    requires Inv(s) && LegalRun(s, steps)
    ensures Inv(Run(s, steps))
    decreases |steps|
  {
    hide Inv, Next, Agrees;
    if steps != [] {
      StepKeeps(s, steps[0]);
      RunKeeps(Next(s, steps[0]), steps[1..]);
    }
  }

  function Empty(): System { System(map[], [], State(map[], map[], {}, false, None)) }

  /** After any run, a cached service none of whose events is still on its way lists exactly the live nodes of the
      backend, grouped by version. */
  lemma CacheAgreesAfterAnyRun(steps: seq<Step>, name: string)
    requires LegalRun(Empty(), steps)
    ensures var s := Run(Empty(), steps);
            name in s.cache.cache && (forall e :: e in s.pending ==> e.service.name != name) ==>
              Agrees(s.cache.cache[name], name, s.live)
  {
    hide Legal, Next, NodeAt, LiveAt, Grouped;
    RunKeeps(Empty(), steps);
    var s := Run(Empty(), steps);
    if name in s.cache.cache && forall e :: e in s.pending ==> e.service.name != name {
      assert CaughtUp(s, name);
      forall v, id ensures NodeAt(s.cache.cache[name], v, id) == LiveAt(s.live, name, v, id) {
        OthersKeep(s.pending, name, v, id, NodeAt(s.cache.cache[name], v, id));
      }
    }
  }

  /** What a lookup returns after any run, none of whose events for the service is still on its way: exactly its live
      nodes, or nothing when the backend fails and nothing is cached. */
  lemma LookupAfterAnyRun(steps: seq<Step>, name: string, now: int, ttl: nat, answer: Answer)
    requires LegalRun(Empty(), steps)
    requires var s := Run(Empty(), steps);
             Legal(s, Get(name, now, ttl, answer)) && forall e :: e in s.pending ==> e.service.name != name
    ensures var s := Run(Empty(), steps);
            var r := GetState(s.cache, name, now, ttl, answer).1;
            if r.Some? then Agrees(r.value, name, s.live)
            else answer.Failure? && (name in s.cache.cache ==> s.cache.cache[name] == [])
  {
    hide LegalRun, Run, Agrees;
    CacheAgreesAfterAnyRun(steps, name);
  }

  lemma {:induction false} OthersKeep(es: seq<Event>, name: string, v: string, id: string, a: Option<Node>)
    requires forall e :: e in es ==> |e.service.nodes| == 1 && e.service.name != name
    ensures AfterAll(es, name, v, id, a) == a
  {
    if es != [] { OthersKeep(es[1..], name, v, id, a); }
  }

  /** A cached list after one event and the next; `None` once the entry is to be removed. */
  function AppliedAll(services: seq<Service>, es: seq<Event>): Option<seq<Service>>
    decreases |es|
  {
    if es == [] then Some(services)
    else
      var r := Applied(services, es[0]);
      if r.None? then None else AppliedAll(r.value, es[1..])
  }

  /** Events of other nodes, and of this one under other versions: what is reported of a node that has left version
      `v`. */
  predicate NotUnder(es: seq<Event>, name: string, v: string, id: string) {
    forall e :: e in es ==> OneNode(e, name) && (e.service.nodes[0].id == id ==> e.service.version != v)
  }

  /** A node that moves to another version while it lives stays cached under the old one as well, whatever else is
      reported. */
  lemma {:induction false} MovedNodeStays(services: seq<Service>, name: string, es: seq<Event>, v: string, id: string)
    requires Grouped(services, name) && NodeAt(services, v, id).Some? && NotUnder(es, name, v, id)
    ensures var r := AppliedAll(services, es);
            && r.Some? && NodeAt(r.value, v, id) == NodeAt(services, v, id)
            && (es != [] ==>
                  var e := es[|es| - 1];
                  !e.action.Delete? ==>
                    NodeAt(r.value, e.service.version, e.service.nodes[0].id) == Some(e.service.nodes[0]))
    decreases |es|
  {
    hide Applied, NodeAt, Grouped;
    if es != [] {
      var e := es[0];
      AppliedHolds(services, name, e, v, id);
      AppliedHolds(services, name, e, e.service.version, e.service.nodes[0].id);
      EmptyHasNone(v, id);
      var r := Applied(services, e);
      assert r.Some?;
      MovedNodeStays(r.value, name, es[1..], v, id);
      assert |es| > 1 ==> es[1..][|es| - 2] == es[|es| - 1];
    }
  }

  lemma EmptyHasNone(v: string, id: string)
    ensures NodeAt([], v, id) == None
  {
  }

  /** While an error status is set, the event of the last node does not remove the entry. */
  lemma LastNodeRemoved(c: State, name: string, s: Service, e: Event, expiry: int)
    requires name in c.cache && name in c.watched && c.cache[name] == [s] && Grouped([s], name)
    requires OneNode(e, name) && e.action.Delete? && e.service.version == s.version && s.nodes == e.service.nodes
    ensures name in UpdateState(c, e, expiry).cache <==> c.failed
  {
    assert HasId(e.service.nodes, s.nodes[0].id);
    assert Without(s.nodes, e.service.nodes) == [];
  }
}
