/** The connection pool: every lock section and every unlocked action of `Get`, `Release` and `Close` is one step, and
    the steps of any number of threads interleave. */
module ConnPool {
  import opened Text

  type Key = string

  type Conn = nat

  /** Where a thread is between two steps. */
  datatype Thread =
    | Outside
    | Looking(key: Key)
    | Probing(key: Key, conn: Conn)
    | Dialing(key: Key)
    | Returning(conn: Conn, failed: bool)
    | Discarding(conn: Conn)

  /** Connections are numbered as they are dialled; `keys` holds the key of each. */
  datatype Pool = Pool(size: nat, keys: seq<Key>, buckets: map<Key, seq<Conn>>, threads: map<nat, Thread>,
                       lent: set<Conn>, closed: set<Conn>)

  function Bucket(p: Pool, key: Key): seq<Conn> { if key in p.buckets then p.buckets[key] else [] }

  function At(p: Pool, t: nat): Thread { if t in p.threads then p.threads[t] else Outside }

  function Go(p: Pool, t: nat, th: Thread): Pool { p.(threads := p.threads[t := th]) }

  datatype Step =
    | BeginGet(t: nat, key: Key)
    | Pop(t: nat)
    | Probe(t: nat, dead: bool)
    | Dial(t: nat, ok: bool)
    | BeginRelease(t: nat, conn: Conn, failed: bool)
    | Return(t: nat)
    | Discard(t: nat)
    | CloseAll

  /** Which steps a thread may take; a caller releases only what it holds a loan of. */
  predicate Enabled(p: Pool, s: Step) {
    match s
    case BeginGet(t, _) => At(p, t).Outside?
    case Pop(t) => At(p, t).Looking?
    case Probe(t, _) => At(p, t).Probing?
    case Dial(t, _) => At(p, t).Dialing?
    case BeginRelease(t, c, _) => At(p, t).Outside? && c in p.lent
    case Return(t) => At(p, t).Returning? && At(p, t).conn < |p.keys|
    case Discard(t) => At(p, t).Discarding?
    case CloseAll => true
  }

  /** All connections idle in some bucket. */
  function Idle(p: Pool): set<Conn> {
    set k, i | k in p.buckets && 0 <= i < |p.buckets[k]| :: p.buckets[k][i]
  }

  function Next(p: Pool, s: Step): Pool
    requires Enabled(p, s)
  {
    match s
    case BeginGet(t, key) => Go(p, t, Looking(key))
    case Pop(t) =>
      var key := At(p, t).key;
      var b := Bucket(p, key);
      if b == [] then Go(p, t, Dialing(key))
      else Go(p.(buckets := p.buckets[key := b[..|b| - 1]]), t, Probing(key, b[|b| - 1]))
    case Probe(t, dead) =>
      var (key, c) := (At(p, t).key, At(p, t).conn);
      if dead then Go(p.(closed := p.closed + {c}), t, Looking(key)) else Go(p.(lent := p.lent + {c}), t, Outside)
    case Dial(t, ok) =>
      var key := At(p, t).key;
      if ok then Go(p.(keys := p.keys + [key], lent := p.lent + {|p.keys|}), t, Outside) else Go(p, t, Outside)
    case BeginRelease(t, c, failed) => Go(p.(lent := p.lent - {c}), t, Returning(c, failed))
    case Return(t) =>
      var c := At(p, t).conn;
      var key := p.keys[c];
      if At(p, t).failed then Go(p.(closed := p.closed + {c}), t, Outside)
      else if |Bucket(p, key)| >= p.size then Go(p, t, Discarding(c))
      else Go(p.(buckets := p.buckets[key := Bucket(p, key) + [c]]), t, Outside)
    case Discard(t) => Go(p.(closed := p.closed + {At(p, t).conn}), t, Outside)
    case CloseAll => p.(buckets := map[], closed := p.closed + Idle(p))
  }

  // ---- where connections are ----

  datatype Place = InBucket(index: nat) | Held(t: nat) | OnLoan | Shut

  predicate Holds(th: Thread, c: Conn) {
    match th
    case Probing(_, x) => x == c
    case Returning(x, _) => x == c
    case Discarding(x) => x == c
    case _ => false
  }

  /** The connection is where it is said to be. */
  predicate Found(p: Pool, c: Conn, place: Place)
    requires c < |p.keys|
  {
    match place
    case InBucket(i) => i < |Bucket(p, p.keys[c])| && Bucket(p, p.keys[c])[i] == c
    case Held(t) => Holds(At(p, t), c)
    case OnLoan => c in p.lent
    case Shut => c in p.closed
  }

  /** `where` gives every connection dialled its one place. */
  ghost predicate Located(p: Pool, where: seq<Place>) {
    && |where| == |p.keys|
    && (forall k, i {:trigger Bucket(p, k)[i]} :: 0 <= i < |Bucket(p, k)| ==>
          Bucket(p, k)[i] < |where| && where[Bucket(p, k)[i]] == InBucket(i) && p.keys[Bucket(p, k)[i]] == k)
    && (forall t: nat, c: Conn {:trigger Holds(At(p, t), c)} :: Holds(At(p, t), c) ==>
        c < |where| && where[c] == Held(t))
    && (forall c: Conn :: c in p.lent ==> c < |where| && where[c] == OnLoan)
    && (forall c: Conn :: c in p.closed ==> c < |where| && where[c] == Shut)
    && (forall c: Conn :: c < |where| ==> Found(p, c, where[c]))
  }

  ghost predicate ProbesOwnKey(p: Pool) {
    forall t: nat :: At(p, t).Probing? ==> At(p, t).conn < |p.keys| && p.keys[At(p, t).conn] == At(p, t).key
  }

  ghost predicate Inv(p: Pool) {
    && (exists where :: Located(p, where)) && ProbesOwnKey(p)
    && (forall k :: k in p.buckets ==> |p.buckets[k]| <= p.size)
  }

  /** Conservation: a connection dialled is idle in the bucket of its own key, at one position, or held by one thread,
      or on loan, or closed, and never two of these. */
  lemma OnePlace(p: Pool, c: Conn)
    requires Inv(p) && c < |p.keys|
    ensures var idle := c in Bucket(p, p.keys[c]);
            var held := exists t: nat :: Holds(At(p, t), c);
            && (idle || held || c in p.lent || c in p.closed)
            && !(idle && held) && !(idle && c in p.lent) && !(idle && c in p.closed)
            && !(held && c in p.lent) && !(held && c in p.closed) && !(c in p.lent && c in p.closed)
            && (forall t: nat, u: nat :: Holds(At(p, t), c) && Holds(At(p, u), c) ==> t == u)
            && (forall k, i, j :: 0 <= i < |Bucket(p, k)| && Bucket(p, k)[i] == c ==>
                  k == p.keys[c] && (0 <= j < |Bucket(p, k)| && Bucket(p, k)[j] == c ==> i == j))
  {
    hide Bucket, At;
    var where :| Located(p, where);
    assert Found(p, c, where[c]);
    forall k, i | 0 <= i < |Bucket(p, k)| && Bucket(p, k)[i] == c ensures where[c] == InBucket(i) && k == p.keys[c] {
    }
    forall t: nat | Holds(At(p, t), c) ensures where[c] == Held(t) {
    }
  }

  /** What a step may change of buckets and threads, place by place. */
  ghost predicate Moves(p: Pool, p': Pool, t: nat, th: Thread, key: Key, bucket: seq<Conn>) {
    && (forall u: nat {:trigger At(p', u)} :: At(p', u) == if u == t then th else At(p, u))
    && (forall k {:trigger Bucket(p', k)} :: Bucket(p', k) == if k == key then bucket else Bucket(p, k))
  }

  lemma PopLocated(p: Pool, t: nat, where: seq<Place>) returns (where': seq<Place>)
    requires Located(p, where) && At(p, t).Looking?
    ensures Located(Next(p, Pop(t)), where')
  {
    where' := where;
    var p' := Next(p, Pop(t));
    var key := At(p, t).key;
    var b := Bucket(p, key);
    if b != [] {
      where' := where[b[|b| - 1] := Held(t)];
      assert Moves(p, p', t, Probing(key, b[|b| - 1]), key, b[..|b| - 1]);
      hide Bucket, At, Moves, Located;
      PopTaken(p, p', t, key, b, where);
    } else {
      assert Moves(p, p', t, Dialing(key), "", Bucket(p, ""));
      hide Bucket, At, Moves, Located;
      ThreadOnly(p, p', t, Dialing(key), where);
    }
  }

  /** A thread that holds nothing moves on. */
  lemma ThreadOnly(p: Pool, p': Pool, t: nat, th: Thread, where: seq<Place>)
    requires Located(p, where) && Moves(p, p', t, th, "", Bucket(p, ""))
    requires p'.keys == p.keys && p'.lent == p.lent && p'.closed == p.closed
    requires forall x: Conn :: !Holds(th, x) && !Holds(At(p, t), x)
    ensures Located(p', where)
  {
    hide Bucket, At;
    forall x: Conn | x < |where| ensures Found(p', x, where[x]) {
      assert Found(p, x, where[x]);
    }
    forall u: nat, x: Conn | Holds(At(p', u), x) ensures x < |where| && where[x] == Held(u) {
      assert u != t && Holds(At(p, u), x);
    }
    forall k, i | 0 <= i < |Bucket(p', k)|
      ensures Bucket(p', k)[i] < |where| && where[Bucket(p', k)[i]] == InBucket(i) && p.keys[Bucket(p', k)[i]] == k
    {
      assert Bucket(p, k)[i] == Bucket(p', k)[i];
    }
  }

  lemma PopTaken(p: Pool, p': Pool, t: nat, key: Key, b: seq<Conn>, where: seq<Place>)
    requires Located(p, where) && b == Bucket(p, key) && b != [] && At(p, t).Looking?
    requires Moves(p, p', t, Probing(key, b[|b| - 1]), key, b[..|b| - 1])
    requires p'.keys == p.keys && p'.lent == p.lent && p'.closed == p.closed
    ensures b[|b| - 1] < |where| && Located(p', where[b[|b| - 1] := Held(t)])
  {
    hide Bucket, At;
    var c := b[|b| - 1];
    assert Bucket(p, key)[|b| - 1] == c;
    var where' := where[c := Held(t)];
    forall x: Conn | x < |where| ensures Found(p', x, where'[x]) {
      assert Found(p, x, where[x]);
    }
    forall u: nat, x: Conn | Holds(At(p', u), x) ensures x < |where| && where'[x] == Held(u) {
      assert u != t ==> Holds(At(p, u), x);
    }
  }

  /** The thread's connection goes to its next place; buckets, other threads and other connections stay. */
  lemma Relocated(p: Pool, p': Pool, t: nat, th: Thread, c: Conn, place: Place, where: seq<Place>)
    requires Located(p, where) && c < |where| && !where[c].InBucket? && !place.InBucket?
    requires Moves(p, p', t, th, "", Bucket(p, "")) && p'.keys == p.keys
    requires forall x: Conn :: Holds(th, x) ==> x == c && place == Held(t)
    requires forall x: Conn :: Holds(At(p, t), x) ==> x == c
    requires where[c].Held? ==> where[c].t == t
    requires (forall x: Conn :: x != c ==> (x in p'.lent <==> x in p.lent)) && (c in p'.lent <==> place == OnLoan)
    requires (forall x: Conn :: x != c ==> (x in p'.closed <==> x in p.closed)) && (c in p'.closed <==> place == Shut)
    requires place.Held? ==> place.t == t && Holds(th, c)
    ensures Located(p', where[c := place])
  {
    hide Bucket, At;
    var where' := where[c := place];
    forall x: Conn | x < |where| ensures Found(p', x, where'[x]) {
      assert Found(p, x, where[x]);
    }
    forall u: nat, x: Conn | Holds(At(p', u), x) ensures x < |where| && where'[x] == Held(u) {
      assert u != t ==> Holds(At(p, u), x);
    }
    forall k, i | 0 <= i < |Bucket(p', k)|
      ensures Bucket(p', k)[i] < |where| && where'[Bucket(p', k)[i]] == InBucket(i) && p.keys[Bucket(p', k)[i]] == k
    {
      assert Bucket(p, k)[i] == Bucket(p', k)[i];
    }
  }

  lemma ProbeLocated(p: Pool, t: nat, dead: bool, where: seq<Place>) returns (where': seq<Place>)
    requires Located(p, where) && At(p, t).Probing?
    ensures Located(Next(p, Probe(t, dead)), where')
  {
    var (key, c) := (At(p, t).key, At(p, t).conn);
    assert Holds(At(p, t), c);
    var (th, place) := (if dead then Looking(key) else Outside, if dead then Shut else OnLoan);
    where' := where[c := place];
    var p' := Next(p, Probe(t, dead));
    assert Moves(p, p', t, th, "", Bucket(p, ""));
    assert forall x :: x in p.lent ==> where[x] == OnLoan;
    assert forall x :: x in p.closed ==> where[x] == Shut;
    hide Bucket, At, Moves, Located;
    Relocated(p, p', t, th, c, place, where);
  }

  lemma DialLocated(p: Pool, t: nat, ok: bool, where: seq<Place>) returns (where': seq<Place>)
    requires Located(p, where) && At(p, t).Dialing?
    ensures Located(Next(p, Dial(t, ok)), where')
  {
    where' := if ok then where + [OnLoan] else where;
    var p' := Next(p, Dial(t, ok));
    assert Moves(p, p', t, Outside, "", Bucket(p, ""));
    assert |where'| == |p'.keys| && forall x: Conn :: x < |where| ==> where'[x] == where[x] && p'.keys[x] == p.keys[x];
    hide Bucket, At;
    forall x: Conn | x < |where'| ensures Found(p', x, where'[x]) {
      if x < |where| { assert Found(p, x, where[x]); }
    }
    forall u: nat, x: Conn | Holds(At(p', u), x) ensures x < |where'| && where'[x] == Held(u) {
      assert u != t && Holds(At(p, u), x);
    }
    forall k, i | 0 <= i < |Bucket(p', k)|
      ensures Bucket(p', k)[i] < |where'| && where'[Bucket(p', k)[i]] == InBucket(i) && p'.keys[Bucket(p', k)[i]] == k
    {
      assert Bucket(p, k)[i] == Bucket(p', k)[i];
    }
  }

  lemma BeginReleaseLocated(p: Pool, t: nat, c: Conn, failed: bool, where: seq<Place>) returns (where': seq<Place>)
    requires Located(p, where) && At(p, t).Outside? && c in p.lent
    ensures Located(Next(p, BeginRelease(t, c, failed)), where')
  {
    where' := where[c := Held(t)];
    var p' := Next(p, BeginRelease(t, c, failed));
    assert Moves(p, p', t, Returning(c, failed), "", Bucket(p, ""));
    assert where[c] == OnLoan && forall x :: x in p.closed ==> where[x] == Shut;
    hide Bucket, At, Moves, Located;
    Relocated(p, p', t, Returning(c, failed), c, Held(t), where);
  }

  lemma ReturnLocated(p: Pool, t: nat, where: seq<Place>) returns (where': seq<Place>)
    requires Located(p, where) && At(p, t).Returning?
    ensures Enabled(p, Return(t)) && Located(Next(p, Return(t)), where')
  {
    var c := At(p, t).conn;
    assert Holds(At(p, t), c);
    var b := Bucket(p, p.keys[c]);
    var p' := Next(p, Return(t));
    assert forall x :: x in p.lent ==> where[x] == OnLoan;
    assert forall x :: x in p.closed ==> where[x] == Shut;
    if !At(p, t).failed && |b| < p.size {
      where' := where[c := InBucket(|b|)];
      assert Moves(p, p', t, Outside, p.keys[c], b + [c]);
      ReturnStored(p, p', t, c, where);
    } else {
      var (th, place) := (if At(p, t).failed then Outside else Discarding(c),
                          if At(p, t).failed then Shut else Held(t));
      where' := where[c := place];
      assert Moves(p, p', t, th, "", Bucket(p, ""));
      hide Bucket, At, Moves, Located;
      Relocated(p, p', t, th, c, place, where);
    }
  }

  lemma ReturnStored(p: Pool, p': Pool, t: nat, c: Conn, where: seq<Place>)
    requires Located(p, where) && At(p, t) == Returning(c, false) && c < |where|
    requires Moves(p, p', t, Outside, p.keys[c], Bucket(p, p.keys[c]) + [c])
    requires p'.keys == p.keys && p'.lent == p.lent && p'.closed == p.closed
    ensures Located(p', where[c := InBucket(|Bucket(p, p.keys[c])|)])
  {
    hide Bucket, At;
    var b := Bucket(p, p.keys[c]);
    var where' := where[c := InBucket(|b|)];
    assert Holds(At(p, t), c);
    forall x: Conn | x < |where| ensures Found(p', x, where'[x]) {
      assert Found(p, x, where[x]);
    }
    forall u: nat, x: Conn | Holds(At(p', u), x) ensures x < |where| && where'[x] == Held(u) {
      assert u != t && Holds(At(p, u), x);
    }
  }

  lemma DiscardLocated(p: Pool, t: nat, where: seq<Place>) returns (where': seq<Place>)
    requires Located(p, where) && At(p, t).Discarding?
    ensures Located(Next(p, Discard(t)), where')
  {
    var c := At(p, t).conn;
    assert Holds(At(p, t), c);
    where' := where[c := Shut];
    var p' := Next(p, Discard(t));
    assert Moves(p, p', t, Outside, "", Bucket(p, ""));
    assert forall x :: x in p.lent ==> where[x] == OnLoan;
    hide Bucket, At, Moves, Located;
    Relocated(p, p', t, Outside, c, Shut, where);
  }

  lemma CloseLocated(p: Pool, where: seq<Place>) returns (where': seq<Place>)
    requires Located(p, where)
    ensures Located(Next(p, CloseAll), where')
  {
    var p' := Next(p, CloseAll);
    where' := seq(|where|, c requires 0 <= c < |where| => if where[c].InBucket? then Shut else where[c]);
    assert forall u: nat :: At(p', u) == At(p, u);
    assert forall k :: Bucket(p', k) == [];
    forall c: Conn | c < |where| ensures Found(p', c, where'[c]) {
      assert Found(p, c, where[c]);
    }
    forall c: Conn | c in p'.closed ensures c < |where| && where'[c] == Shut {
      if c in Idle(p) {
        var k, i :| k in p.buckets && 0 <= i < |p.buckets[k]| && p.buckets[k][i] == c;
        assert Bucket(p, k)[i] == c;
      }
    }
  }

  // ---- runs ----

  lemma ProbesKept(p: Pool, s: Step, where: seq<Place>)
    requires Located(p, where) && ProbesOwnKey(p) && Enabled(p, s)
    ensures ProbesOwnKey(Next(p, s))
  {
    var p' := Next(p, s);
    forall u: nat | At(p', u).Probing? ensures At(p', u).conn < |p'.keys| && p'.keys[At(p', u).conn] == At(p', u).key {
      if At(p, u) == At(p', u) {
        assert At(p, u).Probing?;
      } else {
        var b := Bucket(p, At(p, u).key);
        assert Bucket(p, At(p, u).key)[|b| - 1] == At(p', u).conn;
      }
    }
  }

  lemma SizesKept(p: Pool, s: Step)
    requires (forall k :: k in p.buckets ==> |p.buckets[k]| <= p.size) && Enabled(p, s)
    ensures forall k :: k in Next(p, s).buckets ==> |Next(p, s).buckets[k]| <= p.size && Next(p, s).size == p.size
  {
  }

  lemma StepKeeps(p: Pool, s: Step)
    requires Inv(p) && Enabled(p, s)
    ensures Inv(Next(p, s)) && p.closed <= Next(p, s).closed
  {
    var where :| Located(p, where);
    ProbesKept(p, s, where);
    SizesKept(p, s);
    assert p.closed <= Next(p, s).closed && Next(p, s).size == p.size;
    hide Next, Located, ProbesOwnKey;
    var where';
    match s
    case BeginGet(t, key) => where' := BeginGetLocated(p, t, key, where);
    case Pop(t) => where' := PopLocated(p, t, where);
    case Probe(t, dead) => where' := ProbeLocated(p, t, dead, where);
    case Dial(t, ok) => where' := DialLocated(p, t, ok, where);
    case BeginRelease(t, c, failed) => where' := BeginReleaseLocated(p, t, c, failed, where);
    case Return(t) => where' := ReturnLocated(p, t, where);
    case Discard(t) => where' := DiscardLocated(p, t, where);
    case CloseAll => where' := CloseLocated(p, where);
  }

  lemma BeginGetLocated(p: Pool, t: nat, key: Key, where: seq<Place>) returns (where': seq<Place>)
    requires Located(p, where) && At(p, t).Outside?
    ensures Located(Next(p, BeginGet(t, key)), where')
  {
    where' := where;
    var p' := Next(p, BeginGet(t, key));
    assert Moves(p, p', t, Looking(key), "", Bucket(p, ""));
    hide Bucket, At, Moves, Located;
    ThreadOnly(p, p', t, Looking(key), where);
  }

  ghost predicate EnabledRun(p: Pool, steps: seq<Step>)
    decreases |steps|
  {
    steps == [] || (Enabled(p, steps[0]) && EnabledRun(Next(p, steps[0]), steps[1..]))
  }

  ghost function Run(p: Pool, steps: seq<Step>): Pool
    requires EnabledRun(p, steps)
    decreases |steps|
  {
    if steps == [] then p else Run(Next(p, steps[0]), steps[1..])
  }

  function New(size: nat): Pool { Pool(size, [], map[], map[], {}, {}) }

  lemma {:induction false} RunKeeps(p: Pool, steps: seq<Step>)
    requires Inv(p) && EnabledRun(p, steps)
    ensures Inv(Run(p, steps)) && p.closed <= Run(p, steps).closed
    decreases |steps|
  {
    hide Inv, Next;
    if steps != [] {
      StepKeeps(p, steps[0]);
      RunKeeps(Next(p, steps[0]), steps[1..]);
    }
  }

  /** In every interleaving, from an empty pool: connections are conserved, no bucket exceeds the size, and a closed
      connection stays closed, so it is never lent. */
  lemma PoolConserves(size: nat, steps: seq<Step>, more: seq<Step>)
    requires EnabledRun(New(size), steps) && EnabledRun(Run(New(size), steps), more)
    ensures var p := Run(New(size), steps);
            var q := Run(p, more);
            Inv(p) && Inv(q) && p.closed <= q.closed && p.closed !! q.lent
  {
    assert Located(New(size), []);
    assert Inv(New(size));
    RunKeeps(New(size), steps);
    var p := Run(New(size), steps);
    RunKeeps(p, more);
    var where :| Located(Run(p, more), where);
  }

  // ---- after Close ----

  /** The step puts a connection back: a loan that did not fail is returned to a pool that keeps any. */
  predicate Stores(p: Pool, s: Step)
    requires Enabled(p, s)
  {
    s.Return? && p.size > 0 && !At(p, s.t).failed
  }

  lemma NoneIdle(p: Pool)
    ensures Idle(p) == {} <==> forall k :: Bucket(p, k) == []
  {
    assert forall k :: |Bucket(p, k)| > 0 ==> Bucket(p, k)[0] in Idle(p);
    forall c | c in Idle(p) ensures exists k :: Bucket(p, k) != [] {
      var k, i :| k in p.buckets && 0 <= i < |p.buckets[k]| && p.buckets[k][i] == c;
      assert Bucket(p, k) != [];
    }
  }

  /** In a pool where nothing is idle, a step makes a connection idle exactly when it stores one. */
  lemma IdleAgainExactly(p: Pool, s: Step)
    requires Enabled(p, s) && Idle(p) == {}
    ensures Idle(Next(p, s)) != {} <==> Stores(p, s)
  {
    NoneIdle(p);
    NoneIdle(Next(p, s));
    if Stores(p, s) {
      var c := At(p, s.t).conn;
      assert Bucket(Next(p, s), p.keys[c]) == [] + [c];
    } else {
      assert forall k :: Bucket(p, k) == [] && Bucket(Next(p, s), k) == [];
    }
  }

  lemma CloseEmpties(p: Pool)
    ensures Idle(Next(p, CloseAll)) == {}
  {
  }

  /** The pool does not remember that it was closed: a connection returned afterwards is idle again, exactly when it did
      not fail and the pool keeps any. It is open then. */
  lemma ReturnAfterClose(p: Pool, t: nat)
    requires Inv(p) && At(p, t).Returning?
    ensures Enabled(Next(p, CloseAll), Return(t))
    ensures var q := Next(Next(p, CloseAll), Return(t));
            && (Idle(q) != {} <==> p.size > 0 && !At(p, t).failed)
            && (Idle(q) != {} ==> Idle(q) == {At(p, t).conn} && At(p, t).conn !in q.closed)
  {
    var where :| Located(p, where);
    var c := At(p, t).conn;
    assert Holds(At(p, t), c);
    var q := Next(p, CloseAll);
    assert At(q, t) == At(p, t);
    CloseEmpties(p);
    IdleAgainExactly(q, Return(t));
    forall k, i | k in p.buckets && 0 <= i < |p.buckets[k]| ensures p.buckets[k][i] != c {
      assert Bucket(p, k)[i] == p.buckets[k][i];
    }
    var r := Next(q, Return(t));
    if Stores(q, Return(t)) {
      assert r.buckets == map[p.keys[c] := [] + [c]];
      assert r.buckets[p.keys[c]] == [c];
    }
  }

  ghost predicate StoresIn(p: Pool, steps: seq<Step>)
    requires EnabledRun(p, steps)
    decreases |steps|
  {
    steps != [] && (Stores(p, steps[0]) || StoresIn(Next(p, steps[0]), steps[1..]))
  }

  lemma {:induction false} StaysEmpty(p: Pool, steps: seq<Step>)
    requires EnabledRun(p, steps) && Idle(p) == {} && !StoresIn(p, steps)
    ensures Idle(Run(p, steps)) == {}
    decreases |steps|
  {
    hide Idle, Stores, Next;
    if steps != [] {
      IdleAgainExactly(p, steps[0]);
      StaysEmpty(Next(p, steps[0]), steps[1..]);
    }
  }

  /** After a close, in every interleaving, nothing is idle until some thread returns a loan that did not fail to a pool
      that keeps any. */
  lemma ClosedUntilReturn(p: Pool, steps: seq<Step>)
    requires EnabledRun(Next(p, CloseAll), steps) && !StoresIn(Next(p, CloseAll), steps)
    ensures Idle(Run(Next(p, CloseAll), steps)) == {}
  {
    CloseEmpties(p);
    StaysEmpty(Next(p, CloseAll), steps);
  }

  // ---- the methods, run by one thread ----

  /** The last live connection of a bucket. */
  function LastLive(b: seq<Conn>, dead: Conn -> bool): (i: int)
    ensures -1 <= i < |b| && (i >= 0 ==> !dead(b[i])) && forall k :: i < k < |b| ==> dead(b[k])
  {
    if b == [] then -1 else if !dead(b[|b| - 1]) then |b| - 1 else LastLive(b[..|b| - 1], dead)
  }

  /** The connections of a bucket from position `n` on. */
  function From(b: seq<Conn>, n: nat): set<Conn> { set k | n <= k < |b| :: b[k] }

  lemma FromStep(b: seq<Conn>, n: nat)
    ensures From(b, |b|) == {} && (0 < n <= |b| ==> From(b, n - 1) == From(b, n) + {b[n - 1]})
  {
  }

  lemma BeginGetEffect(p: Pool, t: nat, key: Key)
    requires At(p, t).Outside?
    ensures Next(p, BeginGet(t, key)) == p.(threads := Next(p, BeginGet(t, key)).threads)
    ensures At(Next(p, BeginGet(t, key)), t) == Looking(key)
    ensures forall k {:trigger Bucket(Next(p, BeginGet(t, key)), k)} ::
            Bucket(Next(p, BeginGet(t, key)), k) == Bucket(p, k)
  {
  }

  lemma PopEffect(p: Pool, t: nat)
    requires At(p, t).Looking?
    ensures var q, key := Next(p, Pop(t)), At(p, t).key;
            var b := Bucket(p, key);
            && q == p.(threads := q.threads, buckets := q.buckets)
            && At(q, t) == (if b == [] then Dialing(key) else Probing(key, b[|b| - 1]))
            && Bucket(q, key) == (if b == [] then [] else b[..|b| - 1])
            && forall k {:trigger Bucket(q, k)} :: k != key ==> Bucket(q, k) == Bucket(p, k)
  {
  }

  lemma ProbeEffect(p: Pool, t: nat, dead: bool)
    requires At(p, t).Probing?
    ensures var q, c := Next(p, Probe(t, dead)), At(p, t).conn;
            && q == p.(threads := q.threads, closed := if dead then p.closed + {c} else p.closed,
                       lent := if dead then p.lent else p.lent + {c})
            && At(q, t) == (if dead then Looking(At(p, t).key) else Outside)
            && forall k {:trigger Bucket(q, k)} :: Bucket(q, k) == Bucket(p, k)
  {
  }

  lemma DialEffect(p: Pool, t: nat, ok: bool)
    requires At(p, t).Dialing?
    ensures var q := Next(p, Dial(t, ok));
            && q == p.(threads := q.threads, keys := if ok then p.keys + [At(p, t).key] else p.keys,
                       lent := if ok then p.lent + {|p.keys|} else p.lent)
            && At(q, t) == Outside && forall k {:trigger Bucket(q, k)} :: Bucket(q, k) == Bucket(p, k)
  {
  }

  class Connections {
    const size: nat
    var conns: map<Key, seq<Conn>>
    var dialled: nat
    ghost var pool: Pool

    ghost predicate Valid()
      reads this
    {
      pool.size == size && pool.buckets == conns && dialled == |pool.keys| && Inv(pool)
    }

    constructor (size: nat)
      ensures Valid() && pool == New(size)
    {
      this.size, conns, dialled, pool := size, map[], 0, New(size);
      assert Located(New(size), []);
    }

    ghost method Take(s: Step)
      requires Inv(pool) && Enabled(pool, s)
      modifies this`pool
      ensures pool == Next(old(pool), s) && Inv(pool)
    {
      StepKeeps(pool, s);
      pool := Next(pool, s);
    }

    /** The lock section of `Get`. */
    method PopLocked(t: nat, key: Key) returns (c: Option<Conn>)
      requires Valid() && At(pool, t) == Looking(key)
      modifies this
      ensures Valid() && pool == Next(old(pool), Pop(t))
      ensures c == if Bucket(old(pool), key) == [] then None
                   else Some(Bucket(old(pool), key)[|Bucket(old(pool), key)| - 1])
    {
      Take(Pop(t));
      hide Inv;
      if key !in conns || |conns[key]| == 0 { return None; }
      var b := conns[key];
      conns := conns[key := b[..|b| - 1]];
      return Some(b[|b| - 1]);
    }

    /** One turn of the loop of `Get`: the last connection is popped, and closed when it is dead. */
    method Candidate(t: nat, key: Key, dead: Conn -> bool) returns (c: Option<Conn>)
      requires Valid() && At(pool, t) == Looking(key)
      modifies this
      ensures Valid() && dialled == old(dialled) && pool.keys == old(pool).keys
      ensures var b := Bucket(old(pool), key);
              && c == (if b == [] then None else Some(b[|b| - 1]))
              && Bucket(pool, key) == (if b == [] then [] else b[..|b| - 1])
              && (b == [] ==>
                    At(pool, t) == Dialing(key) && pool.closed == old(pool).closed && pool.lent == old(pool).lent)
              && (b != [] && dead(b[|b| - 1]) ==>
                    At(pool, t) == Looking(key) &&
                    pool.closed == old(pool).closed + {b[|b| - 1]} && pool.lent == old(pool).lent)
              && (b != [] && !dead(b[|b| - 1]) ==>
                    At(pool, t) == Outside &&
                    pool.closed == old(pool).closed && pool.lent == old(pool).lent + {b[|b| - 1]})
      ensures forall k {:trigger Bucket(pool, k)} :: k != key ==> Bucket(pool, k) == Bucket(old(pool), k)
    {
      hide Inv, Bucket, At, Next;
      PopEffect(pool, t);
      c := PopLocked(t, key);
      if c.None? { return; }
      ProbeEffect(pool, t, dead(c.value));
      Take(Probe(t, dead(c.value)));
    }

    /** The loop of `Get`: every dead connection behind the last live one is closed. */
    method Search(t: nat, key: Key, dead: Conn -> bool) returns (c: Option<Conn>)
      requires Valid() && At(pool, t) == Looking(key)
      modifies this
      ensures Valid() && dialled == old(dialled) && pool.keys == old(pool).keys
      ensures var b := Bucket(old(pool), key);
              var i := LastLive(b, dead);
              && Bucket(pool, key) == (if i < 0 then [] else b[..i])
              && pool.closed == old(pool).closed + From(b, i + 1)
              && c == (if i < 0 then None else Some(b[i]))
              && pool.lent == old(pool).lent + (if c.Some? then {c.value} else {})
              && At(pool, t) == (if c.Some? then Outside else Dialing(key))
      ensures forall k {:trigger Bucket(pool, k)} :: k != key ==> Bucket(pool, k) == Bucket(old(pool), k)
    {
      hide Inv, LastLive, Bucket, At, Next, From;
      ghost var start, closed := Bucket(pool, key), pool.closed;
      ghost var n := |start|;
      FromStep(start, n);
      assert pool.closed == closed + From(start, n);
      while true
        invariant Valid() && At(pool, t) == Looking(key)
        invariant 0 <= n <= |start| && Bucket(pool, key) == start[..n]
        invariant forall k :: n <= k < |start| ==> dead(start[k])
        invariant pool.closed == closed + From(start, n)
        invariant pool.lent == old(pool).lent && pool.keys == old(pool).keys && dialled == old(dialled)
        invariant forall k {:trigger Bucket(pool, k)} :: k != key ==> Bucket(pool, k) == Bucket(old(pool), k)
        decreases n
      {
        FromStep(start, n);
        c := Candidate(t, key, dead);
        if c.None? {
          LiveIs(start, dead, -1);
          return;
        }
        n := n - 1;
        assert c.value == start[n] && start[..n + 1][..n] == start[..n];
        if !dead(c.value) {
          LiveIs(start, dead, n);
          return;
        }
      }
    }

    /** The newest live connection of the bucket; every newer one is closed; none alive means a new one is dialled. */
    method Get(t: nat, key: Key, dead: Conn -> bool, dialOk: bool) returns (c: Option<Conn>)
      requires Valid() && At(pool, t).Outside?
      modifies this
      ensures Valid() && At(pool, t).Outside?
      ensures var b := Bucket(old(pool), key);
              var i := LastLive(b, dead);
              && Bucket(pool, key) == (if i < 0 then [] else b[..i])
              && pool.closed == old(pool).closed + From(b, i + 1)
              && c == (if i >= 0 then Some(b[i]) else if dialOk then Some(|old(pool).keys|) else None)
              && pool.lent == old(pool).lent + (if c.Some? then {c.value} else {})
              && forall k :: k != key ==> Bucket(pool, k) == Bucket(old(pool), k)
    {
      hide Inv, LastLive, Bucket, At, Next, From;
      BeginGetEffect(pool, t, key);
      Take(BeginGet(t, key));
      c := Search(t, key, dead);
      if c.Some? { return; }
      DialEffect(pool, t, dialOk);
      Take(Dial(t, dialOk));
      if !dialOk { return None; }
      c := Some(dialled);
      dialled := dialled + 1;
    }

    /** A failed connection is closed; else it goes back to its bucket, or is closed when that is full. */
    method Release(t: nat, c: Conn, key: Key, failed: bool)
      requires Valid() && At(pool, t).Outside? && c in pool.lent && c < |pool.keys| && pool.keys[c] == key
      modifies this
      ensures Valid() && At(pool, t).Outside? && pool.lent == old(pool).lent - {c}
      ensures var b := Bucket(old(pool), key);
              if failed || |b| >= size then pool.closed == old(pool).closed + {c} && pool.buckets == old(pool).buckets
              else pool.closed == old(pool).closed && pool.buckets == old(pool).buckets[key := b + [c]]
    {
      hide Inv;
      Take(BeginRelease(t, c, failed));
      Take(Return(t));
      if failed { return; }
      var b := if key in conns then conns[key] else [];
      if |b| >= size {
        Take(Discard(t));
        return;
      }
      conns := conns[key := b + [c]];
    }

    method Close()
      requires Valid()
      modifies this
      ensures Valid() && conns == map[]
              && pool == old(pool).(buckets := map[], closed := old(pool).closed + Idle(old(pool)))
    {
      Take(CloseAll);
      conns := map[];
    }
  }

  lemma {:induction false} LiveIs(b: seq<Conn>, dead: Conn -> bool, i: int)
    requires -1 <= i < |b| && (i >= 0 ==> !dead(b[i])) && forall k :: i < k < |b| ==> dead(b[k])
    ensures LastLive(b, dead) == i
  {
  }
}
