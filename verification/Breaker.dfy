/** The circuit breaker: failures per node, exponential cooldown, purging and failing open. */
module Breaker {
  import opened Text
  import opened RegistryEntries

  const TWO32: nat := 0x1_0000_0000
  const TWO62: int := 0x4000_0000_0000_0000
  const TWO63: int := 0x8000_0000_0000_0000
  const TWO64: int := 0x1_0000_0000_0000_0000

  const SECOND := 1_000_000_000
  const DEFAULT_COOLDOWN := 10 * SECOND
  const PURGE_INTERVAL := 5 * 60 * SECOND
  const ENTRY_TTL := 10 * 60 * SECOND

  /** The breaker's part of the configuration; durations in nanoseconds. */
  datatype Config = Config(failures: int, cooldown: int, maxCooldown: int)

  /** Times in nanoseconds. The node is open while `openUntil` lies ahead. */
  datatype Health = Health(failures: nat, trips: nat, openUntil: int, lastSeen: int)

  const NEW := Health(0, 0, 0, 0)

  function Threshold(cfg: Config): nat { cfg.failures % TWO32 }

  function Base(cfg: Config): (b: int)
    ensures b > 0
  {
    if cfg.cooldown <= 0 then DEFAULT_COOLDOWN else cfg.cooldown
  }

  function Cap(cfg: Config): (m: int)
    ensures m > 0
  {
    if cfg.maxCooldown <= 0 then Base(cfg) else cfg.maxCooldown
  }

  function Pow2(n: nat): (p: int)
    ensures p > 0
  {
    if n == 0 then 1 else 2 * Pow2(n - 1)
  }

  function Min(a: int, b: int): int { if a < b then a else b }

  /** A product in 64 bits. */
  function Wrap64(x: int): int {
    var m := x % TWO64;
    if m >= TWO63 then m - TWO64 else m
  }

  /** The doubling loop, from `i` on. */
  function Doubled(cooldown: int, max: int, i: nat, trips: nat): int
    decreases trips - i
  {
    if i < trips && cooldown < max then Doubled(Wrap64(2 * cooldown), max, i + 1, trips) else cooldown
  }

  /** The cooldown of a trip, as it is computed. */
  function CooldownOf(base: int, max: int, trips: nat): int {
    var c := Doubled(base, max, 1, trips);
    if c > max then max else c
  }

  // ---- cooldown ----

  lemma {:induction false} Pow2Sum(a: nat, b: nat)
    ensures Pow2(a + b) == Pow2(a) * Pow2(b)
  {
    if a > 0 {
      Pow2Sum(a - 1, b);
      assert Pow2(a + b) == 2 * (Pow2(a - 1) * Pow2(b));
      assert 2 * (Pow2(a - 1) * Pow2(b)) == (2 * Pow2(a - 1)) * Pow2(b);
    }
  }

  lemma DoubleOnce(c: int, p: int)
    requires 0 < c && 0 < p
    ensures 2 * c * p == c * (2 * p) && c * p >= c
  {
  }

  lemma NoWrap(c: int)
    requires 0 < c < TWO62
    ensures Wrap64(2 * c) == 2 * c
  {
  }

  lemma {:induction false} DoubledIs(c: int, max: int, i: nat, trips: nat)
    requires 0 < c && max <= TWO62 && i <= trips
    ensures Min(max, Doubled(c, max, i, trips)) == Min(max, c * Pow2(trips - i)) && Doubled(c, max, i, trips) > 0
    decreases trips - i
  {
    if i < trips {
      var p := Pow2(trips - (i + 1));
      assert Pow2(trips - i) == 2 * p;
      DoubleOnce(c, p);
      DoubleOnce(c, 2 * p);
      if c < max {
        NoWrap(c);
        DoubledIs(2 * c, max, i + 1, trips);
      }
    }
  }

  /** The cooldown doubles with every trip up to the cap. */
  lemma CooldownIs(base: int, max: int, trips: nat)
    requires 0 < base && 0 < max <= TWO62 && trips > 0
    ensures CooldownOf(base, max, trips) == Min(max, base * Pow2(trips - 1))
  {
    DoubledIs(base, max, 1, trips);
  }

  /** The cap that keeps the doubling within 64 bits, for every base and number of trips. */
  lemma NoOverflowExactly(max: int)
    requires 0 < max < TWO63
    ensures (forall base, trips: nat | 0 < base < TWO63 && trips > 0 :: CooldownOf(base, max, trips) > 0) <==>
            max <= TWO62
  {
    if max <= TWO62 {
      forall base, trips: nat | 0 < base < TWO63 && trips > 0 ensures CooldownOf(base, max, trips) > 0 {
        DoubledIs(base, max, 1, trips);
      }
    } else {
      assert Doubled(Wrap64(2 * TWO62), max, 2, 2) == Wrap64(2 * TWO62);
      assert CooldownOf(TWO62, max, 2) <= 0;
    }
  }

  // ---- marks ----

  function Marked(h: Health, now: int, ok: bool, cfg: Config): Health {
    if ok then Health(0, 0, 0, now)
    else
      var failures := h.failures + 1;
      if Threshold(cfg) == 0 || failures < Threshold(cfg) then h.(failures := failures, lastSeen := now)
      else
        var trips := h.trips + 1;
        Health(0, trips, now + CooldownOf(Base(cfg), Cap(cfg), trips), now)
  }

  /** Failures one after the other, at these times. */
  function Failed(h: Health, times: seq<int>, cfg: Config): Health
    decreases |times|
  {
    if times == [] then h else Marked(Failed(h, times[..|times| - 1], cfg), times[|times| - 1], false, cfg)
  }

  /** After a success, `k` failures have tripped the node once for every full threshold, and the last trip set the time
      until which it stays open. */
  lemma {:induction false} TripsCountThresholds(times: seq<int>, start: Health, cfg: Config)
    requires start.failures == 0 && start.trips == 0 && start.openUntil == 0 && Threshold(cfg) > 0
    ensures var h, t := Failed(start, times, cfg), Threshold(cfg);
            && h.trips == |times| / t && h.failures == |times| % t
            && h.openUntil == if h.trips == 0 then 0
                              else times[h.trips * t - 1] + CooldownOf(Base(cfg), Cap(cfg), h.trips)
    decreases |times|
  {
    hide CooldownOf;
    if times != [] {
      var n, t := |times| - 1, Threshold(cfg);
      TripsCountThresholds(times[..n], start, cfg);
      OneMore(n, t);
      var h := Failed(start, times[..n], cfg);
      if h.trips > 0 { LastTripInside(n, t, h.trips); }
    }
  }

  lemma OneMore(n: nat, t: nat)
    requires t > 0
    ensures (n + 1) / t == (if n % t + 1 == t then n / t + 1 else n / t)
    ensures (n + 1) % t == if n % t + 1 == t then 0 else n % t + 1
    ensures n % t + 1 == t ==> (n / t + 1) * t == n + 1
  {
    var q, r := n / t, n % t;
    assert n == t * q + r;
    if r + 1 == t {
      assert n + 1 == t * (q + 1) + 0;
      DivisionIs(n + 1, t, q + 1, 0);
    } else {
      DivisionIs(n + 1, t, q, r + 1);
    }
  }

  lemma MultipleBelow(t: int, d: int)
    requires -t < t * d < t
    ensures d == 0
  {
    assert d >= 1 ==> t * d >= t;
    assert d <= -1 ==> t * d <= -t;
  }

  lemma DivisionIs(n: nat, t: nat, q: nat, r: nat)
    requires n == t * q + r && r < t
    ensures n / t == q && n % t == r
  {
    var q', r' := n / t, n % t;
    assert n == t * q' + r' && r' < t;
    assert t * (q - q') == r' - r;
    MultipleBelow(t, q - q');
  }

  lemma LastTripInside(n: nat, t: nat, trips: nat)
    requires t > 0 && trips == n / t && trips > 0
    ensures 0 <= trips * t - 1 < n
  {
    assert n == t * (n / t) + n % t;
    assert trips * t == t * trips && t * trips >= t;
  }

  /** A trip clears the failures, so one more failure trips the node again only when the threshold is one. */
  lemma OneFailureReopensExactly(h: Health, now: int, later: int, cfg: Config)
    requires Threshold(cfg) > 0 && Marked(h, now, false, cfg).trips == h.trips + 1
    ensures var tripped := Marked(h, now, false, cfg);
            Marked(tripped, later, false, cfg).trips == tripped.trips + 1 <==> Threshold(cfg) == 1
  {
    hide CooldownOf;
  }

  // ---- the tracker ----

  const NUL: string := [0 as char]

  function HealthKey(service: string, id: string): string { service + NUL + id }

  lemma FirstSeparator(s: string, i: string)
    requires NUL[0] !in s
    ensures IndexByte(HealthKey(s, i), NUL[0]) == |s|
  {
    var k := HealthKey(s, i);
    assert k[|s|] == NUL[0] && forall x :: 0 <= x < |s| ==> k[x] == s[x];
    var r := IndexByte(k, NUL[0]);
    assert forall x :: 0 <= x < r ==> k[..r][x] == k[x];
  }

  /** Keys tell nodes apart as long as service names do not hold the separator. */
  lemma KeysDiffer(s: string, i: string, t: string, j: string)
    requires NUL[0] !in s && NUL[0] !in t && HealthKey(s, i) == HealthKey(t, j)
    ensures s == t && i == j
  {
    FirstSeparator(s, i);
    FirstSeparator(t, j);
    var k := HealthKey(s, i);
    assert s == k[..|s|] && t == k[..|t|] && i == k[|s| + 1..] && j == k[|t| + 1..];
  }

  type States = map<string, Health>

  predicate Available(states: States, service: string, id: string, now: int) {
    HealthKey(service, id) in states ==> states[HealthKey(service, id)].openUntil <= now
  }

  function Purged(states: States, now: int): States {
    map k | k in states && states[k].lastSeen >= now - ENTRY_TTL :: states[k]
  }

  /** No longer than `cap` after the node was last seen, it is no longer open. */
  predicate Bounded(h: Health, cap: int) { h.openUntil <= h.lastSeen + cap }

  lemma MarkedBounded(h: Health, now: int, ok: bool, cfg: Config, cap: int)
    requires Bounded(h, cap) && h.lastSeen <= now && 0 <= now && 0 <= cap && (Threshold(cfg) > 0 ==> Cap(cfg) <= cap)
    ensures Bounded(Marked(h, now, ok, cfg), cap)
  {
  }

  // ---- runs ----

  const ZERO_TIME := -62_135_596_800 * SECOND

  /** The configuration may be another one at every mark. */
  datatype Op =
    | DoMark(service: string, id: string, ok: bool, now: int, cfg: Config)
    | DoPurge(now: int)
    | DoReset(service: string)

  datatype Tracked = Tracked(states: States, lastPurge: int)

  function WithMark(states: States, k: string, ok: bool, now: int, cfg: Config): States {
    states[k := Marked(if k in states then states[k] else NEW, now, ok, cfg)]
  }

  function WithoutService(states: States, service: string): States {
    map k | k in states && !(service == "" || service + NUL <= k) :: states[k]
  }

  function Next(t: Tracked, op: Op): Tracked {
    match op
    case DoMark(service, id, ok, now, cfg) => t.(states := WithMark(t.states, HealthKey(service, id), ok, now, cfg))
    case DoPurge(now) => if now - t.lastPurge < PURGE_INTERVAL then t else Tracked(Purged(t.states, now), now)
    case DoReset(service) => t.(states := WithoutService(t.states, service))
  }

  function Run(ops: seq<Op>): Tracked {
    if ops == [] then Tracked(map[], ZERO_TIME) else Next(Run(ops[..|ops| - 1]), ops[|ops| - 1])
  }

  function Clock(ops: seq<Op>): int {
    if ops == [] then 0
    else if ops[|ops| - 1].DoReset? then Clock(ops[..|ops| - 1])
    else ops[|ops| - 1].now
  }

  /** The clock does not run backwards. */
  predicate InOrder(ops: seq<Op>) {
    ops == [] ||
    (InOrder(ops[..|ops| - 1]) && (ops[|ops| - 1].DoReset? || Clock(ops[..|ops| - 1]) <= ops[|ops| - 1].now))
  }

  predicate CapsWithin(ops: seq<Op>, cap: int) {
    forall i :: 0 <= i < |ops| && ops[i].DoMark? && Threshold(ops[i].cfg) > 0 ==> Cap(ops[i].cfg) <= cap
  }

  /** After any run no entry was seen in the future, and none is open longer after its last mark than the largest cap in
      use. */
  lemma {:induction false} OpenWithinCap(ops: seq<Op>, cap: int)
    requires InOrder(ops) && CapsWithin(ops, cap) && 0 <= cap
    ensures 0 <= Clock(ops)
    ensures forall k :: k in Run(ops).states ==>
              var h := Run(ops).states[k]; Bounded(h, cap) && 0 <= h.lastSeen <= Clock(ops)
  {
    hide Marked, HealthKey;
    if ops != [] {
      var before, op := ops[..|ops| - 1], ops[|ops| - 1];
      OpenWithinCap(before, cap);
      match op
      case DoMark(service, id, ok, now, cfg) =>
        var k := HealthKey(service, id);
        var h := if k in Run(before).states then Run(before).states[k] else NEW;
        MarkedBounded(h, now, ok, cfg, cap);
        MarkedSeen(h, now, ok, cfg);
      case DoPurge(_) =>
      case DoReset(_) =>
    }
  }

  lemma MarkedSeen(h: Health, now: int, ok: bool, cfg: Config)
    ensures Marked(h, now, ok, cfg).lastSeen == now
  {
  }

  // ---- recovery ----

  /** The times at which this node failed. */
  function FailureTimes(ops: seq<Op>, service: string, id: string): seq<int> {
    if ops == [] then []
    else
      var op := ops[|ops| - 1];
      FailureTimes(ops[..|ops| - 1], service, id) +
      if op.DoMark? && op.service == service && op.id == id && !op.ok then [op.now] else []
  }

  function LastTime(times: seq<int>, start: int): int { if times == [] then start else times[|times| - 1] }

  /** Neither a success nor a reset of the node, nor a purge that runs and finds it unseen for ten minutes. */
  predicate SparesNode(op: Op, service: string, id: string, seen: int, lastPurge: int, cfg: Config) {
    match op
    case DoMark(s, i, ok, _, c) => NUL[0] !in s && (s == service && i == id ==> !ok && c == cfg)
    case DoPurge(now) => now - seen <= 600_000_000_000 || now - lastPurge < 300_000_000_000
    case DoReset(s) => NUL[0] !in s && s != "" && s != service
  }

  /** Nothing but failures concerns the node after `before`, which ended at the time `start`. */
  predicate OnlyFailures(before: seq<Op>, tail: seq<Op>, service: string, id: string, start: int, cfg: Config) {
    forall i :: 0 <= i < |tail| ==>
      SparesNode(tail[i], service, id, LastTime(FailureTimes(tail[..i], service, id), start),
                 Run(before + tail[..i]).lastPurge, cfg)
  }

  lemma ResetSpares(s: string, service: string, id: string)
    requires NUL[0] !in s && NUL[0] !in service && s != service
    ensures !(s + NUL <= HealthKey(service, id))
  {
    var k := HealthKey(service, id);
    if s + NUL <= k {
      assert k == s + NUL + k[|s| + 1..] == HealthKey(s, k[|s| + 1..]);
      KeysDiffer(s, k[|s| + 1..], service, id);
    }
  }

  /** A purge runs at most once in five minutes, and then removes exactly the entries unseen for more than ten. */
  lemma PurgedExactly(t: Tracked, now: int, k: string)
    requires k in t.states
    ensures var t' := Next(t, DoPurge(now));
            && (now - t.lastPurge < 300_000_000_000 ==> t' == t)
            && (now - t.lastPurge >= 300_000_000_000 ==>
                  t'.lastPurge == now && (k in t'.states <==> now - t.states[k].lastSeen <= 600_000_000_000))
            && (k in t'.states ==> t'.states[k] == t.states[k])
  {
  }

  /** A reset removes exactly the entries of its service, or all of them when none is named. */
  lemma ResetExactly(t: Tracked, s: string, service: string, id: string)
    requires NUL[0] !in s && NUL[0] !in service && HealthKey(service, id) in t.states
    ensures HealthKey(service, id) in Next(t, DoReset(s)).states <==> s != "" && s != service
  {
    var k := HealthKey(service, id);
    if s == service { assert s + NUL <= k; }
    if s != "" && s != service { ResetSpares(s, service, id); }
  }

  lemma {:induction false} FailedSeen(h: Health, times: seq<int>, cfg: Config)
    ensures Failed(h, times, cfg).lastSeen == LastTime(times, h.lastSeen)
    decreases |times|
  {
    hide Marked;
    if times != [] {
      var n := |times| - 1;
      MarkedSeen(Failed(h, times[..n], cfg), times[n], false, cfg);
    }
  }

  lemma RunLast(ops: seq<Op>, op: Op)
    ensures Run(ops + [op]) == Next(Run(ops), op)
  {
    assert (ops + [op])[..|ops|] == ops;
  }

  lemma TimesLast(ops: seq<Op>, op: Op, service: string, id: string)
    ensures FailureTimes(ops + [op], service, id) ==
            FailureTimes(ops, service, id)
            + if op.DoMark? && op.service == service && op.id == id && !op.ok then [op.now] else []
  {
    assert (ops + [op])[..|ops|] == ops;
  }

  lemma OnlyLast(before: seq<Op>, front: seq<Op>, op: Op, service: string, id: string, start: int, cfg: Config)
    requires OnlyFailures(before, front + [op], service, id, start, cfg)
    ensures OnlyFailures(before, front, service, id, start, cfg)
    ensures SparesNode(op, service, id, LastTime(FailureTimes(front, service, id), start),
                       Run(before + front).lastPurge, cfg)
  {
    hide SparesNode, Run, FailureTimes;
    var tail := front + [op];
    assert tail[|front|] == op && tail[..|front|] == front;
    assert forall i :: 0 <= i < |front| ==> front[i] == tail[i] && front[..i] == tail[..i];
  }

  /** After a success of a node, nothing counts but its failures since. */
  lemma {:induction false} FailuresSince(before: seq<Op>, tail: seq<Op>, service: string, id: string, start: Health,
                                         cfg: Config)
    requires NUL[0] !in service && OnlyFailures(before, tail, service, id, start.lastSeen, cfg)
    requires var k, states := HealthKey(service, id), Run(before).states; k in states && states[k] == start
    ensures var k, states := HealthKey(service, id), Run(before + tail).states;
            k in states && states[k] == Failed(start, FailureTimes(tail, service, id), cfg)
    decreases |tail|
  {
    hide Run, Next, SparesNode, Failed, OnlyFailures, HealthKey, FailureTimes, LastTime;
    NothingSince(start, service, id, cfg);
    if tail == [] {
      assert before + tail == before;
    } else {
      var front, op := tail[..|tail| - 1], tail[|tail| - 1];
      assert tail == front + [op];
      Joined(before, front, [op]);
      OnlyLast(before, front, op, service, id, start.lastSeen, cfg);
      FailuresSince(before, front, service, id, start, cfg);
      var times := FailureTimes(front, service, id);
      FailedSeen(start, times, cfg);
      OneSince(Run(before + front), op, service, id, start, times, cfg);
      RunLast(before + front, op);
      TimesLast(front, op, service, id);
      assert SparesNode(op, service, id, LastTime(times, start.lastSeen), Run(before + front).lastPurge, cfg);
      OnlyBad(op, service, id, LastTime(times, start.lastSeen), Run(before + front).lastPurge, cfg);
    }
  }

  lemma NothingSince(start: Health, service: string, id: string, cfg: Config)
    ensures FailureTimes([], service, id) == [] && Failed(start, [], cfg) == start
  {
  }

  lemma OnlyBad(op: Op, service: string, id: string, seen: int, lastPurge: int, cfg: Config)
    requires SparesNode(op, service, id, seen, lastPurge, cfg)
    ensures op.DoMark? && op.service == service && op.id == id ==> !op.ok
  {
  }

  lemma OneSince(t: Tracked, op: Op, service: string, id: string, start: Health, times: seq<int>, cfg: Config)
    requires NUL[0] !in service && SparesNode(op, service, id, LastTime(times, start.lastSeen), t.lastPurge, cfg)
    requires var k := HealthKey(service, id); k in t.states && t.states[k] == Failed(start, times, cfg)
    requires Failed(start, times, cfg).lastSeen == LastTime(times, start.lastSeen)
    ensures var k, states := HealthKey(service, id), Next(t, op).states;
            var more := if op.DoMark? && op.service == service && op.id == id then [op.now] else [];
            k in states && states[k] == Failed(start, times + more, cfg)
  {
    hide Marked, HealthKey;
    assert times + [] == times;
    match op
    case DoMark(s, i, ok, now, c) =>
      if s == service && i == id {
        assert (times + [now])[..|times|] == times;
      } else if HealthKey(s, i) == HealthKey(service, id) {
        KeysDiffer(s, i, service, id);
      }
    case DoPurge(now) =>
    case DoReset(s) => ResetSpares(s, service, id);
  }

  lemma AfterMark(ops: seq<Op>, op: Op)
    requires op.DoMark? && op.ok
    ensures var k, states := HealthKey(op.service, op.id), Run(ops + [op]).states;
            k in states && states[k] == Health(0, 0, 0, op.now)
  {
    assert (ops + [op])[..|ops|] == ops;
  }

  /** These failures since a recovery, and nothing from before it: a trip for every full threshold, and open from the
      last trip on for the base cooldown, doubled for every earlier one, up to the cap. */
  predicate CountsOnly(h: Health, times: seq<int>, cfg: Config) {
    var t := Threshold(cfg);
    if t == 0 then h.trips == 0 && h.failures == |times| && h.openUntil == 0
    else
      && h.trips == |times| / t && h.failures == |times| % t
      && (h.trips == 0 ==> h.openUntil == 0)
      && (h.trips > 0 ==>
            var last := h.trips * t - 1;
            && 0 <= last < |times|
            && (Cap(cfg) <= TWO62 ==> h.openUntil == times[last] + Min(Cap(cfg), Base(cfg) * Pow2(h.trips - 1))))
  }

  lemma FailedCounts(start: Health, times: seq<int>, cfg: Config)
    requires start.failures == 0 && start.trips == 0 && start.openUntil == 0
    ensures CountsOnly(Failed(start, times, cfg), times, cfg)
  {
    var t := Threshold(cfg);
    if t == 0 {
      NeverTrips(start, times, cfg);
    } else {
      TripsCountThresholds(times, start, cfg);
      hide Failed, CooldownOf, Pow2;
      var trips := |times| / t;
      if trips > 0 {
        LastTripInside(|times|, t, trips);
        if Cap(cfg) <= TWO62 { CooldownIs(Base(cfg), Cap(cfg), trips); }
      }
    }
  }

  /** After any history, a success makes the node available, and from then on only its failures since count: whatever it
      went through before, the cooldown starts at the base again. */
  lemma RecoversFully(ops: seq<Op>, success: Op, tail: seq<Op>, cfg: Config)
    requires success.DoMark? && success.ok && NUL[0] !in success.service
    requires OnlyFailures(ops + [success], tail, success.service, success.id, success.now, cfg)
    ensures forall now :: 0 <= now ==> Available(Run(ops + [success]).states, success.service, success.id, now)
    ensures var k, states := HealthKey(success.service, success.id), Run(ops + [success] + tail).states;
            k in states && CountsOnly(states[k], FailureTimes(tail, success.service, success.id), cfg)
  {
    var start, times := Health(0, 0, 0, success.now), FailureTimes(tail, success.service, success.id);
    AfterMark(ops, success);
    hide Run, Failed, OnlyFailures, CountsOnly, FailureTimes, HealthKey;
    FailuresSince(ops + [success], tail, success.service, success.id, start, cfg);
    FailedCounts(start, times, cfg);
  }

  lemma {:induction false} NeverTrips(h: Health, times: seq<int>, cfg: Config)
    requires Threshold(cfg) == 0
    ensures var r := Failed(h, times, cfg);
            r.trips == h.trips && r.failures == h.failures + |times| && r.openUntil == h.openUntil
    decreases |times|
  {
    if times != [] { NeverTrips(h, times[..|times| - 1], cfg); }
  }

  /** A threshold of three, ten seconds and a cap of two minutes: three failures, a success and three failures open the
      node for ten seconds again. */
  lemma RecoveryInput(service: string, id: string, cfg: Config, first: Op, success: Op, again: Op)
    requires NUL[0] !in service && cfg == Config(3, 10_000_000_000, 120_000_000_000)
    requires first == DoMark(service, id, false, 0, cfg) && success == DoMark(service, id, true, 11_000_000_000, cfg)
    requires again == DoMark(service, id, false, 12_000_000_000, cfg)
    ensures var k, states := HealthKey(service, id), Run([first, first, first, success] + [again, again, again]).states;
            k in states && states[k].openUntil == 22_000_000_000 && states[k].trips == 1
  {
    ThreeTimes(again, service, id);
    assert OnlyFailures([first, first, first] + [success], [again, again, again], service, id, success.now, cfg);
    hide Run, OnlyFailures, HealthKey, FailureTimes, Pow2;
    RecoversFully([first, first, first], success, [again, again, again], cfg);
    NoDoubling();
    assert [first, first, first] + [success] == [first, first, first, success];
  }

  /** How long the first trip keeps a node open: the cooldown, or ten seconds when none is given, but not longer than
      the cap. Without a cap later trips are no longer. */
  lemma DefaultDurations(h: Health, now: int, cfg: Config)
    requires cfg.failures == 1
    ensures var base := if cfg.cooldown <= 0 then 10_000_000_000 else cfg.cooldown;
            var until := Marked(h, now, false, cfg).openUntil;
            && (cfg.maxCooldown <= 0 ==> until == now + base)
            && (cfg.maxCooldown > 0 && h.trips == 0 ==>
                  until == now + if base < cfg.maxCooldown then base else cfg.maxCooldown)
  {
    if cfg.maxCooldown <= 0 { assert Doubled(Base(cfg), Cap(cfg), 1, h.trips + 1) == Base(cfg); }
  }

  lemma NoDoubling()
    ensures Pow2(0) == 1
  {
  }

  lemma ThreeTimes(op: Op, service: string, id: string)
    requires op.DoMark? && op.service == service && op.id == id && !op.ok
    ensures FailureTimes([op, op, op], service, id) == [op.now, op.now, op.now]
  {
    assert [op, op, op][..2] == [op, op] && [op, op][..1] == [op] && [op][..0] == [];
    assert FailureTimes([op], service, id) == [op.now];
    assert FailureTimes([op, op], service, id) == [op.now, op.now];
  }

  /** Trips after which the cooldown exceeds `limit`. */
  lemma {:induction false} LongTrips(c: int, max: int, i: nat, limit: int) returns (trips: nat)
    requires 0 < c && limit < max && limit < TWO62
    ensures trips >= i && Min(max, Doubled(c, max, i, trips)) > limit
    decreases limit - c
  {
    if c > limit { return i; }
    NoWrap(c);
    trips := LongTrips(2 * c, max, i + 1, limit);
  }

  /** The same node failing again and again at time zero. */
  function Failures(n: nat, service: string, id: string, cfg: Config): seq<Op> {
    seq(n, i => DoMark(service, id, false, 0, cfg))
  }

  lemma {:induction false} FailuresRun(n: nat, service: string, id: string, cfg: Config)
    ensures InOrder(Failures(n, service, id, cfg)) && Clock(Failures(n, service, id, cfg)) == 0
    ensures Run(Failures(n, service, id, cfg)).lastPurge == ZERO_TIME
    ensures n > 0 ==> var k, states := HealthKey(service, id), Run(Failures(n, service, id, cfg)).states;
                      k in states && states[k] == Failed(NEW, seq(n, i => 0), cfg)
    ensures n == 0 ==> Run(Failures(n, service, id, cfg)).states == map[]
  {
    hide Marked, HealthKey;
    if n > 0 {
      FailuresRun(n - 1, service, id, cfg);
      assert Failures(n, service, id, cfg)[..n - 1] == Failures(n - 1, service, id, cfg);
      assert seq(n, i => 0)[..n - 1] == seq(n - 1, i => 0);
    }
  }

  /** A purge that makes the open node of `ops` available. */
  predicate PurgeReleases(ops: seq<Op>, service: string, id: string, now: int) {
    && !Available(Run(ops).states, service, id, now)
    && Available(Run(ops + [DoPurge(now)]).states, service, id, now)
  }

  predicate Uses(ops: seq<Op>, configs: iset<Config>) {
    forall i :: 0 <= i < |ops| && ops[i].DoMark? ==> ops[i].cfg in configs
  }

  /** Whatever is marked, purged and reset under these configurations, no purge makes an open node available: exactly
      when every configuration has the breaker off or a cap at most a nanosecond above the lifetime of an entry. */
  lemma PurgeKeepsOpenExactly(configs: iset<Config>)
    ensures (forall ops, service, id, now | InOrder(ops + [DoPurge(now)]) && Uses(ops, configs) ::
               !PurgeReleases(ops, service, id, now))
            <==> forall cfg :: cfg in configs ==> Threshold(cfg) == 0 || Cap(cfg) <= ENTRY_TTL + 1
  {
    if cfg :| cfg in configs && Threshold(cfg) > 0 && Cap(cfg) > ENTRY_TTL + 1 {
      var ops := LongCapReleases(cfg, "s", "n");
    } else {
      forall ops, service, id, now | InOrder(ops + [DoPurge(now)]) && Uses(ops, configs)
        ensures !PurgeReleases(ops, service, id, now)
      {
        ShortCapsKeep(ops, service, id, now);
      }
    }
  }

  lemma ShortCapsKeep(ops: seq<Op>, service: string, id: string, now: int)
    requires InOrder(ops + [DoPurge(now)]) && CapsWithin(ops, ENTRY_TTL + 1)
    ensures !PurgeReleases(ops, service, id, now)
  {
    assert (ops + [DoPurge(now)])[..|ops|] == ops;
    OpenWithinCap(ops, ENTRY_TTL + 1);
  }

  lemma LongCapReleases(cfg: Config, service: string, id: string) returns (ops: seq<Op>)
    requires Threshold(cfg) > 0 && Cap(cfg) > ENTRY_TTL + 1
    ensures InOrder(ops + [DoPurge(ENTRY_TTL + 1)]) && PurgeReleases(ops, service, id, ENTRY_TTL + 1)
    ensures forall i :: 0 <= i < |ops| ==> ops[i].DoMark? && ops[i].cfg == cfg
  {
    var trips := LongTrips(Base(cfg), Cap(cfg), 1, ENTRY_TTL + 1);
    var t := Threshold(cfg);
    var n := trips * t;
    DivisionIs(n, t, trips, 0);
    assert n > 0;
    ops := Failures(n, service, id, cfg);
    FailuresRun(n, service, id, cfg);
    TripsCountThresholds(seq(n, i => 0), NEW, cfg);
    MarkedAtZero(n, cfg);
    assert (ops + [DoPurge(ENTRY_TTL + 1)])[..|ops|] == ops;
  }

  lemma MarkedAtZero(n: nat, cfg: Config)
    ensures Failed(NEW, seq(n, i => 0), cfg).lastSeen == 0
  {
    hide Marked;
    if n > 0 { MarkedSeen(Failed(NEW, seq(n, i => 0)[..n - 1], cfg), 0, false, cfg); }
  }

  class Tracker {
    var states: States
    var lastPurge: int
    /** What was called so far. */
    ghost var ops: seq<Op>

    ghost predicate Valid()
      reads this
    {
      InOrder(ops) && Tracked(states, lastPurge) == Run(ops)
    }

    constructor ()
      ensures Valid() && ops == []
    {
      states, lastPurge, ops := map[], ZERO_TIME, [];
    }

    method Mark(service: string, id: string, ok: bool, now: int, cfg: Config)
      requires Valid() && Clock(ops) <= now && Base(cfg) < TWO63 && Cap(cfg) < TWO63
      modifies this
      ensures Valid() && ops == old(ops) + [DoMark(service, id, ok, now, cfg)]
      ensures states == WithMark(old(states), HealthKey(service, id), ok, now, cfg) && lastPurge == old(lastPurge)
    {
      ghost var op := DoMark(service, id, ok, now, cfg);
      assert (ops + [op])[..|ops|] == ops;
      ops := ops + [op];
      var k := HealthKey(service, id);
      var h := if k in states then states[k] else NEW;
      h := h.(lastSeen := now);
      if ok {
        states := states[k := h.(failures := 0, trips := 0, openUntil := 0)];
        return;
      }
      h := h.(failures := h.failures + 1);
      if Threshold(cfg) == 0 || h.failures < Threshold(cfg) {
        states := states[k := h];
        return;
      }
      h := h.(trips := h.trips + 1);
      var cooldown := Cooldown(Base(cfg), Cap(cfg), h.trips);
      states := states[k := h.(openUntil := now + cooldown, failures := 0)];
    }

    method Purge(now: int)
      requires Valid() && Clock(ops) <= now
      modifies this
      ensures Valid() && ops == old(ops) + [DoPurge(now)]
      ensures if now - old(lastPurge) < PURGE_INTERVAL then states == old(states) && lastPurge == old(lastPurge)
              else states == Purged(old(states), now) && lastPurge == now
    {
      ghost var ops' := ops + [DoPurge(now)];
      assert ops'[..|ops|] == ops;
      ops := ops';
      if now - lastPurge < PURGE_INTERVAL { return; }
      lastPurge := now;
      var left := states.Keys;
      while left != {}
        invariant left <= old(states).Keys && lastPurge == now && ops == ops'
        invariant states == map k | k in old(states) && (k in left || old(states)[k].lastSeen >= now - ENTRY_TTL) ::
                              old(states)[k]
        decreases left
      {
        var k :| k in left;
        left := left - {k};
        if states[k].lastSeen < now - ENTRY_TTL { states := states - {k}; }
      }
    }

    /** Everything, for an empty service name; else the entries of that service. */
    method Reset(service: string)
      requires Valid()
      modifies this
      ensures Valid() && ops == old(ops) + [DoReset(service)]
      ensures states == WithoutService(old(states), service) && lastPurge == old(lastPurge)
    {
      ghost var ops' := ops + [DoReset(service)];
      assert ops'[..|ops|] == ops;
      ops := ops';
      var left := states.Keys;
      while left != {}
        invariant left <= old(states).Keys && lastPurge == old(lastPurge) && ops == ops'
        invariant states == map k | k in old(states) && (k in left || !(service == "" || service + NUL <= k)) ::
                              old(states)[k]
        decreases left
      {
        var k :| k in left;
        left := left - {k};
        if service == "" || service + NUL <= k { states := states - {k}; }
      }
    }

    /** The available nodes in their order, services without any dropped; everything when no node is available. */
    method FilterHealthy(services: seq<Service>, now: int) returns (out: seq<Service>)
      ensures out == Filtered(states, services, now)
    {
      hide Available, HealthyNodes;
      out := [];
      var total, kept := 0, 0;
      assert services[..0] == [];
      for i := 0 to |services|
        invariant out == Healthy(states, services[..i], now)
        invariant total == |AllNodes(services[..i])| && kept == |AllNodes(out)|
      {
        var svc := services[i];
        assert services[..i + 1] == services[..i] + [svc];
        HealthyAppend(states, services[..i], svc, now);
        AllNodesAppend(services[..i], svc);
        var nodes := AvailableNodes(svc, now);
        total, kept := total + |svc.nodes|, kept + |nodes|;
        if |nodes| > 0 {
          AllNodesAppend(out, svc.(nodes := nodes));
          out := out + [svc.(nodes := nodes)];
        }
      }
      assert services[..|services|] == services;
      if total > 0 && kept == 0 { return services; }
    }

    method AvailableNodes(svc: Service, now: int) returns (nodes: seq<Node>)
      ensures nodes == HealthyNodes(states, svc.name, svc.nodes, now)
    {
      hide Available;
      nodes := [];
      for j := 0 to |svc.nodes|
        invariant nodes == HealthyNodes(states, svc.name, svc.nodes[..j], now)
      {
        assert svc.nodes[..j + 1] == svc.nodes[..j] + [svc.nodes[j]];
        HealthyNodesAppend(states, svc.name, svc.nodes[..j], svc.nodes[j], now);
        if Available(states, svc.name, svc.nodes[j].id, now) { nodes := nodes + [svc.nodes[j]]; }
      }
      assert svc.nodes[..|svc.nodes|] == svc.nodes;
    }
  }

  method Cooldown(base: int, max: int, trips: nat) returns (cooldown: int)
    requires 0 < base && 0 < max && trips > 0
    ensures cooldown == CooldownOf(base, max, trips)
  {
    cooldown := base;
    var i: nat := 1;
    while i < trips && cooldown < max
      invariant Doubled(cooldown, max, i, trips) == Doubled(base, max, 1, trips)
      decreases trips - i
    {
      cooldown := Wrap64(cooldown * 2);
      i := i + 1;
    }
    if cooldown > max { cooldown := max; }
  }

  // ---- filtering ----

  function HealthyNodes(states: States, name: string, nodes: seq<Node>, now: int): (r: seq<Node>)
    ensures forall n :: n in r <==> n in nodes && Available(states, name, n.id, now)
  {
    if nodes == [] then []
    else (if Available(states, name, nodes[0].id, now) then [nodes[0]] else []) +
         HealthyNodes(states, name, nodes[1..], now)
  }

  function Healthy(states: States, services: seq<Service>, now: int): seq<Service> {
    if services == [] then []
    else
      var nodes := HealthyNodes(states, services[0].name, services[0].nodes, now);
      (if nodes == [] then [] else [services[0].(nodes := nodes)]) + Healthy(states, services[1..], now)
  }

  function Tagged(name: string, nodes: seq<Node>): (r: seq<(string, Node)>)
    ensures |r| == |nodes|
  {
    if nodes == [] then [] else [(name, nodes[0])] + Tagged(name, nodes[1..])
  }

  /** All nodes of a list of services, in order, with the service they belong to. */
  function AllNodes(services: seq<Service>): seq<(string, Node)> {
    if services == [] then []
    else Tagged(services[0].name, services[0].nodes) + AllNodes(services[1..])
  }

  function Filtered(states: States, services: seq<Service>, now: int): seq<Service> {
    if AllNodes(services) != [] && AllNodes(Healthy(states, services, now)) == [] then services
    else Healthy(states, services, now)
  }

  /** The available ones of a list of nodes. */
  function Kept(states: States, nodes: seq<(string, Node)>, now: int): (r: seq<(string, Node)>)
    ensures forall x :: x in r <==> x in nodes && Available(states, x.0, x.1.id, now)
  {
    if nodes == [] then []
    else (if Available(states, nodes[0].0, nodes[0].1.id, now) then [nodes[0]] else []) + Kept(states, nodes[1..], now)
  }

  lemma {:induction false} HealthyNodesAppend(states: States, name: string, a: seq<Node>, n: Node, now: int)
    ensures HealthyNodes(states, name, a + [n], now) ==
            HealthyNodes(states, name, a, now) + if Available(states, name, n.id, now) then [n] else []
  {
    hide Available;
    if a == [] {
      assert a + [n] == [n];
    } else {
      assert (a + [n])[1..] == a[1..] + [n] && (a + [n])[0] == a[0];
      HealthyNodesAppend(states, name, a[1..], n, now);
      Joined(if Available(states, name, a[0].id, now) then [a[0]] else [], HealthyNodes(states, name, a[1..], now),
                  if Available(states, name, n.id, now) then [n] else []);
    }
  }

  lemma {:induction false} HealthyAppend(states: States, a: seq<Service>, s: Service, now: int)
    ensures var nodes := HealthyNodes(states, s.name, s.nodes, now);
            Healthy(states, a + [s], now) == Healthy(states, a, now) + if nodes == [] then [] else [s.(nodes := nodes)]
  {
    hide HealthyNodes;
    if a == [] {
      assert a + [s] == [s];
    } else {
      assert (a + [s])[1..] == a[1..] + [s];
      HealthyAppend(states, a[1..], s, now);
    }
  }

  lemma {:induction false} AllNodesAppend(a: seq<Service>, s: Service)
    ensures |AllNodes(a + [s])| == |AllNodes(a)| + |s.nodes|
  {
    if a == [] {
      assert a + [s] == [s];
    } else {
      assert (a + [s])[1..] == a[1..] + [s];
      AllNodesAppend(a[1..], s);
    }
  }

  lemma {:induction false} KeptAppend(states: States, a: seq<(string, Node)>, b: seq<(string, Node)>, now: int)
    ensures Kept(states, a + b, now) == Kept(states, a, now) + Kept(states, b, now)
  {
    hide Available;
    if a == [] {
      assert a + b == b;
    } else {
      assert (a + b)[1..] == a[1..] + b;
      KeptAppend(states, a[1..], b, now);
    }
  }

  lemma {:induction false} ServiceKept(states: States, name: string, nodes: seq<Node>, now: int)
    ensures Kept(states, Tagged(name, nodes), now) == Tagged(name, HealthyNodes(states, name, nodes, now))
  {
    hide Available;
    if nodes != [] {
      ServiceKept(states, name, nodes[1..], now);
      KeptCons(states, (name, nodes[0]), Tagged(name, nodes[1..]), now);
      var kept := HealthyNodes(states, name, nodes[1..], now);
      hide Kept;
      assert ([nodes[0]] + kept)[1..] == kept && [] + kept == kept;
    }
  }

  lemma KeptCons(states: States, x: (string, Node), rest: seq<(string, Node)>, now: int)
    ensures Kept(states, [x] + rest, now) == (if Available(states, x.0, x.1.id, now) then [x] else []) +
            Kept(states, rest, now)
  {
    assert ([x] + rest)[1..] == rest;
  }

  lemma {:induction false} HealthyKeeps(states: States, services: seq<Service>, now: int)
    ensures AllNodes(Healthy(states, services, now)) == Kept(states, AllNodes(services), now)
  {
    hide Available, HealthyNodes;
    if services != [] {
      var s := services[0];
      var kept := HealthyNodes(states, s.name, s.nodes, now);
      ServiceKept(states, s.name, s.nodes, now);
      HealthyKeeps(states, services[1..], now);
      KeptAppend(states, Tagged(s.name, s.nodes), AllNodes(services[1..]), now);
      var rest := Healthy(states, services[1..], now);
      AllNodesCons(s.(nodes := kept), rest);
    }
  }

  lemma AllNodesCons(s: Service, rest: seq<Service>)
    ensures AllNodes((if s.nodes == [] then [] else [s]) + rest) == Tagged(s.name, s.nodes) + AllNodes(rest)
  {
    if s.nodes == [] { assert [] + rest == rest; } else { assert ([s] + rest)[1..] == rest; }
  }

  /** The filter keeps exactly the available nodes in order, or everything when there is none; it never empties a list
      that has a node. */
  lemma FilterKeepsAvailable(states: States, services: seq<Service>, now: int)
    ensures var kept := Kept(states, AllNodes(services), now);
            AllNodes(Filtered(states, services, now)) == if kept == [] then AllNodes(services) else kept
    ensures AllNodes(services) != [] ==> AllNodes(Filtered(states, services, now)) != []
  {
    HealthyKeeps(states, services, now);
  }
}
