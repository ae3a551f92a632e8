/** The handler chain: a loop over a position that is shared with the calls its entries make back into it. */
module HandlerChain {
  import opened Text


  /** What an entry does, in order: hand on to the rest of the chain, mark the request as done, or something else. */
  datatype Op = Next | MarkDone | Work(what: int)

  /** An entry, or the handler itself, is a finite script. */
  type Script = seq<Op>

  datatype Event = Start(entry: nat) | End(entry: nat) | Marked | Worked(what: int)

  // ---- what a chain means, without a position ----

  /** What happened, whether the request is done, and whether the entry handed on. */
  datatype Outcome = Outcome(trace: seq<Event>, done: bool, handedOn: bool)

  /** The chain from entry `i` on: the rest runs inside the entry that hands on first, else after it. */
  function Chain(funcs: seq<Script>, i: nat, done: bool): Outcome
    decreases if i < |funcs| then |funcs| - i else 0, 2, 0
  {
    if i >= |funcs| || done then Outcome([], done, false)
    else
      var own := Ops(funcs, i, funcs[i], done, false);
      var trace := [Start(i)] + own.trace + [End(i)];
      if own.handedOn then Outcome(trace, own.done, false)
      else
        var rest := Chain(funcs, i + 1, own.done);
        Outcome(trace + rest.trace, rest.done, false)
  }

  /** The remaining script of entry `i`. Only the first hand-on runs anything. */
  function Ops(funcs: seq<Script>, i: nat, ops: Script, done: bool, handedOn: bool): Outcome
    requires i < |funcs|
    decreases |funcs| - i, 1, |ops|
  {
    if ops == [] then Outcome([], done, handedOn)
    else
      match ops[0]
      case Work(w) =>
        var r := Ops(funcs, i, ops[1..], done, handedOn);
        r.(trace := [Worked(w)] + r.trace)
      case MarkDone =>
        var r := Ops(funcs, i, ops[1..], true, handedOn);
        r.(trace := [Marked] + r.trace)
      case Next =>
        var inner := if handedOn then Outcome([], done, true) else Chain(funcs, i + 1, done);
        var r := Ops(funcs, i, ops[1..], inner.done, true);
        r.(trace := inner.trace + r.trace)
  }

  /** What one operation does. */
  function One(funcs: seq<Script>, i: nat, op: Op, done: bool, handedOn: bool): Outcome {
    match op
    case Work(w) => Outcome([Worked(w)], done, handedOn)
    case MarkDone => Outcome([Marked], true, handedOn)
    case Next => Outcome(if handedOn then [] else Chain(funcs, i + 1, done).trace,
                         if handedOn then done else Chain(funcs, i + 1, done).done, true)
  }

  /** The first operation of a script, and the rest of it. */
  lemma OpsStep(funcs: seq<Script>, i: nat, ops: Script, done: bool, handedOn: bool)
    requires i < |funcs| && ops != []
    ensures var first := One(funcs, i, ops[0], done, handedOn);
            var r := Ops(funcs, i, ops[1..], first.done, first.handedOn);
            Ops(funcs, i, ops, done, handedOn) == Outcome(first.trace + r.trace, r.done, r.handedOn)
  {
  }

  lemma EndOfScript(funcs: seq<Script>, i: nat)
    requires i < |funcs|
    ensures forall done, handedOn :: Ops(funcs, i, [], done, handedOn) == Outcome([], done, handedOn)
  {
  }

  /** A chain starts its first entry, and the rest runs inside or after it. */
  lemma ChainStep(funcs: seq<Script>, i: nat, done: bool)
    requires i < |funcs| && !done
    ensures var own := Ops(funcs, i, funcs[i], false, false);
            var rest := if own.handedOn then Outcome([], own.done, false) else Chain(funcs, i + 1, own.done);
            Chain(funcs, i, done) == Outcome([Start(i)] + own.trace + [End(i)] + rest.trace, rest.done, false)
  {
  }

  lemma ChainOver(funcs: seq<Script>, i: nat, done: bool)
    requires i >= |funcs| || done
    ensures Chain(funcs, i, done) == Outcome([], done, false)
  {
  }

  // ---- the loop ----

  class Context {
    var done: bool
    ghost var trace: seq<Event>

    constructor ()
      ensures !done && trace == []
    {
      done, trace := false, [];
    }
  }

  class Handler {
    const funcs: seq<Script>
    var pos: int

    constructor (funcs: seq<Script>)
      ensures this.funcs == funcs && pos == -1
    {
      this.funcs, pos := funcs, -1;
    }

    /** The position moves on and the loop runs from there. */
    method Invoke(ctx: Context)
      requires -1 <= pos
      modifies this, ctx
      ensures pos > old(pos) && (pos >= |funcs| || ctx.done)
      ensures var r := Chain(funcs, old(pos) + 1, old(ctx.done));
              ctx.trace == old(ctx.trace) + r.trace && ctx.done == r.done
      decreases if pos < |funcs| then |funcs| - pos else 0, 0, 1
    {
      pos := pos + 1;
      InvokeHandlers(ctx);
    }

    method InvokeHandlers(ctx: Context)
      requires 0 <= pos
      modifies this, ctx
      ensures pos >= old(pos) && (pos >= |funcs| || ctx.done)
      ensures var r := Chain(funcs, old(pos), old(ctx.done));
              ctx.trace == old(ctx.trace) + r.trace && ctx.done == r.done
      decreases if pos < |funcs| then |funcs| - pos else 0, if pos < |funcs| then 2 else 0, 0
    {
      hide Chain, Ops;
      ghost var whole := Chain(funcs, pos, ctx.done);
      ghost var start := ctx.trace;
      while pos < |funcs| && !ctx.done
        invariant old(pos) <= pos
        invariant var rest := Chain(funcs, pos, ctx.done);
                  ctx.trace + rest.trace == start + whole.trace && rest.done == whole.done
        decreases |funcs| - pos
      {
        var i: nat := pos;
        ghost var before := ctx.trace;
        ChainStep(funcs, i, ctx.done);
        ghost var own := Ops(funcs, i, funcs[i], false, false);
        ctx.trace := ctx.trace + [Start(i)];
        RunEntry(ctx, i);
        ctx.trace := ctx.trace + [End(i)];
        assert ctx.trace == before + ([Start(i)] + own.trace + [End(i)]);
        pos := pos + 1;
        if own.handedOn { ChainOver(funcs, pos, ctx.done); }
      }
      ChainOver(funcs, pos, ctx.done);
    }

    /** The entry at the position does its work, calling back into the chain. */
    method RunEntry(ctx: Context, i: nat)
      requires i == pos < |funcs| && !ctx.done
      modifies this, ctx
      ensures var own := Ops(funcs, i, funcs[i], false, false);
              && ctx.trace == old(ctx.trace) + own.trace && ctx.done == own.done
              && if own.handedOn then pos > i && (pos >= |funcs| || ctx.done) else pos == i
      decreases |funcs| - i, 1, 1
    {
      EndOfScript(funcs, i);
      hide Chain, Ops, One;
      ghost var handedOn := false;
      ghost var start := ctx.trace;
      ghost var own := Ops(funcs, i, funcs[i], false, false);
      ghost var past := [];
      assert funcs[i][0..] == funcs[i];
      for k := 0 to |funcs[i]|
        invariant if handedOn then pos > i && (pos >= |funcs| || ctx.done) else pos == i
        invariant ctx.trace == start + past
        invariant var rest := Ops(funcs, i, funcs[i][k..], ctx.done, handedOn);
                  past + rest.trace == own.trace && rest.done == own.done && rest.handedOn == own.handedOn
      {
        assert funcs[i][k..][1..] == funcs[i][k + 1..];
        OpsStep(funcs, i, funcs[i][k..], ctx.done, handedOn);
        ghost var one := One(funcs, i, funcs[i][k], ctx.done, handedOn);
        handedOn := RunOp(ctx, funcs[i][k], i, handedOn);
        Joined(past, one.trace, Ops(funcs, i, funcs[i][k + 1..], ctx.done, handedOn).trace);
        past := past + one.trace;
      }
      assert funcs[i][|funcs[i]|..] == [];
    }

    method RunOp(ctx: Context, op: Op, i: nat, ghost was: bool) returns (ghost handedOn: bool)
      requires i < |funcs| && if was then pos > i && (pos >= |funcs| || ctx.done) else pos == i
      modifies this, ctx
      ensures var one := One(funcs, i, op, old(ctx.done), was);
              ctx.trace == old(ctx.trace) + one.trace && ctx.done == one.done && handedOn == one.handedOn
      ensures if handedOn then pos > i && (pos >= |funcs| || ctx.done) else pos == i
      decreases |funcs| - i, 1, 0
    {
      handedOn := was;
      match op
      case Work(w) => ctx.trace := ctx.trace + [Worked(w)];
      case MarkDone =>
        ctx.done := true;
        ctx.trace := ctx.trace + [Marked];
      case Next =>
        if was { ChainOver(funcs, pos + 1, ctx.done); }
        Invoke(ctx);
        handedOn := true;
    }
  }

  // ---- what holds of every chain ----

  /** The entries started, in order. */
  function Starts(t: seq<Event>): seq<nat> {
    if t == [] then [] else (if t[0].Start? then [t[0].entry] else []) + Starts(t[1..])
  }

  lemma {:induction false} StartsAppend(a: seq<Event>, b: seq<Event>)
    ensures Starts(a + b) == Starts(a) + Starts(b)
  {
    if a == [] {
      assert a + b == b;
    } else {
      assert (a + b)[1..] == a[1..] + b;
      StartsAppend(a[1..], b);
      var h, x, y := if a[0].Start? then [a[0].entry] else [], Starts(a[1..]), Starts(b);
      assert Starts(a + b) == h + (x + y) && Starts(a) == h + x;
      hide Starts;
      assert h + (x + y) == (h + x) + y;
    }
  }

  function Count(i: nat, n: nat): (r: seq<nat>)
    ensures |r| == n && forall k :: 0 <= k < n ==> r[k] == i + k
    decreases n
  {
    if n == 0 then [] else [i] + Count(i + 1, n - 1)
  }

  /** The first `n` entries from `i` on are started, each once and in order; all of them unless the request is done. */
  ghost predicate StartsInOrder(r: Outcome, funcs: seq<Script>, i: nat) {
    exists n: nat :: Starts(r.trace) == Count(i, n) && i + n <= |funcs| && (!r.done ==> i + n == |funcs|)
  }

  lemma {:induction false} ChainStarts(funcs: seq<Script>, i: nat, done: bool) returns (n: nat)
    requires i <= |funcs|
    ensures var r := Chain(funcs, i, done);
            && Starts(r.trace) == Count(i, n) && i + n <= |funcs| && (!r.done ==> i + n == |funcs|) && (done ==> r.done)
    decreases |funcs| - i, 2, 0
  {
    if i >= |funcs| || done {
      ChainOver(funcs, i, done);
      return 0;
    }
    ChainStep(funcs, i, done);
    var m := OpsStarts(funcs, i, funcs[i], done, false);
    hide Chain, Ops;
    var own := Ops(funcs, i, funcs[i], done, false);
    StartsAppend([Start(i)] + own.trace, [End(i)]);
    StartsAppend([Start(i)], own.trace);
    n := m + 1;
    var k := 0;
    if !own.handedOn {
      k := ChainStarts(funcs, i + 1, own.done);
      n := k + 1;
    }
    var rest := if own.handedOn then Outcome([], own.done, false) else Chain(funcs, i + 1, own.done);
    StartsAppend([Start(i)] + own.trace + [End(i)], rest.trace);
    assert Starts(rest.trace) == Count(i + 1, k) && Starts([Start(i)]) == [i] && Starts([End(i)]) == [];
  }

  lemma {:induction false} OpsStarts(funcs: seq<Script>, i: nat, ops: Script, done: bool, handedOn: bool)
    returns (n: nat)
    requires i < |funcs|
    ensures var r := Ops(funcs, i, ops, done, handedOn);
            && Starts(r.trace) == Count(i + 1, n) && i + 1 + n <= |funcs|
            && (handedOn || !r.handedOn ==> n == 0) && (done ==> r.done) && (handedOn ==> r.handedOn)
            && (!handedOn && r.handedOn && !r.done ==> i + 1 + n == |funcs|)
    decreases |funcs| - i, 1, |ops|
  {
    if ops == [] { return 0; }
    match ops[0]
    case Work(w) =>
      n := OpsStarts(funcs, i, ops[1..], done, handedOn);
      StartsAppend([Worked(w)], Ops(funcs, i, ops[1..], done, handedOn).trace);
    case MarkDone =>
      n := OpsStarts(funcs, i, ops[1..], true, handedOn);
      StartsAppend([Marked], Ops(funcs, i, ops[1..], true, handedOn).trace);
    case Next =>
      n := 0;
      var inner := if handedOn then Outcome([], done, true) else Chain(funcs, i + 1, done);
      if !handedOn { n := ChainStarts(funcs, i + 1, done); }
      var m := OpsStarts(funcs, i, ops[1..], inner.done, true);
      StartsAppend(inner.trace, Ops(funcs, i, ops[1..], inner.done, true).trace);
  }

  /** Every entry starts at most once, in strictly increasing order, and all start if the request is never done. */
  lemma EntriesStartOnceInOrder(funcs: seq<Script>)
    ensures StartsInOrder(Chain(funcs, 0, false), funcs, 0)
  {
    var n := ChainStarts(funcs, 0, false);
  }

  /** No entry starts once the request is marked as done. */
  predicate NoStartAfterMark(t: seq<Event>) {
    forall a, b :: 0 <= a < b < |t| && t[a].Marked? ==> !t[b].Start?
  }

  lemma {:induction false} MarkedIsDone(funcs: seq<Script>, i: nat, done: bool)
    ensures var r := Chain(funcs, i, done);
            && (Marked in r.trace ==> r.done) && NoStartAfterMark(r.trace) && (done ==> r.trace == [])
    decreases if i < |funcs| then |funcs| - i else 0, 2, 0
  {
    if i < |funcs| && !done {
      var own := Ops(funcs, i, funcs[i], done, false);
      OpsMarked(funcs, i, funcs[i], done, false);
      MarkedIsDone(funcs, i + 1, own.done);
    }
  }

  lemma {:induction false} OpsMarked(funcs: seq<Script>, i: nat, ops: Script, done: bool, handedOn: bool)
    requires i < |funcs|
    ensures var r := Ops(funcs, i, ops, done, handedOn);
            && (Marked in r.trace || done ==> r.done) && NoStartAfterMark(r.trace)
            && (done ==> forall e :: e in r.trace ==> !e.Start?)
    decreases |funcs| - i, 1, |ops|
  {
    if ops != [] {
      match ops[0]
      case Work(w) => OpsMarked(funcs, i, ops[1..], done, handedOn);
      case MarkDone => OpsMarked(funcs, i, ops[1..], true, handedOn);
      case Next =>
        MarkedIsDone(funcs, i + 1, done);
        var inner := if handedOn then Outcome([], done, true) else Chain(funcs, i + 1, done);
        OpsMarked(funcs, i, ops[1..], inner.done, true);
    }
  }

  /** The entries still running after a trace, innermost first; `None` if an entry ends that is not the innermost. */
  datatype Running = Broken | Stack(entries: seq<nat>)

  function Nesting(t: seq<Event>, open: seq<nat>): Running {
    if t == [] then Stack(open)
    else if t[0].Start? then Nesting(t[1..], [t[0].entry] + open)
    else if t[0].End? then if open != [] && open[0] == t[0].entry then Nesting(t[1..], open[1..]) else Broken
    else Nesting(t[1..], open)
  }

  /** What an entry hands on to ends before the entry itself does. */
  lemma {:induction false} ChainNests(funcs: seq<Script>, i: nat, done: bool, rest: seq<Event>, open: seq<nat>)
    ensures Nesting(Chain(funcs, i, done).trace + rest, open) == Nesting(rest, open)
    decreases if i < |funcs| then |funcs| - i else 0, 2, 0
  {
    if i >= |funcs| || done {
      assert [] + rest == rest;
    } else {
      var own := Ops(funcs, i, funcs[i], done, false);
      var after := if own.handedOn then [] else Chain(funcs, i + 1, own.done).trace;
      var t := Chain(funcs, i, done).trace + rest;
      assert t == [Start(i)] + (own.trace + ([End(i)] + (after + rest)));
      assert t[1..] == own.trace + ([End(i)] + (after + rest));
      OpsNest(funcs, i, funcs[i], done, false, [End(i)] + (after + rest), [i] + open);
      assert ([End(i)] + (after + rest))[1..] == after + rest && ([i] + open)[1..] == open;
      if own.handedOn { assert [] + rest == rest; } else { ChainNests(funcs, i + 1, own.done, rest, open); }
    }
  }

  lemma {:induction false} OpsNest(funcs: seq<Script>, i: nat, ops: Script, done: bool, handedOn: bool,
                                   rest: seq<Event>, open: seq<nat>)
    requires i < |funcs|
    ensures Nesting(Ops(funcs, i, ops, done, handedOn).trace + rest, open) == Nesting(rest, open)
    decreases |funcs| - i, 1, |ops|
  {
    if ops == [] {
      assert [] + rest == rest;
    } else {
      match ops[0]
      case Work(w) =>
        var r := Ops(funcs, i, ops[1..], done, handedOn);
        assert ([Worked(w)] + r.trace + rest)[1..] == r.trace + rest;
        OpsNest(funcs, i, ops[1..], done, handedOn, rest, open);
      case MarkDone =>
        var r := Ops(funcs, i, ops[1..], true, handedOn);
        assert ([Marked] + r.trace + rest)[1..] == r.trace + rest;
        OpsNest(funcs, i, ops[1..], true, handedOn, rest, open);
      case Next =>
        var inner := if handedOn then Outcome([], done, true) else Chain(funcs, i + 1, done);
        var r := Ops(funcs, i, ops[1..], inner.done, true);
        assert inner.trace + r.trace + rest == inner.trace + (r.trace + rest);
        if handedOn { assert [] + (r.trace + rest) == r.trace + rest; }
        else { ChainNests(funcs, i + 1, done, r.trace + rest, open); }
        OpsNest(funcs, i, ops[1..], inner.done, true, rest, open);
    }
  }
}
