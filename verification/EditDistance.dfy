/** Suggestions for misspelt configuration keys: the two-row edit distance is the length of a shortest chain of single
    edits. */
module EditDistance {
  import opened Text

  // ---- single edits ----

  predicate Deletes(s: string, t: string, i: nat) { i < |s| && t == s[..i] + s[i + 1..] }

  predicate Substitutes(s: string, t: string, i: nat) { i < |s| && |t| == |s| && t == s[..i] + [t[i]] + s[i + 1..] }

  /** One character inserted, deleted or substituted. */
  ghost predicate OneEdit(s: string, t: string) {
    (exists i :: Deletes(s, t, i)) || (exists i :: Deletes(t, s, i)) || (exists i :: Substitutes(s, t, i))
  }

  /** A chain of strings from `a` to `b`, each one edit from the one before. */
  ghost predicate Chain(p: seq<string>, a: string, b: string) {
    && p != [] && p[0] == a && p[|p| - 1] == b
    && forall i :: 0 <= i < |p| - 1 ==> OneEdit(p[i], p[i + 1])
  }

  // ---- the recurrence ----

  function Min3(a: int, b: int, c: int): (m: int)
    ensures m <= a && m <= b && m <= c && (m == a || m == b || m == c)
  {
    var x := if b < a then b else a;
    if c < x then c else x
  }

  function Front(s: string): string
    requires s != []
  {
    s[..|s| - 1]
  }

  function Last(s: string): char
    requires s != []
  {
    s[|s| - 1]
  }

  function Differ(a: char, b: char): nat { if a == b then 0 else 1 }

  function Distance(a: string, b: string): (d: nat)
    decreases |a| + |b|
  {
    if a == [] then |b|
    else if b == [] then |a|
    else Min3(Distance(a, Front(b)) + 1, Distance(Front(a), b) + 1,
              Distance(Front(a), Front(b)) + Differ(Last(a), Last(b)))
  }

  lemma {:induction false} Symmetric(a: string, b: string)
    ensures Distance(a, b) == Distance(b, a)
    decreases |a| + |b|
  {
    if a != [] && b != [] {
      Symmetric(a, Front(b));
      Symmetric(Front(a), b);
      Symmetric(Front(a), Front(b));
    }
  }

  lemma {:induction false} Bounds(a: string, b: string)
    ensures |a| - |b| <= Distance(a, b) <= |a| + |b| && |b| - |a| <= Distance(a, b)
    decreases |a| + |b|
  {
    if a != [] && b != [] {
      Bounds(a, Front(b));
      Bounds(Front(a), b);
      Bounds(Front(a), Front(b));
    }
  }

  lemma {:induction false} Triangle(a: string, b: string, c: string)
    ensures Distance(a, c) <= Distance(a, b) + Distance(b, c)
    decreases |a| + |b| + |c|
  {
    Bounds(a, b);
    Bounds(b, c);
    Bounds(a, c);
    if a != [] && b != [] && c != [] {
      Triangle(Front(a), b, c);
      Triangle(a, b, Front(c));
      Triangle(a, Front(b), c);
      Triangle(a, Front(b), Front(c));
      Triangle(Front(a), Front(b), c);
      Triangle(Front(a), Front(b), Front(c));
    }
  }

  lemma {:induction false} NoneToItself(a: string)
    ensures Distance(a, a) == 0
  {
    if a != [] { NoneToItself(Front(a)); }
  }

  /** A common suffix does not add to the distance. */
  lemma {:induction false} CommonSuffix(x: string, y: string, s: string)
    ensures Distance(x + s, y + s) <= Distance(x, y)
    decreases |s|
  {
    if s == [] {
      assert x + s == x && y + s == y;
    } else {
      assert Front(x + s) == x + Front(s) && Front(y + s) == y + Front(s);
      CommonSuffix(x, y, Front(s));
    }
  }

  lemma OneEditIsClose(s: string, t: string)
    requires OneEdit(s, t)
    ensures Distance(s, t) <= 1
  {
    hide Distance, Deletes, Substitutes;
    if i: nat :| Deletes(s, t, i) {
      DeleteIsClose(s, t, i);
    } else if i: nat :| Deletes(t, s, i) {
      DeleteIsClose(t, s, i);
      Symmetric(s, t);
    } else {
      var i: nat :| Substitutes(s, t, i);
      SubstituteIsClose(s, t, i);
    }
  }

  lemma SubstituteIsClose(s: string, t: string, i: nat)
    requires Substitutes(s, t, i)
    ensures Distance(s, t) <= 1
  {
    hide Distance;
    var x, y := s[..i] + [s[i]], s[..i] + [t[i]];
    LastDiffers(s[..i], s[i], t[i]);
    CommonSuffix(x, y, s[i + 1..]);
    assert s == x + s[i + 1..];
  }

  lemma LastDiffers(p: string, c: char, d: char)
    ensures Distance(p + [c], p + [d]) <= 1
  {
    assert Front(p + [c]) == p == Front(p + [d]);
    NoneToItself(p);
  }

  lemma DeleteIsClose(s: string, t: string, i: nat)
    requires Deletes(s, t, i)
    ensures Distance(s, t) <= 1
  {
    var x := s[..i] + [s[i]];
    assert Front(x) == s[..i];
    NoneToItself(s[..i]);
    CommonSuffix(x, s[..i], s[i + 1..]);
    assert s == x + s[i + 1..];
  }

  /** No chain is shorter than the distance. */
  lemma {:induction false} NoShorterChain(p: seq<string>, a: string, b: string)
    requires Chain(p, a, b)
    ensures Distance(a, b) <= |p| - 1
    decreases |p|
  {
    if |p| == 1 {
      NoneToItself(a);
    } else {
      var q := p[..|p| - 1];
      NoShorterChain(q, a, q[|q| - 1]);
      assert OneEdit(p[|p| - 2], p[|p| - 1]);
      OneEditIsClose(q[|q| - 1], b);
      Triangle(a, q[|q| - 1], b);
    }
  }

  lemma AppendEdit(s: string, t: string, c: char)
    requires OneEdit(s, t)
    ensures OneEdit(s + [c], t + [c])
  {
    if i: nat :| Deletes(s, t, i) {
      assert Deletes(s + [c], t + [c], i);
    } else if i: nat :| Deletes(t, s, i) {
      assert Deletes(t + [c], s + [c], i);
    } else {
      var i: nat :| Substitutes(s, t, i);
      assert Substitutes(s + [c], t + [c], i);
    }
  }

  /** Some chain is as short as the distance. */
  lemma {:induction false} ShortChain(a: string, b: string) returns (p: seq<string>)
    ensures Chain(p, a, b) && |p| == Distance(a, b) + 1
    decreases |a| + |b|
  {
    if a == [] && b == [] { return [a]; }
    hide OneEdit;
    if a != [] && (b == [] || Distance(a, b) == Distance(Front(a), b) + 1) {
      p := ShortChain(Front(a), b);
      hide Distance;
      LastDeleted(a);
      Prefixed(p, Front(a), b, a);
      p := [a] + p;
    } else if b != [] && (a == [] || Distance(a, b) == Distance(a, Front(b)) + 1) {
      p := ShortChain(a, Front(b));
      hide Distance;
      LastDeleted(b);
      p := p + [b];
    } else {
      p := ShortChain(Front(a), Front(b));
      assert Distance(a, b) == Distance(Front(a), Front(b)) + Differ(Last(a), Last(b));
      hide Distance;
      p := LastReplaced(p, a, b);
    }
  }

  lemma LastDeleted(a: string)
    requires a != []
    ensures OneEdit(a, Front(a)) && OneEdit(Front(a), a)
  {
    assert Deletes(a, Front(a), |a| - 1);
  }

  /** A chain between the fronts, extended by the last characters. */
  lemma LastReplaced(q: seq<string>, a: string, b: string) returns (p: seq<string>)
    requires a != [] && b != [] && Chain(q, Front(a), Front(b))
    ensures Chain(p, a, b) && |p| == |q| + Differ(Last(a), Last(b))
  {
    hide OneEdit;
    var m := Front(a) + [Last(b)];
    p := Extended(q, Front(a), Front(b), Last(b));
    assert Front(b) + [Last(b)] == b && Front(a) + [Last(a)] == a;
    if Last(a) != Last(b) {
      LastSubstituted(a, Last(b));
      Prefixed(p, m, b, a);
      p := [a] + p;
    }
  }

  lemma LastSubstituted(a: string, c: char)
    requires a != []
    ensures OneEdit(a, Front(a) + [c])
  {
    assert Substitutes(a, Front(a) + [c], |a| - 1);
  }

  lemma Prefixed(p: seq<string>, a: string, b: string, s: string)
    requires Chain(p, a, b) && OneEdit(s, a)
    ensures Chain([s] + p, s, b)
  {
  }

  lemma Extended(p: seq<string>, a: string, b: string, c: char) returns (q: seq<string>)
    requires Chain(p, a, b)
    ensures Chain(q, a + [c], b + [c]) && |q| == |p|
  {
    q := seq(|p|, i requires 0 <= i < |p| => p[i] + [c]);
    forall i | 0 <= i < |q| - 1 ensures OneEdit(q[i], q[i + 1]) {
      AppendEdit(p[i], p[i + 1], c);
    }
  }

  // ---- the loop ----

  /** The two-row dynamic program computes the least number of single edits. */
  method EditDistanceOf(a: string, b: string) returns (d: nat)
    ensures d == Distance(a, b)
    ensures exists p :: Chain(p, a, b) && |p| == d + 1
    ensures forall p :: Chain(p, a, b) ==> d <= |p| - 1
  {
    ghost var shortest := ShortChain(a, b);
    forall p | Chain(p, a, b) ensures Distance(a, b) <= |p| - 1 { NoShorterChain(p, a, b); }
    if a == b {
      NoneToItself(a);
      return 0;
    }
    d := TwoRows(a, b);
  }

  /** The distance between the first `i` characters of `a` and the first `j` of `b`. */
  function Cell(a: string, b: string, i: nat, j: nat): nat
    requires i <= |a| && j <= |b|
  {
    Distance(a[..i], b[..j])
  }

  lemma CellStep(a: string, b: string, i: nat, j: nat)
    requires 1 <= i <= |a| && 1 <= j <= |b|
    ensures Cell(a, b, i, j) ==
            Min3(Cell(a, b, i, j - 1) + 1, Cell(a, b, i - 1, j) + 1,
                 Cell(a, b, i - 1, j - 1) + Differ(a[i - 1], b[j - 1]))
  {
    var x, y := a[..i], b[..j];
    assert Front(x) == a[..i - 1] && Front(y) == b[..j - 1] && Last(x) == a[i - 1] && Last(y) == b[j - 1];
  }

  lemma CellEdges(a: string, b: string)
    ensures (forall i :: 0 <= i <= |a| ==> Cell(a, b, i, 0) == i)
            && (forall j :: 0 <= j <= |b| ==> Cell(a, b, 0, j) == j)
    ensures Cell(a, b, |a|, |b|) == Distance(a, b)
  {
    assert a[..|a|] == a && b[..|b|] == b;
  }

  method TwoRows(a: string, b: string) returns (d: nat)
    ensures d == Distance(a, b)
  {
    CellEdges(a, b);
    hide Cell;
    var prev := new nat[|b| + 1](j => j);
    var cur := new nat[|b| + 1](_ => 0);
    for i := 1 to |a| + 1
      invariant prev.Length == cur.Length == |b| + 1 && prev != cur && fresh(prev) && fresh(cur)
      invariant forall j :: 0 <= j <= |b| ==> prev[j] == Cell(a, b, i - 1, j)
    {
      NextRow(a, b, i, prev, cur);
      prev, cur := cur, prev;
    }
    d := prev[|b|];
  }

  /** The row of the first `i` characters of `a`, from the row before. */
  method NextRow(a: string, b: string, i: nat, prev: array<nat>, cur: array<nat>)
    requires 1 <= i <= |a| && prev.Length == cur.Length == |b| + 1 && prev != cur
    requires forall j :: 0 <= j <= |b| ==> prev[j] == Cell(a, b, i - 1, j)
    modifies cur
    ensures forall j :: 0 <= j <= |b| ==> cur[j] == Cell(a, b, i, j)
  {
    CellEdges(a, b);
    hide Cell;
    cur[0] := i;
    for j := 1 to |b| + 1
      invariant forall k :: 0 <= k < j ==> cur[k] == Cell(a, b, i, k)
    {
      var cost := if a[i - 1] == b[j - 1] then 0 else 1;
      CellStep(a, b, i, j);
      cur[j] := Min3(cur[j - 1] + 1, prev[j] + 1, prev[j - 1] + cost);
    }
  }

  // ---- the nearest key ----

  /** `splitLast`. */
  function SplitLast(path: string): (r: (string, string))
    ensures if '.' in path then path == r.0 + "." + r.1 else r == ("", path)
    ensures '.' !in r.1
  {
    var i := LastIndex(path, ".");
    assert forall k :: 0 <= k < |path| && path[k] == '.' ==> OccursAt(path, ".", k);
    if i >= 0 then (path[..i], path[i + 1..]) else ("", path)
  }

  function Limit(leaf: string): nat { if |leaf| / 3 < 1 then 1 else |leaf| / 3 }

  const FAR: nat := 0x4000_0000

  /** A known key under the same parent, close enough to be suggested: one edit, or one for every three characters. */
  predicate Close(key: string, k: string) {
    && SplitLast(k).0 == SplitLast(key).0
    && var d := Distance(SplitLast(key).1, SplitLast(k).1);
       d < FAR && (d <= 1 || 3 * d <= |SplitLast(key).1|)
  }

  /** A closest key under the same parent, exactly when one is close enough. The known keys come in any order. */
  method Nearest(key: string, known: set<string>) returns (best: string)
    ensures (exists k :: k in known && Close(key, k)) ==>
              best in known && Close(key, best) &&
              forall k :: k in known && SplitLast(k).0 == SplitLast(key).0 ==>
                Distance(SplitLast(key).1, SplitLast(best).1) <= Distance(SplitLast(key).1, SplitLast(k).1)
    ensures !(exists k :: k in known && Close(key, k)) ==> best == ""
  {
    hide Distance, SplitLast;
    var (parent, leaf) := SplitLast(key);
    var bestDist: nat := FAR;
    best := "";
    var left := known;
    while left != {}
      invariant left <= known
      invariant bestDist <= FAR && (bestDist == FAR ==> best == "")
      invariant bestDist < FAR ==>
                  best in known && SplitLast(best).0 == parent && Distance(leaf, SplitLast(best).1) == bestDist
      invariant forall k :: k in known && k !in left && SplitLast(k).0 == parent ==>
                bestDist <= Distance(leaf, SplitLast(k).1)
      decreases left
    {
      var k :| k in left;
      left := left - {k};
      var (kp, kl) := SplitLast(k);
      if kp != parent { continue; }
      var d := EditDistanceOf(leaf, kl);
      if d < bestDist { best, bestDist := k, d; }
    }
    if bestDist > Limit(leaf) { return ""; }
  }
}
