/** Byte-string helpers with the contracts of Go's `strings` functions. A `char` stands for one byte. */
module Text {

  datatype Option<+T> = None | Some(value: T)

  lemma Joined<T>(a: seq<T>, b: seq<T>, c: seq<T>)
    ensures (a + b) + c == a + (b + c)
  {
  }

  /** `t` occurs in `s` at position `k`. */
  predicate OccursAt(s: string, t: string, k: int) {
    0 <= k && k + |t| <= |s| && s[k..k + |t|] == t
  }

  /** Position of the first occurrence of `t` in `s` at or after `i`, or -1. */
  function IndexFrom(s: string, t: string, i: nat): (r: int)
    requires i <= |s|
    ensures r == -1 || (i <= r && OccursAt(s, t, r))
    ensures forall k :: i <= k && (r == -1 || k < r) ==> !OccursAt(s, t, k)
    decreases |s| - i
  {
    if i + |t| > |s| then -1 else if OccursAt(s, t, i) then i else IndexFrom(s, t, i + 1)
  }

  function Index(s: string, t: string): (r: int)
    ensures r == -1 || OccursAt(s, t, r)
    ensures forall k :: 0 <= k && (r == -1 || k < r) ==> !OccursAt(s, t, k)
  {
    IndexFrom(s, t, 0)
  }

  /** Position of the last occurrence of `t` in `s` at or before `i`, or -1. */
  function LastIndexFrom(s: string, t: string, i: int): (r: int)
    requires -1 <= i
    ensures r == -1 || (r <= i && OccursAt(s, t, r))
    ensures forall k :: (if r == -1 then 0 else r + 1) <= k <= i ==> !OccursAt(s, t, k)
    decreases i + 1
  {
    if i == -1 then -1 else if OccursAt(s, t, i) then i else LastIndexFrom(s, t, i - 1)
  }

  function LastIndex(s: string, t: string): (r: int)
    ensures r == -1 || OccursAt(s, t, r)
    ensures forall k :: (if r == -1 then 0 else r + 1) <= k ==> !OccursAt(s, t, k)
  {
    LastIndexFrom(s, t, |s|)
  }

  function IndexByteFrom(s: string, c: char, i: nat): (r: int)
    requires i <= |s|
    ensures r == -1 || (i <= r < |s| && s[r] == c)
    ensures forall k :: i <= k < (if r == -1 then |s| else r) ==> s[k] != c
    decreases |s| - i
  {
    if i == |s| then -1 else if s[i] == c then i else IndexByteFrom(s, c, i + 1)
  }

  function IndexByte(s: string, c: char): (r: int)
    ensures r == -1 || (0 <= r < |s| && s[r] == c)
    ensures r == -1 <==> c !in s
    ensures r >= 0 ==> c !in s[..r]
  {
    IndexByteFrom(s, c, 0)
  }

  predicate ContainsAny(s: string, chars: string) {
    exists i :: 0 <= i < |s| && s[i] in chars
  }

  predicate HasSuffix(s: string, t: string) {
    |t| <= |s| && s[|s| - |t|..] == t
  }

  /** Splits `s` at every occurrence of `sep`. */
  function SplitByte(s: string, sep: char): (parts: seq<string>)
    ensures parts != []
    ensures forall p :: p in parts ==> sep !in p
    decreases |s|
  {
    var i := IndexByte(s, sep);
    if i < 0 then [s] else [s[..i]] + SplitByte(s[i + 1..], sep)
  }

  /** `strings.Join(parts, sep)`. */
  function JoinByte(parts: seq<string>, sep: char): string {
    if parts == [] then "" else if |parts| == 1 then parts[0] else parts[0] + [sep] + JoinByte(parts[1..], sep)
  }

  lemma FirstOccurrence(a: string, c: char, b: string)
    requires c !in a
    ensures var s := a + [c] + b; IndexByte(s, c) == |a| && s[..|a|] == a && s[|a| + 1..] == b
  {
    var s := a + [c] + b;
    assert s[|a|] == c;
    assert forall k :: 0 <= k < |a| ==> s[k] == a[k];
    assert forall k :: |a| < k <= |s| ==> s[..k][|a|] == c;
  }

  lemma NoByte(s: string, c: char)
    requires c !in s
    ensures IndexByte(s, c) == -1
  {
  }

  /** Splitting undoes joining. */
  lemma {:induction false} SplitJoined(parts: seq<string>, sep: char)
    requires parts != [] && forall i :: 0 <= i < |parts| ==> sep !in parts[i]
    ensures SplitByte(JoinByte(parts, sep), sep) == parts
    decreases |parts|
  {
    if |parts| == 1 {
      NoByte(parts[0], sep);
    } else {
      SplitJoined(parts[1..], sep);
      FirstOccurrence(parts[0], sep, JoinByte(parts[1..], sep));
    }
  }

  function UpperByte(c: char): char {
    if 'a' <= c <= 'z' then c - 'a' + 'A' else c
  }

  /** `strings.ToUpper` on ASCII text. */
  function ToUpper(s: string): (r: string)
    ensures |r| == |s| && forall i :: 0 <= i < |s| ==> r[i] == UpperByte(s[i])
  {
    seq(|s|, i requires 0 <= i < |s| => UpperByte(s[i]))
  }

  function LowerByte(c: char): char {
    if 'A' <= c <= 'Z' then c - 'A' + 'a' else c
  }

  /** `strings.ToLower` on ASCII text. */
  function ToLower(s: string): (r: string)
    ensures |r| == |s| && forall i :: 0 <= i < |s| ==> r[i] == LowerByte(s[i])
  {
    seq(|s|, i requires 0 <= i < |s| => LowerByte(s[i]))
  }

  predicate IsDigit(c: char) { '0' <= c <= '9' }

  predicate IsAlpha(c: char) { 'a' <= c <= 'z' || 'A' <= c <= 'Z' }

  predicate IsAlnum(c: char) { IsDigit(c) || IsAlpha(c) }

  predicate IsSpace(c: char) { c == ' ' || c == '\t' || c == '\n' || c == '\r' || c == 11 as char || c == 12 as char }

  function TrimLeft(s: string): string { if s != [] && IsSpace(s[0]) then TrimLeft(s[1..]) else s }

  function TrimRight(s: string): string { if s != [] && IsSpace(s[|s| - 1]) then TrimRight(s[..|s| - 1]) else s }

  /** `strings.TrimSpace` on ASCII text. */
  function TrimSpace(s: string): string { TrimRight(TrimLeft(s)) }

  predicate Blank(s: string) { forall i :: 0 <= i < |s| ==> IsSpace(s[i]) }

  /** Neither end is a space. */
  predicate Trimmed(s: string) { s != "" && !IsSpace(s[0]) && !IsSpace(s[|s| - 1]) }

  lemma {:induction false} LeftTrimmed(a: string, s: string)
    requires Blank(a) && (s == "" || !IsSpace(s[0]))
    ensures TrimLeft(a + s) == s
  {
    if a == "" {
      assert a + s == s;
    } else {
      assert (a + s)[1..] == a[1..] + s;
      LeftTrimmed(a[1..], s);
    }
  }

  lemma {:induction false} RightTrimmed(s: string, b: string)
    requires Blank(b) && (s == "" || !IsSpace(s[|s| - 1]))
    ensures TrimRight(s + b) == s
    decreases |b|
  {
    if b == "" {
      assert s + b == s;
    } else {
      assert (s + b)[..|s + b| - 1] == s + b[..|b| - 1];
      RightTrimmed(s, b[..|b| - 1]);
    }
  }

  /** Trimming takes away the spaces around a text, and all of a blank one. */
  lemma TrimsBlanks(a: string, s: string, b: string)
    requires Blank(a) && Blank(b) && Trimmed(s)
    ensures TrimSpace(a + s + b) == s && TrimSpace(a) == ""
  {
    LeftTrimmed(a, s + b);
    Joined(a, s, b);
    RightTrimmed(s, b);
    LeftTrimmed(a, "");
    assert a + "" == a;
  }
}
