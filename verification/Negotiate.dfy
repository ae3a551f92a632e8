/** Language negotiation: preferences in stable descending order of quality, matched by truncation. */
module Negotiate {
  import opened Text

  /** `quality` is a rational; `Numbers` reads it from text, if it can. */
  datatype Preference = Preference(tag: string, quality: real)

  type Numbers = string -> Option<real>

  // ---- reading the header ----

  /** The quality among the parameters of a preference: the first `q=` decides, and one that cannot be read counts
      as 1. */
  function QualityOf(params: seq<string>, numbers: Numbers): real {
    if params == [] then 1.0
    else
      var p := TrimSpace(params[0]);
      if "q=" <= ToLower(p) then
        var f := numbers(TrimSpace(p[2..]));
        if f.Some? then f.value else 1.0
      else QualityOf(params[1..], numbers)
  }

  /** One part of the header: no preference when it is empty or refused by a quality of zero or less. */
  function PartOf(part: string, numbers: Numbers): Option<Preference> {
    var text := TrimSpace(part);
    var i := IndexByte(text, ';');
    var tag := if i < 0 then text else TrimSpace(text[..i]);
    var q := if i < 0 then 1.0 else QualityOf(SplitByte(text[i + 1..], ';'), numbers);
    if tag == "" || q <= 0.0 then None else Some(Preference(tag, q))
  }

  function PartsOf(parts: seq<string>, numbers: Numbers): (ps: seq<Preference>)
    ensures forall p :: p in ps ==> p.tag != "" && p.quality > 0.0
  {
    if parts == [] then []
    else (match PartOf(parts[0], numbers) case None => [] case Some(p) => [p]) + PartsOf(parts[1..], numbers)
  }

  /** A parameter that gives the quality, whatever spaces stand around it. */
  predicate IsWeight(param: string) {
    var p := TrimSpace(param);
    |p| >= 2 && (p[0] == 'q' || p[0] == 'Q') && p[1] == '='
  }

  lemma WeightLower(p: string)
    ensures "q=" <= ToLower(p) <==> |p| >= 2 && (p[0] == 'q' || p[0] == 'Q') && p[1] == '='
  {
    var low := ToLower(p);
    if |p| >= 2 {
      assert low[0] == LowerByte(p[0]) && low[1] == LowerByte(p[1]);
      assert "q=" <= low <==> low[..2] == "q=";
      assert low[..2] == [low[0], low[1]];
    }
  }

  /** The first weight decides. */
  lemma {:induction false} FirstWeight(before: seq<string>, a: string, q: char, b: string, num: string, c: string,
                                       after: seq<string>, numbers: Numbers)
    requires forall i :: 0 <= i < |before| ==> !IsWeight(before[i])
    requires Blank(a) && Blank(b) && Blank(c) && (num == "" || Trimmed(num)) && (q == 'q' || q == 'Q')
    ensures QualityOf(before + [a + [q] + "=" + b + num + c] + after, numbers) ==
            if numbers(num).Some? then numbers(num).value else 1.0
    decreases |before|
  {
    var param := a + [q] + "=" + b + num + c;
    var all := before + [param] + after;
    if before == [] {
      WeightText(a, q, b, num, c);
      WeightLower(TrimSpace(param));
      assert all[0] == param;
      hide TrimSpace, ToLower;
    } else {
      WeightLower(TrimSpace(before[0]));
      assert all[0] == before[0] && all[1..] == before[1..] + [param] + after;
      FirstWeight(before[1..], a, q, b, num, c, after, numbers);
    }
  }

  lemma WeightText(a: string, q: char, b: string, num: string, c: string)
    requires Blank(a) && Blank(b) && Blank(c) && (num == "" || Trimmed(num)) && (q == 'q' || q == 'Q')
    ensures var p := TrimSpace(a + [q] + "=" + b + num + c);
            |p| >= 2 && p[0] == q && p[1] == '=' && TrimSpace(p[2..]) == num
  {
    var p := [q] + "=" + (if num == "" then "" else b + num);
    if num == "" {
      assert a + [q] + "=" + b + num + c == a + p + (b + c) && p == [q] + "=";
      TrimsBlanks(a, p, b + c);
      assert p[2..] == "" && TrimSpace("") == "";
    } else {
      assert a + [q] + "=" + b + num + c == a + p + c && p[|p| - 1] == num[|num| - 1];
      TrimsBlanks(a, p, c);
      TrimsBlanks(b, num, "");
      assert b + num + "" == b + num == p[2..];
    }
  }

  lemma {:induction false} NoWeight(params: seq<string>, numbers: Numbers)
    requires forall i :: 0 <= i < |params| ==> !IsWeight(params[i])
    ensures QualityOf(params, numbers) == 1.0
  {
    if params != [] {
      WeightLower(TrimSpace(params[0]));
      NoWeight(params[1..], numbers);
    }
  }

  lemma PartParams(tag: string, params: seq<string>, numbers: Numbers)
    requires ';' !in tag && Trimmed(tag) && params != [] && Trimmed(tag + ";" + JoinByte(params, ';'))
    requires forall i :: 0 <= i < |params| ==> ';' !in params[i]
    ensures PartOf(tag + ";" + JoinByte(params, ';'), numbers) ==
            var w := QualityOf(params, numbers); if w <= 0.0 then None else Some(Preference(tag, w))
  {
    var rest := JoinByte(params, ';');
    var part := tag + [';'] + rest;
    SplitJoined(params, ';');
    FirstOccurrence(tag, ';', rest);
    TrimsBlanks("", part, "");
    TrimsBlanks("", tag, "");
    assert "" + part + "" == part && "" + tag + "" == tag && part == tag + ";" + rest;
    hide QualityOf, TrimSpace, SplitByte, JoinByte, IndexByte;
  }

  /** `tag;..;q=num;..`: the first quality counts, in either case and with spaces around it; one that is no number
      counts as 1, and one of zero or less refuses the language. */
  lemma WeightRead(tag: string, before: seq<string>, a: string, q: char, b: string, num: string, c: string,
                   after: seq<string>, numbers: Numbers)
    requires ';' !in tag && Trimmed(tag) && ';' !in num && (num == "" || Trimmed(num)) && (q == 'q' || q == 'Q')
    requires Blank(a) && Blank(b) && Blank(c)
    requires forall i :: 0 <= i < |before| ==> !IsWeight(before[i]) && ';' !in before[i]
    requires forall i :: 0 <= i < |after| ==> ';' !in after[i]
    requires Trimmed(tag + ";" + JoinByte(before + [a + [q] + "=" + b + num + c] + after, ';'))
    ensures PartOf(tag + ";" + JoinByte(before + [a + [q] + "=" + b + num + c] + after, ';'), numbers) ==
            var w := if numbers(num).Some? then numbers(num).value else 1.0;
            if w <= 0.0 then None else Some(Preference(tag, w))
  {
    hide *;
    var all := before + [a + [q] + "=" + b + num + c] + after;
    NoSeparator(before, a, q, b, num, c, after);
    FirstWeight(before, a, q, b, num, c, after, numbers);
    PartParams(tag, all, numbers);
  }

  lemma NoSeparator(before: seq<string>, a: string, q: char, b: string, num: string, c: string, after: seq<string>)
    requires ';' !in num && (q == 'q' || q == 'Q') && Blank(a) && Blank(b) && Blank(c)
    requires forall i :: 0 <= i < |before| ==> ';' !in before[i]
    requires forall i :: 0 <= i < |after| ==> ';' !in after[i]
    ensures var all := before + [a + [q] + "=" + b + num + c] + after;
            forall i :: 0 <= i < |all| ==> ';' !in all[i]
  {
    assert ';' !in a && ';' !in b && ';' !in c;
    var param := a + [q] + "=" + b + num + c;
    assert ';' !in param;
    var all := before + [param] + after;
    forall i | 0 <= i < |all| ensures ';' !in all[i] {
      assert all[i] == if i < |before| then before[i] else if i == |before| then param else after[i - |before| - 1];
    }
  }

  /** Without a quality a language counts as 1. */
  lemma WeightMissing(tag: string, params: seq<string>, numbers: Numbers)
    requires ';' !in tag && Trimmed(tag)
    requires forall i :: 0 <= i < |params| ==> !IsWeight(params[i]) && ';' !in params[i]
    requires params != [] ==> Trimmed(tag + ";" + JoinByte(params, ';'))
    ensures PartOf(if params == [] then tag else tag + ";" + JoinByte(params, ';'), numbers) ==
            Some(Preference(tag, 1.0))
  {
    hide QualityOf, IsWeight, JoinByte;
    if params == [] {
      NoByte(tag, ';');
      TrimsBlanks("", tag, "");
      assert "" + tag + "" == tag;
    } else {
      NoWeight(params, numbers);
      PartParams(tag, params, numbers);
    }
  }

  // ---- stable sorting ----

  predicate Descending(ps: seq<Preference>) {
    forall i, j :: 0 <= i < j < |ps| ==> ps[i].quality >= ps[j].quality
  }

  /** The preferences of one quality, in their order. */
  function OfQuality(ps: seq<Preference>, q: real): (r: seq<Preference>)
    ensures forall p :: p in r <==> p in ps && p.quality == q
  {
    if ps == [] then [] else (if ps[0].quality == q then [ps[0]] else []) + OfQuality(ps[1..], q)
  }

  /** A stable rearrangement: equal qualities keep their order, and nothing is lost. */
  ghost predicate StablySorted(ps: seq<Preference>, sorted: seq<Preference>) {
    Descending(sorted) && forall q :: OfQuality(sorted, q) == OfQuality(ps, q)
  }

  lemma {:induction false} OfQualityAppend(a: seq<Preference>, b: seq<Preference>, q: real)
    ensures OfQuality(a + b, q) == OfQuality(a, q) + OfQuality(b, q)
  {
    if a == [] {
      assert a + b == b;
    } else {
      assert (a + b)[1..] == a[1..] + b;
      OfQualityAppend(a[1..], b, q);
    }
  }

  lemma TailOfQuality(s: seq<Preference>, q: real)
    requires s != []
    ensures OfQuality(s, q) == (if s[0].quality == q then [s[0]] else []) + OfQuality(s[1..], q)
    ensures OfQuality(s[1..], q) == OfQuality(s, q)[if s[0].quality == q then 1 else 0..]
  {
  }

  lemma NoneOfQuality(s: seq<Preference>, q: real)
    requires forall p :: p in s ==> p.quality != q
    ensures OfQuality(s, q) == []
  {
  }

  /** There is only one stable descending arrangement. */
  lemma {:induction false} OneStableOrder(ps: seq<Preference>, s: seq<Preference>, t: seq<Preference>)
    requires StablySorted(ps, s) && StablySorted(ps, t)
    ensures s == t
    decreases |s|
  {
    if s == [] {
      if t != [] { SameHead(ps, t, s); }
    } else {
      SameHead(ps, s, t);
      SameTails(ps, s, t);
      hide OfQuality, StablySorted;
      OneStableOrder(s[1..], s[1..], t[1..]);
      assert s == [s[0]] + s[1..] && t == [t[0]] + t[1..];
    }
  }

  lemma SameTails(ps: seq<Preference>, s: seq<Preference>, t: seq<Preference>)
    requires StablySorted(ps, s) && StablySorted(ps, t) && s != [] && t != [] && s[0] == t[0]
    ensures StablySorted(s[1..], s[1..]) && StablySorted(s[1..], t[1..])
  {
    forall q ensures OfQuality(s[1..], q) == OfQuality(t[1..], q) {
      assert OfQuality(s, q) == OfQuality(ps, q) == OfQuality(t, q);
      TailOfQuality(s, q);
      TailOfQuality(t, q);
    }
    hide OfQuality;
  }

  lemma SameHead(ps: seq<Preference>, s: seq<Preference>, t: seq<Preference>)
    requires StablySorted(ps, s) && StablySorted(ps, t) && s != []
    ensures t != [] && s[0] == t[0]
  {
    var q := s[0].quality;
    assert s[0] in OfQuality(s, q);
    assert OfQuality(s, q) == OfQuality(ps, q) == OfQuality(t, q);
    assert s[0] in t;
    var r := t[0].quality;
    assert t[0] in OfQuality(t, r);
    assert OfQuality(s, r) == OfQuality(ps, r) == OfQuality(t, r);
    assert t[0] in s;
    var i :| 0 <= i < |s| && s[i] == t[0];
    var j :| 0 <= j < |t| && t[j] == s[0];
    assert q >= r && r >= q;
    assert OfQuality(s, q)[0] == s[0] && OfQuality(t, q)[0] == t[0];
  }

  /** Each preference is moved in front of those of strictly lower quality. */
  method SortStable(ps: seq<Preference>) returns (sorted: seq<Preference>)
    ensures StablySorted(ps, sorted)
  {
    sorted := [];
    assert ps[..0] == [];
    for i := 0 to |ps|
      invariant StablySorted(ps[..i], sorted)
    {
      var k := |sorted|;
      while k > 0 && sorted[k - 1].quality < ps[i].quality
        invariant 0 <= k <= |sorted| && forall j :: k <= j < |sorted| ==> sorted[j].quality < ps[i].quality
      {
        k := k - 1;
      }
      Inserted(ps[..i], sorted, ps[i], k);
      sorted := sorted[..k] + [ps[i]] + sorted[k..];
      assert ps[..i + 1] == ps[..i] + [ps[i]];
    }
    assert ps[..|ps|] == ps;
  }

  lemma Inserted(ps: seq<Preference>, sorted: seq<Preference>, p: Preference, k: nat)
    requires StablySorted(ps, sorted) && k <= |sorted|
    requires forall j :: k <= j < |sorted| ==> sorted[j].quality < p.quality
    requires k > 0 ==> sorted[k - 1].quality >= p.quality
    ensures StablySorted(ps + [p], sorted[..k] + [p] + sorted[k..])
  {
    var front, back := sorted[..k], sorted[k..];
    assert sorted == front + back;
    forall q ensures OfQuality(front + [p] + back, q) == OfQuality(ps + [p], q) {
      assert OfQuality(sorted, q) == OfQuality(ps, q);
      InsertedOfQuality(ps, front, back, p, q);
    }
    hide OfQuality;
    InsertedDescending(sorted, p, k);
  }

  lemma InsertedDescending(sorted: seq<Preference>, p: Preference, k: nat)
    requires Descending(sorted) && k <= |sorted|
    requires forall j :: k <= j < |sorted| ==> sorted[j].quality < p.quality
    requires k > 0 ==> sorted[k - 1].quality >= p.quality
    ensures Descending(sorted[..k] + [p] + sorted[k..])
  {
    var r := sorted[..k] + [p] + sorted[k..];
    assert forall i :: 0 <= i < |r| ==> r[i] == if i < k then sorted[i] else if i == k then p else sorted[i - 1];
    assert forall i :: 0 <= i < k ==> sorted[i].quality >= sorted[k - 1].quality;
  }

  lemma SwapWithNothing(a: seq<Preference>, b: seq<Preference>, c: seq<Preference>)
    requires b == [] || c == []
    ensures a + b + c == a + c + b
  {
  }

  lemma InsertedOfQuality(ps: seq<Preference>, front: seq<Preference>, back: seq<Preference>, p: Preference, q: real)
    requires OfQuality(front + back, q) == OfQuality(ps, q) && forall x :: x in back ==> x.quality < p.quality
    ensures OfQuality(front + [p] + back, q) == OfQuality(ps + [p], q)
  {
    OfQualityAppend(ps, [p], q);
    OfQualityAppend(front, back, q);
    OfQualityAppend(front + [p], back, q);
    OfQualityAppend(front, [p], q);
    if q == p.quality { NoneOfQuality(back, q); } else { NoneOfQuality([p], q); }
    var a, b, c := OfQuality(front, q), OfQuality([p], q), OfQuality(back, q);
    hide OfQuality;
    SwapWithNothing(a, b, c);
  }

  lemma PartsStep(parts: seq<string>, i: nat, numbers: Numbers)
    requires i < |parts|
    ensures var p := PartOf(parts[i], numbers);
            PartsOf(parts[i..], numbers) == (if p.Some? then [p.value] else []) + PartsOf(parts[i + 1..], numbers)
  {
    hide PartOf;
    assert parts[i..][1..] == parts[i + 1..];
  }

  lemma PartsEnd(parts: seq<string>, numbers: Numbers)
    ensures PartsOf(parts[|parts|..], numbers) == []
  {
  }

  lemma SortedMembers(ps: seq<Preference>, sorted: seq<Preference>)
    requires StablySorted(ps, sorted)
    ensures forall p :: p in sorted ==> p in ps
  {
    forall p | p in sorted ensures p in ps {
      assert p in OfQuality(sorted, p.quality);
      assert OfQuality(sorted, p.quality) == OfQuality(ps, p.quality);
    }
  }

  /** The preferences of a header, in stable descending order of quality, refused ones left out. */
  method Parse(header: string, numbers: Numbers) returns (prefs: seq<Preference>)
    ensures Preferences(header, numbers, prefs)
    ensures forall p :: p in prefs ==> p.tag != "" && p.quality > 0.0
  {
    if header == "" {
      NothingToSort();
      return [];
    }
    prefs := ParseParts(header, numbers);
  }

  /** The accepted parts of the header in stable descending order. */
  ghost predicate Preferences(header: string, numbers: Numbers, prefs: seq<Preference>) {
    StablySorted(if header == "" then [] else PartsOf(SplitByte(header, ','), numbers), prefs)
  }

  lemma NothingToSort()
    ensures StablySorted([], [])
  {
  }

  method ParseParts(header: string, numbers: Numbers) returns (prefs: seq<Preference>)
    requires header != ""
    ensures StablySorted(PartsOf(SplitByte(header, ','), numbers), prefs)
    ensures forall p :: p in prefs ==> p.tag != "" && p.quality > 0.0
  {
    hide OfQuality, PartOf, PartsOf, SplitByte, StablySorted;
    var parts := SplitByte(header, ',');
    var out := [];
    assert parts[0..] == parts;
    for i := 0 to |parts|
      invariant out + PartsOf(parts[i..], numbers) == PartsOf(parts, numbers)
    {
      PartsStep(parts, i, numbers);
      var p := PartOf(parts[i], numbers);
      if p.Some? { out := out + [p.value]; }
    }
    PartsEnd(parts, numbers);
    assert out == PartsOf(parts, numbers);
    prefs := SortStable(out);
    SortedMembers(out, prefs);
  }

  // ---- matching ----

  function Hyphens(s: string): (r: string)
    ensures |r| == |s|
  {
    seq(|s|, i requires 0 <= i < |s| => if s[i] == '_' then '-' else s[i])
  }

  /** `normalize`: `zh_CN` and `zh-cn` are one language. */
  function Normalize(s: string): string { Hyphens(ToLower(TrimSpace(s))) }

  /** The same letter in either case, or a hyphen or underscore in both places. */
  predicate SameLetter(a: char, b: char) {
    a == b || (a in "-_" && b in "-_")
    || ('a' <= a <= 'z' && a as int == b as int + 32) || ('a' <= b <= 'z' && b as int == a as int + 32)
  }

  /** Which spellings of a language are one. */
  lemma SameLanguage(a: string, b: string)
    requires Trimmed(a) && Trimmed(b)
    ensures Normalize(a) == Normalize(b) <==> |a| == |b| && forall i :: 0 <= i < |a| ==> SameLetter(a[i], b[i])
  {
    hide *;
    NormalLetters(a);
    NormalLetters(b);
    if |a| == |b| {
      forall i | 0 <= i < |a| ensures Normalize(a)[i] == Normalize(b)[i] <==> SameLetter(a[i], b[i]) {
        LetterFolds(a[i], b[i]);
      }
    }
  }

  function FoldLetter(c: char): char { if LowerByte(c) == '_' then '-' else LowerByte(c) }

  lemma NormalLetters(a: string)
    requires Trimmed(a)
    ensures var n := Normalize(a); |n| == |a| && forall i :: 0 <= i < |a| ==> n[i] == FoldLetter(a[i])
  {
    TrimsBlanks("", a, "");
    assert "" + a + "" == a;
    hide TrimSpace, LowerByte;
  }

  lemma LetterFolds(a: char, b: char)
    ensures FoldLetter(a) == FoldLetter(b) <==> SameLetter(a, b)
  {
  }

  predicate Exact(norm: seq<string>, tag: string, i: nat) { i < |norm| && norm[i] == tag }

  predicate Extends(norm: seq<string>, tag: string, i: nat) { i < |norm| && tag + "-" <= norm[i] }

  /** The first supported language equal to the tag, else the first that extends it at a subtag boundary. */
  ghost predicate Picked(norm: seq<string>, tag: string, r: Option<nat>) {
    match r
    case Some(i) =>
      || (Exact(norm, tag, i) && forall j: nat :: j < i ==> !Exact(norm, tag, j))
      || ((forall j: nat :: !Exact(norm, tag, j)) && Extends(norm, tag, i)
          && forall j: nat :: j < i ==> !Extends(norm, tag, j))
    case None => forall j: nat :: !Exact(norm, tag, j) && !Extends(norm, tag, j)
  }

  /** `tag[..k]` is the tag itself or the tag cut at a hyphen. */
  predicate Cut(tag: string, k: nat) { 0 < k <= |tag| && (k == |tag| || tag[k] == '-') }

  /** The longest cut of the tag that matches anything decides. */
  ghost predicate Best(norm: seq<string>, tag: string, r: Option<nat>) {
    match r
    case Some(_) =>
      exists k: nat ::
        Cut(tag, k) && Picked(norm, tag[..k], r) &&
        forall j: nat :: k < j && Cut(tag, j) ==> Picked(norm, tag[..j], None)
    case None => forall j: nat :: Cut(tag, j) ==> Picked(norm, tag[..j], None)
  }

  /** What one preference gives. */
  ghost predicate Gives(norm: seq<string>, pref: Preference, r: Option<nat>) {
    if Normalize(pref.tag) == "*" then r == Some(0) else Best(norm, Normalize(pref.tag), r)
  }

  /** The earliest preference that matches at all decides. */
  ghost predicate Chosen(norm: seq<string>, prefs: seq<Preference>, r: Option<nat>) {
    match r
    case Some(_) =>
      exists k :: 0 <= k < |prefs| && Gives(norm, prefs[k], r) && forall j :: 0 <= j < k ==> Gives(norm, prefs[j], None)
    case None => forall j :: 0 <= j < |prefs| ==> Gives(norm, prefs[j], None)
  }

  method Level(norm: seq<string>, tag: string) returns (r: Option<nat>)
    ensures Picked(norm, tag, r) && (r.Some? ==> r.value < |norm|)
  {
    for i := 0 to |norm|
      invariant forall j: nat :: j < i ==> !Exact(norm, tag, j)
    {
      if norm[i] == tag { return Some(i); }
    }
    for i := 0 to |norm|
      invariant forall j: nat :: j < i ==> !Extends(norm, tag, j)
    {
      if tag + "-" <= norm[i] { return Some(i); }
    }
    return None;
  }

  function LastHyphen(tag: string): (r: int)
    ensures r == -1 || (0 <= r < |tag| && tag[r] == '-')
    ensures forall j :: r < j < |tag| ==> tag[j] != '-'
  {
    if tag == "" then -1 else if tag[|tag| - 1] == '-' then |tag| - 1 else LastHyphen(tag[..|tag| - 1])
  }

  method Truncate(norm: seq<string>, whole: string) returns (r: Option<nat>)
    ensures Best(norm, whole, r) && (r.Some? ==> r.value < |norm|)
  {
    hide Picked;
    var tag := whole;
    while tag != ""
      invariant |tag| <= |whole| && tag == whole[..|tag|] && (tag == "" || Cut(whole, |tag|))
      invariant forall j: nat :: |tag| < j && Cut(whole, j) ==> Picked(norm, whole[..j], None)
      decreases |tag|
    {
      r := Level(norm, tag);
      if r.Some? { return; }
      var i := LastHyphen(tag);
      assert forall j: nat :: i < j < |tag| ==> whole[j] == tag[j];
      if i < 0 { break; }
      tag := tag[..i];
    }
    return None;
  }

  /** The supported language chosen by the earliest preference that matches, at its longest matching cut, an exact match
      before an extension; empty when no preference matches. */
  method Negotiated(header: string, supported: seq<string>, numbers: Numbers) returns (language: string)
    ensures supported == [] ==> language == ""
    ensures supported != [] ==>
              exists prefs, choice ::
                Preferences(header, numbers, prefs) && Chosen(AllNormalized(supported), prefs, choice) &&
                                      language == Language(supported, choice)
  {
    hide Normalize, Best, Preferences;
    if |supported| == 0 { return ""; }
    var norm := AllNormalized(supported);
    var prefs := Parse(header, numbers);
    for k := 0 to |prefs|
      invariant forall j :: 0 <= j < k ==> Gives(norm, prefs[j], None)
    {
      var tag := Normalize(prefs[k].tag);
      if tag == "*" {
        assert Gives(norm, prefs[k], Some(0)) && Chosen(norm, prefs, Some(0))
               && Language(supported, Some(0)) == supported[0];
        return supported[0];
      }
      var r := Truncate(norm, tag);
      if r.Some? {
        assert Gives(norm, prefs[k], r) && Chosen(norm, prefs, r) && Language(supported, r) == supported[r.value];
        return supported[r.value];
      }
    }
    assert Chosen(norm, prefs, None) && Language(supported, None) == "";
    return "";
  }

  function AllNormalized(supported: seq<string>): (norm: seq<string>)
    ensures |norm| == |supported| && forall i :: 0 <= i < |supported| ==> norm[i] == Normalize(supported[i])
  {
    seq(|supported|, i requires 0 <= i < |supported| => Normalize(supported[i]))
  }

  /** The caller's own spelling of the chosen language. */
  function Language(supported: seq<string>, choice: Option<nat>): string {
    if choice.Some? && choice.value < |supported| then supported[choice.value] else ""
  }

  // ---- one choice ----

  lemma PickedOnce(norm: seq<string>, tag: string, a: Option<nat>, b: Option<nat>)
    requires Picked(norm, tag, a) && Picked(norm, tag, b)
    ensures a == b
  {
    if a.Some? && b.Some? {
      assert a.value < b.value || b.value < a.value || a == b;
    }
  }

  lemma BestOnce(norm: seq<string>, tag: string, a: Option<nat>, b: Option<nat>)
    requires Best(norm, tag, a) && Best(norm, tag, b)
    ensures a == b
  {
    hide Picked;
    forall k: nat, x, y | k <= |tag| && Picked(norm, tag[..k], x) && Picked(norm, tag[..k], y) ensures x == y {
      PickedOnce(norm, tag[..k], x, y);
    }
  }

  /** The description fixes the choice: there is one answer for given preferences. */
  lemma ChosenOnce(norm: seq<string>, prefs: seq<Preference>, a: Option<nat>, b: Option<nat>)
    requires Chosen(norm, prefs, a) && Chosen(norm, prefs, b)
    ensures a == b
  {
    hide Best;
    forall k, x, y | 0 <= k < |prefs| && Gives(norm, prefs[k], x) && Gives(norm, prefs[k], y) ensures x == y {
      if Normalize(prefs[k].tag) != "*" { BestOnce(norm, Normalize(prefs[k].tag), x, y); }
    }
  }
}
