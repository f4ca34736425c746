/** Parsing and printing of CVSS 3.x vector strings in the calculator. */
module CvssVector {
  import opened Wrappers
  import opened Text
  import C = Cvss31

  // ----- metrics --------------------------------------------------------------------------

  const METRICS: seq<string> := ["AV", "AC", "PR", "UI", "S", "C", "I", "A"]

  type Values = map<string, string>

  function AllowedValues(metric: string): set<string> {
    match metric
    case "AV" => {"N", "A", "L", "P"}
    case "AC" => {"L", "H"}
    case "PR" => {"N", "L", "H"}
    case "UI" => {"N", "R"}
    case "S" => {"U", "C"}
    case _ => {"N", "L", "H"}
  }

  predicate HasAll(m: Values) {
    forall j :: 0 <= j < |METRICS| ==> METRICS[j] in m
  }

  /** Every base metric is present with a value of its own. */
  predicate Complete(m: Values) {
    forall j :: 0 <= j < |METRICS| ==> METRICS[j] in m && m[METRICS[j]] in AllowedValues(METRICS[j])
  }

  /** The eight base metrics alone. */
  function Base(m: Values): Values {
    map k | k in m && k in METRICS :: m[k]
  }

  // ----- parsing and building ----------------------------------------------------------------

  predicate Slash(c: char) { c == '/' }
  predicate Colon(c: char) { c == ':' }

  function NonEmpty(parts: seq<string>): seq<string> {
    if parts == [] then [] else (if parts[0] == "" then [] else [parts[0]]) + NonEmpty(parts[1..])
  }

  /** The object the loop fills from "key:value" segments; None for a segment that is not. */
  function Fill(segments: seq<string>): Option<Values> {
    if segments == [] then Some(map[]) else
      var front := Fill(segments[..|segments| - 1]);
      var kv := Split(segments[|segments| - 1], Colon);
      if front.None? || |kv| != 2 then None else Some(front.value[kv[0] := kv[1]])
  }

  predicate VectorPrefix(s: string) { s == "CVSS:3.0" || s == "CVSS:3.1" }

  function ParseParts(parts: seq<string>): Option<Values> {
    if parts == [] || !VectorPrefix(parts[0]) then None else
      var m := Fill(parts[1..]);
      if m.None? || !HasAll(m.value) then None else m
  }

  /** The non-empty segments of a trimmed string. */
  function Parts(s: string): seq<string> { NonEmpty(Split(Strip(s, JsSpace), Slash)) }

  function Parse(s: string): Option<Values> {
    if s == "" then None else ParseParts(Parts(s))
  }

  function Segments(m: Values): seq<string>
    requires HasAll(m)
  {
    seq(|METRICS|, j requires 0 <= j < |METRICS| => METRICS[j] + ":" + m[METRICS[j]])
  }

  function Build(m: Values): string
    requires HasAll(m)
  {
    Join(["CVSS:3.1"] + Segments(m), '/')
  }

  // ----- the loops of the calculator ------------------------------------------------------------

  method ParseVector(s: string) returns (r: Option<Values>)
    ensures r == Parse(s)
  {
    if s == "" {
      return None;
    }
    var parts := Parts(s);
    if parts == [] || !VectorPrefix(parts[0]) {
      return None;
    }
    var segments, m: Values := parts[1..], map[];
    for i := 0 to |segments|
      invariant Fill(segments[..i]) == Some(m)
    {
      var kv := Split(segments[i], Colon);
      assert segments[..i + 1][..i] == segments[..i];
      if |kv| != 2 {
        FillNone(segments, i + 1);
        return None;
      }
      m := m[kv[0] := kv[1]];
    }
    assert segments[..|segments|] == segments;
    for j := 0 to |METRICS|
      invariant forall i :: 0 <= i < j ==> METRICS[i] in m
    {
      if METRICS[j] !in m {
        return None;
      }
    }
    r := Some(m);
  }

  lemma {:induction false} FillNone(segments: seq<string>, n: nat)
    requires n <= |segments| && Fill(segments[..n]) == None
    ensures Fill(segments) == None
    decreases |segments|
  {
    if n == |segments| {
      assert segments[..n] == segments;
    } else {
      assert segments[..|segments| - 1][..n] == segments[..n];
      FillNone(segments[..|segments| - 1], n);
    }
  }

  method IsComplete(m: Values) returns (r: bool)
    ensures r == Complete(m)
  {
    for i := 0 to |METRICS|
      invariant forall j :: 0 <= j < i ==> METRICS[j] in m && m[METRICS[j]] in AllowedValues(METRICS[j])
    {
      var key := METRICS[i];
      if key !in m || m[key] == "" {
        assert "" !in AllowedValues(METRICS[i]);
        return false;
      }
      if m[key] !in AllowedValues(key) {
        return false;
      }
    }
    r := true;
  }

  // ----- last value wins --------------------------------------------------------------------------

  /** The value of the last segment with this key. */
  function Last(segments: seq<string>, key: string): Option<string> {
    if segments == [] then None else
      var kv := Split(segments[|segments| - 1], Colon);
      if |kv| == 2 && kv[0] == key then Some(kv[1]) else Last(segments[..|segments| - 1], key)
  }

  predicate WellFormed(segments: seq<string>) {
    forall i :: 0 <= i < |segments| ==> |Split(segments[i], Colon)| == 2
  }

  /** The parsed object maps every key to its last value, and exists exactly when every
      segment has one colon. */
  lemma {:induction false} FillIsLast(segments: seq<string>)
    ensures Fill(segments).Some? <==> WellFormed(segments)
    ensures Fill(segments).Some? ==> var m := Fill(segments).value;
      forall k :: (k in m <==> Last(segments, k).Some?) && (k in m ==> Last(segments, k) == Some(m[k]))
  {
    if segments != [] {
      var n := |segments| - 1;
      FillIsLast(segments[..n]);
      assert WellFormed(segments) <==> WellFormed(segments[..n]) && |Split(segments[n], Colon)| == 2 by {
        assert segments == segments[..n] + [segments[n]];
      }
    }
  }

  /** Two lists of segments with the same last values give the same object. */
  lemma SameLast(a: seq<string>, b: seq<string>)
    requires WellFormed(a) && WellFormed(b) && forall k :: Last(a, k) == Last(b, k)
    ensures Fill(a) == Fill(b)
  {
    FillIsLast(a);
    FillIsLast(b);
    var (m, n) := (Fill(a).value, Fill(b).value);
    forall k ensures (k in m <==> k in n) && (k in m ==> m[k] == n[k]) {
      assert Last(a, k) == Last(b, k);
    }
    assert m == n;
  }

  function Key(segment: string): string { Split(segment, Colon)[0] }

  ghost predicate DistinctKeys(segments: seq<string>) {
    forall i, j :: 0 <= i < j < |segments| ==> Key(segments[i]) != Key(segments[j])
  }

  lemma {:induction false} LastOfDistinct(segments: seq<string>, i: nat)
    requires WellFormed(segments) && DistinctKeys(segments) && i < |segments|
    ensures Last(segments, Key(segments[i])) == Some(Split(segments[i], Colon)[1])
  {
    var n := |segments| - 1;
    if i < n {
      var front := segments[..n];
      assert forall j :: 0 <= j < n ==> front[j] == segments[j];
      LastOfDistinct(front, i);
    }
  }

  lemma {:induction false} LastIsSome(segments: seq<string>, key: string) returns (i: nat)
    requires WellFormed(segments) && Last(segments, key).Some?
    ensures i < |segments| && Key(segments[i]) == key
  {
    var n := |segments| - 1;
    if Key(segments[n]) == key {
      i := n;
    } else {
      assert forall j :: 0 <= j < n ==> segments[..n][j] == segments[j];
      i := LastIsSome(segments[..n], key);
    }
  }

  lemma {:induction false} LastAgrees(a: seq<string>, b: seq<string>, key: string)
    requires WellFormed(a) && WellFormed(b) && DistinctKeys(a) && DistinctKeys(b)
    requires forall x :: x in a <==> x in b
    ensures Last(a, key) == Last(b, key)
  {
    if Last(a, key).Some? {
      var i := LastIsSome(a, key);
      assert a[i] in b;
      var j :| 0 <= j < |b| && b[j] == a[i];
      LastOfDistinct(a, i);
      LastOfDistinct(b, j);
    } else if Last(b, key).Some? {
      var j := LastIsSome(b, key);
      assert b[j] in a;
      var i :| 0 <= i < |a| && a[i] == b[j];
      LastOfDistinct(a, i);
    }
  }

  lemma {:induction false} FillFails(segments: seq<string>)
    requires !WellFormed(segments)
    ensures Fill(segments) == None
  {
    FillIsLast(segments);
  }

  lemma SameMembersFill(a: seq<string>, b: seq<string>)
    requires DistinctKeys(a) && DistinctKeys(b) && forall x :: x in a <==> x in b
    ensures Fill(a) == Fill(b)
  {
    if WellFormed(a) && WellFormed(b) {
      forall k ensures Last(a, k) == Last(b, k) { LastAgrees(a, b, k); }
      SameLast(a, b);
    } else {
      assert !WellFormed(a) && !WellFormed(b) by {
        assert forall i :: 0 <= i < |a| ==> a[i] in b;
        assert forall i :: 0 <= i < |b| ==> b[i] in a;
      }
      FillFails(a);
      FillFails(b);
    }
  }

  lemma NoParts()
    ensures Parts("") == []
  {
    assert Strip("", JsSpace) == "" && Split("", Slash) == [""];
    assert [""][1..] == [];
  }

  /** The order of the segments is irrelevant: two strings with the same prefix and the same
      segments after it, no key twice, parse alike. */
  lemma OrderIrrelevant(s: string, t: string)
    requires Parts(s) != [] && Parts(t) != [] && Parts(s)[0] == Parts(t)[0]
    requires DistinctKeys(Parts(s)[1..]) && DistinctKeys(Parts(t)[1..])
    requires forall x :: x in Parts(s)[1..] <==> x in Parts(t)[1..]
    ensures Parse(s) == Parse(t)
  {
    NoParts();
    SameMembersFill(Parts(s)[1..], Parts(t)[1..]);
  }

  // ----- what does not matter --------------------------------------------------------------------

  lemma {:induction false} NonEmptyConcat(p: seq<string>, q: seq<string>)
    ensures NonEmpty(p + q) == NonEmpty(p) + NonEmpty(q)
  {
    if p == [] {
      assert p + q == q;
    } else {
      assert (p + q)[1..] == p[1..] + q;
      NonEmptyConcat(p[1..], q);
    }
  }

  lemma SlashParts(a: string, b: string)
    ensures Parts(a + "/" + b)
         == NonEmpty(Split(StripLeft(a, JsSpace), Slash)) + NonEmpty(Split(StripRight(b, JsSpace), Slash))
  {
    StripAround(a, '/', b, JsSpace);
    SplitAt(StripLeft(a, JsSpace), '/', StripRight(b, JsSpace), Slash);
    NonEmptyConcat(Split(StripLeft(a, JsSpace), Slash), Split(StripRight(b, JsSpace), Slash));
  }

  lemma DoubledSlashParts(a: string, b: string)
    ensures Parts(a + "/" + ("/" + b)) == Parts(a + "/" + b)
  {
    var r := StripRight(b, JsSpace);
    SlashParts(a, b);
    SlashParts(a, "/" + b);
    StripRightKeeps("/", b, JsSpace);
    LeadingSlash(r);
  }

  lemma LeadingSlash(r: string)
    ensures NonEmpty(Split("/" + r, Slash)) == NonEmpty(Split(r, Slash))
  {
    assert ("/" + r)[1..] == r;
    var parts := Split("/" + r, Slash);
    assert parts == [""] + Split(r, Slash);
    assert parts[1..] == Split(r, Slash);
  }

  lemma SameParts(s: string, t: string)
    requires s != "" && t != ""
    requires Parts(s) == Parts(t)
    ensures Parse(s) == Parse(t)
  {}

  /** Empty segments are irrelevant: a doubled slash anywhere parses like a single one. */
  lemma EmptySegmentIrrelevant(a: string, b: string)
    ensures Parse(a + "/" + b) == Parse(a + "//" + b)
  {
    assert a + "//" + b == a + "/" + ("/" + b);
    DoubledSlashParts(a, b);
    SameParts(a + "/" + b, a + "//" + b);
  }

  /** So does a slash added behind a string that does not end in white space ... */
  lemma TrailingSlashIrrelevant(s: string)
    requires s == "" || !JsSpace(s[|s| - 1])
    ensures Parse(s + "/") == Parse(s)
  {
    TrailingSlashParts(s);
    if s != "" { SameParts(s + "/", s); }
  }

  lemma TrailingSlashParts(s: string)
    requires s == "" || !JsSpace(s[|s| - 1])
    ensures Parts(s + "/") == Parts(s) && Parts("") == []
  {
    var l := StripLeft(s, JsSpace);
    StripLeftFacts(s, JsSpace);
    assert l == "" || l[|l| - 1] == s[|s| - 1];
    assert Strip(s, JsSpace) == l;
    SlashParts(s, "");
    BlankParts();
    assert s + "/" + "" == s + "/" && Parts(s) + [] == Parts(s);
  }

  /** ... or in front of one that does not start with it. */
  lemma LeadingSlashIrrelevant(s: string)
    requires s == "" || !JsSpace(s[0])
    ensures Parse("/" + s) == Parse(s)
  {
    LeadingSlashParts(s);
    if s != "" { SameParts("/" + s, s); } else { NoParts(); }
  }

  lemma LeadingSlashParts(s: string)
    requires s == "" || !JsSpace(s[0])
    ensures Parts("/" + s) == Parts(s)
  {
    assert StripLeft(s, JsSpace) == s;
    SlashParts("", s);
    BlankParts();
    assert "" + "/" + s == "/" + s && [] + Parts(s) == Parts(s);
  }

  lemma BlankParts()
    ensures NonEmpty(Split(StripRight("", JsSpace), Slash)) == [] &&
      NonEmpty(Split(StripLeft("", JsSpace), Slash)) == []
    ensures Parts("") == []
  {
    NoParts();
    assert Split("", Slash) == [""] && [""][1..] == [];
  }

  /** A metric outside the base eight is irrelevant in any string, wherever it stands behind
      the prefix: it decides neither whether the string parses nor the eight metrics. */
  lemma ExtraMetricIrrelevant(u: string, x: string, w: string)
    requires Free(x, Slash) && |Split(x, Colon)| == 2 && Key(x) !in METRICS
    requires NonEmpty(Split(StripLeft(u, JsSpace), Slash)) != []
    ensures var (with, without) := (Parse(u + "/" + (x + "/" + w)), Parse(u + "/" + w));
      (with.Some? <==> without.Some?) && (without.Some? ==> Base(with.value) == Base(without.value))
  {
    var (p, q) := (NonEmpty(Split(StripLeft(u, JsSpace), Slash)), NonEmpty(Split(StripRight(w, JsSpace), Slash)));
    SlashParts(u, w);
    InsertedParts(u, x, w);
    InsertedParse(u + "/" + (x + "/" + w), u + "/" + w, p, x, q);
  }

  lemma InsertedParts(u: string, x: string, w: string)
    requires Free(x, Slash) && x != ""
    ensures Parts(u + "/" + (x + "/" + w))
         == NonEmpty(Split(StripLeft(u, JsSpace), Slash)) + ([x] + NonEmpty(Split(StripRight(w, JsSpace), Slash)))
  {
    SlashParts(u, x + "/" + w);
    StripRightKeeps(x + "/", w, JsSpace);
    assert (x + "/") + w == x + "/" + w;
    MiddlePart(x, StripRight(w, JsSpace));
  }

  lemma InsertedParse(s: string, t: string, p: seq<string>, x: string, q: seq<string>)
    requires s != "" && t != "" && p != [] && Parts(s) == p + ([x] + q) && Parts(t) == p + q
    requires |Split(x, Colon)| == 2 && Key(x) !in METRICS
    ensures (Parse(s).Some? <==> Parse(t).Some?) && (Parse(t).Some? ==> Base(Parse(s).value) == Base(Parse(t).value))
  {
    Regroup(p, x, q);
    ExtraParts(p[0], p[1..], x, q);
  }

  lemma Regroup(p: seq<string>, x: string, q: seq<string>)
    requires p != []
    ensures p + ([x] + q) == [p[0]] + (p[1..] + [x] + q) && p + q == [p[0]] + (p[1..] + q)
  {}

  lemma MiddlePart(x: string, r: string)
    requires Free(x, Slash) && x != ""
    ensures NonEmpty(Split((x + "/") + r, Slash)) == [x] + NonEmpty(Split(r, Slash))
  {
    SplitAt(x, '/', r, Slash);
    SplitFree(x, Slash);
    NonEmptyConcat([x], Split(r, Slash));
    assert NonEmpty([x]) == [x];
  }

  lemma ExtraParts(prefix: string, a: seq<string>, x: string, b: seq<string>)
    requires |Split(x, Colon)| == 2 && Key(x) !in METRICS
    ensures var (with, without) := (ParseParts([prefix] + (a + [x] + b)), ParseParts([prefix] + (a + b)));
      (with.Some? <==> without.Some?) && (without.Some? ==> Base(with.value) == Base(without.value))
  {
    var (p, q) := (a + [x] + b, a + b);
    assert ([prefix] + p)[1..] == p && ([prefix] + q)[1..] == q;
    ExtraFill(a, x, b);
    if Fill(q).Some? { SameBase(Fill(p).value, Fill(q).value); }
  }

  lemma SameBase(m: Values, n: Values)
    requires forall k :: k in METRICS ==> (k in m <==> k in n) && (k in n ==> m[k] == n[k])
    ensures Base(m) == Base(n) && (HasAll(m) <==> HasAll(n))
  {}

  lemma {:induction false} ExtraFill(a: seq<string>, x: string, b: seq<string>)
    requires |Split(x, Colon)| == 2 && Key(x) !in METRICS
    ensures Fill(a + [x] + b).Some? <==> Fill(a + b).Some?
    ensures Fill(a + b).Some? ==> forall k :: k in METRICS ==>
      (k in Fill(a + [x] + b).value <==> k in Fill(a + b).value)
      && (k in Fill(a + b).value ==> Fill(a + [x] + b).value[k] == Fill(a + b).value[k])
  {
    if b == [] {
      assert a + b == a && a + [x] + b == a + [x] && (a + [x])[..|a|] == a;
    } else {
      var n := |b| - 1;
      assert (a + b)[..|a| + n] == a + b[..n] && (a + [x] + b)[..|a| + 1 + n] == a + [x] + b[..n];
      ExtraFill(a, x, b[..n]);
    }
  }

  /** A 3.0 prefix is read like a 3.1 prefix, whatever follows. */
  lemma PrefixIrrelevant(rest: string)
    ensures Parse("CVSS:3.0" + rest) == Parse("CVSS:3.1" + rest)
  {
    var r := StripRight(rest, JsSpace);
    PrefixParts("CVSS:3.0", rest);
    PrefixParts("CVSS:3.1", rest);
  }

  lemma PrefixSplit(prefix: string, rest: string)
    requires VectorPrefix(prefix)
    ensures var q := Split(StripRight(rest, JsSpace), Slash);
      Parts(prefix + rest) == [prefix + q[0]] + NonEmpty(q[1..])
  {
    var r := StripRight(rest, JsSpace);
    assert (prefix + rest)[0] == 'C';
    assert StripLeft(prefix + rest, JsSpace) == prefix + rest;
    StripRightKeeps(prefix, rest, JsSpace);
    SplitConcat(prefix, r, Slash);
    SplitFree(prefix, Slash);
    assert Glue([prefix], Split(r, Slash)) == [prefix + Split(r, Slash)[0]] + Split(r, Slash)[1..];
  }

  lemma PrefixParts(prefix: string, rest: string)
    requires VectorPrefix(prefix)
    ensures var q := Split(StripRight(rest, JsSpace), Slash);
      Parse(prefix + rest) == if q[0] != "" then None else
        var m := Fill(NonEmpty(q[1..])); if m.None? || !HasAll(m.value) then None else m
  {
    var q := Split(StripRight(rest, JsSpace), Slash);
    PrefixSplit(prefix, rest);
    assert q[0] == "" ==> prefix + q[0] == prefix;
    assert |prefix + q[0]| == 8 + |q[0]|;
    assert ([prefix + q[0]] + NonEmpty(q[1..]))[1..] == NonEmpty(q[1..]);
  }

  // ----- round trip --------------------------------------------------------------------------------

  lemma AllowedValuesAreLetters(metric: string, v: string)
    requires v in AllowedValues(metric)
    ensures |v| == 1 && 'A' <= v[0] <= 'Z'
  {}

  lemma MetricsAreLetters(j: nat)
    requires j < |METRICS|
    ensures METRICS[j] != "" && forall i :: 0 <= i < |METRICS[j]| ==> 'A' <= METRICS[j][i] <= 'Z'
  {}

  lemma SegmentFacts(m: Values, j: nat)
    requires Complete(m) && j < |METRICS|
    ensures var x := METRICS[j] + ":" + m[METRICS[j]];
      && Free(x, Slash) && x != "" && Split(x, Colon) == [METRICS[j], m[METRICS[j]]]
      && 'A' <= x[|x| - 1] <= 'Z'
  {
    var v := m[METRICS[j]];
    AllowedValuesAreLetters(METRICS[j], v);
    MetricsAreLetters(j);
    SplitAt(METRICS[j], ':', v, Colon);
    SplitFree(METRICS[j], Colon);
    SplitFree(v, Colon);
  }

  lemma {:induction false} NonEmptyKeeps(parts: seq<string>)
    requires forall i :: 0 <= i < |parts| ==> parts[i] != ""
    ensures NonEmpty(parts) == parts
  {
    if parts != [] { NonEmptyKeeps(parts[1..]); }
  }

  lemma DistinctMetrics(i: nat, j: nat)
    requires i < j < |METRICS|
    ensures METRICS[i] != METRICS[j]
  {}

  lemma SegmentsAreDistinct(m: Values)
    requires Complete(m)
    ensures var s := Segments(m);
      WellFormed(s) && DistinctKeys(s) && |s| == |METRICS|
      && forall j :: 0 <= j < |METRICS| ==> Split(s[j], Colon) == [METRICS[j], m[METRICS[j]]]
  {
    var s := Segments(m);
    forall j | 0 <= j < |s| ensures Split(s[j], Colon) == [METRICS[j], m[METRICS[j]]] { SegmentFacts(m, j); }
    forall i, j | 0 <= i < j < |s| ensures Key(s[i]) != Key(s[j]) { DistinctMetrics(i, j); }
  }

  lemma SegmentsLast(m: Values, k: string)
    requires Complete(m)
    ensures Last(Segments(m), k) == if k in METRICS && k in m then Some(m[k]) else None
  {
    var s := Segments(m);
    SegmentsAreDistinct(m);
    if j :| 0 <= j < |METRICS| && METRICS[j] == k {
      LastOfDistinct(s, j);
    } else if Last(s, k).Some? {
      var i := LastIsSome(s, k);
    }
  }

  /** The segments of a complete object fill exactly its eight base metrics. */
  lemma SegmentsFill(m: Values)
    requires Complete(m)
    ensures Fill(Segments(m)) == Some(Base(m))
  {
    SegmentsAreDistinct(m);
    FillIsLast(Segments(m));
    var f := Fill(Segments(m)).value;
    forall k ensures (k in f <==> k in Base(m)) && (k in f ==> f[k] == m[k]) { SegmentsLast(m, k); }
    assert f == Base(m);
  }

  lemma {:induction false} JoinEnds(parts: seq<string>, c: char)
    requires parts != [] && forall i :: 0 <= i < |parts| ==> parts[i] != ""
    ensures var j := Join(parts, c);
      j != "" && j[0] == parts[0][0] && j[|j| - 1] == parts[|parts| - 1][|parts[|parts| - 1]| - 1]
  {
    if |parts| > 1 { JoinEnds(parts[1..], c); }
  }

  lemma PartsFacts(m: Values)
    requires Complete(m)
    ensures var parts := ["CVSS:3.1"] + Segments(m);
      && (forall i :: 0 <= i < |parts| ==> Free(parts[i], Slash) && parts[i] != "")
      && 'A' <= parts[|parts| - 1][|parts[|parts| - 1]| - 1] <= 'Z'
  {}

  lemma BuildIsStripped(m: Values)
    requires Complete(m)
    ensures Build(m) != "" && Strip(Build(m), JsSpace) == Build(m)
  {
    var parts := ["CVSS:3.1"] + Segments(m);
    PartsFacts(m);
    JoinEnds(parts, '/');
    assert parts[0][0] == 'C';
    StripFacts(Build(m), JsSpace);
  }

  /** Printing a complete object and parsing the result gives back its eight base metrics. */
  lemma BuildThenParse(m: Values)
    requires Complete(m)
    ensures Parse(Build(m)) == Some(Base(m))
  {
    var parts := ["CVSS:3.1"] + Segments(m);
    BuildIsStripped(m);
    PartsFacts(m);
    SplitJoin(parts, '/', Slash);
    NonEmptyKeeps(parts);
    assert parts[1..] == Segments(m);
    SegmentsFill(m);
    BaseFacts(m);
  }

  lemma BaseFacts(m: Values)
    requires Complete(m)
    ensures Complete(Base(m)) && HasAll(Base(m)) && Base(Base(m)) == Base(m)
    ensures Build(Base(m)) == Build(m)
  {
    assert forall j :: 0 <= j < |METRICS| ==> METRICS[j] in METRICS;
    assert Segments(Base(m)) == Segments(m);
  }

  /** For every string that parses to a complete object, the printed vector is canonical: it
      parses to the same eight metrics and is a fixed point of parse-then-print. */
  lemma Canonical(s: string)
    requires Parse(s).Some? && Complete(Parse(s).value)
    ensures var v := Build(Parse(s).value);
      && Parse(v) == Some(Base(Parse(s).value))
      && HasAll(Parse(v).value) && Build(Parse(v).value) == v
  {
    BuildThenParse(Parse(s).value);
    BaseFacts(Parse(s).value);
  }

  // ----- vectors and scores --------------------------------------------------------------------------

  function ToEffect(v: string): C.Effect {
    if v == "N" then C.NoEffect else if v == "L" then C.LowEffect else C.HighEffect
  }

  /** The metrics that a complete object stands for. */
  function ToMetrics(m: Values): C.Metrics
    requires Complete(m)
  {
    Keyed(m);
    C.Metrics(
      if m["AV"] == "N" then C.Network else if m["AV"] == "A" then C.Adjacent
      else if m["AV"] == "L" then C.Local else C.Physical,
      if m["AC"] == "L" then C.LowComplexity else C.HighComplexity,
      if m["PR"] == "N" then C.NoPrivileges else if m["PR"] == "L" then C.LowPrivileges else C.HighPrivileges,
      if m["UI"] == "N" then C.NoInteraction else C.Required,
      if m["S"] == "U" then C.Unchanged else C.Changed,
      ToEffect(m["C"]), ToEffect(m["I"]), ToEffect(m["A"]))
  }

  lemma Keyed(m: Values)
    requires HasAll(m)
    ensures "AV" in m && "AC" in m && "PR" in m && "UI" in m && "S" in m && "C" in m && "I" in m && "A" in m
  {
    assert METRICS[0] in m && METRICS[1] in m && METRICS[2] in m && METRICS[3] in m;
    assert METRICS[4] in m && METRICS[5] in m && METRICS[6] in m && METRICS[7] in m;
  }

  function FromEffect(e: C.Effect): (r: string)
    ensures |r| == 1
  {
    match e case NoEffect => "N" case LowEffect => "L" case HighEffect => "H"
  }

  function FromAv(v: C.AttackVector): (r: string)
    ensures |r| == 1
  {
    match v case Network => "N" case Adjacent => "A" case Local => "L" case Physical => "P"
  }

  function FromAc(v: C.Complexity): (r: string)
    ensures |r| == 1
  {
    match v case LowComplexity => "L" case HighComplexity => "H"
  }

  function FromPr(v: C.Privileges): (r: string)
    ensures |r| == 1
  {
    match v case NoPrivileges => "N" case LowPrivileges => "L" case HighPrivileges => "H"
  }

  function FromUi(v: C.Interaction): (r: string)
    ensures |r| == 1
  {
    match v case NoInteraction => "N" case Required => "R"
  }

  function FromScope(v: C.Scope): (r: string)
    ensures |r| == 1
  {
    match v case Unchanged => "U" case Changed => "C"
  }

  function FromMetrics(x: C.Metrics): Values {
    map["AV" := FromAv(x.av), "AC" := FromAc(x.ac), "PR" := FromPr(x.pr), "UI" := FromUi(x.ui),
        "S" := FromScope(x.s),
        "C" := FromEffect(x.c), "I" := FromEffect(x.i), "A" := FromEffect(x.a)]
  }

  lemma FromMetricsComplete(x: C.Metrics)
    ensures Complete(FromMetrics(x))
  {
    var m := FromMetrics(x);
    forall j | 0 <= j < |METRICS| ensures METRICS[j] in m && m[METRICS[j]] in AllowedValues(METRICS[j]) {}
  }

  lemma FromMetricsBack(x: C.Metrics)
    requires Complete(FromMetrics(x))
    ensures ToMetrics(FromMetrics(x)) == x
  {}

  lemma BaseMetrics(m: Values)
    requires Complete(m)
    ensures Complete(Base(m)) && ToMetrics(Base(m)) == ToMetrics(m)
  {}

  /** Any choice of the eight metrics survives printing and parsing, and so does its score. */
  lemma MetricsRoundTrip(x: C.Metrics)
    ensures var r := Parse(Build(FromMetrics(x)));
      r.Some? && Complete(r.value) && ToMetrics(r.value) == x && C.BaseScore(ToMetrics(r.value)) == C.BaseScore(x)
  {
    FromMetricsComplete(x);
    FromMetricsBack(x);
    BuildThenParse(FromMetrics(x));
    BaseMetrics(FromMetrics(x));
  }

  // ----- spelled out ---------------------------------------------------------------------------------

  /** Complete objects are those with a letter of the standard for each of the eight metrics. */
  lemma CompleteIff(m: Values)
    ensures Complete(m) <==>
      && "AV" in m && m["AV"] in {"N", "A", "L", "P"} && "AC" in m && m["AC"] in {"L", "H"}
      && "PR" in m && m["PR"] in {"N", "L", "H"} && "UI" in m && m["UI"] in {"N", "R"}
      && "S" in m && m["S"] in {"U", "C"} && "C" in m && m["C"] in {"N", "L", "H"}
      && "I" in m && m["I"] in {"N", "L", "H"} && "A" in m && m["A"] in {"N", "L", "H"}
  {
    if HasAll(m) {
      Keyed(m);
    } else if Complete(m) {
      assert HasAll(m);
    }
    assert METRICS[0] == "AV" && METRICS[1] == "AC" && METRICS[2] == "PR" && METRICS[3] == "UI";
    assert METRICS[4] == "S" && METRICS[5] == "C" && METRICS[6] == "I" && METRICS[7] == "A";
  }

  /** A string parses exactly when, trimmed, its first non-empty segment is a version prefix, every
      other one has one colon, and each of the eight metrics is named; it parses to the last value
      of every key. */
  lemma ParseIff(s: string, key: string)
    ensures var (r, p) := (Parse(s), Parts(s));
      && (r.Some? <==>
            && p != [] && (p[0] == "CVSS:3.0" || p[0] == "CVSS:3.1") && WellFormed(p[1..])
            && forall k :: k in METRICS ==> Last(p[1..], k).Some?)
      && (r.Some? ==>
            (key in r.value <==> Last(p[1..], key).Some?) &&
            (key in r.value ==> Last(p[1..], key) == Some(r.value[key])))
  {
    var p := Parts(s);
    if s == "" { NoParts(); }
    if p != [] {
      FillIsLast(p[1..]);
      if Fill(p[1..]).Some? {
        var m := Fill(p[1..]).value;
        assert HasAll(m) <==> forall k :: k in METRICS ==> Last(p[1..], k).Some? by {
          assert forall j :: 0 <= j < |METRICS| ==> METRICS[j] in METRICS;
        }
      }
    }
  }

  function Segment(key: string, value: string): string { key + ":" + value }

  /** The vector string of any eight values. */
  function VectorText(m: Values): string
    requires "AV" in m && "AC" in m && "PR" in m && "UI" in m && "S" in m && "C" in m && "I" in m && "A" in m
  {
    "CVSS:3.1" + "/" + Segment("AV", m["AV"]) + "/" + Segment("AC", m["AC"]) + "/" + Segment("PR", m["PR"])
    + "/" + Segment("UI", m["UI"]) + "/" + Segment("S", m["S"]) + "/" + Segment("C", m["C"])
    + "/" + Segment("I", m["I"]) + "/" + Segment("A", m["A"])
  }

  /** What is printed for any eight values. */
  lemma BuildText(m: Values)
    requires HasAll(m)
    ensures "AV" in m && "AC" in m && "PR" in m && "UI" in m && "S" in m && "C" in m && "I" in m && "A" in m
    ensures Build(m) == VectorText(m)
  {
    Keyed(m);
    JoinNine(["CVSS:3.1"] + Segments(m));
  }

  lemma JoinNine(p: seq<string>)
    requires |p| == 9
    ensures Join(p, '/') == p[0] + "/" + p[1] + "/" + p[2] + "/" + p[3] + "/" + p[4] + "/" + p[5] + "/" + p[6]
                            + "/" + p[7] + "/" + p[8]
  {
    assert p[..1] == [p[0]];
    var t1 := JoinNext(p, 1, p[0]);
    var t2 := JoinNext(p, 2, t1);
    var t3 := JoinNext(p, 3, t2);
    var t4 := JoinNext(p, 4, t3);
    var t5 := JoinNext(p, 5, t4);
    var t6 := JoinNext(p, 6, t5);
    var t7 := JoinNext(p, 7, t6);
    var t8 := JoinNext(p, 8, t7);
    assert p[..9] == p;
  }

  lemma JoinNext(p: seq<string>, n: nat, text: string) returns (longer: string)
    requires 0 < n < |p| && text == Join(p[..n], '/')
    ensures longer == text + "/" + p[n] && longer == Join(p[..n + 1], '/')
  {
    longer := text + "/" + p[n];
    assert p[..n + 1] == p[..n] + [p[n]];
    JoinSnoc(p[..n], p[n]);
  }

  lemma {:induction false} JoinSnoc(p: seq<string>, x: string)
    requires p != []
    ensures Join(p + [x], '/') == Join(p, '/') + "/" + x
  {
    assert (p + [x])[1..] == p[1..] + [x];
    if |p| > 1 {
      JoinSnoc(p[1..], x);
      assert p[0] + ['/'] + (Join(p[1..], '/') + "/" + x) == (p[0] + ['/'] + Join(p[1..], '/')) + "/" + x;
    } else {
      assert [x][1..] == [] && Join([x], '/') == x;
      assert p[0] + ['/'] + x == p[0] + "/" + x;
    }
  }

  /** The vector string with these eight letters. */
  function VectorOf(w: string): string
    requires |w| == 8
  {
    "CVSS:3.1" + "/" + Segment("AV", w[0..1]) + "/" + Segment("AC", w[1..2]) + "/" + Segment("PR", w[2..3])
    + "/" + Segment("UI", w[3..4]) + "/" + Segment("S", w[4..5]) + "/" + Segment("C", w[5..6])
    + "/" + Segment("I", w[6..7]) + "/" + Segment("A", w[7..8])
  }

  function Letters(x: C.Metrics): (w: string)
    ensures |w| == 8
  {
    [FromAv(x.av)[0], FromAc(x.ac)[0], FromPr(x.pr)[0], FromUi(x.ui)[0], FromScope(x.s)[0],
     FromEffect(x.c)[0], FromEffect(x.i)[0], FromEffect(x.a)[0]]
  }

  /** Each choice of metrics is printed as the vector of its letters, which parses to that choice. */
  lemma PrintedMetrics(x: C.Metrics)
    ensures HasAll(FromMetrics(x)) && Build(FromMetrics(x)) == VectorOf(Letters(x))
    ensures var r := Parse(VectorOf(Letters(x)));
      r.Some? && Complete(r.value) && ToMetrics(r.value) == x
  {
    FromMetricsComplete(x);
    var m := FromMetrics(x);
    BuildText(m);
    LetterValues(x, m);
    MetricsRoundTrip(x);
  }

  lemma LetterValues(x: C.Metrics, m: Values)
    requires m == FromMetrics(x)
    ensures "AV" in m && "AC" in m && "PR" in m && "UI" in m && "S" in m && "C" in m && "I" in m && "A" in m
    ensures VectorOf(Letters(x)) == VectorText(m)
  {
    LettersOf(x);
  }

  lemma LettersOf(x: C.Metrics)
    ensures var w := Letters(x);
      && w[0..1] == FromAv(x.av) && w[1..2] == FromAc(x.ac) && w[2..3] == FromPr(x.pr) && w[3..4] == FromUi(x.ui)
      && w[4..5] == FromScope(x.s) && w[5..6] == FromEffect(x.c) && w[6..7] == FromEffect(x.i)
      && w[7..8] == FromEffect(x.a)
  {}

  /** The letters of the standard. */
  lemma LettersIff(x: C.Metrics, w: string)
    requires |w| == 8
    ensures Letters(x) == w <==>
      && (x.av, w[0]) in {(C.Network, 'N'), (C.Adjacent, 'A'), (C.Local, 'L'), (C.Physical, 'P')}
      && (x.ac, w[1]) in {(C.LowComplexity, 'L'), (C.HighComplexity, 'H')}
      && (x.pr, w[2]) in {(C.NoPrivileges, 'N'), (C.LowPrivileges, 'L'), (C.HighPrivileges, 'H')}
      && (x.ui, w[3]) in {(C.NoInteraction, 'N'), (C.Required, 'R')}
      && (x.s, w[4]) in {(C.Unchanged, 'U'), (C.Changed, 'C')}
      && (x.c, w[5]) in EFFECT_LETTERS && (x.i, w[6]) in EFFECT_LETTERS && (x.a, w[7]) in EFFECT_LETTERS
  {
    assert w == [w[0], w[1], w[2], w[3], w[4], w[5], w[6], w[7]];
  }

  const EFFECT_LETTERS: set<(C.Effect, char)> := {(C.NoEffect, 'N'), (C.LowEffect, 'L'), (C.HighEffect, 'H')}
}
