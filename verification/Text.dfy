/** Strings the way the Python and JavaScript code treats them: split, strip, join. */
module Text {

  /** s.split(c) for the separators that `sep` accepts. */
  function Split(s: string, sep: char -> bool): (parts: seq<string>)
    ensures |parts| > 0
  {
    if s == "" then [""]
    else if sep(s[0]) then [""] + Split(s[1..], sep)
    else var rest := Split(s[1..], sep); [[s[0]] + rest[0]] + rest[1..]
  }

  function StripLeft(s: string, space: char -> bool): (r: string) {
    if s != "" && space(s[0]) then StripLeft(s[1..], space) else s
  }

  function StripRight(s: string, space: char -> bool): (r: string) {
    if s != "" && space(s[|s| - 1]) then StripRight(s[..|s| - 1], space) else s
  }

  function Strip(s: string, space: char -> bool): string {
    StripRight(StripLeft(s, space), space)
  }

  function Join(parts: seq<string>, c: char): string {
    if parts == [] then "" else if |parts| == 1 then parts[0] else parts[0] + [c] + Join(parts[1..], c)
  }

  ghost predicate Free(s: string, sep: char -> bool) {
    forall i :: 0 <= i < |s| ==> !sep(s[i])
  }

  /** p followed by q, with the last part of p and the first of q run together. */
  function Glue(p: seq<string>, q: seq<string>): seq<string>
    requires p != [] && q != []
  {
    p[..|p| - 1] + [p[|p| - 1] + q[0]] + q[1..]
  }

  lemma GlueCons(x: string, p: seq<string>, q: seq<string>)
    requires p != [] && q != []
    ensures Glue([x] + p, q) == [x] + Glue(p, q)
  {}

  lemma GlueHead(x: char, p: seq<string>, q: seq<string>)
    requires p != [] && q != []
    ensures var g := Glue(p, q); Glue([[x] + p[0]] + p[1..], q) == [[x] + g[0]] + g[1..]
  {
    if |p| == 1 {
      assert ([x] + p[0]) + q[0] == [x] + (p[0] + q[0]);
      assert [[x] + p[0]] + p[1..] == [[x] + p[0]];
    } else {
      assert p == [p[0]] + p[1..];
      GlueCons(p[0], p[1..], q);
      GlueCons([x] + p[0], p[1..], q);
    }
  }

  /** Splitting a concatenation glues the last part of the one to the first of the other. */
  lemma {:induction false} SplitConcat(a: string, b: string, sep: char -> bool)
    ensures Split(a + b, sep) == Glue(Split(a, sep), Split(b, sep))
  {
    if a == "" {
      assert a + b == b && "" + Split(b, sep)[0] == Split(b, sep)[0];
    } else {
      SplitConcat(a[1..], b, sep);
      assert (a + b)[0] == a[0] && (a + b)[1..] == a[1..] + b;
      if sep(a[0]) {
        GlueCons("", Split(a[1..], sep), Split(b, sep));
      } else {
        GlueHead(a[0], Split(a[1..], sep), Split(b, sep));
      }
    }
  }

  lemma SplitAt(a: string, c: char, b: string, sep: char -> bool)
    requires sep(c)
    ensures Split(a + [c] + b, sep) == Split(a, sep) + Split(b, sep)
  {
    var (p, q) := (Split(a, sep), Split(b, sep));
    SplitConcat(a, [c] + b, sep);
    assert a + [c] + b == a + ([c] + b) && ([c] + b)[1..] == b;
    assert Split([c] + b, sep) == [""] + q;
    assert p[|p| - 1] + "" == p[|p| - 1];
    assert p == p[..|p| - 1] + [p[|p| - 1]];
  }

  lemma {:induction false} SplitFree(s: string, sep: char -> bool)
    requires Free(s, sep)
    ensures Split(s, sep) == [s]
  {
    if s != "" {
      SplitFree(s[1..], sep);
      assert [s[0]] + s[1..] == s;
    }
  }

  lemma {:induction false} SplitParts(s: string, sep: char -> bool)
    ensures forall k :: 0 <= k < |Split(s, sep)| ==> Free(Split(s, sep)[k], sep) && |Split(s, sep)[k]| <= |s|
  {
    if s != "" { SplitParts(s[1..], sep); }
  }

  lemma {:induction false} SplitJoin(parts: seq<string>, c: char, sep: char -> bool)
    requires parts != [] && sep(c) && forall k :: 0 <= k < |parts| ==> Free(parts[k], sep)
    ensures Split(Join(parts, c), sep) == parts
  {
    SplitFree(parts[0], sep);
    if |parts| > 1 {
      SplitJoin(parts[1..], c, sep);
      SplitAt(parts[0], c, Join(parts[1..], c), sep);
      assert parts == [parts[0]] + parts[1..];
    }
  }

  ghost predicate Stripped(s: string, space: char -> bool) {
    s == "" || (!space(s[0]) && !space(s[|s| - 1]))
  }

  lemma {:induction false} StripLeftFacts(s: string, space: char -> bool)
    ensures var r := StripLeft(s, space);
      |r| <= |s| && r == s[|s| - |r|..] && (r == "" || !space(r[0]))
  {
    if s != "" && space(s[0]) { StripLeftFacts(s[1..], space); }
  }

  lemma {:induction false} StripRightFacts(s: string, space: char -> bool)
    ensures var r := StripRight(s, space);
      |r| <= |s| && r == s[..|r|] && (r == "" || !space(r[|r| - 1]))
  {
    if s != "" && space(s[|s| - 1]) { StripRightFacts(s[..|s| - 1], space); }
  }

  /** Strip yields a stripped substring, and changes exactly the strings that are not. */
  lemma StripFacts(s: string, space: char -> bool)
    ensures Stripped(Strip(s, space), space)
    ensures Strip(s, space) == s <==> Stripped(s, space)
    ensures |Strip(s, space)| <= |s| && forall sep: char -> bool :: Free(s, sep) ==> Free(Strip(s, space), sep)
  {
    var l := StripLeft(s, space);
    StripLeftFacts(s, space);
    StripRightFacts(l, space);
  }

  lemma {:induction false} StripLeftDrops(s: string, space: char -> bool)
    ensures forall i :: 0 <= i < |s| - |StripLeft(s, space)| ==> space(s[i])
  {
    if s != "" && space(s[0]) { StripLeftDrops(s[1..], space); }
  }

  lemma {:induction false} StripRightDrops(s: string, space: char -> bool)
    ensures forall i :: |StripRight(s, space)| <= i < |s| ==> space(s[i])
  {
    if s != "" && space(s[|s| - 1]) { StripRightDrops(s[..|s| - 1], space); }
  }

  /** Strip cuts off white space at both ends and nothing else. */
  lemma StripCuts(s: string, space: char -> bool)
    ensures exists i, j :: 0 <= i <= j <= |s| && Strip(s, space) == s[i..j] && Spaces(s, 0, i, space)
                           && Spaces(s, j, |s|, space)
  {
    var l := StripLeft(s, space);
    StripLeftFacts(s, space);
    StripRightFacts(l, space);
    StripLeftDrops(s, space);
    StripRightDrops(l, space);
    var i := |s| - |l|;
    var j := i + |Strip(s, space)|;
    assert s[i..j] == l[..j - i];
    assert forall k :: j <= k < |s| ==> s[k] == l[k - i];
    assert Spaces(s, 0, i, space) && Spaces(s, j, |s|, space);
  }

  ghost predicate Spaces(s: string, i: int, j: int, space: char -> bool)
    requires 0 <= i <= j <= |s|
  {
    forall k :: i <= k < j ==> space(s[k])
  }

  lemma StripBlankIff(s: string, space: char -> bool)
    ensures Strip(s, space) == "" <==> forall i :: 0 <= i < |s| ==> space(s[i])
  {
    StripCuts(s, space);
    StripFacts(s, space);
  }

  lemma {:induction false} StripLeftKeeps(a: string, c: char, b: string, space: char -> bool)
    requires !space(c)
    ensures StripLeft(a + [c] + b, space) == StripLeft(a, space) + [c] + b
  {
    if a == "" {
      assert (a + [c] + b)[0] == c;
    } else {
      assert (a + [c] + b)[0] == a[0] && (a + [c] + b)[1..] == a[1..] + [c] + b;
      StripLeftKeeps(a[1..], c, b, space);
    }
  }

  lemma {:induction false} StripRightKeeps(a: string, b: string, space: char -> bool)
    requires a != "" && !space(a[|a| - 1])
    ensures StripRight(a + b, space) == a + StripRight(b, space)
  {
    if b == "" {
      assert a + b == a;
    } else {
      assert (a + b)[|a + b| - 1] == b[|b| - 1] && (a + b)[..|a + b| - 1] == a + b[..|b| - 1];
      StripRightKeeps(a, b[..|b| - 1], space);
    }
  }

  /** Around a character that is not white space, strip works on each side. */
  lemma StripAround(a: string, c: char, b: string, space: char -> bool)
    requires !space(c)
    ensures Strip(a + [c] + b, space) == StripLeft(a, space) + [c] + StripRight(b, space)
  {
    StripLeftKeeps(a, c, b, space);
    StripRightKeeps(StripLeft(a, space) + [c], b, space);
  }

  // ----- character classes ---------------------------------------------------------------

  /** What Python's str.strip() removes. */
  predicate PySpace(c: char) {
    || '\t' <= c <= '\r' || '\U{001C}' <= c <= ' ' || c == '\U{0085}' || c == '\U{00A0}' || c == '\U{1680}'
    || '\U{2000}' <= c <= '\U{200A}' || c == '\U{2028}' || c == '\U{2029}' || c == '\U{202F}'
    || c == '\U{205F}' || c == '\U{3000}'
  }

  /** What JavaScript's String.prototype.trim() removes. */
  predicate JsSpace(c: char) {
    || '\t' <= c <= '\r' || c == ' ' || c == '\U{00A0}' || c == '\U{1680}' || '\U{2000}' <= c <= '\U{200A}'
    || c == '\U{2028}' || c == '\U{2029}' || c == '\U{202F}' || c == '\U{205F}' || c == '\U{3000}'
    || c == '\U{FEFF}'
  }

  /** Where Python's str.splitlines() breaks. */
  predicate LineBreak(c: char) {
    || '\n' <= c <= '\r' || '\U{001C}' <= c <= '\U{001E}' || c == '\U{0085}' || c == '\U{2028}' || c == '\U{2029}'
  }

  function LowerChar(c: char): char {
    if 'A' <= c <= 'Z' then ((c as int) + 32) as char else c
  }

  /** str.lower() on ASCII letters. */
  function Lower(s: string): (r: string)
    ensures |r| == |s|
  {
    seq(|s|, i requires 0 <= i < |s| => LowerChar(s[i]))
  }

  /** ASCII letters become small letters, at the same place in the alphabet; all else stays. */
  lemma LowerIff(s: string, t: string)
    ensures Lower(s) == t <==> |s| == |t| && forall i :: 0 <= i < |s| ==>
      if 'A' <= s[i] <= 'Z' then 'a' <= t[i] <= 'z' && t[i] as int - 'a' as int == s[i] as int - 'A' as int
      else t[i] == s[i]
  {}

  /** The ASCII characters of the three classes, and where the two kinds of white space differ; every
      line break is white space. */
  lemma Classes(c: char)
    ensures c < '\U{0080}' ==>
      && (PySpace(c) <==> c as int in {9, 10, 11, 12, 13, 28, 29, 30, 31, 32})
      && (JsSpace(c) <==> c as int in {9, 10, 11, 12, 13, 32})
      && (LineBreak(c) <==> c as int in {10, 11, 12, 13, 28, 29, 30})
    ensures PySpace(c) != JsSpace(c) <==> c as int in {28, 29, 30, 31, 0x85, 0xFEFF}
    ensures LineBreak(c) ==> PySpace(c)
  {}
}
