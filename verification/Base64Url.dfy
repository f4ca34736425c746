/** base64url without padding (sections 3.2, 4 and 5 of RFC 4648), as sessions store challenges. */
module Base64Url {
  import opened Wrappers

  type Byte = b: int | 0 <= b < 256
  type Sextet = v: int | 0 <= v < 64

  // ----- alphabet ---------------------------------------------------------------------------

  function CharOf(v: Sextet): char {
    if v < 26 then ('A' as int + v) as char
    else if v < 52 then ('a' as int + (v - 26)) as char
    else if v < 62 then ('0' as int + (v - 52)) as char
    else if v == 62 then '-'
    else '_'
  }

  /** The decoder maps '-' and '_' to '+' and '/' first, so it accepts either spelling. */
  function ValueOf(c: char): Option<Sextet> {
    if 'A' <= c <= 'Z' then Some(c as int - 'A' as int)
    else if 'a' <= c <= 'z' then Some(c as int - 'a' as int + 26)
    else if '0' <= c <= '9' then Some(c as int - '0' as int + 52)
    else if c == '-' || c == '+' then Some(62)
    else if c == '_' || c == '/' then Some(63)
    else None
  }

  lemma ValueOfChar(v: Sextet)
    ensures ValueOf(CharOf(v)) == Some(v) && CharOf(v) != '=' && CharOf(v) < '\U{0080}'
  {}

  /** Table 2 of RFC 4648: the ends of its ranges, consecutive characters between them, and one
      value for each character, but for the two old spellings. */
  lemma AlphabetIsTable(v: Sextet, c: char)
    ensures CharOf(0) == 'A' && CharOf(25) == 'Z' && CharOf(26) == 'a' && CharOf(51) == 'z'
    ensures CharOf(52) == '0' && CharOf(61) == '9' && CharOf(62) == '-' && CharOf(63) == '_'
    ensures v !in {25, 51, 61, 62, 63} ==> CharOf(v + 1) as int == CharOf(v) as int + 1
    ensures ValueOf(c) == Some(v) <==> c == CharOf(v) || (v == 62 && c == '+') || (v == 63 && c == '/')
  {}

  // ----- encoding ---------------------------------------------------------------------------

  /** urlsafe_b64encode: groups of three bytes, the last one padded. */
  function EncodePadded(b: seq<Byte>): string {
    if b == [] then ""
    else if |b| == 1 then [CharOf(b[0] / 4), CharOf(b[0] % 4 * 16), '=', '=']
    else if |b| == 2 then [CharOf(b[0] / 4), CharOf(b[0] % 4 * 16 + b[1] / 16), CharOf(b[1] % 16 * 4), '=']
    else Group(b[0], b[1], b[2]) + EncodePadded(b[3..])
  }

  function Group(x: Byte, y: Byte, z: Byte): (s: string) {
    [CharOf(x / 4), CharOf(x % 4 * 16 + y / 16), CharOf(y % 16 * 4 + z / 64), CharOf(z % 64)]
  }

  /** rstrip(b"="). */
  function StripPads(s: string): string {
    if s != "" && s[|s| - 1] == '=' then StripPads(s[..|s| - 1]) else s
  }

  function Encode(b: seq<Byte>): string { StripPads(EncodePadded(b)) }

  // ----- decoding ---------------------------------------------------------------------------

  function Pads(n: nat): string { seq(n, i => '=') }

  /** "=" * (-len(s) % 4). */
  function Padding(s: string): string { Pads((-|s|) % 4) }

  /** One more than the largest value of the bits carried over. */
  function Room(quad: nat): nat { if quad == 1 then 64 else if quad == 2 then 16 else if quad == 3 then 4 else 1 }

  /** The decoder's loop: `quad` digits of a group seen, `left` their bits not yet written,
      `pads` pad characters in a row.  Other characters are skipped; enough padding ends the
      input; input that ends inside a group is an error. */
  function Scan(s: string, quad: nat, left: nat, pads: nat): Option<seq<Byte>>
    requires quad < 4 && left < Room(quad)
  {
    if s == "" then (if quad == 0 then Some([]) else None)
    else if s[0] == '=' then
      if quad >= 2 && quad + pads + 1 >= 4 then Some([])
      else Scan(s[1..], quad, left, if quad >= 2 then pads + 1 else pads)
    else if ValueOf(s[0]) == None then Scan(s[1..], quad, left, pads)
    else
      var v := ValueOf(s[0]).value;
      if quad == 0 then Scan(s[1..], 1, v, 0)
      else if quad == 1 then Emit(left * 4 + v / 16, Scan(s[1..], 2, v % 16, 0))
      else if quad == 2 then Emit(left * 16 + v / 4, Scan(s[1..], 3, v % 4, 0))
      else Emit(left * 64 + v, Scan(s[1..], 0, 0, 0))
  }

  function Emit(b: Byte, rest: Option<seq<Byte>>): Option<seq<Byte>> {
    if rest.None? then None else Some([b] + rest.value)
  }

  /** None stands for the ValueError of the library, raised for non-ASCII text too. */
  function Decode(s: string): Option<seq<Byte>> {
    if exists i :: 0 <= i < |s| && s[i] >= '\U{0080}' then None else Scan(s + Padding(s), 0, 0, 0)
  }

  // ----- round trip ---------------------------------------------------------------------------

  /** The encoder's text without the padding. */
  function Digits(b: seq<Byte>): string {
    if b == [] then ""
    else if |b| == 1 then [CharOf(b[0] / 4), CharOf(b[0] % 4 * 16)]
    else if |b| == 2 then [CharOf(b[0] / 4), CharOf(b[0] % 4 * 16 + b[1] / 16), CharOf(b[1] % 16 * 4)]
    else Group(b[0], b[1], b[2]) + Digits(b[3..])
  }

  lemma SameRemainder(n: int)
    ensures (-n) % 3 == (-(n - 3)) % 3
  {}

  lemma {:induction false} PaddedIsDigits(b: seq<Byte>)
    ensures EncodePadded(b) == Digits(b) + Pads((-|b|) % 3)
  {
    if |b| >= 3 {
      PaddedIsDigits(b[3..]);
      SameRemainder(|b|);
      assert Group(b[0], b[1], b[2]) + (Digits(b[3..]) + Pads((-|b|) % 3)) == Digits(b) + Pads((-|b|) % 3);
    } else if |b| == 2 {
      assert Pads(1) == "=";
    } else if |b| == 1 {
      assert Pads(2) == "==";
    }
  }

  lemma {:induction false} DigitsLength(b: seq<Byte>)
    ensures |Digits(b)| == (4 * |b| + 2) / 3
  {
    if |b| >= 3 { DigitsLength(b[3..]); }
  }

  ghost predicate AllDigits(s: string) {
    forall i :: 0 <= i < |s| ==> s[i] != '=' && s[i] < '\U{0080}'
  }

  lemma {:induction false} DigitsAreDigits(b: seq<Byte>)
    ensures AllDigits(Digits(b))
  {
    forall v: Sextet ensures CharOf(v) != '=' && CharOf(v) < '\U{0080}' { ValueOfChar(v); }
    if |b| >= 3 { DigitsAreDigits(b[3..]); }
  }

  lemma {:induction false} StripPadsRemoves(s: string, n: nat)
    requires s == "" || s[|s| - 1] != '='
    ensures StripPads(s + Pads(n)) == s
  {
    if n == 0 {
      assert s + Pads(0) == s;
    } else {
      assert (s + Pads(n))[..|s| + n - 1] == s + Pads(n - 1);
      StripPadsRemoves(s, n - 1);
    }
  }

  /** The stripped text has a length that is never 1 mod 4, and -len % 4 pad characters are
      exactly those that were stripped. */
  lemma PaddingRestores(b: seq<Byte>)
    ensures Encode(b) == Digits(b) && |Encode(b)| % 4 != 1
    ensures Encode(b) + Padding(Encode(b)) == EncodePadded(b)
  {
    PaddedIsDigits(b);
    DigitsAreDigits(b);
    StripPadsRemoves(Digits(b), (-|b|) % 3);
    DigitsLength(b);
    PadCount(|b|, |Digits(b)|);
  }

  lemma PadCount(n: int, d: int)
    requires 0 <= n && d == (4 * n + 2) / 3
    ensures d % 4 != 1 && (-d) % 4 == (-n) % 3
  {
    var (q, r) := (n / 3, n % 3);
    assert n == 3 * q + r;
    assert d == 4 * q + (if r == 0 then 0 else r + 1);
    assert -d == 4 * (-q - 1) + (if r == 0 then 4 else 3 - r);
    assert -n == 3 * (-q - 1) + (3 - r);
  }

  lemma {:induction false} ScanEncoded(b: seq<Byte>)
    ensures Scan(EncodePadded(b), 0, 0, 0) == Some(b)
  {
    if |b| >= 3 {
      ScanEncoded(b[3..]);
      ScanGroup(b[0], b[1], b[2], EncodePadded(b[3..]));
      assert [b[0]] + ([b[1]] + ([b[2]] + b[3..])) == b;
    } else if |b| == 2 {
      ScanTwo(b[0], b[1]);
      assert [b[0]] + ([b[1]] + []) == b;
    } else if |b| == 1 {
      ScanOne(b[0]);
      assert [b[0]] + [] == b;
    }
  }

  lemma ScanGroup(x: Byte, y: Byte, z: Byte, rest: string)
    requires Scan(rest, 0, 0, 0).Some?
    ensures Scan(Group(x, y, z) + rest, 0, 0, 0) == Some([x] + ([y] + ([z] + Scan(rest, 0, 0, 0).value)))
  {
    var (p, q, r, t) := (x / 4, x % 4 * 16 + y / 16, y % 16 * 4 + z / 64, z % 64);
    var s3 := [CharOf(t)] + rest;
    var s2 := [CharOf(r)] + s3;
    var s1 := [CharOf(q)] + s2;
    assert Group(x, y, z) + rest == [CharOf(p)] + s1;
    var v := Scan(rest, 0, 0, 0).value;
    Recombine(x, y, z);
    ScanDigit(t, rest, 3, r % 4);
    assert Scan(s3, 3, r % 4, 0) == Some([z] + v);
    ScanDigit(r, s3, 2, q % 16);
    assert Scan(s2, 2, q % 16, 0) == Some([y] + ([z] + v));
    ScanDigit(q, s2, 1, p);
    ScanDigit(p, s1, 0, 0);
  }

  lemma Recombine(x: Byte, y: Byte, z: Byte)
    ensures var (p, q, r, t) := (x / 4, x % 4 * 16 + y / 16, y % 16 * 4 + z / 64, z % 64);
      p * 4 + q / 16 == x && q % 16 * 16 + r / 4 == y && r % 4 * 64 + t == z
  {}

  lemma ScanDigit(v: Sextet, rest: string, quad: nat, left: nat)
    requires quad < 4 && left < Room(quad)
    ensures Scan([CharOf(v)] + rest, quad, left, 0) ==
      if quad == 0 then Scan(rest, 1, v, 0)
      else if quad == 1 then Emit(left * 4 + v / 16, Scan(rest, 2, v % 16, 0))
      else if quad == 2 then Emit(left * 16 + v / 4, Scan(rest, 3, v % 4, 0))
      else Emit(left * 64 + v, Scan(rest, 0, 0, 0))
  {}

  lemma ScanTwo(x: Byte, y: Byte)
    ensures Scan(EncodePadded([x, y]), 0, 0, 0) == Some([x] + ([y] + []))
  {
    var (p, q, r) := (x / 4, x % 4 * 16 + y / 16, y % 16 * 4);
    var s2 := [CharOf(r)] + "=";
    var s1 := [CharOf(q)] + s2;
    assert EncodePadded([x, y]) == [CharOf(p)] + s1;
    Recombine(x, y, 0);
    ScanDigit(p, s1, 0, 0);
    ScanDigit(q, s2, 1, p);
    ScanDigit(r, "=", 2, q % 16);
    assert Scan("=", 3, r % 4, 0) == Some([]);
  }

  lemma ScanOne(x: Byte)
    ensures Scan(EncodePadded([x]), 0, 0, 0) == Some([x] + [])
  {
    var (p, q) := (x / 4, x % 4 * 16);
    var s1 := [CharOf(q)] + "==";
    assert EncodePadded([x]) == [CharOf(p)] + s1;
    Recombine(x, 0, 0);
    ScanDigit(p, s1, 0, 0);
    ScanDigit(q, "==", 1, p);
    assert "=="[1..] == "=" && Scan("=", 2, q % 16, 1) == Some([]);
  }

  /** Decoding an encoded byte string gives it back. */
  lemma RoundTrip(b: seq<Byte>)
    ensures Decode(Encode(b)) == Some(b)
  {
    PaddingRestores(b);
    DigitsAreDigits(b);
    ScanEncoded(b);
  }

  lemma EncodeInjective(a: seq<Byte>, b: seq<Byte>)
    requires Encode(a) == Encode(b)
    ensures a == b
  {
    RoundTrip(a);
    RoundTrip(b);
  }

  /** Test vectors of section 10 of RFC 4648, without padding ... */
  lemma TestVectors()
    ensures Encode([]) == "" && Encode([0x66]) == "Zg" && Encode([0x66, 0x6f]) == "Zm8"
  {
    PaddingRestores([0x66]);
    PaddingRestores([0x66, 0x6f]);
  }

  /** ... a group of three bytes, and a longer text, which is encoded group by group. */
  lemma GroupByGroup(x: Byte, y: Byte, z: Byte, rest: seq<Byte>)
    ensures Encode([x, y, z] + rest) == Encode([x, y, z]) + Encode(rest)
    ensures [x, y, z] == [0x66, 0x6f, 0x6f] ==> Encode([x, y, z]) == "Zm9v"
  {
    EncodeGroup(x, y, z, []);
    EncodeGroup(x, y, z, rest);
  }

  lemma EncodeGroup(x: Byte, y: Byte, z: Byte, rest: seq<Byte>)
    ensures Encode([x, y, z] + rest) == Group(x, y, z) + Encode(rest) && [x, y, z] + [] == [x, y, z]
  {
    PaddingRestores([x, y, z] + rest);
    PaddingRestores(rest);
    assert ([x, y, z] + rest)[3..] == rest;
  }

  // ----- acceptance ---------------------------------------------------------------------------

  ghost predicate Alphabet(s: string) {
    forall i :: 0 <= i < |s| ==> ValueOf(s[i]).Some?
  }

  /** The decoder's loop without the bits: does the input end at a group boundary? */
  predicate Ends(s: string, quad: nat, pads: nat)
    requires quad < 4
  {
    if s == "" then quad == 0
    else if s[0] == '=' then
      (quad >= 2 && quad + pads + 1 >= 4) || Ends(s[1..], quad, if quad >= 2 then pads + 1 else pads)
    else if ValueOf(s[0]) == None then Ends(s[1..], quad, pads)
    else Ends(s[1..], if quad == 3 then 0 else quad + 1, 0)
  }

  lemma {:induction false} ScanEnds(s: string, quad: nat, left: nat, pads: nat)
    requires quad < 4 && left < Room(quad)
    ensures Scan(s, quad, left, pads).Some? <==> Ends(s, quad, pads)
  {
    if s != "" {
      if s[0] == '=' {
        ScanEnds(s[1..], quad, left, if quad >= 2 then pads + 1 else pads);
      } else if ValueOf(s[0]) == None {
        ScanEnds(s[1..], quad, left, pads);
      } else {
        ScanEnds(s[1..], if quad == 3 then 0 else quad + 1, Left(quad, ValueOf(s[0]).value), 0);
      }
    }
  }

  /** The bits that a digit leaves over. */
  function Left(quad: nat, v: Sextet): (left: nat)
    requires quad < 4
    ensures left < Room(if quad == 3 then 0 else quad + 1)
  {
    if quad == 0 then v else if quad == 1 then v % 16 else if quad == 2 then v % 4 else 0
  }

  lemma {:induction false} PadsEnd(n: nat, quad: nat, pads: nat)
    requires quad < 4 && (quad >= 2 ==> quad + pads < 4)
    ensures Ends(Pads(n), quad, pads) <==> quad == 0 || (quad >= 2 && quad + pads + n >= 4)
  {
    if n > 0 {
      assert Pads(n)[1..] == Pads(n - 1);
      if quad < 2 {
        PadsEnd(n - 1, quad, pads);
      } else if quad + pads + 1 < 4 {
        PadsEnd(n - 1, quad, pads + 1);
      }
    }
  }

  lemma NextQuad(quad: nat, n: nat)
    requires quad < 4 && n > 0
    ensures ((if quad == 3 then 0 else quad + 1) + (n - 1)) % 4 == (quad + n) % 4
  {}

  lemma {:induction false} DigitsEnd(s: string, n: nat, quad: nat)
    requires quad < 4 && Alphabet(s)
    ensures var q := (quad + |s|) % 4;
      Ends(s + Pads(n), quad, 0) <==> q == 0 || (q >= 2 && q + n >= 4)
  {
    if s == "" {
      assert s + Pads(n) == Pads(n);
      PadsEnd(n, quad, 0);
    } else {
      assert (s + Pads(n))[0] == s[0] && (s + Pads(n))[1..] == s[1..] + Pads(n);
      assert s[0] != '=';
      NextQuad(quad, |s|);
      DigitsEnd(s[1..], n, if quad == 3 then 0 else quad + 1);
    }
  }

  /** Unpadded text over the alphabet decodes if and only if its length is not 1 mod 4. */
  lemma DecodeAcceptsIff(s: string)
    requires Alphabet(s)
    ensures Decode(s).Some? <==> |s| % 4 != 1
  {
    ScanEnds(s + Padding(s), 0, 0, 0);
    DigitsEnd(s, (-|s|) % 4, 0);
    assert forall i :: 0 <= i < |s| ==> s[i] < '\U{0080}';
    PadSum(|s|);
  }

  lemma PadSum(n: int)
    ensures n % 4 != 0 ==> n % 4 + (-n) % 4 == 4
  {}

  /** The decoder skips ASCII characters outside its alphabet wherever they stand, and refuses any
      other character. */
  lemma ForeignCharacters(s: string, c: char, t: string)
    ensures c >= '\U{0080}' ==> Decode(s + [c] + t) == None
    ensures c != '=' && ValueOf(c) == None ==> Scan(s + [c] + t, 0, 0, 0) == Scan(s + t, 0, 0, 0)
  {
    assert (s + [c] + t)[|s|] == c;
    if c != '=' && ValueOf(c) == None { ScanSkips(s, c, t, 0, 0, 0); }
  }

  lemma {:induction false} ScanSkips(s: string, c: char, t: string, quad: nat, left: nat, pads: nat)
    requires quad < 4 && left < Room(quad) && c != '=' && ValueOf(c) == None
    ensures Scan(s + [c] + t, quad, left, pads) == Scan(s + t, quad, left, pads)
  {
    if s == "" {
      assert s + [c] + t == [c] + t && s + t == t && ([c] + t)[1..] == t;
    } else {
      assert (s + [c] + t)[0] == s[0] == (s + t)[0];
      assert (s + [c] + t)[1..] == s[1..] + [c] + t && (s + t)[1..] == s[1..] + t;
      if s[0] == '=' {
        if quad < 2 || quad + pads + 1 < 4 {
          ScanSkips(s[1..], c, t, quad, left, if quad >= 2 then pads + 1 else pads);
        }
      } else if ValueOf(s[0]) == None {
        ScanSkips(s[1..], c, t, quad, left, pads);
      } else {
        ScanSkips(s[1..], c, t, if quad == 3 then 0 else quad + 1, Left(quad, ValueOf(s[0]).value), 0);
      }
    }
  }
}
