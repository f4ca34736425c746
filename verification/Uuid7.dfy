/** UUIDv7 packing (section 5.7 of RFC 9562) and the order of its numbers and texts. */
module Uuid7 {

  // ----- bit operations on unbounded naturals -------------------------------------------------

  function Pow2(n: nat): (r: nat)
    ensures r > 0
  {
    if n == 0 then 1 else 2 * Pow2(n - 1)
  }

  function Shl(x: nat, n: nat): nat { x * Pow2(n) }

  function BitOr(a: nat, b: nat): nat {
    if a == 0 then b else if b == 0 then a
    else 2 * BitOr(a / 2, b / 2) + (if a % 2 == 1 || b % 2 == 1 then 1 else 0)
  }

  function BitAnd(a: nat, b: nat): nat {
    if a == 0 || b == 0 then 0
    else 2 * BitAnd(a / 2, b / 2) + (if a % 2 == 1 && b % 2 == 1 then 1 else 0)
  }

  lemma {:induction false} PowAdd(m: nat, n: nat)
    ensures Pow2(m + n) == Pow2(m) * Pow2(n)
  {
    if m > 0 {
      PowAdd(m - 1, n);
      assert Pow2(m + n) == 2 * (Pow2(m - 1) * Pow2(n));
    }
  }

  lemma OrEven(h: nat, y: nat)
    ensures BitOr(2 * h, y) == 2 * BitOr(h, y / 2) + y % 2
  {}

  /** Or-ing into bits that are clear is addition. */
  lemma {:induction false} OrIsSum(x: nat, n: nat, y: nat)
    requires y < Pow2(n)
    ensures BitOr(x * Pow2(n), y) == x * Pow2(n) + y
    decreases n
  {
    if n == 0 {
      assert y == 0;
    } else {
      var half := x * Pow2(n - 1);
      OrIsSum(x, n - 1, y / 2);
      OrEven(half, y);
      Double(x, n);
    }
  }

  lemma Double(x: nat, n: nat)
    requires n > 0
    ensures x * Pow2(n) == 2 * (x * Pow2(n - 1))
  {
  }

  /** And-ing with a mask of n ones keeps the remainder. */
  lemma {:induction false} MaskIsRemainder(x: nat, n: nat)
    ensures BitAnd(x, Pow2(n) - 1) == x % Pow2(n)
    decreases n
  {
    if n > 0 {
      var p := Pow2(n - 1);
      MaskIsRemainder(x / 2, n - 1);
      assert (2 * p - 1) / 2 == p - 1 && (2 * p - 1) % 2 == 1;
      HalfRemainder(x, p);
    } else {
      assert Pow2(0) == 1;
    }
  }

  lemma HalfRemainder(x: nat, p: nat)
    requires p > 0
    ensures x % (2 * p) == 2 * ((x / 2) % p) + x % 2
  {
    var (h, b) := (x / 2, x % 2);
    var (q, r) := (h / p, h % p);
    assert x == (2 * p) * q + (2 * r + b) by { assert h == p * q + r; }
    DivUnique(x, 2 * p, q, 2 * r + b);
  }

  lemma DivUnique(x: nat, d: nat, q: nat, r: nat)
    requires r < d && x == d * q + r
    ensures x / d == q && x % d == r
  {
    var (k, s) := (x / d, x % d);
    assert d * (q - k) == s - r;
    Multiple(d, q - k);
  }

  lemma {:induction false} Multiple(d: int, m: int)
    requires d >= 0
    ensures (m >= 1 ==> d * m >= d) && (m <= -1 ==> d * m <= -d)
    decreases if m < 0 then -m else m
  {}

  // ----- packing --------------------------------------------------------------------------------

  const VERSION := 7
  const VARIANT := 2

  /** Where each field starts, and the width of the timestamp field. */
  datatype Layout = Layout(msBits: nat, stamp: nat, version: nat, randA: nat, variant: nat) {
    /** Four version bits, twelve random bits, two variant bits, and the rest random. */
    predicate Fits() { stamp == version + 4 && version == randA + 12 && randA == variant + 2 }
  }

  /** The layout of section 5.7 of RFC 9562. */
  const RFC9562 := Layout(48, 80, 76, 64, 62)

  /** uuid7() for a clock reading in nanoseconds and two random draws. */
  function Uuid7(l: Layout, ns: nat, randA: nat, randB: nat): nat {
    var ms := BitAnd(ns / 1_000_000, Shl(1, l.msBits) - 1);
    BitOr(BitOr(BitOr(BitOr(Shl(ms, l.stamp), Shl(VERSION, l.version)), Shl(randA, l.randA)), Shl(VARIANT, l.variant)),
      randB)
  }

  /** The timestamp field: milliseconds, reduced to its width. */
  function Stamp(l: Layout, ns: nat): nat { (ns / 1_000_000) % Pow2(l.msBits) }

  predicate Draws(l: Layout, randA: nat, randB: nat) { randA < 4096 && randB < Pow2(l.variant) }

  lemma Widths(l: Layout)
    requires l.Fits()
    ensures Pow2(l.stamp) == Pow2(l.version) * 16
    ensures Pow2(l.version) == Pow2(l.randA) * 4096
    ensures Pow2(l.randA) == Pow2(l.variant) * 4
  {
    assert Pow2(2) == 4 && Pow2(4) == 16 && Pow2(12) == 4096;
    PowAdd(l.version, 4);
    PowAdd(l.randA, 12);
    PowAdd(l.variant, 2);
  }

  lemma MulLess(a: nat, b: nat, p: nat)
    requires a < b && p > 0
    ensures a * p + p <= b * p
  {
    Multiple(p, b - a);
    assert b * p == a * p + p * (b - a);
  }

  lemma Distribute(high: nat, width: nat, field: nat, p: nat)
    ensures high * (p * width) + field * p == (high * width + field) * p
  {}

  lemma ShiftedFits(field: nat, width: nat, low: nat, n: nat)
    requires Pow2(n) == Pow2(low) * width && field < width
    ensures Shl(field, low) < Pow2(n)
  {
    MulLess(field, width, Pow2(low));
  }

  /** Gluing a field of `width` values below the bits already packed. */
  lemma Pack(high: nat, n: nat, field: nat, low: nat, width: nat)
    requires Pow2(n) == Pow2(low) * width && field < width
    ensures BitOr(Shl(high, n), Shl(field, low)) == Shl(high * width + field, low)
  {
    ShiftedFits(field, width, low, n);
    OrIsSum(high, n, Shl(field, low));
    Distribute(high, width, field, Pow2(low));
  }

  /** Timestamp, version, first random field and variant as one number above the last bits. */
  function High(ms: nat, randA: nat): nat { ((ms * 16 + VERSION) * 4096 + randA) * 4 + VARIANT }

  lemma PackedForm(l: Layout, ns: nat, randA: nat, randB: nat)
    requires l.Fits() && Draws(l, randA, randB)
    ensures Uuid7(l, ns, randA, randB) == High(Stamp(l, ns), randA) * Pow2(l.variant) + randB
  {
    var ms := Stamp(l, ns);
    MaskIsRemainder(ns / 1_000_000, l.msBits);
    Widths(l);
    var h1 := ms * 16 + VERSION;
    var h2 := h1 * 4096 + randA;
    Pack(ms, l.stamp, VERSION, l.version, 16);
    Pack(h1, l.version, randA, l.randA, 4096);
    Pack(h2, l.randA, VARIANT, l.variant, 4);
    OrIsSum(High(ms, randA), l.variant, randB);
  }

  /** Splitting v = (high * width + field) * low + rest at low and at low * width. */
  lemma Unpack(v: nat, high: nat, field: nat, low: nat, width: nat, rest: nat)
    requires field < width && rest < low && v == (high * width + field) * low + rest
    ensures field * low + rest < low * width && v == high * (low * width) + (field * low + rest)
    ensures v / (low * width) == high && v / low % width == field
  {
    MulLess(field, width, low);
    Distribute(high, width, field, low);
    DivUnique(v, low, high * width + field, rest);
    DivUnique(v, low * width, high, field * low + rest);
    DivUnique(high * width + field, width, high, field);
  }

  lemma UnpackFields(v: nat, ms: nat, randA: nat, randB: nat, stamp: nat, version: nat, a: nat, variant: nat)
      returns (rest: nat)
    requires stamp == version * 16 && version == a * 4096 && a == variant * 4
    requires randA < 4096 && randB < variant && v == High(ms, randA) * variant + randB
    ensures v / stamp == ms && v / version % 16 == VERSION && v / a % 4096 == randA
    ensures v / variant % 4 == VARIANT && v % variant == randB
    ensures rest < stamp && v == ms * stamp + rest
  {
    var h1 := ms * 16 + VERSION;
    var h2 := h1 * 4096 + randA;
    DivUnique(v, variant, h2 * 4 + VARIANT, randB);
    Unpack(v, h2, VARIANT, variant, 4, randB);
    var r2 := VARIANT * variant + randB;
    Unpack(v, h1, randA, a, 4096, r2);
    var r1 := randA * a + r2;
    Unpack(v, ms, VERSION, version, 16, r1);
    rest := VERSION * version + r1;
  }

  /** Every field can be read back from its bits, and the value fits the width. */
  lemma FieldsReadBack(l: Layout, ns: nat, randA: nat, randB: nat)
    requires l.Fits() && Draws(l, randA, randB)
    ensures var v := Uuid7(l, ns, randA, randB);
      && v < Pow2(l.msBits + l.stamp)
      && v / Pow2(l.stamp) == Stamp(l, ns)
      && v / Pow2(l.version) % 16 == VERSION
      && v / Pow2(l.randA) % 4096 == randA
      && v / Pow2(l.variant) % 4 == VARIANT
      && v % Pow2(l.variant) == randB
  {
    var (v, ms) := (Uuid7(l, ns, randA, randB), Stamp(l, ns));
    PackedForm(l, ns, randA, randB);
    Widths(l);
    var rest := UnpackFields(v, ms, randA, randB, Pow2(l.stamp), Pow2(l.version), Pow2(l.randA), Pow2(l.variant));
    PowAdd(l.msBits, l.stamp);
    MulLess(ms, Pow2(l.msBits), Pow2(l.stamp));
  }

  /** The numeric order is the lexicographic order of timestamp and random fields. */
  lemma OrderIff(l: Layout, ns: nat, a: nat, b: nat, ns': nat, a': nat, b': nat)
    requires l.Fits() && Draws(l, a, b) && Draws(l, a', b')
    ensures Uuid7(l, ns, a, b) < Uuid7(l, ns', a', b') <==>
      (Stamp(l, ns) < Stamp(l, ns') || (Stamp(l, ns) == Stamp(l, ns') && (a < a' || (a == a' && b < b'))))
  {
    PackedForm(l, ns, a, b);
    PackedForm(l, ns', a', b');
    var (h, h') := (High(Stamp(l, ns), a), High(Stamp(l, ns'), a'));
    if h < h' {
      MulLess(h, h', Pow2(l.variant));
    } else if h' < h {
      MulLess(h', h, Pow2(l.variant));
    }
  }

  /** A later millisecond gives a larger value whatever the draws, until the field wraps. */
  lemma LaterIsLarger(l: Layout, ns: nat, a: nat, b: nat, ns': nat, a': nat, b': nat)
    requires l.Fits() && Draws(l, a, b) && Draws(l, a', b')
    requires ns / 1_000_000 < ns' / 1_000_000 < Pow2(l.msBits)
    ensures Uuid7(l, ns, a, b) < Uuid7(l, ns', a', b')
  {
    OrderIff(l, ns, a, b, ns', a', b');
    DivUnique(ns / 1_000_000, Pow2(l.msBits), 0, ns / 1_000_000);
    DivUnique(ns' / 1_000_000, Pow2(l.msBits), 0, ns' / 1_000_000);
  }

  // ----- the text form ------------------------------------------------------------------------------

  function HexDigit(d: nat): char
    requires d < 16
  {
    if d < 10 then ('0' as int + d) as char else ('a' as int + (d - 10)) as char
  }

  /** f"{v:0{w}x}" for a value of at most w digits. */
  function Hex(v: nat, w: nat): (s: string)
    ensures |s| == w
    decreases w
  {
    if w == 0 then "" else Hex(v / 16, w - 1) + [HexDigit(v % 16)]
  }

  const HEX_DIGITS := 32

  /** str(uuid.UUID(int=v)): groups of 8, 4, 4, 4 and 12 digits. */
  function Dashed(h: string): string
    requires |h| == HEX_DIGITS
  {
    h[..8] + "-" + h[8..12] + "-" + h[12..16] + "-" + h[16..20] + "-" + h[20..]
  }

  predicate LexLess(s: string, t: string) {
    if t == "" then false
    else if s == "" then true
    else if s[0] != t[0] then s[0] < t[0]
    else LexLess(s[1..], t[1..])
  }

  /** Comparing texts with parts of equal length compares the parts from left to right. */
  lemma {:induction false} LexConcat(a: string, x: string, b: string, y: string)
    requires |a| == |b|
    ensures LexLess(a + x, b + y) <==> LexLess(a, b) || (a == b && LexLess(x, y))
  {
    if a == "" {
      assert a + x == x && b + y == y;
    } else {
      assert (a + x)[1..] == a[1..] + x && (b + y)[1..] == b[1..] + y;
      assert a == [a[0]] + a[1..] && b == [b[0]] + b[1..];
      LexConcat(a[1..], x, b[1..], y);
    }
  }

  lemma LexSelf(s: string)
    ensures !LexLess(s, s)
  {}

  lemma {:induction false} HexOrder(u: nat, v: nat, w: nat)
    requires u < Pow2(4 * w) && v < Pow2(4 * w)
    ensures LexLess(Hex(u, w), Hex(v, w)) <==> u < v
    ensures Hex(u, w) == Hex(v, w) <==> u == v
    decreases w
  {
    if w > 0 {
      assert Pow2(4 * w) == 16 * Pow2(4 * (w - 1)) by { HexWidth(w); }
      HexOrder(u / 16, v / 16, w - 1);
      var (a, b) := (Hex(u / 16, w - 1), Hex(v / 16, w - 1));
      var (x, y) := (HexDigit(u % 16), HexDigit(v % 16));
      LexConcat(a, [x], b, [y]);
      LastDigit(a, x, b, y);
      assert LexLess([x], [y]) <==> x < y;
    } else {
      assert Pow2(0) == 1;
    }
  }

  lemma HexWidth(w: nat)
    requires w > 0
    ensures Pow2(4 * w) == 16 * Pow2(4 * (w - 1))
  {
    assert Pow2(4) == 16;
    PowAdd(4, 4 * (w - 1));
  }

  lemma LastDigit(a: string, x: char, b: string, y: char)
    requires |a| == |b|
    ensures a + [x] == b + [y] <==> a == b && x == y
  {
    if a + [x] == b + [y] {
      assert (a + [x])[..|a|] == a && (b + [y])[..|b|] == b;
      assert (a + [x])[|a|] == x && (b + [y])[|b|] == y;
    }
  }

  function Insert(h: string, k: nat): string
    requires k <= |h|
  {
    h[..k] + "-" + h[k..]
  }

  lemma InsertOrder(s: string, t: string, k: nat)
    requires k <= |s| == |t|
    ensures LexLess(Insert(s, k), Insert(t, k)) <==> LexLess(s, t)
  {
    LexConcat(s[..k], s[k..], t[..k], t[k..]);
    assert s[..k] + s[k..] == s && t[..k] + t[k..] == t;
    LexConcat(s[..k] + "-", s[k..], t[..k] + "-", t[k..]);
    LexConcat(s[..k], "-", t[..k], "-");
    LastDigit(s[..k], '-', t[..k], '-');
    LexSelf("-");
  }

  lemma DashedInserts(h: string)
    requires |h| == HEX_DIGITS
    ensures Dashed(h) == Insert(Insert(Insert(Insert(h, 20), 16), 12), 8)
  {
    var (h1, h2, h3) := (Insert(h, 20), Insert(Insert(h, 20), 16), Insert(Insert(Insert(h, 20), 16), 12));
    assert h1[..16] == h[..16] && h1[16..] == h[16..20] + "-" + h[20..];
    assert h2[..12] == h[..12] && h2[12..] == h[12..16] + "-" + h1[16..];
    assert h3[..8] == h[..8] && h3[8..] == h[8..12] + "-" + h2[12..];
  }

  lemma DashedOrder(s: string, t: string)
    requires |s| == |t| == HEX_DIGITS
    ensures LexLess(Dashed(s), Dashed(t)) <==> LexLess(s, t)
  {
    DashedInserts(s);
    DashedInserts(t);
    InsertOrder(s, t, 20);
    InsertOrder(Insert(s, 20), Insert(t, 20), 16);
    InsertOrder(Insert(Insert(s, 20), 16), Insert(Insert(t, 20), 16), 12);
    InsertOrder(Insert(Insert(Insert(s, 20), 16), 12), Insert(Insert(Insert(t, 20), 16), 12), 8);
  }

  /** For all 128-bit values the order of the texts is the order of the numbers. */
  lemma TextOrder(u: nat, v: nat, w: nat)
    requires w == HEX_DIGITS && u < Pow2(4 * w) && v < Pow2(4 * w)
    ensures LexLess(Dashed(Hex(u, w)), Dashed(Hex(v, w))) <==> u < v
  {
    HexOrder(u, v, w);
    DashedOrder(Hex(u, w), Hex(v, w));
  }

  /** So primary keys made in later milliseconds sort later, as numbers and as texts. */
  lemma TextFollowsTime(l: Layout, w: nat, ns: nat, a: nat, b: nat, ns': nat, a': nat, b': nat)
    requires w == HEX_DIGITS && l.Fits() && l.msBits + l.stamp == 4 * w
    requires Draws(l, a, b) && Draws(l, a', b')
    requires ns / 1_000_000 < ns' / 1_000_000 < Pow2(l.msBits)
    ensures LexLess(Dashed(Hex(Uuid7(l, ns, a, b), w)), Dashed(Hex(Uuid7(l, ns', a', b'), w)))
  {
    FieldsReadBack(l, ns, a, b);
    FieldsReadBack(l, ns', a', b');
    LaterIsLarger(l, ns, a, b, ns', a', b');
    TextOrder(Uuid7(l, ns, a, b), Uuid7(l, ns', a', b'), w);
  }

  /** The number that w hexadecimal digits, in either case, stand for. */
  function ReadHex(s: string): int {
    if s == "" then 0 else
      var c := s[|s| - 1];
      16 * ReadHex(s[..|s| - 1]) +
        (if '0' <= c <= '9' then c as int - '0' as int else if 'a' <= c <= 'f' then c as int - 'a' as int + 10
         else if 'A' <= c <= 'F' then c as int - 'A' as int + 10 else 0)
  }

  lemma {:induction false} HexReads(v: nat, w: nat)
    requires v < Pow2(4 * w)
    ensures ReadHex(Hex(v, w)) == v
    ensures forall i :: 0 <= i < w ==> '0' <= Hex(v, w)[i] <= '9' || 'a' <= Hex(v, w)[i] <= 'f'
  {
    if w > 0 {
      HexWidth(w);
      HexReads(v / 16, w - 1);
      assert Hex(v, w)[..w - 1] == Hex(v / 16, w - 1);
    }
  }

  /** A key's text has 36 characters with dashes at 8, 13, 18 and 23, and the hexadecimal digits
      between them spell its number. */
  lemma TextReads(v: nat, w: nat)
    requires w == HEX_DIGITS && v < Pow2(4 * w)
    ensures var t := Dashed(Hex(v, w));
      && |t| == 36 && t[8] == t[13] == t[18] == t[23] == '-'
      && ReadHex(t[..8] + t[9..13] + t[14..18] + t[19..23] + t[24..]) == v
  {
    HexReads(v, w);
    DashedShape(Hex(v, w));
  }

  lemma DashedShape(h: string)
    requires |h| == HEX_DIGITS
    ensures var t := Dashed(h);
      && |t| == 36 && t[8] == t[13] == t[18] == t[23] == '-'
      && t[..8] + t[9..13] + t[14..18] + t[19..23] + t[24..] == h
  {
    var t := Dashed(h);
    assert t[..8] == h[..8] && t[9..13] == h[8..12] && t[14..18] == h[12..16] && t[19..23] == h[16..20];
    assert t[24..] == h[20..];
    assert h[..8] + h[8..12] + h[12..16] + h[16..20] + h[20..] == h;
  }

  // ----- the layout of the code -----------------------------------------------------------------------

  const UUID_BITS := 128

  /** At the code's own layout: values fit 128 bits and give back the milliseconds modulo 2^48, the
      version 7, the variant 2 and both random fields from the bits of the standard. */
  lemma Rfc9562Reads(ns: nat, randA: nat, randB: nat)
    requires Draws(RFC9562, randA, randB)
    ensures var v := Uuid7(RFC9562, ns, randA, randB);
      && v < Pow2(UUID_BITS)
      && v / Pow2(RFC9562.stamp) == ns / 1_000_000 % Pow2(RFC9562.msBits)
      && v / Pow2(RFC9562.version) % 16 == 7
      && v / Pow2(RFC9562.randA) % 4096 == randA
      && v / Pow2(RFC9562.variant) % 4 == 2
      && v % Pow2(RFC9562.variant) == randB
    ensures (UUID_BITS, RFC9562.msBits, RFC9562.stamp, RFC9562.version) == (128, 48, 80, 76)
    ensures (RFC9562.randA, RFC9562.variant) == (64, 62)
  {
    FieldsReadBack(RFC9562, ns, randA, randB);
  }

  /** ... and keys of later milliseconds have larger texts, until the 48 bits wrap. */
  lemma Rfc9562Sorts(ns: nat, a: nat, b: nat, ns': nat, a': nat, b': nat)
    requires Draws(RFC9562, a, b) && Draws(RFC9562, a', b')
    requires ns / 1_000_000 < ns' / 1_000_000 < Pow2(RFC9562.msBits)
    ensures LexLess(Dashed(Hex(Uuid7(RFC9562, ns, a, b), HEX_DIGITS)),
      Dashed(Hex(Uuid7(RFC9562, ns', a', b'), HEX_DIGITS)))
  {
    TextFollowsTime(RFC9562, HEX_DIGITS, ns, a, b, ns', a', b');
  }
}
