/** Single-use enrollment tokens: found by a 16-character prefix, verified against a hash. */
module Enrollment {
  import opened Wrappers

  const PREFIX_LEN := 16
  const TOKEN_PREFIX := "zto_enr_"

  datatype Token = Token(user: Id, prefix: string, hash: string, expiresAt: int, usedAt: Option<int>)

  /** verify(raw, hash): the password-hash check, a parameter. */
  type Verify = (string, string) -> bool

  function Prefix(raw: string): string { if |raw| <= PREFIX_LEN then raw else raw[..PREFIX_LEN] }

  predicate Active(t: Token, now: int) { t.usedAt == None && t.expiresAt > now }

  /** The newest active row below n with this prefix whose hash verifies. */
  function Search(tokens: seq<Token>, n: nat, raw: string, now: int, verify: Verify): (r: Option<nat>)
    requires n <= |tokens|
    ensures r.Some? ==> r.value < n && Active(tokens[r.value], now) && verify(raw, tokens[r.value].hash)
  {
    if n == 0 then None
    else
      var t := tokens[n - 1];
      if t.prefix == Prefix(raw) && Active(t, now) && verify(raw, t.hash) then Some(n - 1)
      else Search(tokens, n - 1, raw, now, verify)
  }

  function Lookup(tokens: seq<Token>, raw: string, now: int, verify: Verify): (r: Option<nat>)
    ensures r.Some? ==> r.value < |tokens| && Active(tokens[r.value], now) && verify(raw, tokens[r.value].hash)
  {
    if raw == "" then None else Search(tokens, |tokens|, raw, now, verify)
  }

  function Issue(user: Id, raw: string, hash: string, expiresAt: int): Token {
    Token(user, Prefix(raw), hash, expiresAt, None)
  }

  function MarkUsed(tokens: seq<Token>, i: nat, now: int): seq<Token>
    requires i < |tokens|
  {
    tokens[i := tokens[i].(usedAt := Some(now))]
  }

  /** consume(): like the lookup, for tokens with the public prefix, and marks the row used. */
  function Consume(tokens: seq<Token>, raw: string, now: int, verify: Verify): (seq<Token>, Option<nat>) {
    if !(TOKEN_PREFIX <= raw) then (tokens, None) else
      match Search(tokens, |tokens|, raw, now, verify)
      case None => (tokens, None)
      case Some(i) => (MarkUsed(tokens, i, now), Some(i))
  }

  // ----- lookup by prefix is lookup by value ---------------------------------------------------

  /** Rows made by issue() from distinct raw tokens, with a hash that only its token passes. */
  ghost predicate IssuedFrom(tokens: seq<Token>, raws: seq<string>, verify: Verify) {
    && |tokens| == |raws|
    && (forall i :: 0 <= i < |raws| ==> raws[i] != "" && tokens[i].prefix == Prefix(raws[i]))
    && (forall i, r :: 0 <= i < |raws| ==> (verify(r, tokens[i].hash) <==> r == raws[i]))
    && (forall i, j :: 0 <= i < j < |raws| ==> raws[i] != raws[j])
  }

  lemma {:induction false} SearchFinds(tokens: seq<Token>, n: nat, raw: string, now: int, verify: Verify,
          raws: seq<string>)
    requires IssuedFrom(tokens, raws, verify) && n <= |tokens|
    ensures forall i: nat :: Search(tokens, n, raw, now, verify) == Some(i) <==>
      i < n && raws[i] == raw && Active(tokens[i], now)
  {
    if n > 0 {
      SearchFinds(tokens, n - 1, raw, now, verify, raws);
      assert verify(raw, tokens[n - 1].hash) <==> raw == raws[n - 1];
    }
  }

  /** The lookup through the prefix index returns a row exactly when that row is active and
      was issued for this raw token: the same as verifying against every active row. */
  lemma LookupIff(tokens: seq<Token>, raws: seq<string>, raw: string, now: int, verify: Verify, i: nat)
    requires IssuedFrom(tokens, raws, verify)
    ensures Lookup(tokens, raw, now, verify) == Some(i) <==>
      i < |tokens| && tokens[i].usedAt == None && now < tokens[i].expiresAt && verify(raw, tokens[i].hash)
  {
    SearchFinds(tokens, |tokens|, raw, now, verify, raws);
    assert i < |tokens| ==> (verify(raw, tokens[i].hash) <==> raw == raws[i]);
  }

  /** When every row whose hash verifies was used or has reached its expiry, nothing is found and
      nothing consumed. */
  lemma ExpiredOrUsed(tokens: seq<Token>, raw: string, now: int, verify: Verify)
    requires forall i :: 0 <= i < |tokens| && verify(raw, tokens[i].hash) ==>
      tokens[i].usedAt.Some? || tokens[i].expiresAt <= now
    ensures Lookup(tokens, raw, now, verify) == None && Consume(tokens, raw, now, verify) == (tokens, None)
  {}

  /** Consuming succeeds at most once for a raw token, at whatever times it is tried. */
  lemma ConsumeOnce(tokens: seq<Token>, raws: seq<string>, raw: string, now: int, later: int, verify: Verify)
    requires IssuedFrom(tokens, raws, verify)
    ensures var (tokens', r) := Consume(tokens, raw, now, verify);
      && IssuedFrom(tokens', raws, verify)
      && (r.Some? ==> r.value < |tokens| && raws[r.value] == raw && Active(tokens[r.value], now)
                      && tokens' == MarkUsed(tokens, r.value, now)
                      && Consume(tokens', raw, later, verify) == (tokens', None)
                      && Lookup(tokens', raw, later, verify) == None)
      && (r.None? ==> tokens' == tokens)
  {}

  /** Consuming finds exactly the unused, unexpired row of a raw token with the public prefix. */
  lemma ConsumeIff(tokens: seq<Token>, raws: seq<string>, raw: string, now: int, verify: Verify, i: nat)
    requires IssuedFrom(tokens, raws, verify)
    ensures Consume(tokens, raw, now, verify).1 == Some(i) <==>
      "zto_enr_" <= raw && i < |tokens| && raws[i] == raw && tokens[i].usedAt == None && now < tokens[i].expiresAt
  {
    SearchFinds(tokens, |tokens|, raw, now, verify, raws);
  }

  /** A token that was just issued opens the door to its user exactly until it expires; its public
      prefix is the first 16 characters of the raw token. */
  lemma IssuedToken(tokens: seq<Token>, user: Id, raw: string, hash: string, expiresAt: int, now: int, verify: Verify)
    requires raw != "" && verify(raw, hash)
    ensures var t := Issue(user, raw, hash, expiresAt);
      && t.user == user && t.hash == hash && t.prefix <= raw && (t.prefix == raw || |t.prefix| == 16)
      && |t.prefix| <= 16 && (Lookup(tokens + [t], raw, now, verify) == Some(|tokens|) <==> now < expiresAt)
  {}

  // ----- the search loop ------------------------------------------------------------------------

  method LookupActiveToken(tokens: seq<Token>, raw: string, now: int, verify: Verify) returns (r: Option<nat>)
    ensures r == Lookup(tokens, raw, now, verify)
  {
    if raw == "" {
      return None;
    }
    var prefix := Prefix(raw);
    var n := |tokens|;
    while n > 0
      invariant 0 <= n <= |tokens|
      invariant Lookup(tokens, raw, now, verify) == Search(tokens, n, raw, now, verify)
    {
      var candidate := tokens[n - 1];
      if candidate.prefix == prefix && Active(candidate, now) && verify(raw, candidate.hash) {
        return Some(n - 1);
      }
      n := n - 1;
    }
    r := None;
  }
}
