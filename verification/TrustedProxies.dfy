/** The client address behind trusted proxies: the rightmost untrusted hop. */
module TrustedProxies {
  import opened Wrappers
  import opened Text

  predicate Comma(c: char) { c == ',' }

  /** The stripped, non-blank parts. */
  function Hops(parts: seq<string>): seq<string> {
    if parts == [] then [] else
      var hop := Strip(parts[0], PySpace);
      (if hop == "" then [] else [hop]) + Hops(parts[1..])
  }

  function Chain(header: string): seq<string> { Hops(Split(header, Comma)) }

  function RightmostUntrusted(chain: seq<string>, trusted: set<string>): Option<string> {
    if chain == [] then None
    else if chain[|chain| - 1] !in trusted then Some(chain[|chain| - 1])
    else RightmostUntrusted(chain[..|chain| - 1], trusted)
  }

  /** The specification: `remote` and `header` are the request's META entries. */
  function RealClientIp(remote: Option<string>, header: Option<string>, trusted: set<string>): Option<string> {
    if remote.None? || remote.value == "" then None
    else if remote.value !in trusted then remote
    else
      var hop := RightmostUntrusted(Chain(if header.Some? then header.value else ""), trusted);
      if hop.Some? then hop else remote
  }

  method GetRealClientIp(remote: Option<string>, header: Option<string>, trusted: set<string>)
    returns (ip: Option<string>)
    ensures ip == RealClientIp(remote, header, trusted)
  {
    if remote.None? || remote.value == "" {
      return None;
    }
    if remote.value !in trusted {
      return remote;
    }
    var raw := if header.Some? then header.value else "";
    var chain := Chain(raw);
    var i := |chain|;
    assert chain[..i] == chain;
    while i > 0
      invariant 0 <= i <= |chain|
      invariant RightmostUntrusted(chain, trusted) == RightmostUntrusted(chain[..i], trusted)
    {
      i := i - 1;
      assert chain[..i + 1][..i] == chain[..i];
      if chain[i] !in trusted {
        return Some(chain[i]);
      }
    }
    ip := remote;
  }

  predicate AllTrusted(chain: seq<string>, trusted: set<string>) {
    forall i :: 0 <= i < |chain| ==> chain[i] in trusted
  }

  /** The search returns hop i exactly when i is untrusted and every hop to its right is
      trusted. */
  lemma {:induction false} RightmostIff(chain: seq<string>, trusted: set<string>)
    ensures RightmostUntrusted(chain, trusted).None? <==> AllTrusted(chain, trusted)
    ensures forall i :: 0 <= i < |chain| && chain[i] !in trusted && AllTrusted(chain[i + 1..], trusted) ==>
      RightmostUntrusted(chain, trusted) == Some(chain[i])
  {
    if chain != [] {
      var n := |chain| - 1;
      RightmostIff(chain[..n], trusted);
      forall i | 0 <= i < |chain| && chain[i] !in trusted && AllTrusted(chain[i + 1..], trusted)
        ensures RightmostUntrusted(chain, trusted) == Some(chain[i])
      {
        if i < n {
          assert chain[i + 1..][n - i - 1] == chain[n];
          var between := chain[..n][i + 1..];
          forall j | 0 <= j < |between| ensures between[j] in trusted {
            assert between[j] == chain[i + 1..][j];
          }
        }
      }
      if AllTrusted(chain[..n], trusted) && chain[n] in trusted {
        assert forall i :: 0 <= i < n ==> chain[i] == chain[..n][i];
      }
    }
  }

  /** The address of every request: none without a remote address, the remote address itself for a
      direct connection whatever the header says, otherwise the rightmost hop that is not a
      trusted proxy, and the remote address again when there is none. */
  lemma AddressIff(remote: Option<string>, header: Option<string>, trusted: set<string>, i: nat)
    ensures var ip := RealClientIp(remote, header, trusted);
      var chain := Chain(if header.Some? then header.value else "");
      && (ip == None <==> remote == None || remote == Some(""))
      && (remote.Some? && remote.value != "" && remote.value !in trusted ==> ip == remote)
      && (remote.Some? && remote.value != "" && remote.value in trusted ==>
            && (AllTrusted(chain, trusted) ==> ip == remote)
            && (i < |chain| && chain[i] !in trusted && AllTrusted(chain[i + 1..], trusted) ==> ip == Some(chain[i])))
  {
    RightmostIff(Chain(if header.Some? then header.value else ""), trusted);
  }

  lemma {:induction false} HopsConcat(p: seq<string>, q: seq<string>)
    ensures Hops(p + q) == Hops(p) + Hops(q)
  {
    if p == [] {
      assert p + q == q;
    } else {
      assert (p + q)[1..] == p[1..] + q;
      HopsConcat(p[1..], q);
    }
  }

  /** Splitting and stripping distribute over gluing two headers with a comma. */
  lemma ChainConcat(a: string, b: string)
    ensures Chain(a + "," + b) == Chain(a) + Chain(b)
  {
    SplitAt(a, ',', b, Comma);
    HopsConcat(Split(a, Comma), Split(b, Comma));
  }

  lemma {:induction false} RightmostConcat(a: seq<string>, b: seq<string>, trusted: set<string>)
    ensures RightmostUntrusted(a + b, trusted) ==
      if RightmostUntrusted(b, trusted).Some? then RightmostUntrusted(b, trusted) else RightmostUntrusted(a, trusted)
  {
    if b == [] {
      assert a + b == a;
    } else {
      var n := |b| - 1;
      assert (a + b)[..|a| + n] == a + b[..n];
      RightmostConcat(a, b[..n], trusted);
    }
  }

  lemma {:induction false} RightmostIsUntrusted(chain: seq<string>, trusted: set<string>)
    ensures RightmostUntrusted(chain, trusted).Some? ==> RightmostUntrusted(chain, trusted).value !in trusted
  {
    if chain != [] { RightmostIsUntrusted(chain[..|chain| - 1], trusted); }
  }

  /** Text that a client puts in front of the header changes the result exactly when the rest
      of the header names no untrusted hop and the new text does; never for a direct
      connection. */
  lemma PrependChangesIff(remote: string, text: string, header: string, trusted: set<string>)
    requires remote != ""
    ensures RealClientIp(Some(remote), Some(text + "," + header), trusted) !=
      RealClientIp(Some(remote), Some(header), trusted)
      <==> remote in trusted && AllTrusted(Chain(header), trusted) && !AllTrusted(Chain(text), trusted)
  {
    ChainConcat(text, header);
    RightmostConcat(Chain(text), Chain(header), trusted);
    RightmostIff(Chain(text), trusted);
    RightmostIff(Chain(header), trusted);
    RightmostIsUntrusted(Chain(text), trusted);
  }

  /** One part of a header: its text without surrounding white space, or nothing when blank; with
      ChainConcat this gives the hops of every header. */
  lemma ChainOfPart(part: string)
    requires Free(part, Comma)
    ensures var hop := Strip(part, PySpace);
      Chain(part) == if hop == "" then [] else [hop]
  {
    SplitFree(part, Comma);
    assert Hops([part][1..]) == [];
  }

  /** A header that lists hops reads back as those hops. */
  lemma {:induction false} ChainOfJoin(hops: seq<string>)
    requires forall i :: 0 <= i < |hops| ==> hops[i] != "" && Free(hops[i], Comma) && Stripped(hops[i], PySpace)
    ensures Chain(Join(hops, ',')) == hops
  {
    if hops == [] {
      ChainOfPart("");
    } else {
      SingleHop(hops[0]);
      if |hops| > 1 {
        ChainOfJoin(hops[1..]);
        ChainConcat(hops[0], Join(hops[1..], ','));
        assert hops == [hops[0]] + hops[1..];
        assert [','] == ",";
      } else {
        assert hops == [hops[0]];
      }
    }
  }

  lemma SingleHop(hop: string)
    requires hop != "" && Free(hop, Comma) && Stripped(hop, PySpace)
    ensures Chain(hop) == [hop]
  {
    SplitFree(hop, Comma);
    StripFacts(hop, PySpace);
    assert Hops([hop][1..]) == [] && Hops([hop]) == [hop] + Hops([hop][1..]);
  }

  /** A header that names only the proxy lets the text in front of it through. */
  lemma PrependedHop(proxy: string, text: string, trusted: set<string>)
    requires proxy != "" && Free(proxy, Comma) && Stripped(proxy, PySpace) && proxy in trusted
    requires text != "" && Free(text, Comma) && Stripped(text, PySpace) && text !in trusted
    ensures RealClientIp(Some(proxy), Some(proxy), trusted) == Some(proxy)
    ensures RealClientIp(Some(proxy), Some(text + "," + proxy), trusted) == Some(text)
  {
    SingleHop(proxy);
    SingleHop(text);
    ChainConcat(text, proxy);
    assert Chain(text + "," + proxy) == [text, proxy];
    assert [text, proxy][..1] == [text] && [proxy][..0] == [];
    assert RightmostUntrusted([text, proxy], trusted) == RightmostUntrusted([text], trusted) == Some(text);
    assert RightmostUntrusted([proxy], trusted) == RightmostUntrusted([], trusted);
  }

  lemma PrependExample(proxy: string, text: string)
    requires proxy == "10.0.0.1" && text == "8.8.8.8"
    ensures RealClientIp(Some(proxy), Some(text + "," + proxy), {proxy}) == Some(text) !=
      RealClientIp(Some(proxy), Some(proxy), {proxy})
  {
    PrependedHop(proxy, text, {proxy});
  }
}
