/**
 * Which client address a request is charged to.  Parsing one address is the business of
 * the platform and a parameter here; splitting the header and walking the chain is not.
 */
module ForwardedFor {
  import opened Common
  import opened Cidr

  datatype Version = V4 | V6

  datatype RawIp = RawIp(version: Version, bytes: Bytes, text: string)
  type Ip = x: RawIp | |x.bytes| == 16 witness RawIp(V4, seq(16, i => 0), "")

  datatype RawNetwork = RawNetwork(version: Version, bytes: Bytes, prefixLength: nat)
  type Network = x: RawNetwork | |x.bytes| == 16 && x.prefixLength <= 128 witness RawNetwork(V4, seq(16, i => 0), 0)

  type Parser = string -> Option<Ip>

  // ------------------------------------------------------------------ trust

  ghost predicate InNetwork(n: Network, ip: Ip) {
    n.version == ip.version && SameNetwork(n.bytes, ip.bytes, n.prefixLength)
  }

  ghost predicate Trusted(proxies: seq<Network>, ip: Ip) {
    exists i :: 0 <= i < |proxies| && InNetwork(proxies[i], ip)
  }

  method IsTrustedProxy(proxies: seq<Network>, ip: Ip) returns (trusted: bool)
    ensures trusted <==> Trusted(proxies, ip)
  {
    for i := 0 to |proxies|
      invariant forall j :: 0 <= j < i ==> !InNetwork(proxies[j], ip)
    {
      if proxies[i].version == ip.version {
        var matches := PrefixMatches(proxies[i].bytes, ip.bytes, proxies[i].prefixLength);
        if matches {
          assert InNetwork(proxies[i], ip);
          return true;
        }
      }
    }
    trusted := false;
  }

  // ------------------------------------------------------------------ the header

  predicate IsSpace(c: char) {
    c == ' ' || c == '\t' || c == '\n' || c == '\r' || c == '\U{0B}' || c == '\U{0C}'
  }

  predicate Blank(s: string) {
    forall i :: 0 <= i < |s| ==> IsSpace(s[i])
  }

  /** One more character in front of a token list: a comma starts a new token. */
  function InFront(c: char, tokens: seq<string>): (r: seq<string>)
    requires |tokens| >= 1
    ensures |r| >= 1
  {
    if c == ',' then [""] + tokens else [[c] + tokens[0]] + tokens[1..]
  }

  /** The text between commas, read off character by character. */
  function Split(s: string): (r: seq<string>)
    ensures |r| >= 1
  {
    if s == "" then [""] else InFront(s[0], Split(s[1..]))
  }

  lemma InFrontJoined(c: char, a: seq<string>, b: seq<string>)
    requires |a| >= 1
    ensures InFront(c, a + b) == InFront(c, a) + b
  {
  }

  /** All tokens parsed, or nothing. */
  function ParseAll(parse: Parser, tokens: seq<string>): Option<seq<Ip>> {
    if tokens == [] then Some([])
    else
      var first, rest := parse(tokens[0]), ParseAll(parse, tokens[1..]);
      if first.Some? && rest.Some? then Some([first.value] + rest.value) else None
  }

  function Chain(parse: Parser, header: string): Option<seq<Ip>> {
    if Blank(header) then None else ParseAll(parse, Split(header))
  }

  lemma {:induction false} SplitWithoutComma(s: string)
    requires ',' !in s
    ensures Split(s) == [s]
  {
    if s != "" {
      SplitWithoutComma(s[1..]);
      assert [s[0]] + s[1..] == s;
    }
  }

  lemma {:induction false} SplitAtComma(a: string, b: string)
    requires ',' !in a
    ensures Split(a + "," + b) == [a] + Split(b)
  {
    var s := a + "," + b;
    if a == "" {
      assert s[1..] == b;
    } else {
      SplitAtComma(a[1..], b);
      assert s[1..] == a[1..] + "," + b;
      assert [s[0]] + a[1..] == a;
    }
  }

  /** Joining two headers with a comma joins their token lists. */
  lemma {:induction false} SplitJoined(a: string, b: string)
    ensures Split(a + "," + b) == Split(a) + Split(b)
  {
    var s := a + "," + b;
    if a == "" {
      assert s[1..] == b;
    } else {
      SplitJoined(a[1..], b);
      assert s[1..] == a[1..] + "," + b;
      InFrontJoined(a[0], Split(a[1..]), Split(b));
    }
  }

  function Both(x: Option<seq<Ip>>, y: Option<seq<Ip>>): Option<seq<Ip>> {
    if x.Some? && y.Some? then Some(x.value + y.value) else None
  }

  function Leading(first: Option<Ip>, rest: Option<seq<Ip>>): Option<seq<Ip>> {
    if first.Some? && rest.Some? then Some([first.value] + rest.value) else None
  }

  lemma LeadingBoth(first: Option<Ip>, x: Option<seq<Ip>>, y: Option<seq<Ip>>)
    ensures Leading(first, Both(x, y)) == Both(Leading(first, x), y)
  {
    if first.Some? && x.Some? && y.Some? {
      assert [first.value] + (x.value + y.value) == ([first.value] + x.value) + y.value;
    }
  }

  lemma ParseAllUnfold(parse: Parser, tokens: seq<string>)
    requires tokens != []
    ensures ParseAll(parse, tokens) == Leading(parse(tokens[0]), ParseAll(parse, tokens[1..]))
  {
  }

  /** Parsing a joined list parses the parts; one malformed entry spoils the whole. */
  lemma {:induction false} ParseAllJoined(parse: Parser, a: seq<string>, b: seq<string>)
    ensures ParseAll(parse, a + b) == Both(ParseAll(parse, a), ParseAll(parse, b))
  {
    if a == [] {
      var whole := ParseAll(parse, b);
      assert a + b == b;
      if whole.Some? { assert [] + whole.value == whole.value; }
    } else {
      ParseAllJoined(parse, a[1..], b);
      ParseAllUnfold(parse, a);
      ParseAllUnfold(parse, a + b);
      assert (a + b)[1..] == a[1..] + b;
      LeadingBoth(parse(a[0]), ParseAll(parse, a[1..]), ParseAll(parse, b));
    }
  }

  lemma {:induction false} ParseAllLength(parse: Parser, tokens: seq<string>)
    ensures ParseAll(parse, tokens).Some? ==> |ParseAll(parse, tokens).value| == |tokens|
  {
    if tokens != [] { ParseAllLength(parse, tokens[1..]); }
  }

  method FindComma(s: string) returns (pos: nat)
    ensures pos <= |s| && ',' !in s[..pos]
    ensures pos < |s| ==> s[pos] == ','
  {
    pos := 0;
    while pos < |s| && s[pos] != ','
      invariant pos <= |s| && ',' !in s[..pos]
    {
      pos := pos + 1;
    }
  }

  method Trim(s: string) returns (t: string)
    ensures exists i, j :: 0 <= i <= j <= |s| && t == s[i..j] && Blank(s[..i]) && Blank(s[j..])
    ensures t != "" ==> !IsSpace(t[0]) && !IsSpace(t[|t| - 1])
    ensures t != "" ==> t[0] !in " \t\n\r\U{0B}\U{0C}" && t[|t| - 1] !in " \t\n\r\U{0B}\U{0C}"
    ensures t == "" <==> Blank(s)
  {
    var i, j := 0, |s|;
    while i < j && IsSpace(s[i])
      invariant 0 <= i <= j && Blank(s[..i])
    {
      i := i + 1;
    }
    while i < j && IsSpace(s[j - 1])
      invariant i <= j <= |s| && Blank(s[j..]) && (i < j ==> !IsSpace(s[i])) && (i == j ==> Blank(s))
    {
      j := j - 1;
      assert s[j..] == [s[j]] + s[j + 1..];
    }
    t := s[i..j];
  }

  /** Cuts the header at its commas and parses as it goes. */
  method ParseForwardedFor(parse: Parser, header: string) returns (chain: Option<seq<Ip>>)
    ensures chain == Chain(parse, header)
  {
    var trimmed := Trim(header);
    if trimmed == "" { return None; }
    var left := header;
    var result: seq<Ip> := [];
    ghost var all := ParseAll(parse, Split(header));
    assert all.Some? ==> [] + all.value == all.value;
    while true
      invariant ParseAll(parse, Split(header)) ==
                (var rest := ParseAll(parse, Split(left)); if rest.Some? then Some(result + rest.value) else None)
      decreases |left|
    {
      var pos := FindComma(left);
      var token := left[..pos];
      var parsed := parse(token);
      ghost var tail := if pos == |left| then [] else Split(left[pos + 1..]);
      assert Split(left) == [token] + tail by {
        if pos == |left| {
          assert token == left;
          SplitWithoutComma(left);
        } else {
          assert left == token + "," + left[pos + 1..];
          SplitAtComma(token, left[pos + 1..]);
        }
      }
      assert ([token] + tail)[1..] == tail;
      if parsed.None? { return None; }
      ghost var rest := ParseAll(parse, tail);
      assert rest.Some? ==> result + ([parsed.value] + rest.value) == (result + [parsed.value]) + rest.value;
      result := result + [parsed.value];
      assert result + [] == result;
      if pos == |left| { break; }
      left := left[pos + 1..];
    }
    chain := Some(result);
  }

  // ------------------------------------------------------------------ the walk

  /** The last untrusted entry, or the first entry when all are trusted. */
  ghost function Choose(proxies: seq<Network>, chain: seq<Ip>): Ip
    requires |chain| > 0
  {
    var last := chain[|chain| - 1];
    if !Trusted(proxies, last) then last
    else if |chain| == 1 then last
    else Choose(proxies, chain[..|chain| - 1])
  }

  ghost predicate AllTrusted(proxies: seq<Network>, chain: seq<Ip>) {
    forall i :: 0 <= i < |chain| ==> Trusted(proxies, chain[i])
  }

  lemma TrustedSnoc(proxies: seq<Network>, chain: seq<Ip>, peer: Ip)
    ensures AllTrusted(proxies, chain + [peer]) <==> AllTrusted(proxies, chain) && Trusted(proxies, peer)
  {
    var all := chain + [peer];
    assert all[|chain|] == peer;
    assert forall i :: 0 <= i < |chain| ==> all[i] == chain[i];
  }

  lemma ChosenSnoc(proxies: seq<Network>, front: seq<Ip>, last: Ip, k: nat)
    requires k < |front| && Trusted(proxies, last)
    ensures AllTrusted(proxies, (front + [last])[k + 1..]) <==> AllTrusted(proxies, front[k + 1..])
    ensures AllTrusted(proxies, front + [last]) <==> AllTrusted(proxies, front)
  {
    TrustedSnoc(proxies, front, last);
    TrustedSnoc(proxies, front[k + 1..], last);
    assert (front + [last])[k + 1..] == front[k + 1..] + [last];
  }

  /** What the choice means: everything after it is trusted, and it is untrusted unless nothing is. */
  lemma {:induction false} ChosenEntry(proxies: seq<Network>, chain: seq<Ip>) returns (k: nat)
    requires |chain| > 0
    ensures k < |chain| && Choose(proxies, chain) == chain[k]
    ensures AllTrusted(proxies, chain[k + 1..])
    ensures if AllTrusted(proxies, chain) then k == 0 else !Trusted(proxies, chain[k])
  {
    var last := chain[|chain| - 1];
    if !Trusted(proxies, last) || |chain| == 1 {
      k := |chain| - 1;
    } else {
      var front := chain[..|chain| - 1];
      k := ChosenEntry(proxies, front);
      assert chain == front + [last];
      ChosenSnoc(proxies, front, last, k);
    }
  }

  /** Entries put in front cannot displace an untrusted one. */
  lemma {:induction false} ChoiceIgnoresPrefix(proxies: seq<Network>, more: seq<Ip>, chain: seq<Ip>)
    requires |chain| > 0 && !AllTrusted(proxies, chain)
    ensures Choose(proxies, more + chain) == Choose(proxies, chain)
  {
    var last := chain[|chain| - 1];
    if Trusted(proxies, last) {
      var front := chain[..|chain| - 1];
      assert chain == front + [last];
      assert |chain| > 1;
      ChoiceIgnoresPrefix(proxies, more, front);
      assert (more + chain)[..|more + chain| - 1] == more + front;
    }
  }

  /** Trusted entries at the end have no say. */
  lemma {:induction false} ChoiceSkipsTrusted(proxies: seq<Network>, front: seq<Ip>, chain: seq<Ip>)
    requires |front| > 0 && AllTrusted(proxies, chain)
    ensures Choose(proxies, front + chain) == Choose(proxies, front)
  {
    if chain == [] {
      assert front + chain == front;
    } else {
      var last, rest := chain[|chain| - 1], chain[..|chain| - 1];
      ChoiceSkipsTrusted(proxies, front, rest);
      assert (front + chain)[..|front + chain| - 1] == front + rest;
    }
  }

  /** The client address as the service defines it. */
  ghost function ClientIp(proxies: seq<Network>, parse: Parser, remote: string, xff: string, xri: string): Option<string> {
    var peer := parse(remote);
    if peer.None? then None
    else if !Trusted(proxies, peer.value) then Some(peer.value.text)
    else if xff != "" && Chain(parse, xff).Some? then Some(Choose(proxies, Chain(parse, xff).value + [peer.value]).text)
    else if xri != "" && parse(xri).Some? then Some(parse(xri).value.text)
    else Some(peer.value.text)
  }

  method WalkBack(proxies: seq<Network>, chain: seq<Ip>) returns (ip: Ip)
    requires |chain| > 0
    ensures ip == Choose(proxies, chain)
  {
    var i := |chain|;
    assert chain[..i] == chain;
    while i > 0
      invariant 0 <= i <= |chain|
      invariant i > 0 ==> Choose(proxies, chain) == Choose(proxies, chain[..i])
      invariant i == 0 ==> Choose(proxies, chain) == chain[0]
    {
      var entry := chain[i - 1];
      assert chain[..i][i - 1] == entry && chain[..i][..i - 1] == chain[..i - 1];
      var trusted := IsTrustedProxy(proxies, entry);
      if !trusted { return entry; }
      i := i - 1;
    }
    ip := chain[0];
  }

  method Extract(proxies: seq<Network>, parse: Parser, remote: string, xff: string, xri: string)
    returns (ip: Option<string>)
    ensures ip == ClientIp(proxies, parse, remote, xff, xri)
    ensures parse(remote).None? ==> ip == None
    ensures parse(remote).Some? && !Trusted(proxies, parse(remote).value) ==> ip == Some(parse(remote).value.text)
    ensures parse(remote).Some? && Trusted(proxies, parse(remote).value) && (xff == "" || Chain(parse, xff).None?) ==>
              ip == if xri != "" && parse(xri).Some? then Some(parse(xri).value.text) else Some(parse(remote).value.text)
  {
    var peer := parse(remote);
    if peer.None? { return None; }
    var trusted := IsTrustedProxy(proxies, peer.value);
    if !trusted { return Some(peer.value.text); }
    if xff != "" {
      var chain := ParseForwardedFor(parse, xff);
      ParseAllLength(parse, Split(xff));
      if chain.Some? && chain.value != [] {
        var client := WalkBack(proxies, chain.value + [peer.value]);
        return Some(client.text);
      }
    }
    if xri != "" {
      var direct := parse(xri);
      if direct.Some? { return Some(direct.value.text); }
    }
    ip := Some(peer.value.text);
  }

  // ------------------------------------------------------------------ main results

  /** Behind a trusted peer the answer is the rightmost untrusted entry, or the first if all are trusted. */
  lemma TrustedPeerAnswer(proxies: seq<Network>, parse: Parser, remote: string, xff: string, xri: string) returns (k: nat)
    requires parse(remote).Some? && Trusted(proxies, parse(remote).value) && xff != "" && Chain(parse, xff).Some?
    ensures var chain := Chain(parse, xff).value;
            && k < |chain|
            && ClientIp(proxies, parse, remote, xff, xri) == Some(chain[k].text)
            && AllTrusted(proxies, chain[k + 1..])
            && (if AllTrusted(proxies, chain) then k == 0 else !Trusted(proxies, chain[k]))
  {
    var chain, peer := Chain(parse, xff).value, parse(remote).value;
    ParseAllLength(parse, Split(xff));
    k := ChosenEntry(proxies, chain + [peer]);
    assert (chain + [peer])[|chain|] == peer;
    TrustedSnoc(proxies, chain, peer);
    assert (chain + [peer])[k + 1..] == chain[k + 1..] + [peer];
    TrustedSnoc(proxies, chain[k + 1..], peer);
  }

  /** A header without a comma is one entry. */
  lemma SingleEntry(parse: Parser, header: string)
    requires ',' !in header
    ensures Chain(parse, header) ==
            if (forall i :: 0 <= i < |header| ==> header[i] in " \t\n\r\U{0B}\U{0C}") || parse(header).None? then None
            else Some([parse(header).value])
  {
    SplitWithoutComma(header);
    var tokens := [header];
    ParseAllUnfold(parse, tokens);
    assert tokens[1..] == [];
    if parse(header).Some? { assert [parse(header).value] + [] == [parse(header).value]; }
  }

  lemma LongerChain(parse: Parser, more: string, xff: string)
    requires Chain(parse, xff).Some? && ParseAll(parse, Split(more)).Some?
    ensures Chain(parse, more + "," + xff) == Some(ParseAll(parse, Split(more)).value + Chain(parse, xff).value)
  {
    assert (more + "," + xff)[|more|] == ',';
    SplitJoined(more, xff);
    ParseAllJoined(parse, Split(more), Split(xff));
  }

  lemma ChoiceIgnoresFront(proxies: seq<Network>, extra: seq<Ip>, chain: seq<Ip>, peer: Ip)
    requires !AllTrusted(proxies, chain)
    ensures Choose(proxies, extra + chain + [peer]) == Choose(proxies, chain + [peer])
  {
    TrustedSnoc(proxies, chain, peer);
    ChoiceIgnoresPrefix(proxies, extra, chain + [peer]);
    assert extra + (chain + [peer]) == extra + chain + [peer];
  }

  /** Entries that parse cannot displace an untrusted one by standing in front of it. */
  lemma PrependingChangesNothing(proxies: seq<Network>, parse: Parser, remote: string, more: string, xff: string, xri: string)
    requires Chain(parse, xff).Some? && !AllTrusted(proxies, Chain(parse, xff).value)
    requires ParseAll(parse, Split(more)).Some?
    ensures ClientIp(proxies, parse, remote, more + "," + xff, xri) == ClientIp(proxies, parse, remote, xff, xri)
  {
    LongerChain(parse, more, xff);
    NonBlankChain(parse, xff);
    if parse(remote).Some? {
      ChoiceIgnoresFront(proxies, ParseAll(parse, Split(more)).value, Chain(parse, xff).value, parse(remote).value);
    }
  }

  lemma NonBlankChain(parse: Parser, xff: string)
    requires Chain(parse, xff).Some?
    ensures xff != ""
  {
  }

  /** Without a usable chain the single-address header decides, and without that the peer. */
  function Fallback(parse: Parser, peer: Ip, xri: string): string {
    if xri != "" && parse(xri).Some? then parse(xri).value.text else peer.text
  }

  lemma MalformedFront(parse: Parser, more: string, xff: string)
    requires ParseAll(parse, Split(more)).None?
    ensures Chain(parse, more + "," + xff).None?
  {
    SplitJoined(more, xff);
    ParseAllJoined(parse, Split(more), Split(xff));
  }

  lemma TrustedFront(proxies: seq<Network>, parse: Parser, remote: string, more: string, xff: string, xri: string)
    requires parse(remote).Some? && Trusted(proxies, parse(remote).value)
    requires Chain(parse, xff).Some? && AllTrusted(proxies, Chain(parse, xff).value)
    requires ParseAll(parse, Split(more)).Some?
    ensures ParseAll(parse, Split(more)).value != []
    ensures ClientIp(proxies, parse, remote, more + "," + xff, xri) ==
            Some(Choose(proxies, ParseAll(parse, Split(more)).value).text)
  {
    var extra, chain, peer := ParseAll(parse, Split(more)).value, Chain(parse, xff).value, parse(remote).value;
    ParseAllLength(parse, Split(more));
    LongerChain(parse, more, xff);
    NonBlankChain(parse, more + "," + xff);
    TrustedSnoc(proxies, chain, peer);
    ChoiceSkipsTrusted(proxies, extra, chain + [peer]);
    assert extra + (chain + [peer]) == extra + chain + [peer];
  }

  /**
   * What a longer header does behind a trusted peer, for everything that may stand in front.
   * A malformed entry spoils the whole header, and the answer falls back; entries that parse
   * decide only if the rest was all trusted.
   */
  lemma PrependedAnswer(proxies: seq<Network>, parse: Parser, remote: string, more: string, xff: string, xri: string)
    requires parse(remote).Some? && Trusted(proxies, parse(remote).value) && Chain(parse, xff).Some?
    ensures ParseAll(parse, Split(more)).Some? ==> ParseAll(parse, Split(more)).value != []
    ensures ClientIp(proxies, parse, remote, more + "," + xff, xri) ==
            var extra := ParseAll(parse, Split(more));
            if extra.None? then Some(Fallback(parse, parse(remote).value, xri))
            else if AllTrusted(proxies, Chain(parse, xff).value) then Some(Choose(proxies, extra.value).text)
            else ClientIp(proxies, parse, remote, xff, xri)
  {
    if ParseAll(parse, Split(more)).None? {
      MalformedFront(parse, more, xff);
    } else {
      ParseAllLength(parse, Split(more));
      if AllTrusted(proxies, Chain(parse, xff).value) {
        TrustedFront(proxies, parse, remote, more, xff, xri);
      } else {
        PrependingChangesNothing(proxies, parse, remote, more, xff, xri);
      }
    }
  }

  /** In the presence of an untrusted entry, what is put in front is harmless exactly if it parses or the fallback agrees. */
  lemma PrependingHarmlessExactly(proxies: seq<Network>, parse: Parser, remote: string, more: string, xff: string, xri: string)
    requires parse(remote).Some? && Trusted(proxies, parse(remote).value)
    requires Chain(parse, xff).Some? && !AllTrusted(proxies, Chain(parse, xff).value)
    ensures ClientIp(proxies, parse, remote, more + "," + xff, xri) == ClientIp(proxies, parse, remote, xff, xri) <==>
            || ParseAll(parse, Split(more)).Some?
            || Choose(proxies, Chain(parse, xff).value + [parse(remote).value]).text == Fallback(parse, parse(remote).value, xri)
  {
    PrependedAnswer(proxies, parse, remote, more, xff, xri);
    NonBlankChain(parse, xff);
  }

  // ------------------------------------------------------------------ one malformed header

  const PROXY: Ip := RawIp(V6, seq(15, i => 0) + [1], "::1")
  const CLIENT: Ip := RawIp(V6, seq(15, i => 0) + [2], "::2")

  /** A parser that knows two addresses. */
  function ParseTwo(): Parser {
    (t: string) => if t == "::1" then Some(PROXY) else if t == "::2" then Some(CLIENT) else None
  }

  lemma OnlyTheProxyIsTrusted(proxies: seq<Network>)
    requires proxies == [RawNetwork(V6, PROXY.bytes, 128)]
    ensures Trusted(proxies, PROXY) && !Trusted(proxies, CLIENT)
  {
    assert PROXY.bytes[15] != CLIENT.bytes[15];
    ShortestAndLongest(PROXY.bytes, CLIENT.bytes);
    assert InNetwork(proxies[0], PROXY) && !InNetwork(proxies[0], CLIENT);
  }

  lemma ClientAlone()
    ensures Chain(ParseTwo(), "::2") == Some([CLIENT])
  {
    var tokens := ["::2"];
    SplitWithoutComma("::2");
    assert !IsSpace("::2"[0]);
    assert tokens[1..] == [];
    ParseAllUnfold(ParseTwo(), tokens);
    assert ParseTwo()("::2") == Some(CLIENT);
    assert [CLIENT] + [] == [CLIENT];
  }

  /** A client that sends ",::2" instead of "::2" is taken for the proxy in front of the service. */
  lemma LeadingCommaMovesTheAnswer(proxies: seq<Network>)
    requires proxies == [RawNetwork(V6, PROXY.bytes, 128)]
    ensures ClientIp(proxies, ParseTwo(), "::1", "::2", "") == Some("::2")
    ensures ClientIp(proxies, ParseTwo(), "::1", "" + "," + "::2", "") == Some("::1")
  {
    OnlyTheProxyIsTrusted(proxies);
    ClientAlone();
    var chain := [CLIENT];
    assert !Trusted(proxies, chain[0]);
    var k := TrustedPeerAnswer(proxies, ParseTwo(), "::1", "::2", "");
    ParseAllUnfold(ParseTwo(), Split(""));
    PrependedAnswer(proxies, ParseTwo(), "::1", "", "::2", "");
  }

  // ------------------------------------------------------------------ when headers matter

  lemma {:induction false} ParseAllAt(parse: Parser, tokens: seq<string>, k: nat)
    requires ParseAll(parse, tokens).Some? && k < |ParseAll(parse, tokens).value|
    ensures k < |tokens| && parse(tokens[k]) == Some(ParseAll(parse, tokens).value[k])
  {
    if k > 0 { ParseAllAt(parse, tokens[1..], k - 1); }
  }

  /** Every answer behind a parseable peer is the text of an address that some text parses to. */
  lemma AnswerIsParsed(proxies: seq<Network>, parse: Parser, remote: string, xff: string, xri: string) returns (t: string)
    requires parse(remote).Some?
    ensures parse(t).Some? && ClientIp(proxies, parse, remote, xff, xri) == Some(parse(t).value.text)
  {
    t := remote;
    if Trusted(proxies, parse(remote).value) {
      if xff != "" && Chain(parse, xff).Some? {
        var k := TrustedPeerAnswer(proxies, parse, remote, xff, xri);
        ParseAllAt(parse, Split(xff), k);
        t := Split(xff)[k];
      } else if xri != "" && parse(xri).Some? {
        t := xri;
      }
    }
  }

  ghost predicate HeadersMatter(proxies: seq<Network>, parse: Parser, remote: string) {
    exists xff, xri, xff', xri' ::
      ClientIp(proxies, parse, remote, xff, xri) != ClientIp(proxies, parse, remote, xff', xri')
  }

  /** Some text parses to an address that reads differently from the peer's. */
  ghost predicate OtherAddress(parse: Parser, peer: Ip) {
    exists t :: parse(t).Some? && parse(t).value.text != peer.text
  }

  /** The headers have a say exactly behind a trusted peer, as long as there is any other address to name. */
  lemma HeadersMatterExactly(proxies: seq<Network>, parse: Parser, remote: string)
    requires parse("").None?
    ensures HeadersMatter(proxies, parse, remote) <==>
            parse(remote).Some? && Trusted(proxies, parse(remote).value) && OtherAddress(parse, parse(remote).value)
  {
    if parse(remote).Some? && Trusted(proxies, parse(remote).value) {
      if OtherAddress(parse, parse(remote).value) {
        var t :| parse(t).Some? && parse(t).value.text != parse(remote).value.text;
        assert ClientIp(proxies, parse, remote, "", t) != ClientIp(proxies, parse, remote, "", "");
      }
      if HeadersMatter(proxies, parse, remote) {
        var xff, xri, xff', xri' :|
          ClientIp(proxies, parse, remote, xff, xri) != ClientIp(proxies, parse, remote, xff', xri');
        var t := AnswerIsParsed(proxies, parse, remote, xff, xri);
        var t' := AnswerIsParsed(proxies, parse, remote, xff', xri');
      }
    }
  }
}
