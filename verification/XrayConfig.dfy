/** The Xray configuration `main` assembles: a fixed `freedom` outbound
    tagged `direct` and a `geosite:cn` rule sending to it, then one client,
    one WireGuard outbound and one user rule for every target country that
    yielded a server, in processing order. */
module XrayConfig {
  import opened Wrappers
  import opened Text
  import opened Directory
  import opened ServerDetails

  datatype Client = Client(id: string, email: string)

  datatype Peer = Peer(publicKey: string, endpoint: string)

  /** The two outbound shapes the generator writes. */
  datatype Outbound =
    | Freedom(tag: string)
    | WireGuard(tag: string, secretKey: string, address: seq<string>, peers: seq<Peer>, kernelMode: bool)

  /** A routing rule of `"type": "field"`: by destination domain or by user email. */
  datatype Rule =
    | DomainRule(domain: seq<string>, outboundTag: string)
    | UserRule(user: seq<string>, outboundTag: string)

  datatype Inbound = Inbound(
    port: int, listen: string, protocol: string, clients: seq<Client>,
    decryption: string, network: string, path: string)

  datatype Routing = Routing(domainStrategy: string, rules: seq<Rule>)

  datatype Config = Config(logLevel: string, inbounds: seq<Inbound>, outbounds: seq<Outbound>, routing: Routing)

  /** The three lists `main` grows while it walks the target countries. */
  datatype Assembly = Assembly(clients: seq<Client>, outbounds: seq<Outbound>, rules: seq<Rule>)

  const DirectTag := "direct"
  const GeositeCn := "geosite:cn"
  const EmailSuffix := ".user@example.com"
  const TagPrefix := "nordvpn-"
  /** The interface address every WireGuard outbound shares. */
  const TunnelAddress := "10.5.0.2/32"
  const WebSocketPath := "/xray"

  /** The default outbound, present before any country is processed. */
  const DirectOutbound := Freedom(DirectTag)
  /** The rule commented as a block rule; it routes `geosite:cn` to `direct`. */
  const CnRule := DomainRule([GeositeCn], DirectTag)

  /** The client email for a country code. */
  function EmailFor(code: string): string {
    Lower(code) + EmailSuffix
  }

  /** The outbound tag for a country code. */
  function TagFor(code: string): string {
    TagPrefix + Lower(code)
  }

  /** The peer endpoint `f"{address}:{port}"`. */
  function EndpointText(e: Endpoint): string
  {
    e.address + ":" + Decimal(e.port)
  }

  /** The WireGuard outbound for a country's server. */
  function TunnelFor(code: string, secretKey: string, e: Endpoint): Outbound
  {
    WireGuard(TagFor(code), secretKey, [TunnelAddress], [Peer(e.publicKey, EndpointText(e))], false)
  }

  /** The peer endpoint names the server's address and port: splitting it at its
      last ':' gives back the port, and what precedes it is the address. */
  lemma EndpointTextRoundTrip(e: Endpoint)
    ensures var parts := Split(EndpointText(e), ':');
      && |parts| >= 2
      && parts[|parts| - 1] == Decimal(e.port)
      && DecimalValue(Decimal(e.port)) == e.port
      && Join(parts[..|parts| - 1], ':') == e.address
  {
    var d := Decimal(e.port);
    assert ':' !in d by {
      forall i | 0 <= i < |d| ensures d[i] != ':' { assert IsDigit(d[i]); }
    }
    SplitLastPiece(e.address, d, ':');
    DecimalRoundTrip(e.port);
    var parts := Split(EndpointText(e), ':');
    JoinSplit(EndpointText(e), ':');
    JoinSplit(e.address, ':');
    assert EndpointText(e) == e.address + [':'] + d;
    PrefixOfSplit(e.address, d, ':');
    assert parts[..|parts| - 1] == Split(e.address, ':');
  }

  /** The pieces of `a + sep + b`, `b` holding no separator, are the pieces of `a` followed by `b`. */
  lemma {:induction false} PrefixOfSplit(a: string, b: string, sep: char)
    requires sep !in b
    ensures Split(a + [sep] + b, sep) == Split(a, sep) + [b]
    decreases |a|
  {
    var s := a + [sep] + b;
    if |a| == 0 {
      assert s[1..] == b;
      SplitNoSeparator(b, sep);
    } else {
      assert s[1..] == a[1..] + [sep] + b;
      PrefixOfSplit(a[1..], b, sep);
    }
  }

  /** The state before any country is processed. */
  function Baseline(): Assembly {
    Assembly([], [DirectOutbound], [CnRule])
  }

  /** One processed country that yielded a server: a client with the next id,
      its WireGuard outbound and the rule routing its email to that outbound. */
  function AddCountry(a: Assembly, code: string, e: Endpoint, id: string, secretKey: string): (b: Assembly)
  {
    Assembly(
      a.clients + [Client(id, EmailFor(code))],
      a.outbounds + [TunnelFor(code, secretKey, e)],
      a.rules + [UserRule([EmailFor(code)], TagFor(code))])
  }

  /** The tags of the declared outbounds. */
  function Tags(outbounds: seq<Outbound>): (tags: set<string>)
    ensures forall o :: o in outbounds ==> o.tag in tags
    ensures forall t :: t in tags ==> exists o :: o in outbounds && o.tag == t
  {
    set o | o in outbounds :: o.tag
  }

  /** Referential integrity: every rule names a declared outbound. */
  predicate References(rules: seq<Rule>, outbounds: seq<Outbound>) {
    forall r :: r in rules ==> r.outboundTag in Tags(outbounds)
  }

  /** Adding a country keeps every rule pointing at a declared outbound, only
      appends to the three lists, and grows each of them by exactly one. */
  lemma AddCountryKeepsIntegrity(a: Assembly, code: string, e: Endpoint, id: string, secretKey: string)
    requires References(a.rules, a.outbounds)
    ensures var b := AddCountry(a, code, e, id, secretKey);
      && References(b.rules, b.outbounds)
      && b.clients[..|a.clients|] == a.clients
      && b.outbounds[..|a.outbounds|] == a.outbounds
      && b.rules[..|a.rules|] == a.rules
      && |b.clients| == |a.clients| + 1 && |b.outbounds| == |a.outbounds| + 1 && |b.rules| == |a.rules| + 1
  {
    var b := AddCountry(a, code, e, id, secretKey);
    assert TunnelFor(code, secretKey, e) in b.outbounds;
    forall o | o in a.outbounds ensures o in b.outbounds { }
  }

  /** How many of the lookups yielded a server. */
  function Served(servers: seq<Option<Endpoint>>): (n: nat)
    ensures n <= |servers|
    decreases |servers|
  {
    if |servers| == 0 then 0
    else Served(servers[..|servers| - 1]) + (if servers[|servers| - 1].Some? then 1 else 0)
  }

  /** The countries that yielded a server, each with its endpoint, in processing order. */
  function ServedPairs(targets: seq<Country>, servers: seq<Option<Endpoint>>): (p: seq<(Country, Endpoint)>)
    requires |servers| == |targets|
    ensures |p| == Served(servers)
    decreases |targets|
  {
    if |targets| == 0 then []
    else
      var n := |targets| - 1;
      var rest := ServedPairs(targets[..n], servers[..n]);
      match servers[n]
      case None => rest
      case Some(e) => rest + [(targets[n], e)]
  }

  /** The shape of the assembled lists for the served countries `pairs`: the
      default outbound and rule in front, then, for the i-th served country,
      the i-th client (with the i-th id), the (i+1)-th outbound and the
      (i+1)-th rule, all built from that country's code and endpoint. */
  ghost predicate Assembled(a: Assembly, pairs: seq<(Country, Endpoint)>, ids: seq<string>, secretKey: string) {
    && |a.clients| == |pairs| <= |ids|
    && |a.outbounds| == |a.rules| == |pairs| + 1
    && a.outbounds[0] == DirectOutbound && a.rules[0] == CnRule
    && forall i :: 0 <= i < |pairs| ==>
      var code := pairs[i].0.code;
      && a.clients[i] == Client(ids[i], EmailFor(code))
      && a.outbounds[i + 1] == TunnelFor(code, secretKey, pairs[i].1)
      && a.rules[i + 1] == UserRule([EmailFor(code)], TagFor(code))
  }

  /** The assembly loop of `main`. A country whose lookup is absent is skipped;
      one with a server adds a client (taking the next id), an outbound and a
      rule. The result keeps the default outbound and rule in front, and holds
      one entry per served country in each list, built from that country's
      code and endpoint and the next supplied id. */
  function Assemble(targets: seq<Country>, servers: seq<Option<Endpoint>>, ids: seq<string>, secretKey: string): (a: Assembly)
    requires |servers| == |targets|
    requires |ids| >= Served(servers)
    ensures |a.clients| == Served(servers)
    ensures Assembled(a, ServedPairs(targets, servers), ids, secretKey)
    decreases |targets|
  {
    if |targets| == 0 then
      Baseline()
    else
      var n := |targets| - 1;
      ServedLast(targets, servers);
      var pre := Assemble(targets[..n], servers[..n], ids, secretKey);
      var pairs := ServedPairs(targets[..n], servers[..n]);
      match servers[n]
      case None => pre
      case Some(e) =>
        AssembledStep(pre, pairs, targets[n], e, ids, secretKey);
        AddCountry(pre, targets[n].code, e, ids[|pairs|], secretKey)
  }

  /** How the last lookup extends the served count and the served countries. */
  lemma ServedLast(targets: seq<Country>, servers: seq<Option<Endpoint>>)
    requires |servers| == |targets| > 0
    ensures var n := |targets| - 1;
      && Served(servers) == |ServedPairs(targets[..n], servers[..n])| + (if servers[n].Some? then 1 else 0)
      && ServedPairs(targets, servers) ==
           ServedPairs(targets[..n], servers[..n]) + (if servers[n].Some? then [(targets[n], servers[n].value)] else [])
  {
  }

  /** Adding the next served country, with the next id, extends the shape by that country. */
  lemma AssembledStep(pre: Assembly, pairs: seq<(Country, Endpoint)>, c: Country, e: Endpoint, ids: seq<string>, secretKey: string)
    requires Assembled(pre, pairs, ids, secretKey) && |pairs| < |ids|
    ensures Assembled(AddCountry(pre, c.code, e, ids[|pairs|], secretKey), pairs + [(c, e)], ids, secretKey)
  {
  }

  /** In an assembled configuration the i-th user rule routes the i-th client's email
      to the i-th WireGuard outbound, and the i-th client holds the i-th id. */
  lemma AssembledRoutes(a: Assembly, pairs: seq<(Country, Endpoint)>, ids: seq<string>, secretKey: string)
    requires Assembled(a, pairs, ids, secretKey)
    ensures forall i :: 0 <= i < |a.clients| ==>
      && a.clients[i].id == ids[i]
      && a.rules[i + 1] == UserRule([a.clients[i].email], a.outbounds[i + 1].tag)
  {
  }

  /** Referential integrity of the assembled lists: every routing rule's
      `outboundTag` is the tag of a declared outbound; in fact rule i names
      outbound i. */
  lemma AssembledRulesReferenceOutbounds(targets: seq<Country>, servers: seq<Option<Endpoint>>, ids: seq<string>, secretKey: string)
    requires |servers| == |targets|
    requires |ids| >= Served(servers)
    ensures var a := Assemble(targets, servers, ids, secretKey);
      && (forall j :: 0 <= j < |a.rules| ==> a.rules[j].outboundTag == a.outbounds[j].tag)
      && References(a.rules, a.outbounds)
  {
    var a := Assemble(targets, servers, ids, secretKey);
    var p := ServedPairs(targets, servers);
    forall j | 0 <= j < |a.rules|
      ensures a.rules[j].outboundTag == a.outbounds[j].tag
    {
      if j > 0 {
        assert a.rules[j] == UserRule([EmailFor(p[j - 1].0.code)], TagFor(p[j - 1].0.code));
      }
    }
    forall r | r in a.rules
      ensures r.outboundTag in Tags(a.outbounds)
    {
      var j :| 0 <= j < |a.rules| && a.rules[j] == r;
      assert a.outbounds[j] in a.outbounds;
    }
  }

  /** A country whose lookup is absent changes nothing. */
  lemma SkippedCountryChangesNothing(targets: seq<Country>, servers: seq<Option<Endpoint>>, c: Country, ids: seq<string>, secretKey: string)
    requires |servers| == |targets|
    requires |ids| >= Served(servers)
    ensures Served(servers + [None]) == Served(servers)
    ensures Assemble(targets + [c], servers + [None], ids, secretKey) == Assemble(targets, servers, ids, secretKey)
  {
    assert (targets + [c])[..|targets|] == targets;
    assert (servers + [None])[..|servers|] == servers;
  }

  /** The countries' lower-cased codes are pairwise distinct. */
  predicate DistinctCodes(pairs: seq<(Country, Endpoint)>) {
    forall i, j :: 0 <= i < j < |pairs| ==> Lower(pairs[i].0.code) != Lower(pairs[j].0.code)
  }

  /** Emails and tags keep country codes apart: when the served countries'
      lower-cased codes are pairwise distinct, so are the clients' emails and
      the WireGuard outbounds' tags, no country outbound takes the `direct`
      tag, and distinct supplied ids give distinct client ids. */
  lemma DistinctCodesGiveDistinctRoutes(targets: seq<Country>, servers: seq<Option<Endpoint>>, ids: seq<string>, secretKey: string)
    requires |servers| == |targets|
    requires |ids| >= Served(servers)
    requires DistinctCodes(ServedPairs(targets, servers))
    ensures var a := Assemble(targets, servers, ids, secretKey);
      && (forall i, j :: 0 <= i < j < |a.clients| ==> a.clients[i].email != a.clients[j].email)
      && (forall i, j :: 1 <= i < j < |a.outbounds| ==> a.outbounds[i].tag != a.outbounds[j].tag)
      && (forall i :: 1 <= i < |a.outbounds| ==> a.outbounds[i].tag != DirectTag)
      && ((forall i, j :: 0 <= i < j < |ids| ==> ids[i] != ids[j]) ==>
            forall i, j :: 0 <= i < j < |a.clients| ==> a.clients[i].id != a.clients[j].id)
  {
    var a := Assemble(targets, servers, ids, secretKey);
    var p := ServedPairs(targets, servers);
    forall i, j | 0 <= i < j < |a.clients|
      ensures a.clients[i].email != a.clients[j].email
    {
      assert a.clients[i].email == EmailFor(p[i].0.code);
      assert a.clients[j].email == EmailFor(p[j].0.code);
      var x, y := Lower(p[i].0.code), Lower(p[j].0.code);
      assert (x + EmailSuffix)[..|x|] == x && (y + EmailSuffix)[..|y|] == y;
    }
    forall i, j | 1 <= i < j < |a.outbounds|
      ensures a.outbounds[i].tag != a.outbounds[j].tag
    {
      assert a.outbounds[i] == TunnelFor(p[i - 1].0.code, secretKey, p[i - 1].1);
      assert a.outbounds[j] == TunnelFor(p[j - 1].0.code, secretKey, p[j - 1].1);
      var x, y := Lower(p[i - 1].0.code), Lower(p[j - 1].0.code);
      assert (TagPrefix + x)[|TagPrefix|..] == x && (TagPrefix + y)[|TagPrefix|..] == y;
    }
    forall i | 1 <= i < |a.outbounds|
      ensures a.outbounds[i].tag != DirectTag
    {
      assert a.outbounds[i] == TunnelFor(p[i - 1].0.code, secretKey, p[i - 1].1);
      assert a.outbounds[i].tag[0] == 'n';
    }
    AssembledRoutes(a, p, ids, secretKey);
  }

  const LogLevel := "warning"
  const ListenAll := "0.0.0.0"
  const Vless := "vless"
  const NoDecryption := "none"
  const WebSocket := "ws"
  const DomainStrategy := "IPIfNonMatch"

  /** The config object `main` writes: one VLESS inbound on `port` carrying the
      clients, the outbounds and the routing rules. */
  function BuildConfig(a: Assembly, port: int): Config {
    Config(
      LogLevel,
      [Inbound(port, ListenAll, Vless, a.clients, NoDecryption, WebSocket, WebSocketPath)],
      a.outbounds,
      Routing(DomainStrategy, a.rules))
  }
}
