/** The client links `main` prints after writing the config: the country code
    is read back from each client's email and placed in a VLESS link label. */
module Links {
  import opened Wrappers
  import opened Text
  import opened Directory
  import opened ServerDetails
  import opened XrayConfig

  /** The port every printed link names. */
  const TlsPort: nat := 443
  const Scheme := "vless://"
  const LinkQuery := "?type=ws&path=/xray&encryption=none&security=tls"
  const LabelPrefix := "Nord-"

  /** The country code read back from an email: the text before its first '.', upper-cased. */
  function ClientCode(email: string): string {
    Upper(Split(email, '.')[0])
  }

  /** The part of a link before its label: scheme, id, host, port and query. */
  function LinkFront(c: Client, domain: string): string {
    Scheme + (c.id + ("@" + (domain + ":" + Decimal(TlsPort) + LinkQuery)))
  }

  /** The VLESS link printed for a client. `domain` is the value of `XRAY_DOMAIN`,
      or the literal `<YOUR_DOMAIN>` when that variable is unset. */
  function VlessLink(c: Client, domain: string): string {
    LinkFront(c, domain) + "#" + (LabelPrefix + ClientCode(c.email))
  }

  /** For a code without '.', the email built from it gives the code back, upper-cased. */
  lemma EmailCodeRoundTrip(code: string)
    requires '.' !in code
    ensures ClientCode(EmailFor(code)) == Upper(code)
  {
    CaseKeepsNonLetters(code, '.');
    assert EmailFor(code) == Lower(code) + ['.'] + "user@example.com";
    SplitAfterPiece(Lower(code), "user@example.com", '.');
    UpperOfLower(code);
  }

  /** A link can be read back: the text between the scheme and the first '@'
      is the client id, and the text after the last '#' is the label naming
      the client's code, provided the id holds no '@' and the email no '#'. */
  lemma LinkReadsBack(c: Client, domain: string)
    requires '@' !in c.id && '#' !in c.email
    ensures var link := VlessLink(c, domain);
      && |link| >= |Scheme| && link[..|Scheme|] == Scheme
      && Split(link[|Scheme|..], '@')[0] == c.id
      && var pieces := Split(link, '#');
         pieces[|pieces| - 1] == LabelPrefix + ClientCode(c.email)
  {
    LinkIdReadsBack(c, domain);
    LinkLabelReadsBack(c, domain);
  }

  /** The id half of `LinkReadsBack`: the scheme opens the link and the id ends at the first '@'. */
  lemma LinkIdReadsBack(c: Client, domain: string)
    requires '@' !in c.id
    ensures var link := VlessLink(c, domain);
      |link| >= |Scheme| && link[..|Scheme|] == Scheme && Split(link[|Scheme|..], '@')[0] == c.id
  {
    var rest := domain + ":" + Decimal(TlsPort) + LinkQuery;
    var after := c.id + ['@'] + (rest + "#" + (LabelPrefix + ClientCode(c.email)));
    var link := VlessLink(c, domain);
    assert link == Scheme + after;
    assert link[|Scheme|..] == after;
    SplitAfterPiece(c.id, rest + "#" + (LabelPrefix + ClientCode(c.email)), '@');
  }

  /** The label half of `LinkReadsBack`: the label follows the last '#'. */
  lemma LinkLabelReadsBack(c: Client, domain: string)
    requires '#' !in c.email
    ensures var pieces := Split(VlessLink(c, domain), '#');
      pieces[|pieces| - 1] == LabelPrefix + ClientCode(c.email)
  {
    LabelHoldsNoHash(c.email);
    SplitLastPiece(LinkFront(c, domain), LabelPrefix + ClientCode(c.email), '#');
  }

  /** The label of a link holds no '#' when the email holds none. */
  lemma LabelHoldsNoHash(email: string)
    requires '#' !in email
    ensures '#' !in LabelPrefix + ClientCode(email)
  {
    var piece := Split(email, '.')[0];
    JoinSplit(email, '.');
    JoinHoldsPieces(Split(email, '.'), '.', '#');
    CaseKeepsNonLetters(piece, '#');
  }

  /** A character absent from a join is absent from every joined piece. */
  lemma {:induction false} JoinHoldsPieces(parts: seq<string>, sep: char, c: char)
    requires |parts| >= 1
    requires c !in Join(parts, sep)
    ensures forall i :: 0 <= i < |parts| ==> c !in parts[i]
    decreases |parts|
  {
    if |parts| > 1 {
      JoinHoldsPieces(parts[1..], sep, c);
      forall i | 1 <= i < |parts| ensures c !in parts[i] {
        assert parts[i] == parts[1..][i - 1];
      }
    }
  }

  /** In an assembled config, the label of the i-th client's link names the
      i-th served country's code, upper-cased, when that code holds no '.'. */
  lemma AssembledLinkLabels(targets: seq<Country>, servers: seq<Option<Endpoint>>, ids: seq<string>, secretKey: string)
    requires |servers| == |targets|
    requires |ids| >= Served(servers)
    ensures var a := Assemble(targets, servers, ids, secretKey);
      var p := ServedPairs(targets, servers);
      forall i :: 0 <= i < |a.clients| && '.' !in p[i].0.code ==> ClientCode(a.clients[i].email) == Upper(p[i].0.code)
  {
    var a := Assemble(targets, servers, ids, secretKey);
    var p := ServedPairs(targets, servers);
    forall i | 0 <= i < |a.clients| && '.' !in p[i].0.code
      ensures ClientCode(a.clients[i].email) == Upper(p[i].0.code)
    {
      assert a.clients[i].email == EmailFor(p[i].0.code);
      EmailCodeRoundTrip(p[i].0.code);
    }
  }
}
