/** `get_nordvpn_server_details`: up to three requests for a recommended
    WireGuard server, then the endpoint record built from the first server
    returned. The HTTP responses are inputs: `outcomes[i]` is what the i-th
    request would produce. Every exception inside the function (a request
    error on the last attempt, a missing key, an empty list indexed) ends in
    `None`. */
module ServerDetails {
  import opened Wrappers

  /** One `metadata` entry of a technology; `None` stands for a missing key. */
  datatype Meta = Meta(name: Option<string>, value: Option<string>)

  /** One entry of a server's `technologies` list; a missing `metadata` key reads as `[]`. */
  datatype Technology = Technology(identifier: Option<string>, metadata: seq<Meta>)

  /** The `country` object of a server location. */
  datatype CountryInfo = CountryInfo(code: Option<string>)

  /** One entry of a server's `locations` list. */
  datatype Location = Location(country: Option<CountryInfo>)

  /** A server record of the recommendations endpoint. A missing `technologies`
      key reads as `[]`; `locations` keeps the difference between a missing
      key (`None`) and an empty list. */
  datatype Server = Server(
    hostname: Option<string>,
    station: Option<string>,
    technologies: seq<Technology>,
    locations: Option<seq<Location>>)

  /** The record the function returns for a usable server. */
  datatype Endpoint = Endpoint(address: string, port: nat, publicKey: string, hostname: string, country: string)

  /** What one request produces: a request error, or the decoded JSON list. */
  datatype Attempt = RequestFailed | Responded(data: seq<Server>)

  /** The state after the retry loop: how many requests were made and either
      the exception raised by the last one or the `data` it left behind. */
  datatype Fetched = Fetched(attempts: nat, outcome: Eval<seq<Server>>)

  const MaxAttempts: nat := 3
  const WireGuardUdp := "wireguard_udp"
  const PublicKeyName := "public_key"
  /** The fixed WireGuard port every endpoint record carries. */
  const WireGuardPort: nat := 51820
  const UnknownCountry := "UNKNOWN"

  /** A response that ends the retry loop: a non-empty server list. */
  predicate Delivered(a: Attempt) {
    a.Responded? && |a.data| > 0
  }

  /** The retry loop from attempt `attempt` on. A request error before the last
      attempt, or an empty list, moves on to the next attempt; a request error on
      the last attempt is re-raised; a non-empty list breaks out of the loop. */
  function FetchFrom(outcomes: seq<Attempt>, attempt: nat): (f: Fetched)
    requires attempt < MaxAttempts <= |outcomes|
    ensures attempt < f.attempts <= MaxAttempts
    ensures forall i :: attempt <= i < f.attempts - 1 ==> !Delivered(outcomes[i])
    ensures Delivered(outcomes[f.attempts - 1]) || f.attempts == MaxAttempts
    ensures f.outcome == Raises <==> outcomes[f.attempts - 1] == RequestFailed
    ensures f.outcome.Returns? ==> outcomes[f.attempts - 1] == Responded(f.outcome.value)
    decreases MaxAttempts - attempt
  {
    var last := attempt == MaxAttempts - 1;
    match outcomes[attempt]
    case RequestFailed =>
      if last then Fetched(attempt + 1, Raises) else FetchFrom(outcomes, attempt + 1)
    case Responded(data) =>
      if |data| > 0 || last then Fetched(attempt + 1, Returns(data)) else FetchFrom(outcomes, attempt + 1)
  }

  /** The whole retry loop: at most three requests, stopping at the first
      non-empty list; when no request delivers, the third request decides
      between an exception and an empty `data`. */
  function Fetch(outcomes: seq<Attempt>): (f: Fetched)
    requires MaxAttempts <= |outcomes|
    ensures 1 <= f.attempts <= MaxAttempts
    ensures forall i :: 0 <= i < f.attempts - 1 ==> !Delivered(outcomes[i])
    ensures Delivered(outcomes[f.attempts - 1]) || f.attempts == MaxAttempts
    ensures f.outcome == Raises <==> outcomes[f.attempts - 1] == RequestFailed
    ensures f.outcome.Returns? ==> outcomes[f.attempts - 1] == Responded(f.outcome.value)
  {
    FetchFrom(outcomes, 0)
  }

  /** The inner metadata loop: the value of the first `public_key` entry
      (`Returns(None)` when there is none). Reading `name` of an entry before
      it, or `value` of that entry, raises when the key is missing. */
  function MetaKey(metadata: seq<Meta>): (r: Eval<Option<string>>)
    ensures r.Returns? && r.value.Some? ==> Meta(Some(PublicKeyName), r.value) in metadata
    ensures r == Returns(None) ==> forall m :: m in metadata ==> m.name != Some(PublicKeyName)
    decreases |metadata|
  {
    if |metadata| == 0 then Returns(None)
    else
      var m := metadata[0];
      match m.name
      case None => Raises
      case Some(n) =>
        if n == PublicKeyName then
          match m.value
          case None => Raises
          case Some(v) => Returns(Some(v))
        else
          var r := MetaKey(metadata[1..]);
          assert metadata == [m] + metadata[1..];
          r
  }

  /** A metadata entry the inner loop reads past: it has a `name`, and the name is not `public_key`. */
  predicate PassesMeta(m: Meta) {
    m.name.Some? && m.name != Some(PublicKeyName)
  }

  /** The inner loop stops at the first entry it cannot read past: it raises
      there when that entry lacks `name`, or is the `public_key` entry and lacks
      `value`; otherwise it yields that entry's value. */
  lemma {:induction false} MetaKeyStopsAt(metadata: seq<Meta>, k: nat)
    requires k < |metadata|
    requires forall j :: 0 <= j < k ==> PassesMeta(metadata[j])
    requires !PassesMeta(metadata[k])
    ensures MetaKey(metadata) == if metadata[k].name.None? || metadata[k].value.None? then Raises else Returns(metadata[k].value)
    decreases k
  {
    if k > 0 {
      var rest := metadata[1..];
      assert PassesMeta(metadata[0]);
      forall j | 0 <= j < k - 1
        ensures PassesMeta(rest[j])
      {
        assert rest[j] == metadata[j + 1];
      }
      assert rest[k - 1] == metadata[k];
      MetaKeyStopsAt(rest, k - 1);
    }
  }

  /** When the loop reads past every entry, no key is found and nothing raises. */
  lemma {:induction false} MetaKeyAbsent(metadata: seq<Meta>)
    requires forall j :: 0 <= j < |metadata| ==> PassesMeta(metadata[j])
    ensures MetaKey(metadata) == Returns(None)
    decreases |metadata|
  {
    if |metadata| > 0 {
      var rest := metadata[1..];
      assert PassesMeta(metadata[0]);
      forall j | 0 <= j < |rest|
        ensures PassesMeta(rest[j])
      {
        assert rest[j] == metadata[j + 1];
      }
      MetaKeyAbsent(rest);
    }
  }

  /** A technology entry that offers a WireGuard public key. */
  ghost predicate CarriesKey(t: Technology) {
    t.identifier == Some(WireGuardUdp) && exists m :: m in t.metadata && m.name == Some(PublicKeyName)
  }

  /** The outer technology loop, with the key found so far: each `wireguard_udp`
      entry whose metadata names a `public_key` overwrites it, so the last such
      entry wins. Reading `identifier` of an entry raises when the key is missing. */
  function ScanKey(techs: seq<Technology>, current: Option<string>): (r: Eval<Option<string>>)
    ensures r.Returns? && r.value.Some? && r.value != current ==>
      exists t :: t in techs && t.identifier == Some(WireGuardUdp) && Meta(Some(PublicKeyName), r.value) in t.metadata
    ensures r.Returns? && (forall t :: t in techs ==> !CarriesKey(t)) ==> r.value == current
    decreases |techs|
  {
    if |techs| == 0 then Returns(current)
    else
      var t := techs[0];
      assert techs == [t] + techs[1..];
      match t.identifier
      case None => Raises
      case Some(id) =>
        if id != WireGuardUdp then ScanKey(techs[1..], current)
        else
          match MetaKey(t.metadata)
          case Raises => Raises
          case Returns(found) => ScanKey(techs[1..], if found.Some? then found else current)
  }

  /** A technology entry the outer loop gets past without raising. */
  predicate ScansPast(t: Technology) {
    t.identifier.Some? && (t.identifier != Some(WireGuardUdp) || MetaKey(t.metadata).Returns?)
  }

  /** A technology entry that overwrites the key found so far. */
  predicate OffersKey(t: Technology) {
    t.identifier == Some(WireGuardUdp) && MetaKey(t.metadata).Returns? && MetaKey(t.metadata).value.Some?
  }

  /** The scan raises exactly when some entry lacks `identifier`, or is a
      `wireguard_udp` entry whose metadata loop raises. */
  lemma {:induction false} ScanKeyReturnsIff(techs: seq<Technology>, current: Option<string>)
    ensures ScanKey(techs, current).Returns? <==> forall i :: 0 <= i < |techs| ==> ScansPast(techs[i])
    decreases |techs|
  {
    if |techs| > 0 {
      var t := techs[0];
      var rest := techs[1..];
      var next := if OffersKey(t) then MetaKey(t.metadata).value else current;
      ScanKeyReturnsIff(rest, next);
      assert forall i :: 0 <= i < |rest| ==> rest[i] == techs[i + 1];
      if ScansPast(t) {
        assert ScanKey(techs, current) == ScanKey(rest, next);
        assert (forall i :: 0 <= i < |techs| ==> ScansPast(techs[i])) <==> (forall i :: 0 <= i < |rest| ==> ScansPast(rest[i])) by {
          forall i | 0 <= i < |techs| && (forall j :: 0 <= j < |rest| ==> ScansPast(rest[j]))
            ensures ScansPast(techs[i])
          {
            if i > 0 {
              assert techs[i] == rest[i - 1];
            }
          }
        }
      }
    }
  }

  /** Entries that get scanned without offering a key leave the key found so far. */
  lemma {:induction false} ScanKeyNoOffer(techs: seq<Technology>, current: Option<string>)
    requires forall i :: 0 <= i < |techs| ==> ScansPast(techs[i]) && !OffersKey(techs[i])
    ensures ScanKey(techs, current) == Returns(current)
    decreases |techs|
  {
    if |techs| > 0 {
      var rest := techs[1..];
      assert ScansPast(techs[0]) && !OffersKey(techs[0]);
      forall i | 0 <= i < |rest|
        ensures ScansPast(rest[i]) && !OffersKey(rest[i])
      {
        assert rest[i] == techs[i + 1];
      }
      ScanKeyNoOffer(rest, current);
    }
  }

  /** Scanning a concatenation scans the second part from where the first left off. */
  lemma {:induction false} ScanKeyAppend(a: seq<Technology>, b: seq<Technology>, current: Option<string>)
    requires ScanKey(a, current).Returns?
    ensures ScanKey(a + b, current) == ScanKey(b, ScanKey(a, current).value)
    decreases |a|
  {
    if |a| == 0 {
      assert a + b == b;
    } else {
      var t := a[0];
      assert (a + b)[0] == t && (a + b)[1..] == a[1..] + b;
      var next := if OffersKey(t) then MetaKey(t.metadata).value else current;
      assert ScanKey(a, current) == ScanKey(a[1..], next);
      assert ScanKey(a + b, current) == ScanKey(a[1..] + b, next);
      ScanKeyAppend(a[1..], b, next);
    }
  }

  /** The last `wireguard_udp` entry whose metadata yields a key decides the
      key: whatever earlier entries offered, and however many entries follow
      it that offer none, the scan ends with its key. */
  lemma LastWireGuardKeyWins(techs: seq<Technology>, t: Technology, rest: seq<Technology>, current: Option<string>, v: string)
    requires t.identifier == Some(WireGuardUdp) && MetaKey(t.metadata) == Returns(Some(v))
    requires ScanKey(techs, current).Returns?
    requires forall i :: 0 <= i < |rest| ==> ScansPast(rest[i]) && !OffersKey(rest[i])
    ensures ScanKey(techs + [t] + rest, current) == Returns(Some(v))
  {
    assert techs + [t] + rest == techs + ([t] + rest);
    ScanKeyAppend(techs, [t] + rest, current);
    var c := ScanKey(techs, current).value;
    assert ([t] + rest)[0] == t && ([t] + rest)[1..] == rest;
    assert ScanKey([t] + rest, c) == ScanKey(rest, Some(v));
    ScanKeyNoOffer(rest, Some(v));
  }

  /** The country code of a server: the code of the country of its first
      location. A missing `locations`, `country` or `code` key gives `UNKNOWN`;
      a `locations` list that is present but empty has no first element, and
      the lookup raises IndexError. */
  function LocationCountry(locations: Option<seq<Location>>): (r: Eval<string>)
    ensures r == Raises <==> locations == Some([])
    ensures locations.None? ==> r == Returns(UnknownCountry)
    ensures locations.Some? && |locations.value| > 0 ==>
      && (locations.value[0].country.None? ==> r == Returns(UnknownCountry))
      && (locations.value[0].country == Some(CountryInfo(None)) ==> r == Returns(UnknownCountry))
      && (forall code :: locations.value[0].country == Some(CountryInfo(Some(code))) ==> r == Returns(code))
  {
    match locations
    case None => Returns(UnknownCountry)
    case Some(locs) =>
      if |locs| == 0 then Raises
      else match locs[0].country
        case None => Returns(UnknownCountry)
        case Some(info) => Returns(info.code.ValueOr(UnknownCountry))
  }

  /** The endpoint record for the first server of a response: absent when
      `hostname` or `station` is missing, when the key scan raises, when no
      non-empty public key is found, or when `locations` is an empty list. */
  function ExtractEndpoint(server: Server): (r: Option<Endpoint>)
    ensures r.Some? ==>
      && server.hostname == Some(r.value.hostname)
      && server.station == Some(r.value.address)
      && r.value.port == WireGuardPort
      && r.value.publicKey != ""
      && ScanKey(server.technologies, None) == Returns(Some(r.value.publicKey))
      && LocationCountry(server.locations) == Returns(r.value.country)
    ensures (forall t :: t in server.technologies ==> !CarriesKey(t)) ==> r.None?
    ensures
      && server.hostname.Some? && server.station.Some?
      && ScanKey(server.technologies, None).Returns?
      && ScanKey(server.technologies, None).value.Some?
      && ScanKey(server.technologies, None).value.value != ""
      && server.locations != Some([])
      ==> r.Some?
  {
    match (server.hostname, server.station)
    case (Some(hostname), Some(station)) =>
      (match ScanKey(server.technologies, None)
       case Returns(Some(key)) =>
         if key == "" then None
         else
           (match LocationCountry(server.locations)
            case Returns(code) => Some(Endpoint(station, WireGuardPort, key, hostname, code))
            case Raises => None)
       case _ => None)
    case _ => None
  }

  /** `get_nordvpn_server_details` for one country: the endpoint of the first
      server of the delivered response, or absent when the last request raised,
      when no request delivered a server, or when that server is unusable. */
  function Details(outcomes: seq<Attempt>): (r: Option<Endpoint>)
    requires MaxAttempts <= |outcomes|
    ensures Fetch(outcomes).outcome == Raises ==> r.None?
    ensures (forall i :: 0 <= i < MaxAttempts ==> !Delivered(outcomes[i])) ==> r.None?
    ensures r.Some? ==>
      && r.value.port == WireGuardPort
      && exists i :: 0 <= i < MaxAttempts && Delivered(outcomes[i]) && ExtractEndpoint(outcomes[i].data[0]) == r
    ensures forall i :: 0 <= i < MaxAttempts && Delivered(outcomes[i]) && (forall j :: 0 <= j < i ==> !Delivered(outcomes[j])) ==>
      r == ExtractEndpoint(outcomes[i].data[0])
  {
    var f := Fetch(outcomes);
    match f.outcome
    case Raises => None
    case Returns(data) =>
      if |data| == 0 then None
      else
        var r := ExtractEndpoint(data[0]);
        assert Delivered(outcomes[f.attempts - 1]);
        r
  }
}
