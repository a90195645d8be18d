/** The decision logic of the generator's `main`: the two required settings,
    the country filter, one server lookup per target country, the assembly
    loop and the config object. Environment values are parameters (an unset
    key or country list reads as the empty string, as both are falsy; an
    unset port is `None`, and a set port is already an integer), the country
    directory and the HTTP responses are inputs, and `ids` supplies the UUIDs
    in the order they are drawn. */
module Generator {
  import opened Wrappers
  import opened Directory
  import opened ServerDetails
  import opened XrayConfig

  /** The fatal exits of `main` before anything is written. */
  datatype RunError = MissingPrivateKey | MissingCountries | NoMatchingCountries

  /** The port the inbound listens on when `XRAY_PORT` is unset. */
  const DefaultPort := 10000

  /** One `get_nordvpn_server_details` call per target country, in order. */
  function Lookups(targets: seq<Country>, responses: int -> seq<Attempt>): (servers: seq<Option<Endpoint>>)
    requires forall id :: |responses(id)| >= MaxAttempts
    ensures |servers| == |targets|
  {
    seq(|targets|, i requires 0 <= i < |targets| => Details(responses(targets[i].id)))
  }

  /** The configuration `main` writes, or the reason it exits first. It exits
      when the private key is unset, then when the country list is unset, then
      when no directory country is wanted. Otherwise it writes a config with
      one inbound, listening on `XRAY_PORT` (10000 when unset), whose clients,
      outbounds and rules are exactly those assembled from the wanted
      directory countries that yielded a server: `direct` and the
      `geosite:cn` rule in front, then one client, outbound and rule per such
      country in directory order, every rule naming a declared outbound. */
  function Generate(
    privateKey: string, portEnv: Option<int>, countriesEnv: string,
    directory: seq<Country>, responses: int -> seq<Attempt>, ids: seq<string>): (r: Result<Config, RunError>)
    requires forall id :: |responses(id)| >= MaxAttempts
    requires |ids| >= |directory|
    ensures r == Failure(MissingPrivateKey) <==> privateKey == ""
    ensures r == Failure(MissingCountries) <==> privateKey != "" && countriesEnv == ""
    ensures r == Failure(NoMatchingCountries) <==>
      privateKey != "" && countriesEnv != "" && forall c :: c in directory ==> !Wanted(c, WantedCodes(countriesEnv))
    ensures r.Success? ==>
      && |r.value.inbounds| == 1
      && r.value.inbounds[0].port == portEnv.ValueOr(DefaultPort)
      && |r.value.outbounds| == |r.value.routing.rules| == 1 + |r.value.inbounds[0].clients|
      && |r.value.inbounds[0].clients| <= |directory|
      && r.value.outbounds[0] == DirectOutbound
      && r.value.routing.rules[0] == CnRule
      && References(r.value.routing.rules, r.value.outbounds)
      && var targets := Select(directory, WantedCodes(countriesEnv));
         Assembled(
           Assembly(r.value.inbounds[0].clients, r.value.outbounds, r.value.routing.rules),
           ServedPairs(targets, Lookups(targets, responses)), ids, privateKey)
  {
    if privateKey == "" then Failure(MissingPrivateKey)
    else if countriesEnv == "" then Failure(MissingCountries)
    else
      var wanted := WantedCodes(countriesEnv);
      var targets := Select(directory, wanted);
      if |targets| == 0 then
        assert forall c :: c in directory ==> !Wanted(c, wanted);
        Failure(NoMatchingCountries)
      else
        assert targets[0] in directory && Wanted(targets[0], wanted);
        var servers := Lookups(targets, responses);
        var a := Assemble(targets, servers, ids, privateKey);
        AssembledRulesReferenceOutbounds(targets, servers, ids, privateKey);
        var config := BuildConfig(a, portEnv.ValueOr(DefaultPort));
        assert Assembly(config.inbounds[0].clients, config.outbounds, config.routing.rules) == a;
        Success(config)
  }
}
