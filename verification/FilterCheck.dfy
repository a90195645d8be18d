/** `verify_filters`: given one decoded `/v2/servers` response, derive each
    server's country id (through its first location id and the response's
    location table) and its technology ids, and count the servers that miss
    the requested country or technology. */
module FilterCheck {
  import opened Wrappers

  datatype TechRef = TechRef(id: Option<int>)

  /** The `country` object of a location; its `id` may be missing. */
  datatype CountryRef = CountryRef(id: Option<int>)

  /** One entry of the response's `locations` table; `country` may be missing. */
  datatype Location = Location(id: int, country: Option<CountryRef>)

  /** One server; a missing `location_ids` or `technologies` key reads as `[]`. */
  datatype Server = Server(name: Option<string>, id: Option<int>, locationIds: seq<int>, technologies: seq<TechRef>)

  /** A decoded response; a missing `servers` or `locations` key reads as `[]`. */
  datatype Response = Response(servers: seq<Server>, locations: seq<Location>)

  /** The endings of the check: nothing to check (early return), all servers
      compliant, some servers failing (exit status 1), or an error while
      printing a server's line, caught by the outer handler (exit status 1). */
  datatype Verdict = NoServers | AllMatched(total: nat) | Failed(failures: nat) | Crashed

  /** Location `i` is the last entry of the table carrying its id. */
  ghost predicate LastWithId(locs: seq<Location>, i: int)
    requires 0 <= i < |locs|
  {
    forall j :: i < j < |locs| ==> locs[j].id != locs[i].id
  }

  /** The `locations_map` dictionary: keyed by location id, each key holding
      a table entry with that id. */
  function LocationsMap(locs: seq<Location>): (m: map<int, Location>)
    ensures forall i :: 0 <= i < |locs| ==> locs[i].id in m
    ensures forall k :: k in m ==> m[k].id == k && m[k] in locs
    decreases |locs|
  {
    if |locs| == 0 then map[]
    else
      var n := |locs| - 1;
      var pre := LocationsMap(locs[..n]);
      forall k | k in pre
        ensures pre[k] in locs
      {
        assert pre[k] in locs[..n];
      }
      forall i | 0 <= i < n
        ensures locs[i].id in pre
      {
        assert locs[..n][i] == locs[i];
      }
      pre[locs[n].id := locs[n]]
  }

  /** When ids repeat, the later entry replaces the earlier one: an id maps to
      the last entry carrying it. */
  lemma {:induction false} LocationsMapLastWins(locs: seq<Location>, i: int)
    requires 0 <= i < |locs| && LastWithId(locs, i)
    ensures LocationsMap(locs)[locs[i].id] == locs[i]
    decreases |locs|
  {
    var n := |locs| - 1;
    if i < n {
      assert locs[..n][i] == locs[i];
      assert LastWithId(locs[..n], i);
      LocationsMapLastWins(locs[..n], i);
    }
  }

  /** The server's country id: the `country.id` of the location its first
      location id names; `None` when it has no location ids, when that id is
      not in the table, or when that location has no `country`. */
  function CountryIdOf(s: Server, table: map<int, Location>): Option<int> {
    if |s.locationIds| == 0 then None
    else if s.locationIds[0] !in table then None
    else match table[s.locationIds[0]].country
      case None => None
      case Some(c) => c.id
  }

  /** The country id read through the table is the `country.id` of the last
      table entry carrying the server's first location id, absent when that
      entry has no `country`. */
  lemma CountryIdThroughTable(s: Server, locs: seq<Location>, i: int)
    requires |s.locationIds| > 0
    requires 0 <= i < |locs| && locs[i].id == s.locationIds[0] && LastWithId(locs, i)
    ensures CountryIdOf(s, LocationsMap(locs)) == if locs[i].country.Some? then locs[i].country.value.id else None
  {
    LocationsMapLastWins(locs, i);
  }

  /** A server without location ids, or whose first location id names no
      table entry, has no country id. */
  lemma CountryIdUnknown(s: Server, locs: seq<Location>)
    requires |s.locationIds| == 0 || forall j :: 0 <= j < |locs| ==> locs[j].id != s.locationIds[0]
    ensures CountryIdOf(s, LocationsMap(locs)) == None
  {
    if |s.locationIds| > 0 {
      var k := s.locationIds[0];
      assert forall l :: l in locs ==> l.id != k;
      assert k !in LocationsMap(locs);
    }
  }

  /** The `id` of each technology of the server, in order. */
  function TechIds(s: Server): (ids: seq<Option<int>>)
    ensures |ids| == |s.technologies|
  {
    seq(|s.technologies|, i requires 0 <= i < |s.technologies| => s.technologies[i].id)
  }

  /** The technology check: the requested id is among the server's technology ids. */
  predicate TechMatch(s: Server, techId: int) {
    Some(techId) in TechIds(s)
  }

  /** Both checks of one server. */
  predicate Complies(s: Server, table: map<int, Location>, countryId: int, techId: int) {
    CountryIdOf(s, table) == Some(countryId) && TechMatch(s, techId)
  }

  /** The servers failing a check, in order. */
  function Failing(servers: seq<Server>, table: map<int, Location>, countryId: int, techId: int): (r: seq<Server>)
    ensures |r| <= |servers|
    ensures forall s :: s in r <==> s in servers && !Complies(s, table, countryId, techId)
    decreases |servers|
  {
    if |servers| == 0 then []
    else
      var n := |servers| - 1;
      var pre := Failing(servers[..n], table, countryId, techId);
      assert servers == servers[..n] + [servers[n]];
      if Complies(servers[n], table, countryId, techId) then pre else pre + [servers[n]]
  }

  /** The technology check holds exactly when some technology entry carries the requested id. */
  lemma TechMatchMeansListed(s: Server, techId: int)
    ensures TechMatch(s, techId) <==> exists i :: 0 <= i < |s.technologies| && s.technologies[i].id == Some(techId)
  {
    var ids := TechIds(s);
    if TechMatch(s, techId) {
      var i :| 0 <= i < |ids| && ids[i] == Some(techId);
      assert s.technologies[i].id == Some(techId);
    } else {
      forall i | 0 <= i < |s.technologies|
        ensures s.technologies[i].id != Some(techId)
      {
        assert ids[i] == s.technologies[i].id;
      }
    }
  }

  /** No server fails exactly when every server passes both checks. */
  lemma NoFailingMeansAllComply(servers: seq<Server>, table: map<int, Location>, countryId: int, techId: int)
    ensures |Failing(servers, table, countryId, techId)| == 0 <==> forall s :: s in servers ==> Complies(s, table, countryId, techId)
  {
    var r := Failing(servers, table, countryId, techId);
    if |r| > 0 {
      assert r[0] in r;
    }
  }

  /** Extending the prefix by one server adds that server to the failing list when it fails. */
  lemma FailingStep(servers: seq<Server>, i: nat, table: map<int, Location>, countryId: int, techId: int)
    requires i < |servers|
    ensures |Failing(servers[..i + 1], table, countryId, techId)| ==
      |Failing(servers[..i], table, countryId, techId)| + (if Complies(servers[i], table, countryId, techId) then 0 else 1)
  {
    assert servers[..i + 1][..i] == servers[..i];
  }

  /** Every server has a `name`. */
  predicate AllNamed(servers: seq<Server>) {
    forall i :: 0 <= i < |servers| ==> servers[i].name.Some?
  }

  /** A server lacks `name` exactly when not all servers are named. */
  lemma UnnamedIff(servers: seq<Server>)
    ensures (exists s :: s in servers && s.name.None?) <==> !AllNamed(servers)
  {
    if !AllNamed(servers) {
      var i :| 0 <= i < |servers| && servers[i].name.None?;
      assert servers[i] in servers;
    }
  }

  /** The per-server loop of `verify_filters`: the number of servers failing a check. */
  method CountFailures(servers: seq<Server>, table: map<int, Location>, countryId: int, techId: int) returns (failures: nat)
    ensures failures == |Failing(servers, table, countryId, techId)|
  {
    failures := 0;
    var i := 0;
    while i < |servers|
      invariant 0 <= i <= |servers|
      invariant failures == |Failing(servers[..i], table, countryId, techId)|
    {
      FailingStep(servers, i, table, countryId, techId);
      if !Complies(servers[i], table, countryId, techId) {
        failures := failures + 1;
      }
      i := i + 1;
    }
    assert servers[..i] == servers;
  }

  /** `verify_filters` after the response: no verdict for an empty list. Each
      server's line is printed with its `name` padded to 25 characters, which
      raises for a server without `name`, so such a server ends the run with
      an error whatever the checks find. Otherwise success exactly when every
      server passes both checks, and else the number of servers failing a
      check, between 1 and the number of servers. */
  method VerifyFilters(response: Response, countryId: int, techId: int) returns (v: Verdict)
    ensures v == NoServers <==> |response.servers| == 0
    ensures v == Crashed <==> exists s :: s in response.servers && s.name.None?
    ensures v.AllMatched? <==>
      && |response.servers| > 0
      && (forall s :: s in response.servers ==> s.name.Some?)
      && forall s :: s in response.servers ==> Complies(s, LocationsMap(response.locations), countryId, techId)
    ensures v.AllMatched? ==> v.total == |response.servers|
    ensures v.Failed? ==>
      && (forall s :: s in response.servers ==> s.name.Some?)
      && 1 <= v.failures <= |response.servers|
      && v.failures == |Failing(response.servers, LocationsMap(response.locations), countryId, techId)|
  {
    var servers := response.servers;
    var table := LocationsMap(response.locations);
    if |servers| == 0 {
      return NoServers;
    }
    UnnamedIff(servers);
    if !AllNamed(servers) {
      return Crashed;
    }
    var failures := CountFailures(servers, table, countryId, techId);
    NoFailingMeansAllComply(servers, table, countryId, techId);
    if failures == 0 {
      v := AllMatched(|servers|);
    } else {
      v := Failed(failures);
    }
  }
}
