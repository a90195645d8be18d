# NordVPN-to-Xray config generator, modelled in Dafny

This project models the decision logic of the generator that turns NordVPN's
server directory into an Xray configuration. It also models the two small
validators that check NordVPN's server API.

- **Country filter.** `NORD_COUNTRIES` is split at commas. Each piece is
  stripped and upper-cased. The country directory is then narrowed to the
  entries whose upper-cased code is wanted, in directory order.
- **Server lookup** (`get_nordvpn_server_details`). Up to three requests are
  made for one recommended `wireguard_udp` server, stopping at the first
  non-empty list. The first server returned gives the endpoint record:
  station address, the fixed port 51820, the public key, the hostname and the
  country code. Every failure inside the function gives `None`.
- **Config assembly** (`main`). The lists start with a `freedom` outbound
  tagged `direct` and a rule routing `geosite:cn` to `direct`. Each country
  that yields a server then adds one client, one WireGuard outbound and one
  rule routing that client's email to that outbound. The client's email and
  the outbound's tag are built from the lower-cased country code.
- **Client links.** For each client, the country code is read back from the
  email. It is placed in the label of a VLESS link.
- **`verify_filters`.** For one decoded `/v2/servers` response, the script
  derives each server's country id through its first location id and the
  response's location table. It also derives the server's technology ids, and
  counts the servers that miss the requested country or technology.
- **`verify_load_sorting`.** The servers are sorted stably by load, with a
  missing load counting as 100. The script then checks that the sorted loads
  equal their own sorted list. The model proves that this check can never
  fail, and that the printed lowest load is the minimum.

Modules:
- `Wrappers`: `Option`, `Result`, and `Eval` (a value, or a raised exception).
- `Text`: Python's `strip`, `upper`, `lower`, `split`, `join` and decimal rendering.
- `Directory`: the country filter.
- `ServerDetails`: the retry loop and the record extraction.
- `XrayConfig`: the assembly loop and the config object.
- `Generator`: `main`'s exits and the whole pipeline.
- `Links`: email-to-code recovery and link formatting.
- `FilterCheck`: the compliance count.
- `LoadSort`: the stable load sort and its check.

Inputs to the model:
- The environment values, the country directory, the HTTP responses and the
  UUIDs are parameters.
- An unset `NORD_PRIVATE_KEY` or `NORD_COUNTRIES` is the empty string; Python
  treats both as false.
- An unset `XRAY_PORT` is `None`, which means port 10000.
- The `domain` of a link is `XRAY_DOMAIN`, or the text `<YOUR_DOMAIN>` when
  that is unset. The caller passes it in already resolved.
- `responses(id)` is the sequence of outcomes of the successive requests for
  the country with that id.
- `ids[k]` is the UUID drawn for the k-th client.

Where the code and its documentation disagree, the model follows the code:
- There is no `blackhole` outbound; the only default outbound is `direct`.
- The rule commented as a block rule routes `geosite:cn` to `direct`.
- The request asks for one server (`limit: 1`) and takes the first; the
  generator does no load ranking.
- The inbound uses the `ws` transport.

## Model

| member | source | states |
|---|---|---|
| Text.TrimStart | config_generator.py:116 | leading whitespace removed: a suffix of the input, everything dropped is whitespace, and the result does not start with whitespace |
| Text.TrimEnd | config_generator.py:116 | trailing whitespace removed: a prefix of the input, everything dropped is whitespace, and the result does not end with whitespace |
| Text.StripIsInfix | config_generator.py:116 | `strip()` returns an infix of the input, with only whitespace before and after it and none at either of its ends |
| Text.StripTrimmed | config_generator.py:116 | a string with no whitespace at either end is left unchanged by `strip()` |
| Text.StripKeepsAbsence | config_generator.py:116 | `strip()` introduces no character: one absent from the input is absent from the result |
| Text.Upper | config_generator.py:116 | `upper()` gives the same text up to case, character by character: no lower-case ASCII letter remains, and every other character is kept |
| Text.Lower | config_generator.py:164 | `lower()` gives the same text up to case, character by character: no upper-case ASCII letter remains, and every other character is kept |
| Text.UpperOfLower | config_generator.py:244 | upper-casing a lower-cased code gives the upper-cased code |
| Text.UpperIdempotent | config_generator.py:116 | upper-casing twice is upper-casing once |
| Text.UpperCharKeepsSpace | config_generator.py:116 | upper-casing neither creates nor removes whitespace |
| Text.CaseKeepsNonLetters | config_generator.py:116 | a character that is not a letter occurs in the upper- or lower-cased string exactly when it occurs in the input |
| Text.Split | config_generator.py:116 | `split(sep)` yields at least one piece, and no piece contains the separator |
| Text.JoinSplit | config_generator.py:116 | joining the pieces of a split with the separator restores the input |
| Text.SplitJoin | config_generator.py:116 | splitting a join of separator-free pieces gives the pieces back |
| Text.SplitAfterPiece | config_generator.py:244 | the first piece of `a + sep + b` is `a` when `a` holds no separator, followed by the pieces of `b` |
| Text.SplitLastPiece | config_generator.py:246 | the last piece of `a + sep + b` is `b` when `b` holds no separator |
| Text.Decimal | config_generator.py:182 | the decimal text of a number is non-empty, all digits, and has no leading zero unless the number is 0 |
| Text.DecimalRoundTrip | config_generator.py:182 | reading back the decimal text of a number gives the number |
| Directory.WantedCodes | config_generator.py:116 | one wanted code per comma-separated piece, each comma-free, upper-case, with no whitespace at either end |
| Directory.WantedPieceForm | config_generator.py:116 | stripping and upper-casing a comma-free piece gives a code in wanted form |
| Directory.WantedCodesOfList | config_generator.py:116 | a comma-joined list of codes is read back code by code, each stripped and upper-cased; a code already in that form comes back unchanged |
| Directory.Select | config_generator.py:118-120 | a directory country is a target exactly when its upper-cased code is wanted; there are no more targets than directory entries |
| Directory.SelectCounts | config_generator.py:118-120 | every occurrence of a wanted entry is kept and nothing else: counts equal the directory's for wanted countries and are 0 otherwise |
| Directory.SelectKeepsOrder | config_generator.py:118-120 | the targets are a subsequence of the directory, so they keep directory order |
| Directory.SelectAppend | config_generator.py:118-120 | filtering a concatenated directory concatenates the filtered parts, so earlier entries stay in front |
| ServerDetails.FetchFrom | config_generator.py:35-44 | from a given attempt on, the retry loop ends after at most three requests and skips only non-delivering responses; it raises exactly when the last request failed, and otherwise leaves that request's data |
| ServerDetails.Fetch | config_generator.py:35-44 | between 1 and 3 requests are made; none before the last delivered a non-empty list; the loop stops early only on a delivery; a failure on the third request raises; otherwise `data` is the last response |
| ServerDetails.MetaKey | config_generator.py:58-61 | a key found is the value of a `public_key` metadata entry; no key found means no entry is named `public_key` |
| ServerDetails.MetaKeyStopsAt | config_generator.py:58-61 | the metadata loop stops at the first entry that lacks `name` or is named `public_key`; it raises there when `name` or `value` is missing, and otherwise yields that entry's value |
| ServerDetails.MetaKeyAbsent | config_generator.py:58-61 | when every entry has a `name` other than `public_key`, no key is found and nothing raises |
| ServerDetails.ScanKey | config_generator.py:55-61 | a new key comes from the `public_key` entry of a `wireguard_udp` technology; with no technology carrying a key the current value is kept |
| ServerDetails.ScanKeyReturnsIff | config_generator.py:56-61 | the technology loop raises exactly when some entry lacks `identifier`, or is a `wireguard_udp` entry whose metadata loop raises |
| ServerDetails.ScanKeyNoOffer | config_generator.py:56-61 | entries that offer no key leave the key found so far |
| ServerDetails.ScanKeyAppend | config_generator.py:56-61 | when the scan of the first list does not raise, scanning two lists in a row is scanning the second from where the first left off |
| ServerDetails.LastWireGuardKeyWins | config_generator.py:56-61 | the last `wireguard_udp` entry that yields a key decides the key, whatever earlier entries offered, provided the scan of the earlier entries does not raise and every later entry neither raises nor offers a key |
| ServerDetails.LocationCountry | config_generator.py:71 | the lookup raises exactly when `locations` is an empty list; otherwise it gives the first location's `country.code`, or `UNKNOWN` when `locations`, `country` or `code` is missing |
| ServerDetails.ExtractEndpoint | config_generator.py:50-72 | a record carries the server's hostname and station, port 51820, the scanned non-empty key and the location's country; with no `wireguard_udp` key it is absent; whenever every field is available it is present |
| ServerDetails.Details | config_generator.py:33-75 | the result is the record built from the first server of the first response that delivers a non-empty list; it is absent when the last request raised or no request delivered; a present record has port 51820 |
| XrayConfig.EndpointTextRoundTrip | config_generator.py:182 | the peer endpoint `address:port` splits at its last ':' into the address and the decimal port, which reads back as the port |
| XrayConfig.AddCountryKeepsIntegrity | config_generator.py:167-194 | adding a country only appends one entry to each list, and keeps every rule pointing at a declared outbound |
| XrayConfig.Assemble | config_generator.py:126-194 | after the loop there is one client per country that yielded a server, and one more outbound and rule than clients; `direct` and the `geosite:cn` rule come first; then the i-th served country gives the i-th client (with the i-th id) and the (i+1)-th outbound and rule, in processing order |
| XrayConfig.AssembledStep | config_generator.py:163-194 | one served country extends the assembled shape by exactly that country's client, outbound and rule |
| XrayConfig.AssembledRoutes | config_generator.py:164-194 | the i-th user rule routes the i-th client's email to the tag of the i-th WireGuard outbound, and the i-th client holds the i-th id |
| XrayConfig.AssembledRulesReferenceOutbounds | config_generator.py:133-194 | every routing rule's `outboundTag` is the tag of a declared outbound; rule j names outbound j |
| XrayConfig.SkippedCountryChangesNothing | config_generator.py:154-158 | a country without a server leaves the clients, outbounds and rules unchanged |
| XrayConfig.DistinctCodesGiveDistinctRoutes | config_generator.py:164-194 | with distinct lower-cased codes, all emails and all WireGuard tags are distinct, none is `direct`, and distinct ids give distinct client ids |
| Generator.Generate | config_generator.py:83-224 | exits exactly when the key is unset, then exactly when the country list is unset, then exactly when no directory country is wanted. Otherwise: one inbound on `XRAY_PORT`, or 10000 when unset; `direct` and the `geosite:cn` rule in front; every rule names a declared outbound; and the clients, outbounds and rules are exactly those assembled, with the supplied ids, from the wanted countries whose lookup yielded a server, in directory order |
| Links.EmailCodeRoundTrip | config_generator.py:244 | for a code without '.', the text of its email before the first '.', upper-cased, is the upper-cased code |
| Links.LinkReadsBack | config_generator.py:246 | for a client id without '@' and an email without '#', the link starts with `vless://`, the text up to the first '@' is the client id, and the text after the last '#' is `Nord-` plus the code |
| Links.LinkIdReadsBack | config_generator.py:246 | for a client id without '@', the scheme opens the link and the client id ends at the first '@' |
| Links.LinkLabelReadsBack | config_generator.py:246 | for an email without '#', the label after the last '#' is `Nord-` plus the code read from the email |
| Links.LabelHoldsNoHash | config_generator.py:244-246 | the label holds no '#' when the email holds none |
| Links.AssembledLinkLabels | config_generator.py:242-246 | when the i-th served country's code holds no '.', the i-th client's link label names the i-th served country's code, upper-cased |
| FilterCheck.LocationsMap | scripts/verify_nord_filters.py:29 | every location id is a key, and each key holds a table entry carrying that id |
| FilterCheck.LocationsMapLastWins | scripts/verify_nord_filters.py:29 | when ids repeat, an id maps to the last entry carrying it |
| FilterCheck.CountryIdThroughTable | scripts/verify_nord_filters.py:45-51 | a server's country id is the `country.id` of the last table entry carrying its first location id, absent when that entry has no `country` |
| FilterCheck.CountryIdUnknown | scripts/verify_nord_filters.py:45-51 | a server has no country id when it has no location ids, or when its first location id names no table entry |
| FilterCheck.TechMatchMeansListed | scripts/verify_nord_filters.py:54-58 | the technology check holds exactly when some technology carries the requested id |
| FilterCheck.Failing | scripts/verify_nord_filters.py:57-68 | the failing servers are exactly those of the input that miss a check, and there are no more of them than servers |
| FilterCheck.NoFailingMeansAllComply | scripts/verify_nord_filters.py:67-75 | no server fails exactly when every server passes both checks |
| FilterCheck.CountFailures | scripts/verify_nord_filters.py:37-68 | the loop's count is the number of servers failing the country or the technology check |
| FilterCheck.VerifyFilters | scripts/verify_nord_filters.py:28-80 | no verdict exactly for an empty list. It ends in an error exactly when some server lacks `name`, because printing that server's line raises. Success happens exactly when all servers are named and each passes both checks, and it reports the server count. Otherwise the failure count is the number of failing servers, between 1 and the number of servers |
| LoadSort.Insert | scripts/verify_nord_load_sorting.py:31 | insertion adds exactly the one element; the new first element is the inserted one or the old first |
| LoadSort.InsertKeepsSorted | scripts/verify_nord_load_sorting.py:31 | inserting into a list sorted by key keeps it sorted |
| LoadSort.InsertKeepsKeyOrder | scripts/verify_nord_load_sorting.py:31 | the inserted element goes ahead of the elements with its key, and the others keep their order |
| LoadSort.SortBy | scripts/verify_nord_load_sorting.py:31 | `sorted(servers, key=...)` is a permutation of its input and non-decreasing by key |
| LoadSort.SortIsStable | scripts/verify_nord_load_sorting.py:31 | for every key, the elements with that key keep their input order |
| LoadSort.SortedIsFixed | scripts/verify_nord_load_sorting.py:43-44 | a list already sorted by key is its own sorted list |
| LoadSort.SortedHeadIsLeast | scripts/verify_nord_load_sorting.py:46 | the first element of a sorted list has the least key |
| LoadSort.VerifyLoadSorting | scripts/verify_nord_load_sorting.py:21-48 | no verdict exactly for an empty list; the sortedness check never fails; the printed lowest load is the minimum effective load, and some server has it |

## Left out

- HTTP requests, timeouts and the one-second sleep between attempts: their outcomes are inputs.
- Fetching the country directory: it is an input, and its failure path (an exit) is not modelled.
- Printing, `sys.exit`, the help text of the two missing-setting errors, and the QR codes.
- Reading the environment: the private key, port, country list and domain are parameters. An unset port is `None` and means 10000.
- `int(XRAY_PORT)` raising on a non-numeric value is not modelled; the port is an integer parameter.
- `uuid.uuid4`: the UUIDs are supplied in `ids`.
- Fresh requests for repeated country ids. The responses are a function of the country id, so two directory entries with the same id get the same outcomes. The loop at config_generator.py:145-154 sends new requests for each entry, and their outcomes could differ.
- `os.makedirs`, writing `config.json` and `json.dump`: `BuildConfig` gives the object that would be written.
- The `filters[country_id]` parameter is omitted when the id is 0 (`if country_id:`). This is not modelled, because responses are a function of the country id.
- JSON values of an unexpected type are not modelled. Examples are a `null` load, key or country object, a dict where a list is expected, or a non-list response.
- Missing keys are modelled as `Option` in the server records, the location and technology entries, and the `name` of a server in the filter check. They are not modelled in the following places:
  - Country directory entries always have `id`, `code` and `name`. A missing one raises KeyError at config_generator.py:119 or :146-148, which ends `main` with a traceback.
  - Location-table entries in the filter check always have `id`. A missing one raises KeyError while the table is built, and the script exits with status 1.
- Exceptions are not classified. Every exception inside `get_nordvpn_server_details` is one `Raises` outcome ending in `None`. A response that fails to decode counts as a failed request.
- Non-ASCII case mapping: `Text.Upper` and `Text.Lower` map only ASCII letters. Whitespace for `strip()` is Python's full `isspace` set.
- The command-line argument parsing of the two scripts, and their printed tables.
