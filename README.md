# V2raySub subscription rewriter, modelled in Dafny

V2raySub is a browser application that takes a proxy subscription: a list of
proxy links, one per line, possibly base64-encoded as a whole. It rewrites every
link and publishes the result as a GitHub gist. The rewriting does the following:

- It gives each server a new display name: an optional flag and country, a base
  name, and the 1-based position.
- It can move WebSocket/gRPC servers behind a CDN address.
- It can switch on multiplexing, TLS fragmentation, `allowInsecure` and ALPN.
- It re-encodes the link in its own family's format:
  - `vmess://` holds base64 JSON;
  - `ssr://` holds URL-safe base64 with a form-encoded query;
  - `vless://`, `trojan://` and `ss://` are URLs, with a legacy `ss://` whose
    body is base64.

The location comes from a GeoIP layer. It keeps a cache of resolved hosts, asks
DNS for an A record, and then asks three location providers in a fixed order.
It resolves the distinct valid hosts two at a time, with a pause between the
batches.

The model covers these parts of the program:

- the subscription codecs: base64 with UTF-8, the URL-safe variant and
  `parseSubscription`;
- host extraction for each link family;
- the display name;
- the three link rewriters and the pipeline that ties them together;
- the GeoIP service: the flag emoji, country names, host validity, the
  IP-address test, the cached resolution and batch resolution;
- the speed-test server list;
- three helpers of the page: extracting the gist id and the file name from a
  URL, and turning a gist's raw URL into its permanent form.

Modules, one per file:

| module | what it is |
|---|---|
| `Text` | JavaScript string operations: `trim`, `split`, `join`, `indexOf`, `replace` of the first match, ASCII `toUpperCase`, number formatting |
| `Utf8`, `Base64`, `UriComponent` | the browser primitives behind the codecs: UTF-8, `btoa`/`atob` (forgiving decode), `encodeURIComponent`/`decodeURIComponent` |
| `Codec` | `safeB64Decode`, `safeB64Encode`, `safeBase64UrlDecode`, `safeBase64UrlEncode`, `parseSubscription` |
| `Links` | processing options, link families, the VMess JSON object, parsed URLs and `URLSearchParams` (`get`, `has`, `set`) |
| `Hosts` | `getHostFromVmess`, `getHostFromSSR`, `getHostFromStandardUrl`, `extractHost` |
| `Naming` | `generateNewAlias` |
| `Rewriters` | `processVmess`, `processSSR`, `processUrlBased` |
| `GeoIp` | all of `geoIpService.ts`; the cache is a class whose methods update it in place |
| `Pipeline` | `processConfigs` |
| `SpeedTest` | `extractServerInfo` |
| `App` | `extractGistId`, `extractFilename` and the permanent-URL rewrite |

The JSON parser and serializer, the WHATWG URL parser and serializer, and the
form-urlencoded codec of `URLSearchParams` are parameters of the model. They are
function-valued fields of `JsonCodec`, `UrlCodec` and `FormCodec`. A lemma that
needs one to read back what it writes says so in its `requires`. The network is
also a parameter: `GeoIp.Network` gives what each remote service answers for
each name.

Where the source's comments and documentation disagree with its code, the model follows the code:

- `processSSR` returns the original link only when something throws. When the
  body does not decode, the decoded text is empty, so it still writes a new
  `ssr://` link, with an empty main part and a `remarks` parameter. See
  `Rewriters.SsrUndecodableRewritten`.
- `COUNTRY_NAMES` is an object literal. Where a key appears twice, the later
  value wins, and the model's table keeps that value.
- `generateNewAlias` ignores its `originalAlias` argument.
  `ProcessingOptions.addRandomAlias` is read nowhere.
- In `extractServerInfo`, the SSR host is read with `safeB64Decode`, while
  `getHostFromSSR` uses `safeBase64UrlDecode`. Both are modelled as written.

## Model

| member | source | states |
|---|---|---|
| Text.TrimStartShape | services/v2rayService.ts:291 | trimming the start drops exactly a leading run of JavaScript whitespace |
| Text.TrimEndShape | services/v2rayService.ts:291 | trimming the end drops exactly a trailing run of JavaScript whitespace |
| Text.TrimShape | services/v2rayService.ts:291 | a trimmed string is no longer than the input and neither starts nor ends with whitespace |
| Text.TrimEmpty | services/v2rayService.ts:291 | a line trims to empty exactly when it is all whitespace |
| Text.TrimOfTrimmed | services/v2rayService.ts:291 | trimming leaves a string without outer whitespace unchanged |
| Text.IndexOf | services/v2rayService.ts:73 | `indexOf` is -1 exactly when the character is absent, and otherwise the position of its first occurrence |
| Text.IndexOfSub | services/v2rayService.ts:196 | the position of the first occurrence of a pattern, or -1 when there is none |
| Text.Split | services/v2rayService.ts:291 | the pieces contain no separator, there is at least one, and joining them with the separator restores the input |
| Text.SplitJoin | services/v2rayService.ts:291 | splitting the join of pieces without the separator gives back the pieces |
| Text.SplitOn | services/v2rayService.ts:196 | splitting at a multi-character separator: the first piece is the text before its first occurrence, or the whole text when it is absent; no piece holds the separator, and joining the pieces with it gives the text back |
| Text.SplitOnConcat | services/v2rayService.ts:196 | `a`, separator, `b` splits into `a` and `b` when the separator occurs only there |
| Text.RemoveFirst | services/v2rayService.ts:49 | `replace` of a string pattern changes nothing when the pattern is absent; otherwise it is shorter by the pattern, and putting the pattern back at its first occurrence restores the text |
| Text.RemoveFirstPrefix | services/v2rayService.ts:49 | replacing a prefix removes exactly that prefix |
| Text.StripTrailingRepeat | services/v2rayService.ts:38 | removing a trailing run of `=` undoes appended padding |
| Text.UpperAscii | services/geoIpService.ts:29 | upper-casing keeps the length and maps every character by itself |
| Text.NatToString | services/v2rayService.ts:139 | the decimal text of a number is non-empty digits without a leading zero |
| Text.NatToStringValue | services/v2rayService.ts:139 | the decimal text of n reads back as n |
| Utf8.DecodeEncode | services/v2rayService.ts:5-26 | decoding the UTF-8 bytes of any string gives the string back |
| Base64.Decode | services/v2rayService.ts:7 | atob succeeds exactly when, after removing ASCII whitespace and trailing padding, only alphabet characters remain and the length is not 1 mod 4 |
| Base64.DecodeRejectsForeign | services/v2rayService.ts:7 | a character outside the alphabet, whitespace and `=` makes atob fail |
| Base64.DecodeEncode | services/v2rayService.ts:7-21 | atob of btoa of any byte string gives it back |
| Base64.DecodeUnpadded | services/v2rayService.ts:36-39 | atob also reads the encoding with its `=` padding stripped, as safeBase64UrlEncode leaves it |
| UriComponent.Encode | services/v2rayService.ts:283 | encodeURIComponent writes only unreserved characters and `%XX` escapes |
| UriComponent.DecodeEncode | services/v2rayService.ts:283 | decodeURIComponent of encodeURIComponent gives back any string |
| Codec.Translate | services/v2rayService.ts:10 | the two chained global replaces (used as `-`/`_` to `+`/`/` at lines 10 and 29, and back at line 38) keep the length, map each character independently, and leave neither replaced character in the result |
| Codec.AlphabetRoundTrip | services/v2rayService.ts:28-39 | translating to the URL alphabet and back restores any text free of `-` and `_` |
| Codec.SafeB64Decode | services/v2rayService.ts:5-17 | the result is the decoded text when the input decodes; otherwise the decoding of its URL-alphabet translation when that decodes; when neither decodes, it is "" |
| Codec.SafeB64Encode | services/v2rayService.ts:19-26 | the output is padded base64: length a multiple of 4, alphabet or `=` only, empty exactly for empty input |
| Codec.SafeB64RoundTrip | services/v2rayService.ts:5-26 | safeB64Decode(safeB64Encode(s)) == s for every s |
| Codec.SafeB64DecodeUrlAlphabet | services/v2rayService.ts:9-11 | the fallback branch decodes a URL-alphabet encoding of s back to s |
| Codec.SafeB64DecodeUrlEncoded | services/v2rayService.ts:5-17 | safeB64Decode reads back what safeBase64UrlEncode (lines 36-39) wrote, unpadded and URL-safe |
| Codec.PadToQuad | services/v2rayService.ts:30-32 | padding appends at most three `=` and reaches a length that is a multiple of 4 |
| Codec.SafeBase64UrlDecode | services/v2rayService.ts:28-34 | the padding loop yields the URL-safe decoding of the input |
| Codec.SafeBase64UrlEncode | services/v2rayService.ts:36-39 | the output uses only letters, digits, `-` and `_` |
| Codec.Base64UrlRoundTrip | services/v2rayService.ts:28-39 | URL-safe decoding undoes URL-safe encoding for every string |
| Codec.ParseSubscription | services/v2rayService.ts:41-44 | the result is the decoding of the trimmed content when that is non-empty, and the content as it came otherwise; it is empty only for empty content |
| Codec.ParseSubscriptionUndecodable | services/v2rayService.ts:41-44 | content that decodes in neither alphabet is returned unchanged |
| Codec.ParseSubscriptionEncoded | services/v2rayService.ts:41-44 | an encoded subscription is decoded back to its text |
| Links.FormatOf | services/v2rayService.ts:106-114 | the link family holds exactly when the line starts with that family's prefix, tested in the program's order |
| Links.GetMeaning | services/v2rayService.ts:247 | `get` is None exactly when no pair has the name, and otherwise returns a value paired with that name |
| Links.GetSet | services/v2rayService.ts:254 | after `set`, `get` of that name returns the new value and every other name is unchanged |
| Links.HasSet | services/v2rayService.ts:254 | after `set`, `has` holds for the set name and for every name present before |
| Links.Hash | services/v2rayService.ts:283 | the `hash` getter is empty or begins with `#` |
| Links.SetHash | services/v2rayService.ts:283 | setting the hash to a non-empty value without `#` changes only the fragment, to that value |
| Hosts.HostFromVmess | services/v2rayService.ts:47-56 | a returned host is non-blank and is the `add` member of the JSON the link decodes to |
| Hosts.HostFromVmessLink | services/v2rayService.ts:47-56 | for a link built from a configuration, the host is its `add` when that is non-blank, else none |
| Hosts.HostFromSsr | services/v2rayService.ts:58-67 | the host has no `:` and is a prefix of the decoded first path segment |
| Hosts.HostFromSsrEncoded | services/v2rayService.ts:58-67 | an SSR link encoding `host:rest` yields `host` |
| Hosts.SplitLegacySs | services/v2rayService.ts:72-75 | the link is `ss://`, the payload (without `#`) and the hash (empty or starting with `#`) |
| Hosts.SplitLegacySsOf | services/v2rayService.ts:72-75 | the split recovers the body and hash a link was built from |
| Hosts.Unbracket | services/v2rayService.ts:97-99 | a bracketed hostname loses exactly its brackets; any other is unchanged |
| Hosts.LegacyHost | services/v2rayService.ts:78-81 | the legacy host contains neither `:` nor `@` |
| Hosts.LegacyHostOf | services/v2rayService.ts:78-81 | the host of `userinfo@host:port` is `host` |
| Hosts.LegacyEncodedSplit | services/v2rayService.ts:72-77 | a legacy link made of an encoded body and a hash is recognised as legacy, splits back, and decodes to the body |
| Hosts.HostFromStandardUrl | services/v2rayService.ts:69-104 | outside the legacy form a host comes from a parsed URL with a non-empty hostname, unbracketed; an unparsable link has none |
| Hosts.HostFromLegacyEncoded | services/v2rayService.ts:72-88 | a legacy link encoding `userinfo@host:port` yields `host` |
| Hosts.HostFromParsedUrl | services/v2rayService.ts:91-100 | a parsed link's host is its unbracketed hostname, or none when the hostname is empty |
| Hosts.ExtractHost | services/v2rayService.ts:106-114 | a line of no known prefix has no host; an SSR line's host is the SSR host of the trimmed line |
| Naming.BaseName | services/v2rayService.ts:133-135 | the base name is the trimmed custom name when that is non-blank, else `VS` |
| Naming.FlagOf | services/v2rayService.ts:127 | the flag is the trimmed flag when non-blank, else the white flag |
| Naming.AliasParts | services/v2rayService.ts:123-139 | the parts are flag and country (only with a country), then the base name, then index + 1 in decimal |
| Naming.GenerateNewAlias | services/v2rayService.ts:117-148 | the method returns the alias of the index, location and options |
| Naming.AliasEndsWithPosition | services/v2rayService.ts:139-147 | the last word of the alias reads back as index + 1 |
| Naming.AliasesDistinct | services/v2rayService.ts:117-148 | different indices give different aliases, whatever the locations and options |
| Naming.AliasWithoutCountry | services/v2rayService.ts:142-145 | without a country the alias is `<base> <index + 1>` |
| Naming.AliasWithCountry | services/v2rayService.ts:126-147 | with a country the alias is flag, country, base name and position, joined by spaces |
| Naming.AliasNonEmpty | services/v2rayService.ts:117-148 | an alias is never empty |
| Rewriters.MuxConcurrency | services/v2rayService.ts:172 | the concurrency is the option when non-zero, else 8, and never 0 |
| Rewriters.RewriteVmessConfigMembers | services/v2rayService.ts:162-179 | the rewritten configuration, member by member: the new alias; the CDN address, host and sni only under the CDN condition; mux and ALPN by their options; everything else kept |
| Rewriters.VmessProcessed | services/v2rayService.ts:157-183 | the link comes back unchanged when its body decodes to "" or its JSON does not parse; otherwise the result is `vmess://` followed by the padded base64 of the JSON of the rewritten configuration |
| Rewriters.ProcessVmess | services/v2rayService.ts:151-184 | the method's result is that of `VmessProcessed`: the link itself on an empty decode or a parse failure, else the rewritten `vmess://` link |
| Rewriters.RewriteVmess | services/v2rayService.ts:162-179 | the in-order member updates produce the rewritten configuration |
| Rewriters.VmessProcessedReadsBack | services/v2rayService.ts:151-184 | the rewritten link decodes to the rewritten configuration, and its host is the new `add` |
| Rewriters.ProcessSsr | services/v2rayService.ts:187-212 | the output is `ssr://` plus a URL-safe encoding of the main part, `/?` and the updated parameters |
| Rewriters.SsrSplitOut | services/v2rayService.ts:196-207 | the rewritten body splits at `/?` into the old main part and the new query |
| Rewriters.SsrRewriteReadsBack | services/v2rayService.ts:194-208 | the new query's `remarks` is the encoded alias, and every other parameter reads as in the old link |
| Rewriters.SsrRemarksDecode | services/v2rayService.ts:204-205 | the `remarks` value decodes back to the alias |
| Rewriters.SsrUndecodableRewritten | services/v2rayService.ts:194-208 | an undecodable SSR body is still rewritten: the output differs from the link and its body starts with `/?` |
| Rewriters.LegacyExpanded | services/v2rayService.ts:226-238 | a link outside the legacy form is left as it is |
| Rewriters.LegacyExpandedEncoded | services/v2rayService.ts:226-238 | a legacy link whose body encodes `userinfo@hostport` expands to the plain `ss://userinfo@hostport` with its hash |
| Rewriters.SetReads | services/v2rayService.ts:254-278 | after each `set`, that parameter reads the new value and the others are unchanged |
| Rewriters.SetWhenGet | services/v2rayService.ts:262-278 | a conditional `set` changes only that name and only when its option is on |
| Rewriters.CdnStep | services/v2rayService.ts:251-260 | the CDN step changes only hostname and parameters, and the hostname becomes the CDN exactly under the CDN condition |
| Rewriters.CdnStepGet | services/v2rayService.ts:251-260 | each parameter after the CDN step: `host` and `sni` filled from the old hostname when absent and applicable, all others unchanged |
| Rewriters.TunedParamsGet | services/v2rayService.ts:262-280 | each parameter after the option steps: mux, concurrency, fragment, allowInsecure and alpn by their options, others unchanged |
| Rewriters.RewrittenParamsGet | services/v2rayService.ts:251-280 | the parameters after all steps read as the combined specification |
| Rewriters.RewriteUrl | services/v2rayService.ts:251-283 | only hostname, parameters and fragment change; the hostname is the CDN under the CDN condition; the fragment decodes to the alias |
| Rewriters.RewriteUrlKeeps | services/v2rayService.ts:246-280 | a parameter that no step writes, and a `host` or `sni` already present, keeps its value |
| Rewriters.UrlProcessed | services/v2rayService.ts:240-284 | an unparsable link is returned unchanged; otherwise the result is the serialization of the rewritten URL |
| Rewriters.EncodedHash | services/v2rayService.ts:283 | the encoded alias is non-empty and does not start with `#`, so the hash setter stores it as is |
| Rewriters.ExpandLegacySs | services/v2rayService.ts:223-238 | the method computes the legacy expansion |
| Rewriters.SubstituteCdn | services/v2rayService.ts:251-260 | the method performs the CDN step |
| Rewriters.TuneParams | services/v2rayService.ts:262-280 | the method's sequence of `set` calls gives the tuned parameters |
| Rewriters.ProcessUrlBased | services/v2rayService.ts:215-288 | the method computes the URL-based rewrite of the link |
| Pipeline.TrimmedNonEmpty | services/v2rayService.ts:291 | every kept line is non-empty and already trimmed |
| Pipeline.ConfigLines | services/v2rayService.ts:291 | every line is non-empty, trimmed and free of newlines |
| Pipeline.NoNewlineKept | services/v2rayService.ts:291 | trimming and filtering introduce no newline |
| Pipeline.TrimmedNonEmptyKeeps | services/v2rayService.ts:291 | lines that are already trimmed and non-empty pass unchanged |
| Pipeline.ConfigLinesJoin | services/v2rayService.ts:291 | splitting the newline-join of clean lines gives back those lines |
| Pipeline.HostsOfMembers | services/v2rayService.ts:298 | the host list holds exactly the hosts extracted from some line |
| Pipeline.ProcessedLines | services/v2rayService.ts:306-318 | one output line per input line |
| Pipeline.ProcessConfigs | services/v2rayService.ts:290-321 | the output is the encoded processed lines; the cache is updated by batch resolution exactly when location flags are on and some host exists, with the batch schedule, and is otherwise untouched |
| Pipeline.ProcessAll | services/v2rayService.ts:306-318 | the loop maps every line through its processor |
| Pipeline.ProcessOne | services/v2rayService.ts:307-317 | one line is dispatched by prefix with its host's location |
| Pipeline.ProcessLineKind | services/v2rayService.ts:310-317 | VMess lines stay VMess, SSR lines stay SSR, unknown lines are unchanged, and no output line gains a newline |
| Pipeline.OutputLines | services/v2rayService.ts:290-321 | decoding the output and splitting at newlines gives the processed lines; no lines give "" |
| Pipeline.LineLocationResolved | services/v2rayService.ts:296-308 | a line gets a location only when flags are on, and then it is the resolution of its host; every host that resolves gets its location |
| GeoIp.RegionalIndicator | services/geoIpService.ts:37 | each letter maps to the code point 127397 above it |
| GeoIp.GetFlagEmoji | services/geoIpService.ts:26-42 | a non-code gives the white flag; a two-letter code gives two regional indicators, one per upper-cased letter |
| GeoIp.FlagRoundTrip | services/geoIpService.ts:26-42 | the flag reads back as the upper-cased trimmed code exactly when that is a two-letter code |
| GeoIp.NameOfMeaning | services/geoIpService.ts:45-90 | the lookup fails exactly when no entry has the code; otherwise the pair is in the table |
| GeoIp.GetCountryName | services/geoIpService.ts:113-117 | the empty code gives `Unknown`, and no name is empty |
| GeoIp.CountryNameListed | services/geoIpService.ts:113-117 | the name is the table's entry for the upper-cased code, or that code itself when the table has no entry |
| GeoIp.Private172Range | services/geoIpService.ts:100 | the 172 pattern matches exactly the prefixes `172.16.` to `172.31.` |
| GeoIp.ScanBracketsMatches | services/geoIpService.ts:109 | the scan finds a `[` followed on the same line by `]` exactly when such a pair exists |
| GeoIp.IsIpAddress | services/geoIpService.ts:107-110 | the test holds exactly for digits-and-dots text, text with a colon, or text with a bracket pair |
| GeoIp.FirstARecord | services/geoIpService.ts:138-140 | none exactly when no answer is of type 1; otherwise the data of the first type-1 answer |
| GeoIp.LookupWellFormed | services/geoIpService.ts:150-237 | every location a provider yields has a non-empty country and a flag that is the white flag or a regional-indicator pair |
| GeoIp.ValidHosts | services/geoIpService.ts:243 | the kept hosts are exactly the valid ones |
| GeoIp.Dedupe | services/geoIpService.ts:243 | the result has no repeats and the same members |
| GeoIp.UniqueValidHosts | services/geoIpService.ts:243 | the unique hosts are distinct and are exactly the valid input hosts |
| GeoIp.ScheduleShape | services/geoIpService.ts:247-260 | the groups cover the unique hosts in order, each of one or two hosts, with a 1100 ms pause between consecutive groups and none after the last |
| GeoIp.BatchFoldResults | services/geoIpService.ts:249-256 | over distinct hosts, the results map each host that resolves to its resolution against the starting cache |
| GeoIp.BatchStepResolved | services/geoIpService.ts:252-255 | resolving one more new host keeps the results and cache in agreement with the starting cache |
| GeoIp.UniqueBatchResults | services/geoIpService.ts:242-262 | the results hold exactly the valid input hosts that resolve, each with its resolution |
| GeoIp.GeoCache.constructor | services/geoIpService.ts:10-16 | the cache starts as the stored entries |
| GeoIp.GeoCache.Update | services/geoIpService.ts:19-23 | the entry for the host is replaced and nothing else changes |
| GeoIp.GeoCache.ResolveLocation | services/geoIpService.ts:119-240 | the result is the resolution against the old cache; a new provider answer is stored, anything else leaves the cache as it was |
| GeoIp.GeoCache.ResolveEach | services/geoIpService.ts:249-256 | resolving a range of hosts advances cache and results as the fold over that range |
| GeoIp.GeoCache.ResolveOne | services/geoIpService.ts:252-255 | resolving one host advances cache and results by one fold step |
| GeoIp.GeoCache.BatchResolve | services/geoIpService.ts:242-262 | the results hold exactly the valid input hosts that resolve against the old cache, each with its resolution; the cache and the pause schedule are those of the fold |
| SpeedTest.ServerInfos | services/speedTestService.ts:13-14 | one optional record per line |
| SpeedTest.IdOfNumber | services/speedTestService.ts:18 | an id `tag-index` reads back its index |
| SpeedTest.ServerInfoId | services/speedTestService.ts:16-37 | unknown lines give no record and SSR lines always give one; ids are `vms-`, `url-` or `ssr-` by family and carry the line's index; VMess and SSR have their protocol names |
| SpeedTest.KeptShape | services/speedTestService.ts:42 | the filter keeps only records with a non-empty host, each one present in the input |
| SpeedTest.KeptKeysIncrease | services/speedTestService.ts:42 | when each record is numbered by its position, the kept records' numbers stay in range and strictly increase |
| SpeedTest.ServerInfosNumbered | services/speedTestService.ts:13-37 | each record's id number is its line's position |
| SpeedTest.ExtractServerInfoShape | services/speedTestService.ts:12-43 | at most one record per line, all with a host, each produced by a line of known family, with pairwise distinct ids |
| SpeedTest.VmessServerInfo | services/speedTestService.ts:16-20 | a VMess link built from a configuration yields its `ps` (or `VMess Server`) and its `add` |
| SpeedTest.SsrServerInfo | services/speedTestService.ts:31-36 | an SSR link encoding `host:rest` yields that host as an `SSR Server` |
| SpeedTest.SsrServerInfoUnpadded | services/speedTestService.ts:31-36 | the same for the unpadded URL-safe body that processSSR writes: the link yields `host` as an `SSR Server` |
| SpeedTest.UrlServerAlias | services/speedTestService.ts:21-29 | a URL line's alias is the decoded fragment, or the hostname when the fragment is empty, with the upper-cased protocol |
| App.LastSegmentPlain | App.tsx:50-52 | the last segment contains no `/`, `?` or `#` |
| App.ExtractFilenameShape | App.tsx:48-60 | the name is the last segment when that contains a dot, else `sub.txt`; either way it has a dot and no `/`, `?` or `#` |
| App.WithoutQueryAndHashOf | App.tsx:50 | cutting at `?` and `#` removes exactly a query or hash tail |
| App.ExtractFilenameOf | App.tsx:48-60 | the file name of `dir/name` followed by a query or hash is `name` |
| App.FirstMatchLeftmost | App.tsx:43 | the search fails exactly when no position matches, and otherwise returns the leftmost match |
| App.ExtractGistIdShape | App.tsx:41-45 | no id exactly when the pattern matches nowhere; otherwise 32 hex digits taken from the leftmost match |
| App.IdAfterUser | App.tsx:42 | after the host, an optional user segment and then 32 hex digits give those digits |
| App.GistIdAtLink | App.tsx:42 | either gist host followed by a user and an id matches with that id |
| App.ExtractGistIdOf | App.tsx:41-45 | a gist link with a user and a 32-hex-digit id yields that id |
| App.RawRevisionFits | App.tsx:157 | a revision match covers `/raw/`, at least one character and `/` within the text |
| App.PermanentUrlSplice | App.tsx:157 | the rewrite keeps the text before the leftmost match, puts `/raw/` in place of the match, keeps the rest, and shortens the URL |
| App.PermanentUrlUnchanged | App.tsx:157 | the URL is unchanged exactly when the pattern matches nowhere |
| App.RawRevisionOf | App.tsx:157 | `/raw/` followed by an alphanumeric revision and `/` matches |
| App.PermanentUrlOf | App.tsx:157 | a raw URL with one revision segment becomes the same URL without the revision |

## Left out

- Network requests, timeouts, `AbortController`, `Promise.all`: the provider
  answers are the `GeoIp.Network` parameter. The requests of one batch are
  modelled in order, one after the other. `Promise.all` runs them concurrently,
  but they touch different cache entries.
- The 1100 ms `setTimeout` pause is not a clock: `BatchResolve` returns the
  schedule of groups and pauses instead.
- `localStorage`: the stored cache is the `GeoCache` field `entries`.
  `getCache` and its JSON parse are the constructor. A corrupt stored cache,
  which `getCache` turns into `{}`, is not modelled.
- Hosts named like `Object.prototype` members (`constructor`, `toString`) behave
  differently in the JavaScript cache object. The model's map does not have
  them.
- `JSON.parse`/`JSON.stringify`, `new URL`/`toString`, and the
  `URLSearchParams` parser and serializer are parameters. Their exceptions are
  the `None` of `parse`. The URL `hostname` setter's validation of the CDN name
  is not modelled.
- JSON members of a type other than string (say a numeric `add`) are not
  modelled. `VmessConfig` holds the members the program reads as optional
  strings, and keeps the rest as text.
- `toUpperCase` and the `i` flag of the regular expressions are modelled on
  ASCII letters only. String lengths count code points, not UTF-16 units.
  `getFlagEmoji` first checks for two letters A to Z, so only ASCII reaches
  `fromCodePoint`.
- `muxConcurrency` being `NaN` is not modelled; it is an integer.
  `fragmentLength` and `fragmentInterval` are strings, as the form stores them.
- `console.error`, `getTehranDate`, `pingServer` and the rest of
  `speedTestService.ts` are not modelled. Neither is the rest of `App.tsx`
  (React state, gist upload, logging).
- `extractFilename`'s `catch`: nothing in its body can throw on a string, so
  the model has no error path.
- Hosts.ExtractHost: the contract covers only the unknown and SSR families
  directly. The VMess and URL families are stated through
  `Hosts.HostFromVmess` and `Hosts.HostFromStandardUrl`, which it returns.
- App.ExtractGistIdOf: requires that the text before the host contain no `g`
  (in either case). This rules out an earlier partial match. Links with such a
  prefix are covered only by `App.ExtractGistIdShape`.
- App.PermanentUrlOf: requires that no `/raw/` occur before the revision
  segment. Other URLs are covered by `App.PermanentUrlSplice` and
  `App.PermanentUrlUnchanged`.
- SpeedTest.UrlServerAlias: only a fragment that is the `encodeURIComponent`
  form of a name, or no fragment, is covered. A fragment that fails to decode
  leaves no record, as the `catch` does.
- Rewriters.VmessProcessedReadsBack and Rewriters.SsrRewriteReadsBack: these
  assume the JSON and form codecs read back what they write. The codecs are
  parameters.
