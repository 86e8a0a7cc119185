/** The three per-format rewriters. Each applies the enabled options (CDN
    address substitution, multiplexing, TLS fragmentation, insecure TLS and
    ALPN) to one link and gives it a new alias; a link that cannot be read is
    returned as it came. */
module Rewriters {
  import opened Text
  import Codec
  import UriComponent
  import Utf8
  import opened Links
  import Hosts
  import Naming
  import GeoIp

  const Alpn := "h2,http/1.1"

  // ---- VMess: JSON in standard base64 ----

  /** CDN substitution applies to a WebSocket or gRPC transport when it is
      enabled and a CDN address is given. */
  predicate VmessCdnApplies(config: VmessConfig, options: ProcessingOptions)
  {
    options.enableCDNIP && options.customCDN != "" && (config.net == Some("ws") || config.net == Some("grpc"))
  }

  /** `options.muxConcurrency || 8`. */
  function MuxConcurrency(options: ProcessingOptions): (r: int)
    ensures r != 0
    ensures options.muxConcurrency != 0 ==> r == options.muxConcurrency
  {
    if options.muxConcurrency != 0 then options.muxConcurrency else 8
  }

  /** The configuration processVmess writes. */
  function RewriteVmessConfig(config: VmessConfig, options: ProcessingOptions, index: nat,
                              location: Option<GeoIp.LocationData>): VmessConfig
  {
    var cdn := VmessCdnApplies(config, options);
    config.(
      add := if cdn then Some(options.customCDN) else config.add,
      host := if cdn && Blank(config.host) then config.add else config.host,
      sni := if cdn && config.tls == Some("tls") && Blank(config.sni) then config.add else config.sni,
      mux := if options.enableMux then MuxObject(true, MuxConcurrency(options)) else config.mux,
      alpn := if options.enableALPN && config.tls == Some("tls") then Some(Alpn) else config.alpn,
      ps := Some(Naming.Alias(index, location, options)))
  }

  /** Each member of the rewritten configuration as the options determine it:
      the address moves to the CDN only under substitution; `host` and `sni`
      receive the old address only when blank (`sni` only for TLS); mux and
      ALPN (for TLS only) are set when enabled; the alias always replaces
      `ps`; the transport, security and every other member are kept. */
  lemma RewriteVmessConfigMembers(config: VmessConfig, options: ProcessingOptions, index: nat,
                                  location: Option<GeoIp.LocationData>)
    ensures var r := RewriteVmessConfig(config, options, index, location);
      && r.ps == Some(Naming.Alias(index, location, options))
      && r.net == config.net && r.tls == config.tls && r.others == config.others
      && r.add == (if VmessCdnApplies(config, options) then Some(options.customCDN) else config.add)
      && (!Blank(config.host) ==> r.host == config.host)
      && (!Blank(config.sni) ==> r.sni == config.sni)
      && (r.host != config.host ==> VmessCdnApplies(config, options) && r.host == config.add)
      && (r.sni != config.sni ==> VmessCdnApplies(config, options) && config.tls == Some("tls") && r.sni == config.add)
      && r.mux == (if options.enableMux then MuxObject(true, MuxConcurrency(options)) else config.mux)
      && r.alpn == (if options.enableALPN && config.tls == Some("tls") then Some(Alpn) else config.alpn)
  {
  }

  /** The JSON text of a VMess link: the decoded body after `vmess://`. */
  function VmessJson(link: string): string
  {
    Codec.SafeB64Decode(RemoveFirst(link, "vmess://"))
  }

  /** What processVmess returns: the link itself when its body decodes to
      nothing or does not parse, else the link of the rewritten configuration. */
  function VmessProcessed(link: string, options: ProcessingOptions, index: nat,
                          location: Option<GeoIp.LocationData>, json: JsonCodec): (r: string)
    ensures VmessJson(link) == "" || json.parse(VmessJson(link)).None? ==> r == link
    ensures VmessJson(link) != "" && json.parse(VmessJson(link)).Some? ==>
      StartsWith(r, "vmess://") && r[8..] == Codec.SafeB64Encode(json.stringify(
        RewriteVmessConfig(json.parse(VmessJson(link)).value, options, index, location)))
  {
    var text := VmessJson(link);
    if text == "" then link
    else
      match json.parse(text)
      case None => link
      case Some(config) =>
        var out := Hosts.VmessLink(RewriteVmessConfig(config, options, index, location), json);
        assert out[..8] == "vmess://";
        out
  }

  /** processVmess, updating the parsed configuration member by member. */
  method ProcessVmess(link: string, options: ProcessingOptions, index: nat,
                      location: Option<GeoIp.LocationData>, json: JsonCodec) returns (r: string)
    ensures r == VmessProcessed(link, options, index, location, json)
  {
    var b64Part := RemoveFirst(link, "vmess://");
    var jsonStr := Codec.SafeB64Decode(b64Part);
    if jsonStr == "" {
      return link;
    }
    var parsed := json.parse(jsonStr);
    if parsed.None? {
      return link;
    }
    var config := RewriteVmess(parsed.value, options, index, location);
    r := "vmess://" + Codec.SafeB64Encode(json.stringify(config));
  }

  /** The member updates of processVmess, in its order. */
  method RewriteVmess(config: VmessConfig, options: ProcessingOptions, index: nat,
                      location: Option<GeoIp.LocationData>) returns (r: VmessConfig)
    ensures r == RewriteVmessConfig(config, options, index, location)
  {
    r := config;
    if options.enableCDNIP && options.customCDN != "" && (r.net == Some("ws") || r.net == Some("grpc")) {
      var originalAddress := r.add;
      r := r.(add := Some(options.customCDN));
      if Blank(r.host) {
        r := r.(host := originalAddress);
      }
      if r.tls == Some("tls") && Blank(r.sni) {
        r := r.(sni := originalAddress);
      }
    }
    if options.enableMux {
      r := r.(mux := MuxObject(true, MuxConcurrency(options)));
    }
    if options.enableALPN && r.tls == Some("tls") {
      r := r.(alpn := Some(Alpn));
    }
    var alias := Naming.GenerateNewAlias(r.ps, index, location, options);
    r := r.(ps := Some(alias));
  }

  /** A rewritten VMess link reads back as the rewritten configuration, and
      its host is the rewritten address when that is not blank. */
  lemma VmessProcessedReadsBack(link: string, options: ProcessingOptions, index: nat,
                                location: Option<GeoIp.LocationData>, json: JsonCodec, config: VmessConfig)
    requires VmessJson(link) != "" && json.parse(VmessJson(link)) == Some(config)
    requires var rewritten := RewriteVmessConfig(config, options, index, location);
      json.parse(json.stringify(rewritten)) == Some(rewritten)
    ensures var out := VmessProcessed(link, options, index, location, json);
      var rewritten := RewriteVmessConfig(config, options, index, location);
      json.parse(VmessJson(out)) == Some(rewritten)
      && Hosts.HostFromVmess(out, json) == (if rewritten.add.Some? && Trim(rewritten.add.value) != "" then rewritten.add else None)
  {
    var rewritten := RewriteVmessConfig(config, options, index, location);
    var out := Hosts.VmessLink(rewritten, json);
    RemoveFirstPrefix(out, "vmess://");
    assert out[8..] == Codec.SafeB64Encode(json.stringify(rewritten));
    Codec.SafeB64RoundTrip(json.stringify(rewritten));
    Hosts.HostFromVmessLink(rewritten, json);
  }

  // ---- SSR: base64url with a `remarks` query parameter ----

  /** The decoded body of an SSR link. */
  function SsrDecoded(link: string): string
  {
    Codec.Base64UrlDecoded(DropPrefix(link, "ssr://"))
  }

  /** The part of the decoded body before the first `/?`. */
  function SsrMain(link: string): string
  {
    SplitOn(SsrDecoded(link), "/?")[0]
  }

  /** The query text between the first and any second `/?`, or "". */
  function SsrQuery(link: string): string
  {
    var pieces := SplitOn(SsrDecoded(link), "/?");
    if |pieces| > 1 then pieces[1] else ""
  }

  /** The query parameters with `remarks` set to the encoded alias. */
  function SsrParams(link: string, options: ProcessingOptions, index: nat,
                     location: Option<GeoIp.LocationData>, form: FormCodec): Params
  {
    Set(form.parse(SsrQuery(link)), "remarks", Codec.SafeBase64UrlEncode(Naming.Alias(index, location, options)))
  }

  /** processSSR: the main part, `/?` and the updated query, re-encoded in
      unpadded base64url. */
  function ProcessSsr(link: string, options: ProcessingOptions, index: nat,
                      location: Option<GeoIp.LocationData>, form: FormCodec): (r: string)
    ensures StartsWith(r, "ssr://")
    ensures Codec.Base64UrlDecoded(r[6..]) ==
      SsrMain(link) + "/?" + form.serialize(SsrParams(link, options, index, location, form))
  {
    var body := SsrMain(link) + "/?" + form.serialize(SsrParams(link, options, index, location, form));
    Codec.Base64UrlRoundTrip(body);
    var r := "ssr://" + Codec.SafeBase64UrlEncode(body);
    assert r[..6] == "ssr://" && r[6..] == Codec.SafeBase64UrlEncode(body);
    r
  }

  /** No `/?` begins inside the main part once `/?` and a `?`-free query follow it. */
  lemma MainHasNoSeparator(decoded: string, main: string, b: string)
    requires main == SplitOn(decoded, "/?")[0] && '?' !in b
    ensures forall i :: 0 <= i < |main| ==> !OccursAt(main + "/?" + b, "/?", i)
    ensures IndexOfSub(b, "/?") < 0
  {
    assert IndexOfSub(main, "/?") < 0;
    NoSeparatorBefore(main, b);
    NoSeparatorWithoutQuestion(b);
  }

  /** A text without `/?` followed by `/?`: no occurrence starts inside it. */
  lemma NoSeparatorBefore(main: string, b: string)
    requires IndexOfSub(main, "/?") < 0
    ensures forall i :: 0 <= i < |main| ==> !OccursAt(main + "/?" + b, "/?", i)
  {
    var s := main + "/?" + b;
    forall i | 0 <= i < |main| ensures !OccursAt(s, "/?", i) {
      if i + 2 <= |main| {
        assert s[i..i + 2] == main[i..i + 2];
        assert !OccursAt(main, "/?", i);
      } else {
        assert s[i..i + 2][1] == s[i + 1] == '/';
      }
    }
  }

  lemma NoSeparatorWithoutQuestion(b: string)
    requires '?' !in b
    ensures IndexOfSub(b, "/?") < 0
  {
    forall j: nat ensures !OccursAt(b, "/?", j) {
      if j + 2 <= |b| {
        assert b[j..j + 2][1] == b[j + 1];
      }
    }
  }

  /** Splitting the main part, `/?` and a `?`-free query at `/?` gives the two back. */
  lemma SplitMainQuery(decoded: string, b: string)
    requires '?' !in b
    ensures SplitOn(SplitOn(decoded, "/?")[0] + "/?" + b, "/?") == [SplitOn(decoded, "/?")[0], b]
  {
    var main := SplitOn(decoded, "/?")[0];
    MainHasNoSeparator(decoded, main, b);
    SplitOnConcat(main, "/?", b);
  }

  /** The rewritten body splits at `/?` into the old main part and the new query. */
  lemma SsrSplitOut(link: string, options: ProcessingOptions, index: nat,
                    location: Option<GeoIp.LocationData>, form: FormCodec)
    requires '?' !in form.serialize(SsrParams(link, options, index, location, form))
    ensures var out := ProcessSsr(link, options, index, location, form);
      SplitOn(SsrDecoded(out), "/?") == [SsrMain(link), form.serialize(SsrParams(link, options, index, location, form))]
  {
    var out := ProcessSsr(link, options, index, location, form);
    var ser := form.serialize(SsrParams(link, options, index, location, form));
    assert SsrDecoded(out) == SsrMain(link) + "/?" + ser by {
      assert DropPrefix(out, "ssr://") == out[6..];
    }
    SplitMainQuery(SsrDecoded(link), ser);
  }

  /** A rewritten SSR link keeps its main part, carries the alias (in
      base64url) as `remarks`, and keeps every other query parameter, when the
      form codec reads back what it writes and never writes `?`. */
  lemma SsrRewriteReadsBack(link: string, options: ProcessingOptions, index: nat,
                            location: Option<GeoIp.LocationData>, form: FormCodec)
    requires var p := SsrParams(link, options, index, location, form);
      form.parse(form.serialize(p)) == p && '?' !in form.serialize(p)
    ensures var out := ProcessSsr(link, options, index, location, form);
      var p := SsrParams(link, options, index, location, form);
      SplitOn(SsrDecoded(out), "/?") == [SsrMain(link), form.serialize(p)]
      && Get(form.parse(SsrQuery(out)), "remarks") == Some(Codec.SafeBase64UrlEncode(Naming.Alias(index, location, options)))
      && (forall m :: m != "remarks" ==> Get(form.parse(SsrQuery(out)), m) == Get(form.parse(SsrQuery(link)), m))
  {
    var out := ProcessSsr(link, options, index, location, form);
    var p := SsrParams(link, options, index, location, form);
    var q := form.parse(SsrQuery(link));
    var remarks := Codec.SafeBase64UrlEncode(Naming.Alias(index, location, options));
    SsrSplitOut(link, options, index, location, form);
    assert SsrQuery(out) == form.serialize(p);
    SetReads(q, "remarks", remarks, form.parse(SsrQuery(out)));
  }

  /** The alias stored in `remarks` decodes back to the alias. */
  lemma SsrRemarksDecode(index: nat, location: Option<GeoIp.LocationData>, options: ProcessingOptions)
    ensures Codec.Base64UrlDecoded(Codec.SafeBase64UrlEncode(Naming.Alias(index, location, options)))
      == Naming.Alias(index, location, options)
  {
    Codec.Base64UrlRoundTrip(Naming.Alias(index, location, options));
  }

  /** A body that decodes to nothing is not passed through: the result is a
      new link whose body is `/?` and the query. */
  lemma SsrUndecodableRewritten(link: string, options: ProcessingOptions, index: nat,
                                location: Option<GeoIp.LocationData>, form: FormCodec)
    requires StartsWith(link, "ssr://") && SsrDecoded(link) == ""
    ensures ProcessSsr(link, options, index, location, form) != link
    ensures StartsWith(SsrDecoded(ProcessSsr(link, options, index, location, form)), "/?")
  {
    var out := ProcessSsr(link, options, index, location, form);
    assert SsrMain(link) == "";
    var body := SsrMain(link) + "/?" + form.serialize(SsrParams(link, options, index, location, form));
    assert DropPrefix(out, "ssr://") == out[6..];
    assert SsrDecoded(out) == body;
    assert body[..2] == "/?";
  }

  // ---- VLESS, Trojan and Shadowsocks: URLs ----

  /** A legacy Shadowsocks link whose payload decodes to text with an `@`
      is read as `ss://` followed by that text and the original hash; any
      other link is read as it is. */
  function LegacyExpanded(link: string): (r: string)
    ensures !Hosts.IsLegacySs(link) ==> r == link
  {
    if Hosts.IsLegacySs(link) then
      var parts := Hosts.SplitLegacySs(link);
      var decoded := Codec.Base64UrlDecoded(parts.payload);
      if '@' in decoded then "ss://" + decoded + parts.hash else link
    else link
  }

  /** A legacy link carrying `userinfo@hostport` in base64url expands to the
      plain URL with the same hash. */
  lemma LegacyExpandedEncoded(userinfo: string, hostport: string, hash: string)
    requires (hash == [] || hash[0] == '#') && '@' !in hash
    ensures LegacyExpanded("ss://" + Codec.SafeBase64UrlEncode(userinfo + "@" + hostport) + hash)
      == "ss://" + (userinfo + "@" + hostport) + hash
  {
    var decoded := userinfo + "@" + hostport;
    Hosts.LegacyEncodedSplit(decoded, hash);
    assert decoded[|userinfo|] == '@';
  }

  predicate IsTlsLike(security: Option<string>)
  {
    security == Some("tls") || security == Some("reality") || security == Some("xtls")
  }

  /** The transport is WebSocket or gRPC: by `type`, by `mode`, or by a
      non-empty `serviceName`. */
  predicate IsWsOrGrpc(params: Params)
  {
    Get(params, "type") == Some("ws") || Get(params, "type") == Some("grpc")
    || Get(params, "mode") == Some("grpc")
    || (Get(params, "serviceName").Some? && Get(params, "serviceName").value != "")
  }

  predicate UrlCdnApplies(u: Url, options: ProcessingOptions)
  {
    options.enableCDNIP && options.customCDN != "" && IsWsOrGrpc(u.params)
  }

  /** What get reads from the result of a set. */
  lemma SetReads(params: Params, name: string, value: string, r: Params)
    requires r == Set(params, name, value)
    ensures Get(r, name) == Some(value)
    ensures forall m :: m != name ==> Get(r, m) == Get(params, m)
  {
    GetSet(params, name, value, name);
    forall m | m != name ensures Get(r, m) == Get(params, m) {
      GetSet(params, name, value, m);
    }
  }

  /** Setting one parameter when a switch is on. */
  function SetWhen(on: bool, params: Params, name: string, value: string): Params
  {
    if on then Set(params, name, value) else params
  }

  /** After a switched set, get returns the new value for that name when the
      switch is on, and the old value otherwise. */
  lemma SetWhenGet(on: bool, params: Params, name: string, value: string, m: string)
    ensures Get(SetWhen(on, params, name, value), m) == if on && m == name then Some(value) else Get(params, m)
  {
    if on {
      GetSet(params, name, value, m);
    }
  }

  /** CDN substitution: the hostname becomes the CDN address; `host`, when
      absent, and `sni`, when absent and the security is TLS-like, receive the
      old hostname. */
  function CdnStep(u: Url, options: ProcessingOptions): (r: Url)
    ensures r == u.(hostname := r.hostname, params := r.params)
    ensures r.hostname == if UrlCdnApplies(u, options) then options.customCDN else u.hostname
  {
    if UrlCdnApplies(u, options) then
      var p1 := SetWhen(!Has(u.params, "host"), u.params, "host", u.hostname);
      var p2 := SetWhen(!Has(p1, "sni") && IsTlsLike(Get(p1, "security")), p1, "sni", u.hostname);
      u.(hostname := options.customCDN, params := p2)
    else
      u
  }

  /** The value each parameter name has after CDN substitution. */
  function CdnValue(u: Url, options: ProcessingOptions, m: string): Option<string>
  {
    if m == "host" && Get(u.params, "host").None? && UrlCdnApplies(u, options) then Some(u.hostname)
    else if m == "sni" && Get(u.params, "sni").None? && UrlCdnApplies(u, options)
      && IsTlsLike(Get(u.params, "security")) then Some(u.hostname)
    else Get(u.params, m)
  }

  /** CDN substitution fills an absent `host` (and `sni` for TLS-like
      security) with the old hostname and touches no other parameter. */
  lemma CdnStepGet(u: Url, options: ProcessingOptions, m: string)
    ensures Get(CdnStep(u, options).params, m) == CdnValue(u, options, m)
  {
    if UrlCdnApplies(u, options) {
      HasGet(u.params, "host");
      var p1 := SetWhen(!Has(u.params, "host"), u.params, "host", u.hostname);
      SetWhenGet(!Has(u.params, "host"), u.params, "host", u.hostname, m);
      SetWhenGet(!Has(u.params, "host"), u.params, "host", u.hostname, "sni");
      SetWhenGet(!Has(u.params, "host"), u.params, "host", u.hostname, "security");
      HasGet(p1, "sni");
      SetWhenGet(!Has(p1, "sni") && IsTlsLike(Get(p1, "security")), p1, "sni", u.hostname, m);
    }
  }

  /** Multiplexing: `mux=true` and the concurrency. */
  function MuxStep(params: Params, options: ProcessingOptions): Params
  {
    var p1 := SetWhen(options.enableMux, params, "mux", "true");
    SetWhen(options.enableMux, p1, "concurrency", IntToString(options.muxConcurrency))
  }

  /** The fragment setting `length,interval,random`. */
  function FragmentValue(options: ProcessingOptions): string
  {
    options.fragmentLength + "," + options.fragmentInterval + ",random"
  }

  /** The parameters the options tune after CDN substitution. */
  predicate IsTunedName(m: string)
  {
    m == "mux" || m == "concurrency" || m == "fragment" || m == "allowInsecure" || m == "alpn"
  }

  /** Multiplexing, fragmentation, insecure TLS and ALPN applied in the
      source's order, each one a set on the parameters. */
  function TunedParams(params: Params, options: ProcessingOptions): Params
  {
    var p1 := MuxStep(params, options);
    var p2 := SetWhen(options.enableFragment, p1, "fragment", FragmentValue(options));
    var p3 := SetWhen(options.allowInsecure, p2, "allowInsecure", "1");
    SetWhen(options.enableALPN && IsTlsLike(Get(p3, "security")), p3, "alpn", Alpn)
  }

  /** The value each parameter name ends up with, name by name: a tuned name
      has its fixed value when its option is on (ALPN only for TLS-like
      security); every other name keeps its value. */
  function TunedValue(params: Params, options: ProcessingOptions, m: string): Option<string>
  {
    if m == "mux" && options.enableMux then Some("true")
    else if m == "concurrency" && options.enableMux then Some(IntToString(options.muxConcurrency))
    else if m == "fragment" && options.enableFragment then Some(FragmentValue(options))
    else if m == "allowInsecure" && options.allowInsecure then Some("1")
    else if m == "alpn" && options.enableALPN && IsTlsLike(Get(params, "security")) then Some(Alpn)
    else Get(params, m)
  }

  /** The sequence of sets gives every name its value in the table. */
  lemma TunedParamsGet(params: Params, options: ProcessingOptions, m: string)
    ensures Get(TunedParams(params, options), m) == TunedValue(params, options, m)
  {
    var concurrency := IntToString(options.muxConcurrency);
    var p0 := SetWhen(options.enableMux, params, "mux", "true");
    var p1 := SetWhen(options.enableMux, p0, "concurrency", concurrency);
    var p2 := SetWhen(options.enableFragment, p1, "fragment", FragmentValue(options));
    var p3 := SetWhen(options.allowInsecure, p2, "allowInsecure", "1");
    var alpn := options.enableALPN && IsTlsLike(Get(p3, "security"));
    SetWhenGet(options.enableMux, params, "mux", "true", m);
    SetWhenGet(options.enableMux, params, "mux", "true", "security");
    SetWhenGet(options.enableMux, p0, "concurrency", concurrency, m);
    SetWhenGet(options.enableMux, p0, "concurrency", concurrency, "security");
    SetWhenGet(options.enableFragment, p1, "fragment", FragmentValue(options), m);
    SetWhenGet(options.enableFragment, p1, "fragment", FragmentValue(options), "security");
    SetWhenGet(options.allowInsecure, p2, "allowInsecure", "1", m);
    SetWhenGet(options.allowInsecure, p2, "allowInsecure", "1", "security");
    SetWhenGet(alpn, p3, "alpn", Alpn, m);
  }

  /** The query after CDN substitution and tuning. */
  function RewrittenParams(u: Url, options: ProcessingOptions): Params
  {
    TunedParams(CdnStep(u, options).params, options)
  }

  /** The URL processUrlBased serializes: CDN substitution, the tuned
      parameters, and the hash set to the URI-encoded alias, which decodes
      back to the alias. Protocol, credentials, port and path are kept. */
  function RewriteUrl(u: Url, options: ProcessingOptions, index: nat, location: Option<GeoIp.LocationData>): (r: Url)
    ensures r == u.(hostname := r.hostname, params := r.params, fragment := r.fragment)
    ensures r.hostname == if UrlCdnApplies(u, options) then options.customCDN else u.hostname
    ensures r.fragment.Some? && UriComponent.Decode(r.fragment.value) == Some(Naming.Alias(index, location, options))
  {
    var alias := Naming.Alias(index, location, options);
    UriComponent.DecodeEncode(alias);
    CdnStep(u, options).(params := RewrittenParams(u, options), fragment := Some(UriComponent.Encode(alias)))
  }

  /** The value each parameter name ends up with in the rewritten URL: the
      tuned names follow TunedValue, `host` and `sni` follow CdnValue, and
      every other name keeps its value. */
  function RewrittenValue(u: Url, options: ProcessingOptions, m: string): Option<string>
  {
    if m == "host" || m == "sni" then CdnValue(u, options, m) else TunedValue(u.params, options, m)
  }

  /** CDN substitution changes only `host` and `sni`, which are not tuned, and
      never `security`. */
  lemma CdnTunedValue(u: Url, options: ProcessingOptions, m: string)
    ensures TunedValue(CdnStep(u, options).params, options, m) == RewrittenValue(u, options, m)
  {
    CdnStepGet(u, options, m);
    CdnStepGet(u, options, "security");
  }

  /** Every parameter of the rewritten URL has its value in the table. */
  lemma RewrittenParamsGet(u: Url, options: ProcessingOptions, m: string)
    ensures Get(RewrittenParams(u, options), m) == RewrittenValue(u, options, m)
  {
    TunedParamsGet(CdnStep(u, options).params, options, m);
    CdnTunedValue(u, options, m);
  }

  /** An existing `host` or `sni` is never overwritten, and every parameter
      the rewriter does not touch keeps its value. */
  lemma RewriteUrlKeeps(u: Url, options: ProcessingOptions, index: nat, location: Option<GeoIp.LocationData>, m: string)
    requires ((m == "host" || m == "sni") && Get(u.params, m).Some?) || (!IsTunedName(m) && m != "host" && m != "sni")
    ensures Get(RewriteUrl(u, options, index, location).params, m) == Get(u.params, m)
  {
    RewrittenParamsGet(u, options, m);
  }

  /** What processUrlBased returns: the link itself when the (expanded) link
      does not parse, else the serialized rewritten URL. */
  function UrlProcessed(link: string, options: ProcessingOptions, index: nat,
                        location: Option<GeoIp.LocationData>, url: UrlCodec): (r: string)
    ensures url.parse(LegacyExpanded(link)).None? ==> r == link
    ensures url.parse(LegacyExpanded(link)).Some? ==>
      r == url.serialize(RewriteUrl(url.parse(LegacyExpanded(link)).value, options, index, location))
  {
    match url.parse(LegacyExpanded(link))
    case None => link
    case Some(u) => url.serialize(RewriteUrl(u, options, index, location))
  }

  /** encodeURIComponent of a non-empty text is non-empty and never starts
      with `#`, so the hash setter stores it as it is. */
  lemma EncodedHash(s: string)
    requires s != ""
    ensures var e := UriComponent.Encode(s); e != "" && e[0] != '#'
  {
    var head := UriComponent.EncodeChar(s[0]);
    assert UriComponent.Encode(s) == head + UriComponent.Encode(s[1..]);
    if !UriComponent.IsUnreserved(s[0]) {
      var bytes := Utf8.EncodeChar(s[0]);
      assert head == UriComponent.Escape(bytes[0]) + UriComponent.Escapes(bytes[1..]);
    }
  }

  /** The legacy Shadowsocks pre-processing of processUrlBased: a link
      without `@` whose payload decodes to text with an `@` is rebuilt from
      that text and its hash. */
  method ExpandLegacySs(link: string) returns (originalLink: string)
    ensures originalLink == LegacyExpanded(link)
  {
    originalLink := link;
    if StartsWith(link, "ss://") && '@' !in link {
      var parts := Hosts.SplitLegacySs(link);
      var decoded := Codec.SafeBase64UrlDecode(parts.payload);
      if '@' in decoded {
        originalLink := "ss://" + decoded + parts.hash;
      }
    }
  }

  /** The CDN block of processUrlBased on the parsed URL and its search
      parameters. */
  method SubstituteCdn(u: Url, options: ProcessingOptions) returns (urlObj: Url)
    ensures urlObj == CdnStep(u, options)
  {
    urlObj := u;
    var params := urlObj.params;
    if options.enableCDNIP && options.customCDN != "" && IsWsOrGrpc(params) {
      var originalHost := urlObj.hostname;
      urlObj := urlObj.(hostname := options.customCDN);
      if !Has(params, "host") {
        params := Set(params, "host", originalHost);
      }
      var security := Get(params, "security");
      if !Has(params, "sni") && IsTlsLike(security) {
        params := Set(params, "sni", originalHost);
      }
    }
    urlObj := urlObj.(params := params);
  }

  /** The multiplexing, fragment, insecure and ALPN blocks of
      processUrlBased, each a set on the search parameters. */
  method TuneParams(start: Params, options: ProcessingOptions) returns (params: Params)
    ensures params == TunedParams(start, options)
  {
    params := start;
    if options.enableMux {
      params := Set(params, "mux", "true");
      params := Set(params, "concurrency", IntToString(options.muxConcurrency));
    }
    if options.enableFragment {
      params := Set(params, "fragment", FragmentValue(options));
    }
    if options.allowInsecure {
      params := Set(params, "allowInsecure", "1");
    }
    if options.enableALPN {
      var security := Get(params, "security");
      if IsTlsLike(security) {
        params := Set(params, "alpn", Alpn);
      }
    }
  }

  /** processUrlBased: expand a legacy link, parse it, apply the options to
      the URL and its search parameters, and set the hash to the alias. */
  method ProcessUrlBased(link: string, options: ProcessingOptions, index: nat,
                         location: Option<GeoIp.LocationData>, url: UrlCodec) returns (r: string)
    ensures r == UrlProcessed(link, options, index, location, url)
  {
    var originalLink := ExpandLegacySs(link);
    var parsed := url.parse(originalLink);
    if parsed.None? {
      return link;
    }
    var urlObj := SubstituteCdn(parsed.value, options);
    var params := TuneParams(urlObj.params, options);
    urlObj := urlObj.(params := params);
    var alias := Naming.GenerateNewAlias(Some("Config"), index, location, options);
    Naming.AliasNonEmpty(index, location, options);
    EncodedHash(alias);
    urlObj := SetHash(urlObj, UriComponent.Encode(alias));
    r := url.serialize(urlObj);
  }
}
