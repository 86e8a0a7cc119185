/** Host extraction: the server address named by a proxy link, used to look
    up its location before the links are rewritten. A VMess link carries it
    in the `add` member of its JSON, an SSR link as the first field of its
    decoded body, and the URL-shaped links as the URL's hostname; a legacy
    Shadowsocks link whose whole user part is base64 is decoded first. */
module Hosts {
  import opened Text
  import Codec
  import opened Links

  /** The VMess host: the `add` member of the decoded JSON when it is not
      blank once trimmed, and nothing when the body does not parse. */
  function HostFromVmess(link: string, json: JsonCodec): (r: Option<string>)
    ensures r.Some? ==> Trim(r.value) != ""
    ensures r.Some? ==> exists c :: json.parse(Codec.SafeB64Decode(RemoveFirst(link, "vmess://"))) == Some(c) && c.add == r
  {
    match json.parse(Codec.SafeB64Decode(RemoveFirst(link, "vmess://")))
    case None => None
    case Some(config) =>
      if config.add.Some? && Trim(config.add.value) != "" then config.add else None
  }

  /** The link that processVmess writes for a configuration. */
  function VmessLink(config: VmessConfig, json: JsonCodec): string
  {
    "vmess://" + Codec.SafeB64Encode(json.stringify(config))
  }

  /** The host read back from a VMess link is the `add` member it was written with. */
  lemma HostFromVmessLink(config: VmessConfig, json: JsonCodec)
    requires json.parse(json.stringify(config)) == Some(config)
    ensures HostFromVmess(VmessLink(config, json), json) ==
      if config.add.Some? && Trim(config.add.value) != "" then config.add else None
  {
    var link := VmessLink(config, json);
    RemoveFirstPrefix(link, "vmess://");
    assert link[8..] == Codec.SafeB64Encode(json.stringify(config));
    Codec.SafeB64RoundTrip(json.stringify(config));
  }

  /** The SSR host: the text before the first `:` of the decoded first path
      segment. It is never absent: an undecodable body gives "". */
  function HostFromSsr(link: string): (r: string)
    ensures ':' !in r
    ensures StartsWith(Codec.Base64UrlDecoded(Split(DropPrefix(link, "ssr://"), '/')[0]), r)
  {
    var decoded := Codec.Base64UrlDecoded(Split(DropPrefix(link, "ssr://"), '/')[0]);
    var parts := Split(decoded, ':');
    SplitHead(decoded, ':');
    parts[0]
  }

  /** The first piece of a split is a prefix of the string. */
  lemma SplitHead(s: string, c: char)
    ensures StartsWith(s, Split(s, c)[0])
  {
    var k := IndexOf(s, c);
    if k >= 0 {
      assert Split(s, c)[0] == s[..k];
    }
  }

  /** An SSR link whose body encodes `host:rest` yields `host`. */
  lemma HostFromSsrEncoded(host: string, rest: string)
    requires ':' !in host
    ensures HostFromSsr("ssr://" + Codec.SafeBase64UrlEncode(host + ":" + rest)) == host
  {
    var body := Codec.SafeBase64UrlEncode(host + ":" + rest);
    var link := "ssr://" + body;
    assert StartsWith(link, "ssr://") && link[6..] == body;
    assert '/' !in body by {
      forall i | 0 <= i < |body| ensures body[i] != '/' {
        assert IsAsciiAlphanumeric(body[i]) || body[i] == '-' || body[i] == '_';
      }
    }
    SplitNoSeparator(body, '/');
    Codec.Base64UrlRoundTrip(host + ":" + rest);
    SplitFirst(host, ':', rest);
  }

  /** A legacy Shadowsocks link cut at its first `#`: the base64 payload and
      the hash (empty, or `#` and what follows). */
  datatype LegacySs = LegacySs(payload: string, hash: string)

  function SplitLegacySs(link: string): (r: LegacySs)
    requires StartsWith(link, "ss://")
    ensures link == "ss://" + r.payload + r.hash
    ensures '#' !in r.payload
    ensures r.hash == [] || r.hash[0] == '#'
  {
    var k := IndexOf(link, '#');
    if k < 0 then LegacySs(link[5..], "")
    else
      assert link[..5] == "ss://";
      assert link[0] == 's' && link[1] == 's' && link[2] == ':' && link[3] == '/' && link[4] == '/';
      assert link[5..k] == link[..k][5..];
      LegacySs(link[5..k], link[k..])
  }

  /** A Shadowsocks link whose user part is all base64, with no `@`. */
  predicate IsLegacySs(link: string)
  {
    StartsWith(link, "ss://") && '@' !in link
  }

  /** `[::1]` becomes `::1`; other hostnames are kept. */
  function Unbracket(hostname: string): (r: string)
    ensures |hostname| >= 2 && hostname[0] == '[' && hostname[|hostname| - 1] == ']' ==>
      hostname == "[" + r + "]"
    ensures !(|hostname| >= 2 && hostname[0] == '[' && hostname[|hostname| - 1] == ']') ==> r == hostname
  {
    if |hostname| >= 2 && hostname[0] == '[' && hostname[|hostname| - 1] == ']' then hostname[1..|hostname| - 1]
    else hostname
  }

  /** The host of a legacy payload that decodes to `userinfo@host:port`: the
      text before the first `:` of what follows the last `@`. */
  function LegacyHost(decoded: string): (r: string)
    ensures ':' !in r && '@' !in r
  {
    var atParts := Split(decoded, '@');
    var last := atParts[|atParts| - 1];
    Split(last, ':')[0]
  }

  /** The host of a vless://, trojan:// or ss:// link. A legacy Shadowsocks
      payload that decodes to text with an `@` gives the host after it;
      otherwise the link is parsed as a URL, and an unparsable link or an
      empty hostname gives nothing. */
  function HostFromStandardUrl(link: string, url: UrlCodec): (r: Option<string>)
    ensures r.Some? && !IsLegacySs(link) ==>
      exists u :: url.parse(link) == Some(u) && u.hostname != "" && r.value == Unbracket(u.hostname)
    ensures url.parse(link).None? && !IsLegacySs(link) ==> r.None?
  {
    var legacy :=
      if IsLegacySs(link) then
        var decoded := Codec.Base64UrlDecoded(SplitLegacySs(link).payload);
        if '@' in decoded then Some(LegacyHost(decoded)) else None
      else None;
    if legacy.Some? then legacy
    else
      match url.parse(link)
      case None => None
      case Some(u) => if u.hostname == "" then None else Some(Unbracket(u.hostname))
  }

  /** The cut of a legacy link is where its hash begins. */
  lemma SplitLegacySsOf(body: string, hash: string)
    requires '#' !in body && (hash == [] || hash[0] == '#')
    ensures SplitLegacySs("ss://" + body + hash) == LegacySs(body, hash)
  {
    var link := "ss://" + body + hash;
    assert link[..5] == "ss://";
    if hash == [] {
      assert link == "ss://" + body;
      assert '#' !in link;
      assert link[5..] == body;
    } else {
      var k := 5 + |body|;
      assert link[..k] == "ss://" + body;
      assert '#' !in link[..k];
      IndexOfAt(link, '#', k);
      assert link[5..k] == body;
      assert link[k..] == hash;
    }
  }

  /** A payload decoding to `userinfo@host:port` names `host`. */
  lemma LegacyHostOf(userinfo: string, host: string, port: string)
    requires '@' !in host && ':' !in host && '@' !in port
    ensures '@' in userinfo + "@" + host + ":" + port
    ensures LegacyHost(userinfo + "@" + host + ":" + port) == host
  {
    var decoded := userinfo + "@" + host + ":" + port;
    assert decoded == userinfo + ['@'] + (host + ":" + port);
    assert decoded[|userinfo|] == '@';
    assert host + ":" + port == host + [':'] + port;
    assert '@' !in host + ":" + port;
    SplitSnoc(userinfo, '@', host + ":" + port);
    SplitFirst(host, ':', port);
  }

  /** A legacy link built from text in base64url and a hash is cut back into
      the two, and its payload decodes to the text. */
  lemma LegacyEncodedSplit(decoded: string, hash: string)
    requires '@' !in hash && (hash == [] || hash[0] == '#')
    ensures var body := Codec.SafeBase64UrlEncode(decoded);
      var link := "ss://" + body + hash;
      IsLegacySs(link) && SplitLegacySs(link) == LegacySs(body, hash) && Codec.Base64UrlDecoded(body) == decoded
  {
    var body := Codec.SafeBase64UrlEncode(decoded);
    UrlBodyPlain(body);
    LegacyOf(body, hash);
    SplitLegacySsOf(body, hash);
    Codec.Base64UrlRoundTrip(decoded);
  }

  /** Text in the base64url alphabet holds neither `@` nor `#`. */
  lemma UrlBodyPlain(body: string)
    requires forall i :: 0 <= i < |body| ==> IsAsciiAlphanumeric(body[i]) || body[i] == '-' || body[i] == '_'
    ensures '@' !in body && '#' !in body
  {
    forall i | 0 <= i < |body| ensures body[i] != '@' && body[i] != '#' {
      assert IsAsciiAlphanumeric(body[i]) || body[i] == '-' || body[i] == '_';
    }
  }

  /** `ss://`, a payload and a hash without `@` make a legacy link. */
  lemma LegacyOf(body: string, hash: string)
    requires '@' !in body && '@' !in hash
    ensures IsLegacySs("ss://" + body + hash)
  {
    var link := "ss://" + body + hash;
    assert link[..5] == "ss://";
    assert link == "ss://" + (body + hash);
    assert '@' !in body + hash;
  }

  /** A legacy link encoding `userinfo@host:port` yields `host` without
      parsing the link as a URL. */
  lemma HostFromLegacyEncoded(userinfo: string, host: string, port: string, hash: string, url: UrlCodec)
    requires '@' !in host && ':' !in host && '@' !in port
    requires '@' !in hash && (hash == [] || hash[0] == '#')
    ensures HostFromStandardUrl("ss://" + Codec.SafeBase64UrlEncode(userinfo + "@" + host + ":" + port) + hash, url)
      == Some(host)
  {
    LegacyEncodedSplit(userinfo + "@" + host + ":" + port, hash);
    LegacyHostOf(userinfo, host, port);
  }

  /** A link that is not legacy Shadowsocks yields its unbracketed hostname. */
  lemma HostFromParsedUrl(link: string, url: UrlCodec, u: Url)
    requires !IsLegacySs(link) && url.parse(link) == Some(u)
    ensures HostFromStandardUrl(link, url) == if u.hostname == "" then None else Some(Unbracket(u.hostname))
  {
  }

  /** extractHost: the trimmed link's host by its prefix; nothing for an
      unknown prefix. */
  function ExtractHost(link: string, libs: Libraries): (r: Option<string>)
    ensures FormatOf(Trim(link)) == Unknown ==> r.None?
    ensures FormatOf(Trim(link)) == LegacyHeaderless ==> r == Some(HostFromSsr(Trim(link)))
  {
    var l := Trim(link);
    match FormatOf(l)
    case JsonEmbedded => HostFromVmess(l, libs.json)
    case LegacyHeaderless => Some(HostFromSsr(l))
    case StandardUrl => HostFromStandardUrl(l, libs.url)
    case Unknown => None
  }
}
