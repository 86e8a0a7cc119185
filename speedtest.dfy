/** The speed-test link reader: every trimmed non-empty line of a
    subscription that names a server becomes a record of an id, a display
    alias, the host and the protocol; a line that cannot be read, or whose
    host is empty, gives no record. */
module SpeedTest {
  import opened Text
  import Codec
  import UriComponent
  import opened Links
  import Pipeline
  import Hosts

  datatype ServerInfo = ServerInfo(id: string, alias: string, host: string, protocol: string)

  /** The record for a VMess line: the `ps` member (or "VMess Server" when it
      is absent or empty) and the `add` member, absent when the JSON does not
      parse. */
  function VmessInfo(line: string, index: nat, json: JsonCodec): Option<ServerInfo>
  {
    match json.parse(Codec.SafeB64Decode(RemoveFirst(line, "vmess://")))
    case None => None
    case Some(data) =>
      var alias := if data.ps.Some? && data.ps.value != "" then data.ps.value else "VMess Server";
      Some(ServerInfo(IdOf("vms", index), alias, if data.add.Some? then data.add.value else "", "VMess"))
  }

  /** The record for a URL-shaped line: the decoded hash (or the hostname when
      that is empty) and the scheme without its colon, upper-cased; absent
      when the URL does not parse or its hash does not decode. */
  function UrlInfo(line: string, index: nat, url: UrlCodec): Option<ServerInfo>
  {
    match url.parse(line)
    case None => None
    case Some(u) =>
      var hash := Hash(u);
      match UriComponent.Decode(if hash == "" then "" else hash[1..])
      case None => None
      case Some(decoded) =>
        Some(ServerInfo(IdOf("url", index), if decoded != "" then decoded else u.hostname, u.hostname,
                        UpperAscii(RemoveFirst(u.protocol, ":"))))
  }

  /** The record for an SSR line: the host is the decoded first path segment
      up to its first `:`. */
  function SsrInfo(line: string, index: nat): ServerInfo
  {
    var b64 := Split(RemoveFirst(line, "ssr://"), '/')[0];
    var decoded := Codec.SafeB64Decode(b64);
    ServerInfo(IdOf("ssr", index), "SSR Server", Split(decoded, ':')[0], "SSR")
  }

  /** The callback of `lines.map`: the record for a line by its prefix, and
      none for a line of no known prefix. */
  function ServerInfoOf(line: string, index: nat, libs: Libraries): Option<ServerInfo>
  {
    match FormatOf(line)
    case JsonEmbedded => VmessInfo(line, index, libs.json)
    case StandardUrl => UrlInfo(line, index, libs.url)
    case LegacyHeaderless => Some(SsrInfo(line, index))
    case Unknown => None
  }

  /** The mapped lines, each read with its position among the lines. */
  function ServerInfos(lines: seq<string>, libs: Libraries): (r: seq<Option<ServerInfo>>)
    ensures |r| == |lines|
  {
    seq(|lines|, i requires 0 <= i < |lines| => ServerInfoOf(lines[i], i, libs))
  }

  /** The filter: the records present and with a non-empty host, in order. */
  function Kept(infos: seq<Option<ServerInfo>>): seq<ServerInfo>
  {
    if infos == [] then []
    else
      (match infos[0]
       case Some(s) => if s.host != "" then [s] else []
       case None => [])
      + Kept(infos[1..])
  }

  /** extractServerInfo. */
  function ExtractServerInfo(input: string, libs: Libraries): seq<ServerInfo>
  {
    Kept(ServerInfos(Pipeline.ConfigLines(input), libs))
  }

  /** The id of a record: its family tag and the line's position. */
  function IdOf(tag: string, index: nat): string
  {
    tag + "-" + NatToString(index)
  }

  /** An id of a three-letter tag, a dash and decimal digits. */
  predicate IsNumberedId(id: string)
  {
    |id| > 4 && id[3] == '-' && forall i :: 4 <= i < |id| ==> IsDigit(id[i])
  }

  /** The position written in a numbered id. */
  function IdNumber(id: string): nat
    requires IsNumberedId(id)
  {
    DigitsValue(id[4..])
  }

  /** The position is readable back from an id. */
  lemma IdOfNumber(tag: string, index: nat)
    requires |tag| == 3
    ensures IsNumberedId(IdOf(tag, index)) && IdNumber(IdOf(tag, index)) == index
  {
    var id := IdOf(tag, index);
    assert id[4..] == NatToString(index);
    NatToStringValue(index);
  }

  /** A VMess record carries the `vms` id of its position. */
  lemma VmessInfoId(line: string, index: nat, json: JsonCodec)
    ensures VmessInfo(line, index, json).Some? ==>
      VmessInfo(line, index, json).value.id == IdOf("vms", index) && VmessInfo(line, index, json).value.protocol == "VMess"
  {
  }

  /** A URL record carries the `url` id of its position. */
  lemma UrlInfoId(line: string, index: nat, url: UrlCodec)
    ensures UrlInfo(line, index, url).Some? ==> UrlInfo(line, index, url).value.id == IdOf("url", index)
  {
  }

  /** A record's id is `vms-`, `url-` or `ssr-` (by the line's prefix) and the
      line's position; a line of no known prefix has no record. */
  lemma ServerInfoId(line: string, index: nat, libs: Libraries)
    ensures var s := ServerInfoOf(line, index, libs);
      (FormatOf(line) == Unknown ==> s.None?) && (FormatOf(line) == LegacyHeaderless ==> s.Some?)
      && (s.Some? && FormatOf(line) == JsonEmbedded ==> s.value.id == IdOf("vms", index) && s.value.protocol == "VMess")
      && (s.Some? && FormatOf(line) == StandardUrl ==> s.value.id == IdOf("url", index))
      && (s.Some? && FormatOf(line) == LegacyHeaderless ==> s.value.id == IdOf("ssr", index) && s.value.protocol == "SSR")
      && (s.Some? ==> IsNumberedId(s.value.id) && IdNumber(s.value.id) == index)
  {
    var s := ServerInfoOf(line, index, libs);
    match FormatOf(line)
    case JsonEmbedded =>
      assert s == VmessInfo(line, index, libs.json);
      VmessInfoId(line, index, libs.json);
      IdOfNumber("vms", index);
    case StandardUrl =>
      assert s == UrlInfo(line, index, libs.url);
      UrlInfoId(line, index, libs.url);
      IdOfNumber("url", index);
    case LegacyHeaderless =>
      assert s == Some(SsrInfo(line, index));
      IdOfNumber("ssr", index);
    case Unknown =>
  }

  /** Every kept record is present at some position with a non-empty host,
      and there are no more records than positions. */
  lemma {:induction false} KeptShape(infos: seq<Option<ServerInfo>>)
    ensures var r := Kept(infos);
      |r| <= |infos|
      && (forall a :: 0 <= a < |r| ==> r[a].host != "")
      && (forall a :: 0 <= a < |r| ==> exists j :: 0 <= j < |infos| && infos[j] == Some(r[a]))
  {
    if infos != [] {
      KeptShape(infos[1..]);
      var head := match infos[0] case Some(s) => if s.host != "" then [s] else [] case None => [];
      var rest := Kept(infos[1..]);
      var r := Kept(infos);
      assert r == head + rest;
      forall a | 0 <= a < |r|
        ensures exists j :: 0 <= j < |infos| && infos[j] == Some(r[a])
      {
        if a < |head| {
          assert infos[0] == Some(r[a]);
        } else {
          var j :| 0 <= j < |infos[1..]| && infos[1..][j] == Some(rest[a - |head|]);
          assert infos[j + 1] == Some(r[a]);
        }
      }
    }
  }

  /** The position an id names, or -1 for an id of another shape. */
  function IdKey(s: ServerInfo): int
  {
    if IsNumberedId(s.id) then IdNumber(s.id) else -1
  }

  /** Every present record at position j has key k + j. */
  ghost predicate NumberedFrom(infos: seq<Option<ServerInfo>>, key: ServerInfo -> int, k: int)
  {
    forall j :: 0 <= j < |infos| && infos[j].Some? ==> key(infos[j].value) == k + j
  }

  /** When each record's key is its own position, the kept records' keys are
      positions in range and strictly increase. */
  lemma {:induction false} KeptKeysIncrease(infos: seq<Option<ServerInfo>>, key: ServerInfo -> int, k: int)
    requires NumberedFrom(infos, key, k)
    ensures forall a :: 0 <= a < |Kept(infos)| ==> k <= key(Kept(infos)[a]) < k + |infos|
    ensures forall a, b :: 0 <= a < b < |Kept(infos)| ==> key(Kept(infos)[a]) < key(Kept(infos)[b])
  {
    if infos != [] {
      assert NumberedFrom(infos[1..], key, k + 1) by {
        forall j | 0 <= j < |infos[1..]| && infos[1..][j].Some?
          ensures key(infos[1..][j].value) == k + 1 + j
        {
          assert infos[1..][j] == infos[j + 1];
        }
      }
      KeptKeysIncrease(infos[1..], key, k + 1);
      var head := match infos[0] case Some(s) => if s.host != "" then [s] else [] case None => [];
      var rest := Kept(infos[1..]);
      var r := Kept(infos);
      assert r == head + rest;
      if head != [] {
        assert infos[0].Some? && r[0] == infos[0].value;
        assert key(r[0]) == k;
      }
      forall a | 0 <= a < |r|
        ensures k <= key(r[a]) < k + |infos|
      {
        if a >= |head| {
          assert r[a] == rest[a - |head|];
        }
      }
      forall a, b | 0 <= a < b < |r|
        ensures key(r[a]) < key(r[b])
      {
        assert r[b] == rest[b - |head|];
        if a >= |head| {
          assert r[a] == rest[a - |head|];
        }
      }
    }
  }

  /** The mapped lines' ids name their own positions. */
  lemma ServerInfosNumbered(lines: seq<string>, libs: Libraries)
    ensures NumberedFrom(ServerInfos(lines, libs), IdKey, 0)
  {
    var infos := ServerInfos(lines, libs);
    forall j | 0 <= j < |infos| && infos[j].Some?
      ensures IdKey(infos[j].value) == 0 + j
    {
      ServerInfoId(lines[j], j, libs);
    }
  }

  /** The records number at most the trimmed non-empty lines; none has an
      empty host; each comes from a line of a known prefix, read with that
      line's position; and no two share an id. */
  lemma ExtractServerInfoShape(input: string, libs: Libraries)
    ensures var lines := Pipeline.ConfigLines(input);
      var r := ExtractServerInfo(input, libs);
      |r| <= |lines|
      && (forall a :: 0 <= a < |r| ==> r[a].host != "")
      && (forall a :: 0 <= a < |r| ==>
            exists j :: 0 <= j < |lines| && FormatOf(lines[j]) != Unknown && ServerInfoOf(lines[j], j, libs) == Some(r[a]))
      && (forall a, b :: 0 <= a < b < |r| ==> r[a].id != r[b].id)
  {
    var lines := Pipeline.ConfigLines(input);
    var infos := ServerInfos(lines, libs);
    var r := ExtractServerInfo(input, libs);
    KeptShape(infos);
    ServerInfosNumbered(lines, libs);
    KeptKeysIncrease(infos, IdKey, 0);
    forall a | 0 <= a < |r|
      ensures exists j :: 0 <= j < |lines| && FormatOf(lines[j]) != Unknown && ServerInfoOf(lines[j], j, libs) == Some(r[a])
    {
      var j :| 0 <= j < |infos| && infos[j] == Some(r[a]);
      ServerInfoId(lines[j], j, libs);
    }
  }

  /** A line made of the VMess prefix and a body reads as VMess, and the
      prefix comes off as written. */
  lemma VmessPrefixed(body: string)
    ensures FormatOf("vmess://" + body) == JsonEmbedded
    ensures RemoveFirst("vmess://" + body, "vmess://") == body
  {
    var link := "vmess://" + body;
    assert link[..8] == "vmess://";
    RemoveFirstPrefix(link, "vmess://");
    assert link[8..] == body;
  }

  /** A line made of the SSR prefix and a body reads as SSR, and the prefix
      comes off as written. */
  lemma SsrPrefixed(body: string)
    ensures FormatOf("ssr://" + body) == LegacyHeaderless
    ensures RemoveFirst("ssr://" + body, "ssr://") == body
  {
    var link := "ssr://" + body;
    assert link[..6] == "ssr://";
    RemoveFirstPrefix(link, "ssr://");
    assert link[6..] == body;
  }

  /** A VMess line written from a configuration that the JSON codec reads back
      gives its `add` as host and its `ps` (or "VMess Server") as alias. */
  lemma VmessServerInfo(config: VmessConfig, index: nat, libs: Libraries)
    requires libs.json.parse(libs.json.stringify(config)) == Some(config)
    ensures ServerInfoOf(Hosts.VmessLink(config, libs.json), index, libs)
      == Some(ServerInfo(IdOf("vms", index),
                         if config.ps.Some? && config.ps.value != "" then config.ps.value else "VMess Server",
                         if config.add.Some? then config.add.value else "", "VMess"))
  {
    var text := libs.json.stringify(config);
    VmessPrefixed(Codec.SafeB64Encode(text));
    Codec.SafeB64RoundTrip(text);
  }

  /** An SSR line whose body is `host:rest` in URL-safe padded base64 gives
      `host`. */
  lemma SsrServerInfo(host: string, rest: string, index: nat, libs: Libraries)
    requires ':' !in host
    ensures var link := "ssr://" + Codec.ToUrlAlphabet(Codec.SafeB64Encode(host + ":" + rest));
      ServerInfoOf(link, index, libs) == Some(ServerInfo(IdOf("ssr", index), "SSR Server", host, "SSR"))
  {
    var body := Codec.ToUrlAlphabet(Codec.SafeB64Encode(host + ":" + rest));
    SsrPrefixed(body);
    SplitNoSeparator(body, '/');
    Codec.SafeB64DecodeUrlAlphabet(host + ":" + rest);
    SplitFirst(host, ':', rest);
  }

  /** The same for the links processSSR writes: the body `host:rest` in
      unpadded URL-safe base64 still gives `host`, since atob accepts the
      missing padding and the retry maps the alphabet back. */
  lemma SsrServerInfoUnpadded(host: string, rest: string, index: nat, libs: Libraries)
    requires ':' !in host
    ensures var link := "ssr://" + Codec.SafeBase64UrlEncode(host + ":" + rest);
      ServerInfoOf(link, index, libs) == Some(ServerInfo(IdOf("ssr", index), "SSR Server", host, "SSR"))
  {
    var body := Codec.SafeBase64UrlEncode(host + ":" + rest);
    SsrPrefixed(body);
    assert '/' !in body by {
      forall i | 0 <= i < |body| ensures body[i] != '/' {
        assert IsAsciiAlphanumeric(body[i]) || body[i] == '-' || body[i] == '_';
      }
    }
    SplitNoSeparator(body, '/');
    Codec.SafeB64DecodeUrlEncoded(host + ":" + rest);
    SplitFirst(host, ':', rest);
  }

  /** A URL whose fragment is an encoded name shows that name, and one with no
      fragment shows its hostname. */
  lemma UrlServerAlias(line: string, index: nat, url: UrlCodec, u: Url, name: string)
    requires url.parse(line) == Some(u)
    requires u.fragment == Some(UriComponent.Encode(name)) || (u.fragment.None? && name == "")
    ensures UrlInfo(line, index, url) == Some(ServerInfo(IdOf("url", index), if name != "" then name else u.hostname,
                                                         u.hostname, UpperAscii(RemoveFirst(u.protocol, ":"))))
  {
    UriComponent.DecodeEncode(name);
    if u.fragment.Some? && u.fragment.value != "" {
      assert Hash(u)[1..] == u.fragment.value;
    }
    if u.fragment.Some? && u.fragment.value == "" {
      assert UriComponent.Decode("") == Some("");
    }
  }
}
