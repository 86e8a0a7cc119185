/** processConfigs: a subscription body of one link per line is cut into
    trimmed non-empty lines, the hosts of those lines are located when the
    location flag is on, every line is rewritten by the rewriter its prefix
    selects (a line of no known format is kept), and the lines are joined
    again and encoded in standard base64. */
module Pipeline {
  import opened Text
  import Codec
  import opened Links
  import Hosts
  import Rewriters
  import GeoIp

  /** The trimmed non-empty members of `pieces`, in order. */
  function TrimmedNonEmpty(pieces: seq<string>): (r: seq<string>)
    ensures forall i :: 0 <= i < |r| ==> r[i] != "" && Trim(r[i]) == r[i]
    decreases |pieces|
  {
    if pieces == [] then []
    else
      var t := Trim(pieces[0]);
      TrimShape(pieces[0]);
      TrimOfTrimmed(t);
      (if t == "" then [] else [t]) + TrimmedNonEmpty(pieces[1..])
  }

  /** `input.split('\n').map(l => l.trim()).filter(l => l.length > 0)`. */
  function ConfigLines(input: string): (r: seq<string>)
    ensures forall i :: 0 <= i < |r| ==> r[i] != "" && Trim(r[i]) == r[i] && '\n' !in r[i]
  {
    var pieces := Split(input, '\n');
    NoNewlineKept(pieces);
    TrimmedNonEmpty(pieces)
  }

  /** Trimming and dropping keeps out a newline that no piece holds. */
  lemma {:induction false} NoNewlineKept(pieces: seq<string>)
    requires forall i :: 0 <= i < |pieces| ==> '\n' !in pieces[i]
    ensures forall i :: 0 <= i < |TrimmedNonEmpty(pieces)| ==> '\n' !in TrimmedNonEmpty(pieces)[i]
    decreases |pieces|
  {
    if pieces != [] {
      TrimWithout(pieces[0], '\n');
      NoNewlineKept(pieces[1..]);
    }
  }

  /** Lines that are already trimmed and non-empty pass through unchanged. */
  lemma {:induction false} TrimmedNonEmptyKeeps(lines: seq<string>)
    requires forall i :: 0 <= i < |lines| ==> lines[i] != "" && Trim(lines[i]) == lines[i]
    ensures TrimmedNonEmpty(lines) == lines
    decreases |lines|
  {
    if lines != [] {
      TrimmedNonEmptyKeeps(lines[1..]);
    }
  }

  /** Cutting a body made of trimmed, non-empty, single-line links joined by
      newlines gives those links back. */
  lemma ConfigLinesJoin(lines: seq<string>)
    requires forall i :: 0 <= i < |lines| ==> lines[i] != "" && Trim(lines[i]) == lines[i] && '\n' !in lines[i]
    ensures ConfigLines(Join(lines, "\n")) == lines
  {
    if lines == [] {
      assert Split("", '\n') == [""];
      assert Trim("") == "";
    } else {
      SplitJoin(lines, '\n');
      TrimmedNonEmptyKeeps(lines);
    }
  }

  /** The hosts of the lines that have one, in line order (`filter` of the
      non-null results of extractHost). */
  function HostsOf(lines: seq<string>, libs: Libraries): seq<string>
    decreases |lines|
  {
    if lines == [] then []
    else
      (match Hosts.ExtractHost(lines[0], libs) case Some(h) => [h] case None => [])
      + HostsOf(lines[1..], libs)
  }

  /** The host of every line is among the hosts, and every one of them is the
      host of some line. */
  lemma HostsOfMembers(lines: seq<string>, libs: Libraries)
    ensures forall i :: 0 <= i < |lines| && Hosts.ExtractHost(lines[i], libs).Some? ==>
      Hosts.ExtractHost(lines[i], libs).value in HostsOf(lines, libs)
    ensures forall h :: h in HostsOf(lines, libs) ==>
      exists i :: 0 <= i < |lines| && Hosts.ExtractHost(lines[i], libs) == Some(h)
  {
    HostsOfComplete(lines, libs);
    HostsOfSound(lines, libs);
  }

  lemma {:induction false} HostsOfComplete(lines: seq<string>, libs: Libraries)
    ensures forall i :: 0 <= i < |lines| && Hosts.ExtractHost(lines[i], libs).Some? ==>
      Hosts.ExtractHost(lines[i], libs).value in HostsOf(lines, libs)
    decreases |lines|
  {
    if lines != [] {
      HostsOfComplete(lines[1..], libs);
      var here := match Hosts.ExtractHost(lines[0], libs) case Some(h) => [h] case None => [];
      assert HostsOf(lines, libs) == here + HostsOf(lines[1..], libs);
      forall i | 1 <= i < |lines| ensures lines[i] == lines[1..][i - 1] { }
    }
  }

  lemma {:induction false} HostsOfSound(lines: seq<string>, libs: Libraries)
    ensures forall h :: h in HostsOf(lines, libs) ==>
      exists i :: 0 <= i < |lines| && Hosts.ExtractHost(lines[i], libs) == Some(h)
    decreases |lines|
  {
    if lines != [] {
      HostsOfSound(lines[1..], libs);
      var here := match Hosts.ExtractHost(lines[0], libs) case Some(h) => [h] case None => [];
      assert HostsOf(lines, libs) == here + HostsOf(lines[1..], libs);
      forall h | h in HostsOf(lines, libs)
        ensures exists i :: 0 <= i < |lines| && Hosts.ExtractHost(lines[i], libs) == Some(h)
      {
        if h !in here {
          var i :| 0 <= i < |lines[1..]| && Hosts.ExtractHost(lines[1..][i], libs) == Some(h);
          assert Hosts.ExtractHost(lines[i + 1], libs) == Some(h);
        }
      }
    }
  }

  /** The host-to-location map processConfigs works with: what batchResolve
      found for the hosts when the flag is on and some line has a host, else
      nothing. */
  function Locations(lines: seq<string>, options: ProcessingOptions, libs: Libraries,
                     cache: map<string, GeoIp.LocationData>, net: GeoIp.Network): map<string, GeoIp.LocationData>
  {
    var hosts := HostsOf(lines, libs);
    if options.addLocationFlag && |hosts| > 0 then
      GeoIp.BatchFold(cache, net, GeoIp.UniqueValidHosts(hosts)).results
    else map[]
  }

  /** `(host && hostLocationMap[host]) ? hostLocationMap[host] : undefined`. */
  function LineLocation(line: string, libs: Libraries, locations: map<string, GeoIp.LocationData>): Option<GeoIp.LocationData>
  {
    match Hosts.ExtractHost(line, libs)
    case Some(h) => if h != "" && h in locations then Some(locations[h]) else None
    case None => None
  }

  /** One line rewritten by the rewriter its prefix selects. */
  function ProcessLine(line: string, options: ProcessingOptions, index: nat,
                       location: Option<GeoIp.LocationData>, libs: Libraries): string
  {
    match FormatOf(line)
    case JsonEmbedded => Rewriters.VmessProcessed(line, options, index, location, libs.json)
    case LegacyHeaderless => Rewriters.ProcessSsr(line, options, index, location, libs.form)
    case StandardUrl => Rewriters.UrlProcessed(line, options, index, location, libs.url)
    case Unknown => line
  }

  /** Every line rewritten, with its position among the kept lines as index. */
  function ProcessedLines(lines: seq<string>, options: ProcessingOptions, libs: Libraries,
                          locations: map<string, GeoIp.LocationData>): (r: seq<string>)
    ensures |r| == |lines|
  {
    seq(|lines|, i requires 0 <= i < |lines| =>
      ProcessLine(lines[i], options, i, LineLocation(lines[i], libs, locations), libs))
  }

  /** What processConfigs returns. */
  function ConfigsProcessed(input: string, options: ProcessingOptions, libs: Libraries,
                            cache: map<string, GeoIp.LocationData>, net: GeoIp.Network): string
  {
    var lines := ConfigLines(input);
    Codec.SafeB64Encode(Join(ProcessedLines(lines, options, libs, Locations(lines, options, libs, cache, net)), "\n"))
  }

  /** processConfigs. The locations are looked up, and the cache updated,
      only when the flag is on and some line has a host; the pauses between
      lookups are returned as the schedule. */
  method ProcessConfigs(input: string, options: ProcessingOptions, libs: Libraries,
                        net: GeoIp.Network, cache: GeoIp.GeoCache) returns (r: string, schedule: seq<GeoIp.Event>)
    modifies cache
    ensures r == ConfigsProcessed(input, options, libs, old(cache.entries), net)
    ensures var hosts := HostsOf(ConfigLines(input), libs);
      if options.addLocationFlag && |hosts| > 0 then
        cache.entries == GeoIp.BatchFold(old(cache.entries), net, GeoIp.UniqueValidHosts(hosts)).cache
        && schedule == GeoIp.Schedule(GeoIp.UniqueValidHosts(hosts))
      else cache.entries == old(cache.entries) && schedule == []
  {
    var lines := ConfigLines(input);
    var hostLocationMap: map<string, GeoIp.LocationData> := map[];
    schedule := [];
    if options.addLocationFlag {
      var hosts := HostsOf(lines, libs);
      if |hosts| > 0 {
        hostLocationMap, schedule := cache.BatchResolve(hosts, net);
      }
    }
    assert hostLocationMap == Locations(lines, options, libs, old(cache.entries), net);
    var processedLines := ProcessAll(lines, options, libs, hostLocationMap);
    r := Codec.SafeB64Encode(Join(processedLines, "\n"));
  }

  /** The `lines.map` of processConfigs. */
  method ProcessAll(lines: seq<string>, options: ProcessingOptions, libs: Libraries,
                    hostLocationMap: map<string, GeoIp.LocationData>) returns (processed: seq<string>)
    ensures processed == ProcessedLines(lines, options, libs, hostLocationMap)
  {
    processed := [];
    var index := 0;
    while index < |lines|
      invariant 0 <= index <= |lines|
      invariant processed == ProcessedLines(lines, options, libs, hostLocationMap)[..index]
    {
      var out := ProcessOne(lines[index], options, index, libs, hostLocationMap);
      PrefixStep(ProcessedLines(lines, options, libs, hostLocationMap), index);
      processed := processed + [out];
      index := index + 1;
    }
  }

  lemma PrefixStep(r: seq<string>, i: nat)
    requires i < |r|
    ensures r[..i + 1] == r[..i] + [r[i]]
  {
  }

  /** The body of the `lines.map` callback. */
  method ProcessOne(line: string, options: ProcessingOptions, index: nat, libs: Libraries,
                    hostLocationMap: map<string, GeoIp.LocationData>) returns (out: string)
    ensures out == ProcessLine(line, options, index, LineLocation(line, libs, hostLocationMap), libs)
  {
    var host := Hosts.ExtractHost(line, libs);
    var loc := if host.Some? && host.value != "" && host.value in hostLocationMap
      then Some(hostLocationMap[host.value]) else None;
    if StartsWith(line, "vmess://") {
      out := Rewriters.ProcessVmess(line, options, index, loc, libs.json);
    } else if StartsWith(line, "ssr://") {
      out := Rewriters.ProcessSsr(line, options, index, loc, libs.form);
    } else if StartsWith(line, "vless://") || StartsWith(line, "trojan://") || StartsWith(line, "ss://") {
      out := Rewriters.ProcessUrlBased(line, options, index, loc, libs.url);
    } else {
      out := line;
    }
  }

  /** A rewritten line keeps the family of the line it came from: VMess
      stays `vmess://`, SSR stays `ssr://`, and a line of no known format is
      kept as it is. With sound libraries no rewritten line holds a newline. */
  lemma ProcessLineKind(line: string, options: ProcessingOptions, index: nat,
                        location: Option<GeoIp.LocationData>, libs: Libraries)
    requires '\n' !in line
    ensures var out := ProcessLine(line, options, index, location, libs);
      (FormatOf(line) == JsonEmbedded ==> StartsWith(out, "vmess://"))
      && (FormatOf(line) == LegacyHeaderless ==> StartsWith(out, "ssr://"))
      && (FormatOf(line) == Unknown ==> out == line)
      && (SoundLibraries(libs) ==> '\n' !in out)
  {
    var out := ProcessLine(line, options, index, location, libs);
    match FormatOf(line)
    case JsonEmbedded =>
      var text := Rewriters.VmessJson(line);
      if text != "" && libs.json.parse(text).Some? {
        var config := Rewriters.RewriteVmessConfig(libs.json.parse(text).value, options, index, location);
        var e := Codec.SafeB64Encode(libs.json.stringify(config));
        assert out == "vmess://" + e;
        assert out[..8] == "vmess://";
        Base64Plain(e);
      }
    case LegacyHeaderless =>
      var e := out[6..];
      assert out == "ssr://" + e;
      UrlBase64Plain(e);
    case StandardUrl =>
    case Unknown =>
  }

  /** Standard base64 text holds no newline. */
  lemma Base64Plain(e: string)
    requires forall i :: 0 <= i < |e| ==> Codec.Base64.IsBase64Char(e[i]) || e[i] == '='
    ensures '\n' !in e
  {
    forall i | 0 <= i < |e| ensures e[i] != '\n' {
      assert Codec.Base64.IsBase64Char(e[i]) || e[i] == '=';
    }
  }

  /** Base64url text holds no newline. */
  lemma UrlBase64Plain(e: string)
    requires forall i :: 0 <= i < |e| ==> IsAsciiAlphanumeric(e[i]) || e[i] == '-' || e[i] == '_'
    ensures '\n' !in e
  {
    forall i | 0 <= i < |e| ensures e[i] != '\n' {
      assert IsAsciiAlphanumeric(e[i]) || e[i] == '-' || e[i] == '_';
    }
  }

  /** The output decodes to one rewritten line per kept input line: with
      sound libraries, splitting the decoded output at newlines gives exactly
      the rewritten lines, and an input with no link gives "". */
  lemma OutputLines(input: string, options: ProcessingOptions, libs: Libraries,
                    cache: map<string, GeoIp.LocationData>, net: GeoIp.Network)
    requires SoundLibraries(libs)
    ensures var lines := ConfigLines(input);
      var processed := ProcessedLines(lines, options, libs, Locations(lines, options, libs, cache, net));
      var out := ConfigsProcessed(input, options, libs, cache, net);
      (lines == [] ==> out == "")
      && (lines != [] ==> Split(Codec.SafeB64Decode(out), '\n') == processed)
  {
    var lines := ConfigLines(input);
    var locations := Locations(lines, options, libs, cache, net);
    var processed := ProcessedLines(lines, options, libs, locations);
    forall i | 0 <= i < |processed| ensures '\n' !in processed[i] {
      ProcessLineKind(lines[i], options, i, LineLocation(lines[i], libs, locations), libs);
    }
    Codec.SafeB64RoundTrip(Join(processed, "\n"));
    if lines != [] {
      SplitJoin(processed, '\n');
    }
  }

  /** A line gets a location only when the flag is on and its host resolved,
      and then it is what that host resolves to against the cache as it was;
      with the flag on, every line whose host resolves gets its location. */
  lemma LineLocationResolved(lines: seq<string>, options: ProcessingOptions, libs: Libraries,
                             cache: map<string, GeoIp.LocationData>, net: GeoIp.Network, i: nat)
    requires i < |lines|
    ensures var loc := LineLocation(lines[i], libs, Locations(lines, options, libs, cache, net));
      var host := Hosts.ExtractHost(lines[i], libs);
      (loc.Some? ==>
        (options.addLocationFlag && host.Some? && GeoIp.Resolution(cache, net, host.value) == loc))
      && (options.addLocationFlag && host.Some? && GeoIp.Resolution(cache, net, host.value).Some?
        ==> loc == GeoIp.Resolution(cache, net, host.value))
  {
    var hosts := HostsOf(lines, libs);
    var host := Hosts.ExtractHost(lines[i], libs);
    HostsOfMembers(lines, libs);
    GeoIp.UniqueBatchResults(cache, net, hosts);
    if host.Some? && GeoIp.Resolution(cache, net, host.value).Some? {
      assert GeoIp.IsValidHost(host.value);
    }
  }
}
