/** The shapes the proxy-link rewriter works on: the processing options, the
    five link prefixes, the fields of a VMess configuration, a parsed URL with
    its query parameters, and the JSON, URL and form codecs of the browser,
    which are parameters of the model. */
module Links {
  import opened Text

  /** ProcessingOptions. `addRandomAlias` is carried but nothing reads it. */
  datatype ProcessingOptions = ProcessingOptions(
    enableMux: bool,
    muxConcurrency: int,
    enableFragment: bool,
    fragmentLength: string,
    fragmentInterval: string,
    allowInsecure: bool,
    enableALPN: bool,
    addRandomAlias: bool,
    addLocationFlag: bool,
    enableCDNIP: bool,
    customCDN: string,
    customBaseName: string)

  /** The link families, told apart by prefix alone. */
  datatype Format = JsonEmbedded | LegacyHeaderless | StandardUrl | Unknown

  /** The prefix test that extractHost and processConfigs both apply, in
      their order: `vmess://`, then `ssr://`, then `vless://`, `trojan://` or `ss://`. */
  function FormatOf(line: string): (f: Format)
    ensures f == JsonEmbedded <==> StartsWith(line, "vmess://")
    ensures f == LegacyHeaderless <==> StartsWith(line, "ssr://")
    ensures f == StandardUrl <==>
      StartsWith(line, "vless://") || StartsWith(line, "trojan://") || StartsWith(line, "ss://")
  {
    assert StartsWith(line, "vmess://") ==> line[0] == 'v' && line[1] == 'm';
    assert StartsWith(line, "vless://") ==> line[0] == 'v' && line[1] == 'l';
    assert StartsWith(line, "ssr://") ==> line[0] == 's' && line[2] == 'r';
    assert StartsWith(line, "ss://") ==> line[0] == 's' && line[2] == ':';
    assert StartsWith(line, "trojan://") ==> line[0] == 't';
    if StartsWith(line, "vmess://") then JsonEmbedded
    else if StartsWith(line, "ssr://") then LegacyHeaderless
    else if StartsWith(line, "vless://") || StartsWith(line, "trojan://") || StartsWith(line, "ss://") then StandardUrl
    else Unknown
  }

  // ---- VMess configuration ----

  /** The `mux` member: absent, kept as it was parsed (its JSON text), or the
      object the rewriter writes. */
  datatype MuxField = NoMux | KeptMux(json: string) | MuxObject(enabled: bool, concurrency: int)

  /** The members of a VMess JSON object that the program reads or writes;
      None is an absent member. Every other member is carried in `others`
      (name and JSON text) and written back unchanged. */
  datatype VmessConfig = VmessConfig(
    add: Option<string>,
    host: Option<string>,
    sni: Option<string>,
    tls: Option<string>,
    net: Option<string>,
    ps: Option<string>,
    mux: MuxField,
    alpn: Option<string>,
    others: seq<(string, string)>)

  /** A string member that JavaScript treats as false: absent or empty. */
  predicate Blank(field: Option<string>)
  {
    field == None || field == Some("")
  }

  /** JSON.parse (None where it throws or the text is not an object) and
      JSON.stringify for VMess configurations. */
  datatype JsonCodec = JsonCodec(parse: string -> Option<VmessConfig>, stringify: VmessConfig -> string)

  // ---- URLs and query parameters ----

  /** The pairs of a URLSearchParams object, in order. */
  type Params = seq<(string, string)>

  /** URLSearchParams.get: the value of the first pair with that name. */
  function Get(params: Params, name: string): Option<string>
  {
    if params == [] then None
    else if params[0].0 == name then Some(params[0].1)
    else Get(params[1..], name)
  }

  /** get finds nothing exactly when no pair has that name, and what it finds
      is the value of a pair with that name. */
  lemma {:induction false} GetMeaning(params: Params, name: string)
    ensures Get(params, name).None? <==> forall i :: 0 <= i < |params| ==> params[i].0 != name
    ensures Get(params, name).Some? ==> (name, Get(params, name).value) in params
  {
    if params != [] && params[0].0 != name {
      GetMeaning(params[1..], name);
      var r := Get(params[1..], name);
      if r.Some? {
        assert (name, r.value) in params[1..];
      }
      if forall i :: 0 <= i < |params[1..]| ==> params[1..][i].0 != name {
        forall i | 0 <= i < |params| ensures params[i].0 != name {
          if i > 0 { assert params[i] == params[1..][i - 1]; }
        }
      }
    }
  }

  /** URLSearchParams.has. */
  predicate Has(params: Params, name: string)
  {
    exists i :: 0 <= i < |params| && params[i].0 == name
  }

  /** The pairs whose name is not `name`. */
  function Without(params: Params, name: string): Params
  {
    if params == [] then []
    else if params[0].0 == name then Without(params[1..], name)
    else [params[0]] + Without(params[1..], name)
  }

  /** Without removes exactly the pairs with that name. */
  lemma {:induction false} WithoutGet(params: Params, name: string, m: string)
    ensures Get(Without(params, name), m) == if m == name then None else Get(params, m)
  {
    if params != [] {
      WithoutGet(params[1..], name, m);
      if params[0].0 != name {
        assert ([params[0]] + Without(params[1..], name))[1..] == Without(params[1..], name);
      }
    }
  }

  /** A pair at the head with another name does not decide `has`. */
  lemma HasTail(params: Params, name: string)
    requires params != [] && params[0].0 != name
    ensures Has(params, name) <==> Has(params[1..], name)
  {
    if Has(params, name) {
      var i :| 0 <= i < |params| && params[i].0 == name;
      assert params[1..][i - 1].0 == name;
    }
    if Has(params[1..], name) {
      var i :| 0 <= i < |params[1..]| && params[1..][i].0 == name;
      assert params[i + 1].0 == name;
    }
  }

  /** The first pair named `name` gets `value`; the later ones are removed. */
  function ReplaceFirst(params: Params, name: string, value: string): Params
  {
    if params == [] then []
    else if params[0].0 == name then [(name, value)] + Without(params[1..], name)
    else [params[0]] + ReplaceFirst(params[1..], name, value)
  }

  /** After the replacement, get finds the new value for that name when it
      was present (and nothing when it was not), and the old value for every
      other name. */
  lemma {:induction false} ReplaceFirstGet(params: Params, name: string, value: string, m: string)
    ensures Get(ReplaceFirst(params, name, value), m) ==
      if m == name then (if Has(params, name) then Some(value) else None) else Get(params, m)
  {
    if params == [] {
      assert !Has(params, name);
    } else if params[0].0 == name {
      assert Has(params, name) by { assert params[0].0 == name; }
      WithoutGet(params[1..], name, m);
      assert ([(name, value)] + Without(params[1..], name))[1..] == Without(params[1..], name);
    } else {
      HasTail(params, name);
      ReplaceFirstGet(params[1..], name, value, m);
      assert ([params[0]] + ReplaceFirst(params[1..], name, value))[1..] == ReplaceFirst(params[1..], name, value);
    }
  }

  /** URLSearchParams.set: replace the value of the first pair with that name
      and drop the others, or append the pair when there is none. */
  function Set(params: Params, name: string, value: string): Params
  {
    if Has(params, name) then ReplaceFirst(params, name, value) else params + [(name, value)]
  }

  lemma GetAppend(params: Params, pair: (string, string), m: string)
    ensures Get(params + [pair], m) == if Has(params, m) then Get(params, m) else if pair.0 == m then Some(pair.1) else None
  {
    if params != [] {
      assert (params + [pair])[1..] == params[1..] + [pair];
      GetAppend(params[1..], pair, m);
      if params[0].0 != m {
        HasTail(params, m);
      } else {
        assert Has(params, m) by { assert params[0].0 == m; }
      }
    } else {
      assert !Has(params, m);
    }
  }

  lemma HasGet(params: Params, m: string)
    ensures Has(params, m) <==> Get(params, m).Some?
  {
    GetMeaning(params, m);
  }

  /** After set, get returns the new value for that name and the old value
      for every other name. */
  lemma GetSet(params: Params, name: string, value: string, m: string)
    ensures Get(Set(params, name, value), m) == if m == name then Some(value) else Get(params, m)
  {
    HasGet(params, m);
    if Has(params, name) {
      ReplaceFirstGet(params, name, value, m);
    } else {
      GetAppend(params, (name, value), m);
    }
  }

  /** After set, a name is present exactly when it is the name set or was present. */
  lemma HasSet(params: Params, name: string, value: string, m: string)
    ensures Has(Set(params, name, value), m) <==> m == name || Has(params, m)
  {
    GetSet(params, name, value, m);
    HasGet(Set(params, name, value), m);
    HasGet(params, m);
  }

  /** A URL as the WHATWG URL object exposes it. `fragment` is the text after
      `#` (None when the URL has no fragment); `params` are the pairs of its
      searchParams. */
  datatype Url = Url(
    protocol: string,
    username: string,
    password: string,
    hostname: string,
    port: string,
    pathname: string,
    params: Params,
    fragment: Option<string>)

  /** The `hash` getter: empty for no fragment or an empty one, else `#` and
      the fragment. */
  function Hash(u: Url): (r: string)
    ensures r == "" || r[0] == '#'
  {
    match u.fragment
    case None => ""
    case Some(f) => if f == "" then "" else "#" + f
  }

  /** The `hash` setter for a value that contains no character of the
      fragment percent-encode set: empty clears the fragment, a leading `#`
      is dropped. */
  function SetHash(u: Url, value: string): (r: Url)
    ensures r == u.(fragment := r.fragment)
    ensures value != "" && value[0] != '#' ==> r.fragment == Some(value)
  {
    if value == "" then u.(fragment := None)
    else if value[0] == '#' then u.(fragment := Some(value[1..]))
    else u.(fragment := Some(value))
  }

  /** `new URL(text)` (None where it throws) and URL.toString. */
  datatype UrlCodec = UrlCodec(parse: string -> Option<Url>, serialize: Url -> string)

  /** The application/x-www-form-urlencoded parser behind `new URLSearchParams(text)`
      and the serializer behind its toString. */
  datatype FormCodec = FormCodec(parse: string -> Params, serialize: Params -> string)

  /** The browser libraries the program calls. */
  datatype Libraries = Libraries(json: JsonCodec, url: UrlCodec, form: FormCodec)

  /** What the rewriters rely on from the serializers: a serialized URL is one
      line (the URL serializer never writes a newline), and the form codec
      reads back what it writes and percent-encodes `?`. */
  ghost predicate SoundLibraries(libs: Libraries)
  {
    (forall u :: '\n' !in libs.url.serialize(u))
    && (forall p :: libs.form.parse(libs.form.serialize(p)) == p)
    && (forall p :: '?' !in libs.form.serialize(p))
  }
}
