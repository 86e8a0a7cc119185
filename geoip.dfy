/** The geo-location helper: which hosts are worth looking up, which look like
    IP addresses, flags from ISO 3166-1 alpha-2 codes, country names, the
    host-to-location cache, the chain DNS → ipwho.is → geojs.io → ipapi.co, and
    the resolution of many hosts in paced groups of two. The replies of the DNS
    resolver and of the three providers are inputs (a `Network`); a reply that
    could not be fetched or read is None. */
module GeoIp {
  import opened Text

  datatype LocationData = LocationData(flag: string, country: string, city: string)

  /** The white flag U+1F3F3 U+FE0F used when there is no usable country code. */
  const FlagPlaceholder: string := "\U{1F3F3}\U{FE0F}"

  /** The distance from an ASCII capital to its regional indicator symbol. */
  const RegionalIndicatorOffset: int := 127397

  predicate IsUpperLetter(c: char)
  {
    'A' <= c <= 'Z'
  }

  predicate IsTwoLetterCode(code: string)
  {
    |code| == 2 && IsUpperLetter(code[0]) && IsUpperLetter(code[1])
  }

  function RegionalIndicator(c: char): (r: char)
    requires IsUpperLetter(c)
    ensures r as int == RegionalIndicatorOffset + c as int
  {
    (RegionalIndicatorOffset + c as int) as char
  }

  /** getFlagEmoji: the pair of regional indicators for a code that is two
      letters once trimmed and upper-cased, the white flag otherwise. */
  function GetFlagEmoji(countryCode: string): (r: string)
    ensures var code := UpperAscii(Trim(countryCode));
      !IsTwoLetterCode(code) ==> r == FlagPlaceholder
    ensures var code := UpperAscii(Trim(countryCode));
      IsTwoLetterCode(code) ==>
        |r| == 2 && forall i :: 0 <= i < 2 ==> r[i] as int == RegionalIndicatorOffset + code[i] as int
  {
    if countryCode == "" then FlagPlaceholder
    else
      var code := UpperAscii(Trim(countryCode));
      if |code| != 2 || !(IsUpperLetter(code[0]) && IsUpperLetter(code[1])) then FlagPlaceholder
      else [RegionalIndicator(code[0]), RegionalIndicator(code[1])]
  }

  predicate IsRegionalIndicator(c: char)
  {
    RegionalIndicatorOffset + 'A' as int <= c as int <= RegionalIndicatorOffset + 'Z' as int
  }

  /** The country code a flag stands for, if it is a pair of regional indicators. */
  function FlagCode(flag: string): Option<string>
  {
    if |flag| == 2 && IsRegionalIndicator(flag[0]) && IsRegionalIndicator(flag[1]) then
      Some([(flag[0] as int - RegionalIndicatorOffset) as char, (flag[1] as int - RegionalIndicatorOffset) as char])
    else None
  }

  /** A flag can be read back as the code it was made from; the white flag
      stands for no code. */
  lemma FlagRoundTrip(countryCode: string)
    ensures var code := UpperAscii(Trim(countryCode));
      FlagCode(GetFlagEmoji(countryCode)) == if IsTwoLetterCode(code) then Some(code) else None
  {
    var code := UpperAscii(Trim(countryCode));
    var r := GetFlagEmoji(countryCode);
    if IsTwoLetterCode(code) {
      assert [(r[0] as int - RegionalIndicatorOffset) as char, (r[1] as int - RegionalIndicatorOffset) as char] == code;
    } else {
      assert !IsRegionalIndicator(r[0]);
    }
  }

  /** COUNTRY_NAMES as a list of code and name, with the keys the source's
      table repeats written once (each repeat carries the same name). */
  const CountryNames: seq<(string, string)> := [
    ("US", "United States"), ("GB", "United Kingdom"), ("DE", "Germany"), ("FR", "France"),
    ("IT", "Italy"), ("ES", "Spain"), ("NL", "Netherlands"), ("CA", "Canada"),
    ("AU", "Australia"), ("JP", "Japan"), ("KR", "South Korea"), ("SG", "Singapore"),
    ("HK", "Hong Kong"), ("IN", "India"), ("BR", "Brazil"), ("RU", "Russia"),
    ("TR", "Turkey"), ("AE", "UAE"), ("SE", "Sweden"), ("NO", "Norway"),
    ("FI", "Finland"), ("PL", "Poland"), ("UA", "Ukraine"), ("CH", "Switzerland"),
    ("AT", "Austria"), ("BE", "Belgium"), ("DK", "Denmark"), ("IE", "Ireland"),
    ("PT", "Portugal"), ("CZ", "Czech Republic"), ("HU", "Hungary"), ("RO", "Romania"),
    ("BG", "Bulgaria"), ("HR", "Croatia"), ("GR", "Greece"), ("IL", "Israel"),
    ("ZA", "South Africa"), ("MX", "Mexico"), ("AR", "Argentina"), ("CL", "Chile"),
    ("CO", "Colombia"), ("PE", "Peru"), ("VE", "Venezuela"), ("TH", "Thailand"),
    ("VN", "Vietnam"), ("MY", "Malaysia"), ("ID", "Indonesia"), ("PH", "Philippines"),
    ("TW", "Taiwan"), ("CN", "China"), ("PK", "Pakistan"), ("BD", "Bangladesh"),
    ("NG", "Nigeria"), ("EG", "Egypt"), ("SA", "Saudi Arabia"), ("QA", "Qatar"),
    ("KW", "Kuwait"), ("OM", "Oman"), ("BH", "Bahrain"), ("JO", "Jordan"),
    ("LB", "Lebanon"), ("IQ", "Iraq"), ("IR", "Iran"), ("AF", "Afghanistan"),
    ("KZ", "Kazakhstan"), ("UZ", "Uzbekistan"), ("AZ", "Azerbaijan"), ("AM", "Armenia"),
    ("GE", "Georgia"), ("MD", "Moldova"), ("BY", "Belarus"), ("LT", "Lithuania"),
    ("LV", "Latvia"), ("EE", "Estonia"), ("SK", "Slovakia"), ("SI", "Slovenia"),
    ("LU", "Luxembourg"), ("MT", "Malta"), ("CY", "Cyprus"), ("IS", "Iceland"),
    ("AL", "Albania"), ("BA", "Bosnia"), ("ME", "Montenegro"), ("MK", "North Macedonia"),
    ("RS", "Serbia"), ("XK", "Kosovo"), ("LI", "Liechtenstein"), ("MC", "Monaco"),
    ("AD", "Andorra"), ("SM", "San Marino"), ("VA", "Vatican"), ("GI", "Gibraltar"),
    ("FO", "Faroe Islands"), ("GL", "Greenland"), ("SJ", "Svalbard"), ("AX", "Aland Islands"),
    ("NC", "New Caledonia"), ("PF", "French Polynesia"), ("WF", "Wallis and Futuna"), ("TF", "French Southern Territories"),
    ("GP", "Guadeloupe"), ("MQ", "Martinique"), ("RE", "Reunion"), ("YT", "Mayotte"),
    ("PM", "Saint Pierre and Miquelon"), ("BL", "Saint Barthelemy"), ("MF", "Saint Martin"), ("SX", "Sint Maarten"),
    ("AW", "Aruba"), ("CW", "Curacao"), ("BQ", "Bonaire"), ("AI", "Anguilla"),
    ("BM", "Bermuda"), ("VG", "British Virgin Islands"), ("KY", "Cayman Islands"), ("FK", "Falkland Islands"),
    ("GS", "South Georgia"), ("MS", "Montserrat"), ("PN", "Pitcairn"), ("SH", "Saint Helena"),
    ("TC", "Turks and Caicos"), ("GG", "Guernsey"), ("JE", "Jersey"), ("IM", "Isle of Man"),
    ("CK", "Cook Islands"), ("NU", "Niue"), ("TK", "Tokelau"), ("AS", "American Samoa"),
    ("GU", "Guam"), ("MP", "Northern Mariana Islands"), ("PR", "Puerto Rico"), ("VI", "US Virgin Islands"),
    ("UM", "US Minor Outlying Islands"), ("FM", "Micronesia"), ("MH", "Marshall Islands"), ("PW", "Palau"),
    ("NR", "Nauru"), ("KI", "Kiribati"), ("TV", "Tuvalu"), ("TO", "Tonga"),
    ("WS", "Samoa"), ("FJ", "Fiji"), ("VU", "Vanuatu"), ("SB", "Solomon Islands"),
    ("PG", "Papua New Guinea"), ("TL", "Timor-Leste"), ("BN", "Brunei"), ("KH", "Cambodia"),
    ("LA", "Laos"), ("MM", "Myanmar"), ("NP", "Nepal"), ("LK", "Sri Lanka"),
    ("MV", "Maldives"), ("BT", "Bhutan"), ("MN", "Mongolia"), ("KP", "North Korea"),
    ("MO", "Macau"), ("KG", "Kyrgyzstan"), ("TJ", "Tajikistan"), ("TM", "Turkmenistan")
  ]

  /** The name of the last row listing `code`, if any: in an object literal
      a repeated key keeps its last value. */
  function NameOf(table: seq<(string, string)>, code: string): Option<string>
  {
    if table == [] then None
    else if table[|table| - 1].0 == code then Some(table[|table| - 1].1)
    else NameOf(table[..|table| - 1], code)
  }

  /** A code has a name exactly when the table lists it, and the name is one
      listed with it. */
  lemma {:induction false} NameOfMeaning(table: seq<(string, string)>, code: string)
    ensures NameOf(table, code).None? <==> forall k :: 0 <= k < |table| ==> table[k].0 != code
    ensures NameOf(table, code).Some? ==> (code, NameOf(table, code).value) in table
  {
    if table != [] && table[|table| - 1].0 != code {
      var init := table[..|table| - 1];
      NameOfMeaning(init, code);
      if NameOf(table, code).Some? {
        assert (code, NameOf(table, code).value) in init;
      }
      assert forall k :: 0 <= k < |init| ==> init[k] == table[k];
    }
  }

  /** getCountryName: "Unknown" for an empty code, else the table's name for
      the upper-cased code (when it has a non-empty one), else the upper-cased
      code itself. Never empty. */
  function GetCountryName(code: string): (r: string)
    ensures code == "" ==> r == "Unknown"
    ensures r != ""
  {
    if code == "" then "Unknown"
    else
      var upper := UpperAscii(code);
      match NameOf(CountryNames, upper)
      case Some(name) => if name != "" then name else upper
      case None => upper
  }

  /** A non-empty code gets a name the table lists with its upper-cased form,
      or that form itself; a code the table does not list gets its
      upper-cased form. */
  lemma CountryNameListed(code: string)
    requires code != ""
    ensures var upper, r := UpperAscii(code), GetCountryName(code);
      (r == upper || (upper, r) in CountryNames)
      && ((forall i :: 0 <= i < |CountryNames| ==> CountryNames[i].0 != upper) ==> r == upper)
  {
    NameOfMeaning(CountryNames, UpperAscii(code));
  }

  /** The second octet of a private 172.16.0.0/12 address, as the source's
      pattern `172\.(1[6-9]|2[0-9]|3[0-1])\.` spells it. */
  predicate IsPrivate172(host: string)
  {
    |host| >= 7 && host[..4] == "172." && host[6] == '.'
    && ((host[4] == '1' && '6' <= host[5] <= '9')
        || (host[4] == '2' && IsDigit(host[5]))
        || (host[4] == '3' && (host[5] == '0' || host[5] == '1')))
  }

  predicate HasPrivatePrefix(host: string)
  {
    StartsWith(host, "127.") || StartsWith(host, "10.") || StartsWith(host, "192.168.")
    || IsPrivate172(host) || StartsWith(host, "::1")
  }

  /** isValidHost: at least three characters, not localhost, and not one of
      the loopback or private prefixes. */
  predicate IsValidHost(host: string)
  {
    |host| >= 3 && host != "localhost" && !HasPrivatePrefix(host)
  }

  lemma TwoDigits(n: nat)
    requires 10 <= n < 100
    ensures NatToString(n) == [DigitChar(n / 10), DigitChar(n % 10)]
  {
  }

  /** The character-level pattern for 172.x is exactly the numbers 16 to 31. */
  lemma Private172Range(host: string)
    ensures IsPrivate172(host) <==> exists n :: 16 <= n <= 31 && StartsWith(host, "172." + NatToString(n) + ".")
  {
    if IsPrivate172(host) {
      var n := (host[4] as int - '0' as int) * 10 + (host[5] as int - '0' as int);
      TwoDigits(n);
      assert host[..7] == "172." + NatToString(n) + ".";
      assert StartsWith(host, "172." + NatToString(n) + ".");
    }
    if n :| 16 <= n <= 31 && StartsWith(host, "172." + NatToString(n) + ".") {
      TwoDigits(n);
      var p := "172." + NatToString(n) + ".";
      assert host[..4] == p[..4];
      assert host[4] == p[4] == DigitChar(n / 10) && host[5] == p[5] == DigitChar(n % 10);
    }
  }

  predicate IsLineTerminator(c: char)
  {
    c == '\n' || c == '\r' || c == '\U{2028}' || c == '\U{2029}'
  }

  /** A `]` appears before any line terminator: what `.*\]` needs after a `[`. */
  predicate ClosesOnLine(s: string)
  {
    exists j :: 0 <= j < |s| && s[j] == ']' && forall k :: 0 <= k < j ==> !IsLineTerminator(s[k])
  }

  /** The regular expression `\[.*\]` occurs somewhere in `s`. */
  predicate BracketSpan(s: string)
  {
    exists i :: 0 <= i < |s| && s[i] == '[' && ClosesOnLine(s[i + 1..])
  }

  /** A left-to-right scan for `\[.*\]`; `open` says that a `[` has been seen
      since the last line terminator. */
  function ScanBrackets(s: string, open: bool): bool
  {
    if s == [] then false
    else if s[0] == ']' && open then true
    else ScanBrackets(s[1..], if s[0] == '[' then true else if IsLineTerminator(s[0]) then false else open)
  }

  lemma ClosesOnLineCons(s: string)
    requires s != []
    ensures ClosesOnLine(s) <==> s[0] == ']' || (!IsLineTerminator(s[0]) && ClosesOnLine(s[1..]))
  {
    if ClosesOnLine(s) && s[0] != ']' {
      var j :| 0 <= j < |s| && s[j] == ']' && forall k :: 0 <= k < j ==> !IsLineTerminator(s[k]);
      assert j > 0 && !IsLineTerminator(s[0]);
      assert s[1..][j - 1] == ']';
    }
    if !IsLineTerminator(s[0]) && ClosesOnLine(s[1..]) {
      var j :| 0 <= j < |s[1..]| && s[1..][j] == ']' && forall k :: 0 <= k < j ==> !IsLineTerminator(s[1..][k]);
      assert s[j + 1] == ']';
      assert forall k :: 0 <= k < j + 1 ==> !IsLineTerminator(s[k]) by {
        forall k | 0 <= k < j + 1 ensures !IsLineTerminator(s[k]) {
          if k > 0 { assert s[k] == s[1..][k - 1]; }
        }
      }
    }
    if s[0] == ']' {
      assert ClosesOnLine(s) by { assert s[0] == ']'; }
    }
  }

  lemma BracketSpanCons(s: string)
    requires s != []
    ensures BracketSpan(s) <==> (s[0] == '[' && ClosesOnLine(s[1..])) || BracketSpan(s[1..])
  {
    if BracketSpan(s) && !(s[0] == '[' && ClosesOnLine(s[1..])) {
      var i :| 0 <= i < |s| && s[i] == '[' && ClosesOnLine(s[i + 1..]);
      assert i > 0;
      assert s[1..][i - 1] == '[' && s[1..][i..] == s[i + 1..];
    }
    if BracketSpan(s[1..]) {
      var i :| 0 <= i < |s[1..]| && s[1..][i] == '[' && ClosesOnLine(s[1..][i + 1..]);
      assert s[i + 1] == '[' && s[i + 2..] == s[1..][i + 1..];
    }
  }

  /** The scan finds exactly the matches of `\[.*\]`. */
  lemma {:induction false} ScanBracketsMatches(s: string, open: bool)
    ensures ScanBrackets(s, open) <==> BracketSpan(s) || (open && ClosesOnLine(s))
    decreases |s|
  {
    if s != [] {
      ClosesOnLineCons(s);
      BracketSpanCons(s);
      if !(s[0] == ']' && open) {
        ScanBracketsMatches(s[1..], if s[0] == '[' then true else if IsLineTerminator(s[0]) then false else open);
      }
    }
  }

  predicate IsDigitsAndDots(s: string)
  {
    s != [] && forall i :: 0 <= i < |s| ==> IsDigit(s[i]) || s[i] == '.'
  }

  /** isIpAddress, the test of `/^[\d.]+$|:|\[.*\]/`: only digits and dots, or
      a colon anywhere, or a `[` later closed by `]` on the same line. */
  function IsIpAddress(host: string): (r: bool)
    ensures r <==> IsDigitsAndDots(host) || ':' in host || BracketSpan(host)
  {
    ScanBracketsMatches(host, false);
    IsDigitsAndDots(host) || ':' in host || ScanBrackets(host, false)
  }

  // ---- Replies of the resolver and of the providers ----

  /** One entry of the DNS-over-HTTPS `Answer` array. */
  datatype DnsAnswer = DnsAnswer(rtype: int, data: string)

  /** ipwho.is; a missing text field reads as "". */
  datatype PrimaryReply = PrimaryReply(success: bool, countryCode: string, country: string, city: string)

  /** get.geojs.io. */
  datatype GeojsReply = GeojsReply(ip: string, name: string, alpha2: string)

  /** ipapi.co. */
  datatype IpapiReply = IpapiReply(countryCode: string, countryName: string, city: string)

  /** What each remote service answers for a name or an address; None where the
      request failed, timed out or did not parse. For `dns`, None also stands
      for a reply without an `Answer` array. */
  datatype Network = Network(
    dns: string -> Option<seq<DnsAnswer>>,
    primary: string -> Option<PrimaryReply>,
    geojs: string -> Option<GeojsReply>,
    ipapi: string -> Option<IpapiReply>)

  /** The data of the first A record (type 1). */
  function FirstARecord(answers: seq<DnsAnswer>): (r: Option<string>)
    ensures r.None? <==> forall i :: 0 <= i < |answers| ==> answers[i].rtype != 1
    ensures r.Some? ==> exists i :: (0 <= i < |answers| && answers[i].rtype == 1 && r.value == answers[i].data
      && forall k :: 0 <= k < i ==> answers[k].rtype != 1)
  {
    if answers == [] then None
    else if answers[0].rtype == 1 then Some(answers[0].data)
    else
      var r := FirstARecord(answers[1..]);
      assert r.Some? ==> exists i :: (0 <= i < |answers| && answers[i].rtype == 1 && r.value == answers[i].data
        && forall k :: 0 <= k < i ==> answers[k].rtype != 1) by {
        if r.Some? {
          var i :| 0 <= i < |answers[1..]| && answers[1..][i].rtype == 1 && r.value == answers[1..][i].data
            && forall k :: 0 <= k < i ==> answers[1..][k].rtype != 1;
          assert answers[i + 1].rtype == 1 && forall k :: 0 <= k < i + 1 ==> answers[k].rtype != 1 by {
            forall k | 0 <= k < i + 1 ensures answers[k].rtype != 1 {
              if k > 0 { assert answers[k] == answers[1..][k - 1]; }
            }
          }
        }
      }
      r
  }

  /** The address to ask the providers about: a name that does not look like
      an IP address is replaced by its first A record when there is one. */
  function TargetOf(net: Network, host: string): string
  {
    if IsIpAddress(host) then host
    else match net.dns(host)
      case None => host
      case Some(answers) =>
        match FirstARecord(answers)
        case None => host
        case Some(ip) => ip
  }

  /** A location from ipwho.is, when it reports success. */
  function PrimaryLocation(reply: Option<PrimaryReply>): Option<LocationData>
  {
    match reply
    case None => None
    case Some(p) =>
      if !p.success then None
      else Some(LocationData(GetFlagEmoji(p.countryCode),
                             if p.country != "" then p.country else GetCountryName(p.countryCode),
                             p.city))
  }

  /** A location from geojs.io, when it names a country and, for an IP-shaped
      target, echoes that same address (or none). */
  function GeojsLocation(target: string, reply: Option<GeojsReply>): Option<LocationData>
  {
    match reply
    case None => None
    case Some(g) =>
      var isMatch := !(IsIpAddress(target) && g.ip != "" && g.ip != target);
      if isMatch && (g.name != "" || g.alpha2 != "") then
        Some(LocationData(GetFlagEmoji(g.alpha2), if g.name != "" then g.name else GetCountryName(g.alpha2), ""))
      else None
  }

  /** A location from ipapi.co, when it gives a country code. */
  function IpapiLocation(reply: Option<IpapiReply>): Option<LocationData>
  {
    match reply
    case None => None
    case Some(a) =>
      if a.countryCode == "" then None
      else Some(LocationData(GetFlagEmoji(a.countryCode),
                             if a.countryName != "" then a.countryName else GetCountryName(a.countryCode),
                             a.city))
  }

  /** The first provider, in the fixed order, that gives a usable answer. */
  function FromProviders(net: Network, target: string): Option<LocationData>
  {
    match PrimaryLocation(net.primary(target))
    case Some(loc) => Some(loc)
    case None =>
      match GeojsLocation(target, net.geojs(target))
      case Some(loc) => Some(loc)
      case None => IpapiLocation(net.ipapi(target))
  }

  /** The remote part of resolveLocation: resolve the name, re-check the
      target, ask the providers. */
  function Lookup(net: Network, host: string): Option<LocationData>
  {
    var target := TargetOf(net, host);
    if !IsValidHost(target) then None else FromProviders(net, target)
  }

  /** What resolveLocation returns for `host` given the cache it starts from. */
  function Resolution(cache: map<string, LocationData>, net: Network, host: string): Option<LocationData>
  {
    if !IsValidHost(host) then None
    else if host in cache then Some(cache[host])
    else Lookup(net, host)
  }

  /** A location as the providers produce it: a named country and a flag that
      is either the white flag or a pair of regional indicators. */
  predicate WellFormed(loc: LocationData)
  {
    loc.country != "" && (loc.flag == FlagPlaceholder || FlagCode(loc.flag).Some?)
  }

  lemma FlagWellFormed(code: string)
    ensures GetFlagEmoji(code) == FlagPlaceholder || FlagCode(GetFlagEmoji(code)).Some?
  {
    FlagRoundTrip(code);
  }

  lemma PrimaryWellFormed(reply: Option<PrimaryReply>)
    requires PrimaryLocation(reply).Some?
    ensures WellFormed(PrimaryLocation(reply).value)
  {
    FlagWellFormed(reply.value.countryCode);
  }

  lemma GeojsWellFormed(target: string, reply: Option<GeojsReply>)
    requires GeojsLocation(target, reply).Some?
    ensures WellFormed(GeojsLocation(target, reply).value)
  {
    FlagWellFormed(reply.value.alpha2);
  }

  lemma IpapiWellFormed(reply: Option<IpapiReply>)
    requires IpapiLocation(reply).Some?
    ensures WellFormed(IpapiLocation(reply).value)
  {
    FlagWellFormed(reply.value.countryCode);
  }

  /** Every location a provider yields names a country and carries a flag. */
  lemma LookupWellFormed(net: Network, host: string)
    requires Lookup(net, host).Some?
    ensures WellFormed(Lookup(net, host).value)
  {
    var target := TargetOf(net, host);
    if PrimaryLocation(net.primary(target)).Some? {
      PrimaryWellFormed(net.primary(target));
    } else if GeojsLocation(target, net.geojs(target)).Some? {
      GeojsWellFormed(target, net.geojs(target));
    } else {
      IpapiWellFormed(net.ipapi(target));
    }
  }

  // ---- Batches ----

  datatype Event = ResolveGroup(hosts: seq<string>) | Pause(ms: nat)

  const BatchSize: nat := 2
  const PauseMs: nat := 1100

  predicate Distinct(s: seq<string>)
  {
    forall i, j :: 0 <= i < j < |s| ==> s[i] != s[j]
  }

  /** The valid hosts of `hosts`, in order. */
  function ValidHosts(hosts: seq<string>): (r: seq<string>)
    ensures forall h :: h in r <==> h in hosts && IsValidHost(h)
  {
    if hosts == [] then []
    else
      var init := hosts[..|hosts| - 1];
      var last := hosts[|hosts| - 1];
      assert hosts == init + [last];
      ValidHosts(init) + (if IsValidHost(last) then [last] else [])
  }

  /** `[...new Set(s)]`: the first occurrence of each element, in order. */
  function Dedupe(s: seq<string>): (r: seq<string>)
    ensures Distinct(r)
    ensures forall h :: h in r <==> h in s
  {
    if s == [] then []
    else
      var init := s[..|s| - 1];
      var last := s[|s| - 1];
      assert s == init + [last];
      var d := Dedupe(init);
      if last in d then d else d + [last]
  }

  function UniqueValidHosts(hosts: seq<string>): (r: seq<string>)
    ensures Distinct(r)
    ensures forall h :: h in r <==> h in hosts && IsValidHost(h)
  {
    Dedupe(ValidHosts(hosts))
  }

  /** The groups of at most two hosts and the pauses between them. */
  function Schedule(hosts: seq<string>): seq<Event>
    decreases |hosts|
  {
    if hosts == [] then []
    else if |hosts| <= BatchSize then [ResolveGroup(hosts)]
    else [ResolveGroup(hosts[..BatchSize]), Pause(PauseMs)] + Schedule(hosts[BatchSize..])
  }

  /** One step of the schedule: the first group, then a pause if more follow. */
  lemma ScheduleStep(hosts: seq<string>, end: nat)
    requires hosts != [] && end == if |hosts| < BatchSize then |hosts| else BatchSize
    ensures |hosts| <= BatchSize ==> Schedule(hosts) == [ResolveGroup(hosts[..end])] && Schedule(hosts[end..]) == []
    ensures BatchSize < |hosts| ==>
      Schedule(hosts) == [ResolveGroup(hosts[..end]), Pause(PauseMs)] + Schedule(hosts[end..])
  {
    if |hosts| <= BatchSize {
      assert hosts[..end] == hosts;
      assert hosts[end..] == [];
    }
  }

  /** Emitting the group that starts at `i`, and the pause after it when more
      hosts follow, keeps the emitted events a prefix of the schedule. */
  lemma ScheduleAdvance(unique: seq<string>, i: nat, end: nat, done: seq<Event>, whole: seq<Event>)
    requires i < |unique| && end == (if i + BatchSize < |unique| then i + BatchSize else |unique|)
    requires done + Schedule(unique[i..]) == whole
    ensures i + BatchSize < |unique| ==>
      done + [ResolveGroup(unique[i..end])] + [Pause(PauseMs)] + Schedule(unique[end..]) == whole
    ensures i + BatchSize >= |unique| ==>
      done + [ResolveGroup(unique[i..end])] + Schedule(unique[end..]) == whole
  {
    var tail := unique[i..];
    ScheduleStep(tail, end - i);
    assert tail[..end - i] == unique[i..end];
    assert tail[end - i..] == unique[end..];
    var g := [ResolveGroup(unique[i..end])];
    var rest := Schedule(unique[end..]);
    if i + BatchSize < |unique| {
      assert Schedule(tail) == g + [Pause(PauseMs)] + rest;
      Associative(done, g, [Pause(PauseMs)]);
      Associative(done, g + [Pause(PauseMs)], rest);
    } else {
      assert Schedule(tail) == g && rest == [];
      assert g + rest == g;
      Associative(done, g, rest);
    }
  }

  lemma Associative(a: seq<Event>, b: seq<Event>, c: seq<Event>)
    ensures a + b + c == a + (b + c)
  {
  }

  /** The hosts of the groups, one after the other. */
  function Grouped(events: seq<Event>): seq<string>
  {
    if events == [] then []
    else (if events[0].ResolveGroup? then events[0].hosts else []) + Grouped(events[1..])
  }

  /** The schedule resolves every host once, in order, in groups of one or two,
      alternating with pauses of 1100 ms: one pause after each group but the last. */
  lemma ScheduleShape(hosts: seq<string>)
    ensures Grouped(Schedule(hosts)) == hosts
    ensures |Schedule(hosts)| == if hosts == [] then 0 else 2 * ((|hosts| + 1) / 2) - 1
    ensures forall k :: 0 <= k < |Schedule(hosts)| ==>
      (k % 2 == 0 ==> Schedule(hosts)[k].ResolveGroup? && 1 <= |Schedule(hosts)[k].hosts| <= BatchSize)
      && (k % 2 == 1 ==> Schedule(hosts)[k] == Pause(PauseMs))
  {
    ScheduleGrouped(hosts);
    ScheduleLength(hosts);
    ScheduleAlternates(hosts);
  }

  /** The groups of the schedule, in order, are the hosts. */
  lemma {:induction false} ScheduleGrouped(hosts: seq<string>)
    ensures Grouped(Schedule(hosts)) == hosts
    decreases |hosts|
  {
    if |hosts| > BatchSize {
      var s := Schedule(hosts);
      var rest := Schedule(hosts[BatchSize..]);
      ScheduleGrouped(hosts[BatchSize..]);
      assert s == [ResolveGroup(hosts[..BatchSize]), Pause(PauseMs)] + rest;
      assert s[1..] == [Pause(PauseMs)] + rest;
      assert Grouped(s) == hosts[..BatchSize] + Grouped(s[1..]);
      assert Grouped(s[1..]) == Grouped(rest);
      assert hosts == hosts[..BatchSize] + hosts[BatchSize..];
    } else if hosts != [] {
      var s := Schedule(hosts);
      assert Grouped(s) == hosts + Grouped([]);
    }
  }

  /** One event per group and one pause between each two groups. */
  lemma {:induction false} ScheduleLength(hosts: seq<string>)
    ensures |Schedule(hosts)| == if hosts == [] then 0 else 2 * ((|hosts| + 1) / 2) - 1
    decreases |hosts|
  {
    if |hosts| > BatchSize {
      ScheduleLength(hosts[BatchSize..]);
    }
  }

  /** Groups of one or two hosts at even places, pauses at odd ones. */
  lemma {:induction false} ScheduleAlternates(hosts: seq<string>)
    ensures forall k :: 0 <= k < |Schedule(hosts)| ==>
      (k % 2 == 0 ==> Schedule(hosts)[k].ResolveGroup? && 1 <= |Schedule(hosts)[k].hosts| <= BatchSize)
      && (k % 2 == 1 ==> Schedule(hosts)[k] == Pause(PauseMs))
    decreases |hosts|
  {
    if |hosts| > BatchSize {
      var s := Schedule(hosts);
      var rest := Schedule(hosts[BatchSize..]);
      ScheduleAlternates(hosts[BatchSize..]);
      assert s == [ResolveGroup(hosts[..BatchSize]), Pause(PauseMs)] + rest;
      forall k | 2 <= k < |s| ensures s[k] == rest[k - 2] {
      }
    }
  }

  /** The cache and the results map while a batch is resolved. */
  datatype BatchState = BatchState(cache: map<string, LocationData>, results: map<string, LocationData>)

  /** Resolving one more host: a location found is cached and recorded. */
  function BatchStep(st: BatchState, net: Network, h: string): BatchState
  {
    match Resolution(st.cache, net, h)
    case None => st
    case Some(loc) => BatchState(st.cache[h := loc], st.results[h := loc])
  }

  /** The state after resolving `hosts` one after the other. */
  function BatchFold(cache: map<string, LocationData>, net: Network, hosts: seq<string>): BatchState
    decreases |hosts|
  {
    if hosts == [] then BatchState(cache, map[])
    else BatchStep(BatchFold(cache, net, hosts[..|hosts| - 1]), net, hosts[|hosts| - 1])
  }

  lemma BatchFoldSnoc(cache: map<string, LocationData>, net: Network, hosts: seq<string>, j: nat)
    requires j < |hosts|
    ensures BatchFold(cache, net, hosts[..j + 1]) == BatchStep(BatchFold(cache, net, hosts[..j]), net, hosts[j])
  {
    assert hosts[..j + 1][..j] == hosts[..j];
  }

  /** With distinct hosts the order of resolution does not matter: each host's
      result is what it resolves to against the cache as it was at the start,
      the results are cached, and no other key of the cache changes. */
  lemma {:induction false} BatchFoldResults(cache: map<string, LocationData>, net: Network, hosts: seq<string>)
    requires Distinct(hosts)
    ensures ResolvedAs(cache, net, hosts, BatchFold(cache, net, hosts))
    decreases |hosts|
  {
    if hosts != [] {
      var init := hosts[..|hosts| - 1];
      var h := hosts[|hosts| - 1];
      DistinctInit(hosts);
      BatchFoldResults(cache, net, init);
      BatchStepResolved(cache, net, init, h, BatchFold(cache, net, init));
      ResolvedAsSame(cache, net, init + [h], hosts, BatchFold(cache, net, hosts));
    }
  }

  /** The hosts but the last are distinct and do not hold the last. */
  lemma DistinctInit(hosts: seq<string>)
    requires hosts != [] && Distinct(hosts)
    ensures Distinct(hosts[..|hosts| - 1]) && hosts[|hosts| - 1] !in hosts[..|hosts| - 1]
  {
  }

  lemma ResolvedAsSame(cache: map<string, LocationData>, net: Network, hs: seq<string>, hosts: seq<string>, st: BatchState)
    requires |hosts| > 0 && hs == hosts[..|hosts| - 1] + [hosts[|hosts| - 1]] && ResolvedAs(cache, net, hs, st)
    ensures ResolvedAs(cache, net, hosts, st)
  {
    assert hs == hosts;
  }

  /** `st` holds, for the hosts `hs`, what each resolves to against `cache`:
      exactly the hosts that resolved are results, each cached with its
      location, and every other key of the cache is as it was. */
  ghost predicate ResolvedAs(cache: map<string, LocationData>, net: Network, hs: seq<string>, st: BatchState)
  {
    (forall h :: h in st.results <==> h in hs && Resolution(cache, net, h).Some?)
    && (forall h :: h in st.results ==> st.results[h] == Resolution(cache, net, h).value && h in st.cache && st.cache[h] == st.results[h])
    && (forall h :: h !in st.results ==> (h in st.cache <==> h in cache) && (h in st.cache ==> st.cache[h] == cache[h]))
  }

  /** Resolving a host not yet met keeps the state resolved. */
  lemma BatchStepResolved(cache: map<string, LocationData>, net: Network, hs: seq<string>, h: string, st: BatchState)
    requires ResolvedAs(cache, net, hs, st) && h !in hs
    ensures ResolvedAs(cache, net, hs + [h], BatchStep(st, net, h))
  {
    assert h !in st.results;
    assert Resolution(st.cache, net, h) == Resolution(cache, net, h);
  }

  /** The results of resolving the distinct valid hosts of `hosts`. */
  lemma UniqueBatchResults(cache: map<string, LocationData>, net: Network, hosts: seq<string>)
    ensures var res := BatchFold(cache, net, UniqueValidHosts(hosts)).results;
      (forall h :: h in res <==> h in hosts && IsValidHost(h) && Resolution(cache, net, h).Some?)
      && (forall h :: h in res ==> res[h] == Resolution(cache, net, h).value)
  {
    BatchFoldResults(cache, net, UniqueValidHosts(hosts));
  }

  /** The location cache: a map from host to location that survives between
      runs (the browser's local storage). */
  class GeoCache {
    var entries: map<string, LocationData>

    /** The cache as it was stored when the page loaded. */
    constructor (stored: map<string, LocationData>)
      ensures entries == stored
    {
      entries := stored;
    }

    /** updateCache. */
    method Update(host: string, data: LocationData)
      modifies this
      ensures entries == old(entries)[host := data]
    {
      entries := entries[host := data];
    }

    /** resolveLocation: null for an invalid host before anything else, a
        cached location as it is, otherwise the DNS step and the providers in
        order; a location found remotely is cached under `host`, never under
        the resolved address, and a null result writes nothing. */
    method ResolveLocation(host: string, net: Network) returns (r: Option<LocationData>)
      modifies this
      ensures r == Resolution(old(entries), net, host)
      ensures r.None? || host in old(entries) ==> entries == old(entries)
      ensures r.Some? ==> entries == old(entries)[host := r.value]
    {
      if !IsValidHost(host) {
        return None;
      }
      if host in entries {
        return Some(entries[host]);
      }
      var targetIp := host;
      if !IsIpAddress(host) {
        var answers := net.dns(host);
        if answers.Some? {
          var a := FirstARecord(answers.value);
          if a.Some? {
            targetIp := a.value;
          }
        }
      }
      if !IsValidHost(targetIp) {
        return None;
      }
      r := PrimaryLocation(net.primary(targetIp));
      if r.Some? {
        Update(host, r.value);
        return;
      }
      r := GeojsLocation(targetIp, net.geojs(targetIp));
      if r.Some? {
        Update(host, r.value);
        return;
      }
      r := IpapiLocation(net.ipapi(targetIp));
      if r.Some? {
        Update(host, r.value);
      }
    }

    /** Resolves `hosts[lo..hi]` one after the other, adding each location
        found to `acc`. */
    method ResolveEach(hosts: seq<string>, lo: nat, hi: nat, net: Network,
                       ghost start: map<string, LocationData>, acc: map<string, LocationData>)
      returns (results: map<string, LocationData>)
      requires lo <= hi <= |hosts|
      requires BatchFold(start, net, hosts[..lo]).cache == entries
      requires BatchFold(start, net, hosts[..lo]).results == acc
      modifies this
      ensures BatchFold(start, net, hosts[..hi]).cache == entries
      ensures BatchFold(start, net, hosts[..hi]).results == results
      decreases hi - lo
    {
      if lo == hi {
        results := acc;
      } else {
        var next := ResolveOne(hosts, lo, net, start, acc);
        results := ResolveEach(hosts, lo + 1, hi, net, start, next);
      }
    }

    /** Resolves `hosts[j]`, adding its location, when found, to `acc`. */
    method ResolveOne(hosts: seq<string>, j: nat, net: Network,
                      ghost start: map<string, LocationData>, acc: map<string, LocationData>)
      returns (results: map<string, LocationData>)
      requires j < |hosts|
      requires BatchFold(start, net, hosts[..j]).cache == entries
      requires BatchFold(start, net, hosts[..j]).results == acc
      modifies this
      ensures BatchFold(start, net, hosts[..j + 1]).cache == entries
      ensures BatchFold(start, net, hosts[..j + 1]).results == results
    {
      BatchFoldSnoc(start, net, hosts, j);
      results := acc;
      var res := ResolveLocation(hosts[j], net);
      if res.Some? {
        results := results[hosts[j] := res.value];
      }
    }

    /** batchResolve: the distinct valid hosts in groups of two with a pause
        after every group but the last; the result holds exactly the hosts
        that resolved, each with what it resolves to against the cache as it
        was at the start. */
    method BatchResolve(hosts: seq<string>, net: Network) returns (results: map<string, LocationData>, schedule: seq<Event>)
      modifies this
      ensures BatchFold(old(entries), net, UniqueValidHosts(hosts)).cache == entries
      ensures BatchFold(old(entries), net, UniqueValidHosts(hosts)).results == results
      ensures schedule == Schedule(UniqueValidHosts(hosts))
      ensures forall h :: h in results <==> h in hosts && IsValidHost(h) && Resolution(old(entries), net, h).Some?
      ensures forall h :: h in results ==> results[h] == Resolution(old(entries), net, h).value
    {
      var unique := UniqueValidHosts(hosts);
      ghost var start := entries;
      results := map[];
      schedule := [];
      var i := 0;
      while i < |unique|
        invariant 0 <= i <= |unique|
        invariant BatchFold(start, net, unique[..i]).cache == entries
        invariant BatchFold(start, net, unique[..i]).results == results
        invariant schedule + Schedule(unique[i..]) == Schedule(unique)
        decreases |unique| - i
      {
        var end := if i + BatchSize < |unique| then i + BatchSize else |unique|;
        var batch := unique[i..end];
        results := ResolveEach(unique, i, end, net, start, results);
        ScheduleAdvance(unique, i, end, schedule, Schedule(unique));
        schedule := schedule + [ResolveGroup(batch)];
        if i + BatchSize < |unique| {
          schedule := schedule + [Pause(PauseMs)];
        }
        i := end;
      }
      assert unique[..i] == unique;
      UniqueBatchResults(start, net, hosts);
    }
  }
}
