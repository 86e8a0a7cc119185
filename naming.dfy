/** The display name every rewritten link receives: an optional flag and
    country, a base name, and the one-based position of the link, separated
    by single spaces. */
module Naming {
  import opened Text
  import GeoIp
  import Links

  /** The trimmed custom base name, or `VS` when it is blank. */
  function BaseName(options: Links.ProcessingOptions): (r: string)
    ensures r != ""
    ensures Trim(options.customBaseName) != "" ==> r == Trim(options.customBaseName)
    ensures Trim(options.customBaseName) == "" ==> r == "VS"
  {
    var trimmed := Trim(options.customBaseName);
    if trimmed != "" then trimmed else "VS"
  }

  /** A location contributes to the name only when its country is not blank. */
  predicate HasCountry(location: Option<GeoIp.LocationData>)
  {
    location.Some? && Trim(location.value.country) != ""
  }

  /** The trimmed flag, or the white flag when it is blank. */
  function FlagOf(location: GeoIp.LocationData): (r: string)
    ensures r != ""
    ensures Trim(location.flag) != "" ==> r == Trim(location.flag)
    ensures Trim(location.flag) == "" ==> r == GeoIp.FlagPlaceholder
  {
    var trimmed := Trim(location.flag);
    if trimmed != "" then trimmed else GeoIp.FlagPlaceholder
  }

  /** The words of the alias of the link at position `index`: flag and
      country when there is a country, then the base name and index + 1. */
  function AliasParts(index: nat, location: Option<GeoIp.LocationData>, options: Links.ProcessingOptions): (r: seq<string>)
    ensures |r| == (if HasCountry(location) then 4 else 2)
    ensures r[|r| - 2] == BaseName(options) && r[|r| - 1] == NatToString(index + 1)
    ensures HasCountry(location) ==> r[0] == FlagOf(location.value) && r[1] == Trim(location.value.country)
  {
    if HasCountry(location) then [FlagOf(location.value), Trim(location.value.country), BaseName(options), NatToString(index + 1)]
    else [BaseName(options), NatToString(index + 1)]
  }

  /** The alias: its words joined by single spaces. */
  function Alias(index: nat, location: Option<GeoIp.LocationData>, options: Links.ProcessingOptions): string
  {
    Join(AliasParts(index, location, options), " ")
  }

  /** generateNewAlias, collecting the parts and joining them with spaces.
      The original alias is a parameter of the source function that it never
      reads. */
  method GenerateNewAlias(originalAlias: Option<string>, index: nat, location: Option<GeoIp.LocationData>,
                          options: Links.ProcessingOptions) returns (r: string)
    ensures r == Alias(index, location, options)
  {
    var parts: seq<string> := [];
    if HasCountry(location) {
      parts := parts + [FlagOf(location.value)];
      parts := parts + [Trim(location.value.country)];
    }
    var baseName := BaseName(options);
    parts := parts + [baseName];
    parts := parts + [NatToString(index + 1)];
    assert parts == AliasParts(index, location, options);
    if |parts| == 2 {
      r := baseName + " " + NatToString(index + 1);
      JoinTwo(baseName, NatToString(index + 1), " ");
    } else {
      r := Join(parts, " ");
    }
  }

  /** The last space-separated word of a text. */
  function LastWord(s: string): string
  {
    var words := Split(s, ' ');
    words[|words| - 1]
  }

  /** The last word of parts joined by spaces, when the last part is a
      number, is that number. */
  lemma LastWordOfJoin(s: string, front: seq<string>, n: nat)
    requires |front| >= 1 && s == Join(front + [NatToString(n)], " ")
    ensures LastWord(s) == NatToString(n) && DigitsValue(LastWord(s)) == n
  {
    var d := NatToString(n);
    JoinSnoc(front, d, " ");
    assert ' ' !in d by {
      forall i | 0 <= i < |d| ensures d[i] != ' ' {
        assert IsDigit(d[i]);
      }
    }
    assert s == Join(front, " ") + [' '] + d;
    SplitSnoc(Join(front, " "), ' ', d);
    NatToStringValue(n);
  }

  /** The words of the alias before the position. */
  function AliasFront(location: Option<GeoIp.LocationData>, options: Links.ProcessingOptions): (r: seq<string>)
    ensures |r| >= 1 && r[|r| - 1] == BaseName(options)
  {
    if HasCountry(location) then [FlagOf(location.value), Trim(location.value.country), BaseName(options)]
    else [BaseName(options)]
  }

  /** The words of an alias are its front and then its position. */
  lemma AliasPartsSplit(index: nat, location: Option<GeoIp.LocationData>, options: Links.ProcessingOptions)
    ensures AliasParts(index, location, options) == AliasFront(location, options) + [NatToString(index + 1)]
  {
  }

  /** The alias ends in a space and the decimal position, so the position
      can be read back from the last space-separated word. */
  lemma AliasEndsWithPosition(index: nat, location: Option<GeoIp.LocationData>, options: Links.ProcessingOptions)
    ensures LastWord(Alias(index, location, options)) == NatToString(index + 1)
    ensures DigitsValue(LastWord(Alias(index, location, options))) == index + 1
  {
    AliasPartsSplit(index, location, options);
    LastWordOfJoin(Alias(index, location, options), AliasFront(location, options), index + 1);
  }

  /** Links at different positions never share an alias, whatever their
      locations and options. */
  lemma AliasesDistinct(i: nat, j: nat, li: Option<GeoIp.LocationData>, lj: Option<GeoIp.LocationData>,
                        oi: Links.ProcessingOptions, oj: Links.ProcessingOptions)
    requires i != j
    ensures Alias(i, li, oi) != Alias(j, lj, oj)
  {
    AliasEndsWithPosition(i, li, oi);
    AliasEndsWithPosition(j, lj, oj);
  }

  /** Without a country the alias is the base name, a space and the position. */
  lemma AliasWithoutCountry(index: nat, location: Option<GeoIp.LocationData>, options: Links.ProcessingOptions)
    requires !HasCountry(location)
    ensures Alias(index, location, options) == BaseName(options) + " " + NatToString(index + 1)
  {
    JoinTwo(BaseName(options), NatToString(index + 1), " ");
  }

  /** With a country the alias is the flag, the trimmed country, the base
      name and the position, separated by spaces. */
  lemma AliasWithCountry(index: nat, location: Option<GeoIp.LocationData>, options: Links.ProcessingOptions)
    requires HasCountry(location)
    ensures Alias(index, location, options) ==
      FlagOf(location.value) + " " + (Trim(location.value.country) + " " + (BaseName(options) + " " + NatToString(index + 1)))
  {
    JoinFour(FlagOf(location.value), Trim(location.value.country), BaseName(options), NatToString(index + 1), " ");
  }

  /** The alias is never empty: it always holds a space before the position. */
  lemma AliasNonEmpty(index: nat, location: Option<GeoIp.LocationData>, options: Links.ProcessingOptions)
    ensures Alias(index, location, options) != ""
  {
    if HasCountry(location) {
      AliasWithCountry(index, location, options);
    } else {
      AliasWithoutCountry(index, location, options);
    }
  }
}
