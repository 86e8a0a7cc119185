/** The base64 helpers of the subscription processor: a tolerant decoder that
    retries with the URL-safe alphabet of section 5 of RFC 4648, the standard
    encoder, the unpadded URL-safe pair used inside SSR links, and the decoding
    of a whole subscription body. A failed decode is reported as "". */
module Codec {
  import opened Text
  import Utf8
  import Base64

  /** `decodeURIComponent(escape(atob(s)))`: the text whose UTF-8 bytes `s`
      encodes in base64, or None where atob or decodeURIComponent throws. */
  function DecodeText(s: string): Option<string>
  {
    match Base64.Decode(s)
    case None => None
    case Some(bytes) => Utf8.Decode(bytes)
  }

  /** `s.replace(/a/g, b).replace(/c/g, d)`: every `a` becomes `b` and every
      `c` becomes `d`, one character at a time. */
  function Translate(s: string, a: char, b: char, c: char, d: char): (r: string)
    requires a != b && a != c && a != d && c != b && c != d
    ensures |r| == |s| && a !in r && c !in r
    ensures forall i :: 0 <= i < |s| ==> r[i] == (if s[i] == a then b else if s[i] == c then d else s[i])
  {
    var r := ReplaceAll(ReplaceAll(s, a, b), c, d);
    assert forall i :: 0 <= i < |r| ==> r[i] != a && r[i] != c;
    r
  }

  /** `s.replace(/-/g, '+').replace(/_/g, '/')`. */
  function ToStandardAlphabet(s: string): string
  {
    Translate(s, '-', '+', '_', '/')
  }

  /** `s.replace(/\+/g, '-').replace(/\//g, '_')`. */
  function ToUrlAlphabet(s: string): string
  {
    Translate(s, '+', '-', '/', '_')
  }

  /** The URL-safe alphabet maps back to the standard one. */
  lemma AlphabetRoundTrip(s: string)
    requires '-' !in s && '_' !in s
    ensures ToStandardAlphabet(ToUrlAlphabet(s)) == s
  {
    var r := ToStandardAlphabet(ToUrlAlphabet(s));
    forall i | 0 <= i < |s| ensures r[i] == s[i] {
      assert s[i] != '-' && s[i] != '_';
    }
  }

  /** safeB64Decode: the direct decode, else the decode of the URL-safe
      alphabet mapped back to the standard one, else "". */
  function SafeB64Decode(s: string): (r: string)
    ensures DecodeText(s).Some? ==> r == DecodeText(s).value
    ensures DecodeText(s).None? && DecodeText(ToStandardAlphabet(s)).Some? ==>
      r == DecodeText(ToStandardAlphabet(s)).value
    ensures DecodeText(s).None? && DecodeText(ToStandardAlphabet(s)).None? ==> r == ""
  {
    match DecodeText(s)
    case Some(t) => t
    case None =>
      match DecodeText(ToStandardAlphabet(s))
      case Some(t) => t
      case None => ""
  }

  /** safeB64Encode: `btoa(unescape(encodeURIComponent(s)))`, the padded
      standard base64 of the UTF-8 bytes of `s`. */
  function SafeB64Encode(s: string): (r: string)
    ensures |r| % 4 == 0
    ensures forall i :: 0 <= i < |r| ==> Base64.IsBase64Char(r[i]) || r[i] == '='
    ensures r == [] <==> s == []
  {
    Base64.Encode(Utf8.Encode(s))
  }

  /** The text survives the encoder and the decoder. */
  lemma DecodeTextEncode(s: string)
    ensures DecodeText(SafeB64Encode(s)) == Some(s)
  {
    Base64.DecodeEncode(Utf8.Encode(s));
    Utf8.DecodeEncode(s);
  }

  /** safeB64Decode reads back what safeB64Encode wrote. */
  lemma SafeB64RoundTrip(s: string)
    ensures SafeB64Decode(SafeB64Encode(s)) == s
  {
    DecodeTextEncode(s);
  }

  /** The retry is what makes the decoder accept the URL-safe alphabet: the
      standard encoding with `+` and `/` written as `-` and `_` still decodes. */
  lemma SafeB64DecodeUrlAlphabet(s: string)
    ensures SafeB64Decode(ToUrlAlphabet(SafeB64Encode(s))) == s
  {
    DecodeTextEncode(s);
    RetryDecodes(SafeB64Encode(s), s);
  }

  /** safeB64Decode also reads what safeBase64UrlEncode wrote, unpadded and
      in the URL-safe alphabet: atob accepts the missing padding, and the
      retry maps the alphabet back. */
  lemma SafeB64DecodeUrlEncoded(s: string)
    ensures SafeB64Decode(SafeBase64UrlEncode(s)) == s
  {
    var u := Base64.EncodeUnpadded(Utf8.Encode(s));
    UrlEncodedShape(s);
    Base64.DecodeUnpadded(Utf8.Encode(s));
    Utf8.DecodeEncode(s);
    RetryDecodes(u, s);
  }

  /** Standard base64, padded or not, that decodes to `t` still decodes to
      `t` once written in the URL-safe alphabet. */
  lemma RetryDecodes(u: string, t: string)
    requires forall k :: 0 <= k < |u| ==> Base64.IsBase64Char(u[k]) || u[k] == '='
    requires DecodeText(u) == Some(t)
    ensures SafeB64Decode(ToUrlAlphabet(u)) == t
  {
    if forall k :: 0 <= k < |u| ==> u[k] != '+' && u[k] != '/' {
      assert ToUrlAlphabet(u) == u;
    } else {
      var i :| 0 <= i < |u| && (u[i] == '+' || u[i] == '/');
      ForeignAfterMapping(u, i);
      StandardPlain(u);
      AlphabetRoundTrip(u);
      FallbackDecodes(ToUrlAlphabet(u), u, t);
    }
  }

  /** A `+` or `/` mapped to the URL-safe alphabet makes the direct decode fail. */
  lemma ForeignAfterMapping(u: string, i: nat)
    requires i < |u| && (u[i] == '+' || u[i] == '/')
    ensures DecodeText(ToUrlAlphabet(u)) == None
  {
    var w := ToUrlAlphabet(u);
    assert w[i] == '-' || w[i] == '_';
    Base64.DecodeRejectsForeign(w, i);
  }

  /** When the direct decode fails, the retry's decoding is the result. */
  lemma FallbackDecodes(w: string, u: string, t: string)
    requires DecodeText(w) == None && ToStandardAlphabet(w) == u && DecodeText(u) == Some(t)
    ensures SafeB64Decode(w) == t
  {
  }

  /** Standard base64 text holds neither `-` nor `_`. */
  lemma StandardPlain(e: string)
    requires forall k :: 0 <= k < |e| ==> Base64.IsBase64Char(e[k]) || e[k] == '='
    ensures '-' !in e && '_' !in e
  {
    forall k | 0 <= k < |e| ensures e[k] != '-' && e[k] != '_' {
      assert Base64.IsBase64Char(e[k]) || e[k] == '=';
    }
  }

  /** `s` padded with `=` to a multiple of four characters. */
  function PadToQuad(s: string): (r: string)
    ensures |r| % 4 == 0 && |s| <= |r| <= |s| + 3
    ensures r[..|s|] == s
    ensures forall k :: |s| <= k < |r| ==> r[k] == '='
  {
    s + Repeat('=', Base64.PadCount(|s|))
  }

  /** What safeBase64UrlDecode returns: the URL-safe alphabet mapped back,
      padded to a multiple of four, and decoded by safeB64Decode. */
  function Base64UrlDecoded(s: string): string
  {
    SafeB64Decode(PadToQuad(ToStandardAlphabet(s)))
  }

  /** safeBase64UrlDecode, with its padding loop. */
  method SafeBase64UrlDecode(str: string) returns (r: string)
    ensures r == Base64UrlDecoded(str)
  {
    var base64 := ToStandardAlphabet(str);
    ghost var std := base64;
    while |base64| % 4 != 0
      invariant |std| <= |base64| <= |std| + Base64.PadCount(|std|)
      invariant base64 == std + Repeat('=', |base64| - |std|)
      decreases |std| + Base64.PadCount(|std|) - |base64|
    {
      PadShort(|std|, |base64| - |std|);
      AppendPad(base64, std, |base64| - |std|);
      base64 := base64 + "=";
    }
    PadFull(|std|, |base64| - |std|);
    r := SafeB64Decode(base64);
  }

  /** A padding shorter than PadCount leaves the length off a multiple of four. */
  lemma PadShort(n: nat, j: nat)
    requires j <= Base64.PadCount(n) && (n + j) % 4 != 0
    ensures j < Base64.PadCount(n)
  {
  }

  /** A padding that reaches a multiple of four is exactly PadCount long. */
  lemma PadFull(n: nat, j: nat)
    requires j <= Base64.PadCount(n) && (n + j) % 4 == 0
    ensures j == Base64.PadCount(n)
  {
  }

  /** One more `=` on a padded text. */
  lemma AppendPad(b: string, std: string, n: nat)
    requires b == std + Repeat('=', n)
    ensures b + "=" == std + Repeat('=', n + 1)
  {
    assert Repeat('=', n) + "=" == Repeat('=', n + 1);
  }

  /** safeBase64UrlEncode: the standard encoding in the URL-safe alphabet with
      the trailing padding removed. Only letters, digits, `-` and `_` remain. */
  function SafeBase64UrlEncode(str: string): (r: string)
    ensures forall i :: 0 <= i < |r| ==> IsAsciiAlphanumeric(r[i]) || r[i] == '-' || r[i] == '_'
  {
    var e := SafeB64Encode(str);
    var r := StripTrailing(ToUrlAlphabet(e), '=');
    assert forall i :: 0 <= i < |r| ==> IsAsciiAlphanumeric(r[i]) || r[i] == '-' || r[i] == '_' by {
      UrlEncodedShape(str);
    }
    r
  }

  /** The URL-safe encoding is the unpadded standard encoding with the
      alphabet mapped. */
  lemma UrlEncodedShape(str: string)
    ensures var u := Base64.EncodeUnpadded(Utf8.Encode(str));
      StripTrailing(ToUrlAlphabet(SafeB64Encode(str)), '=') == ToUrlAlphabet(u)
    ensures forall i :: 0 <= i < |ToUrlAlphabet(Base64.EncodeUnpadded(Utf8.Encode(str)))| ==>
      var c := ToUrlAlphabet(Base64.EncodeUnpadded(Utf8.Encode(str)))[i];
      IsAsciiAlphanumeric(c) || c == '-' || c == '_'
  {
    var u := Base64.EncodeUnpadded(Utf8.Encode(str));
    var k := Base64.PadCount(|u|);
    var e := SafeB64Encode(str);
    assert e == u + Repeat('=', k);
    assert ToUrlAlphabet(e) == ToUrlAlphabet(u) + Repeat('=', k);
    assert '=' !in ToUrlAlphabet(u) by {
      forall i | 0 <= i < |u| ensures ToUrlAlphabet(u)[i] != '=' {
        assert Base64.IsBase64Char(u[i]);
      }
    }
    StripTrailingRepeat(ToUrlAlphabet(u), '=', k);
    forall i | 0 <= i < |u|
      ensures IsAsciiAlphanumeric(ToUrlAlphabet(u)[i]) || ToUrlAlphabet(u)[i] == '-' || ToUrlAlphabet(u)[i] == '_'
    {
      assert Base64.IsBase64Char(u[i]);
    }
  }

  /** safeBase64UrlDecode reads back what safeBase64UrlEncode wrote. */
  lemma Base64UrlRoundTrip(s: string)
    ensures Base64UrlDecoded(SafeBase64UrlEncode(s)) == s
  {
    var u := Base64.EncodeUnpadded(Utf8.Encode(s));
    UrlEncodedShape(s);
    StandardPlain(u);
    AlphabetRoundTrip(u);
    assert PadToQuad(u) == SafeB64Encode(s);
    SafeB64RoundTrip(s);
  }

  /** parseSubscription: the decoded body when it decodes to something
      non-empty, and otherwise the content as it came. */
  function ParseSubscription(content: string): (r: string)
    ensures SafeB64Decode(Trim(content)) != "" ==> r == SafeB64Decode(Trim(content))
    ensures SafeB64Decode(Trim(content)) == "" ==> r == content
    ensures r == "" ==> content == ""
  {
    var decoded := SafeB64Decode(Trim(content));
    if decoded == "" then content else decoded
  }

  /** A body that neither alphabet decodes is passed through unchanged. */
  lemma ParseSubscriptionUndecodable(content: string)
    requires DecodeText(Trim(content)) == None
    requires DecodeText(ToStandardAlphabet(Trim(content))) == None
    ensures SafeB64Decode(Trim(content)) == ""
    ensures ParseSubscription(content) == content
  {
  }

  /** A subscription written by safeB64Encode parses back to its text. */
  lemma ParseSubscriptionEncoded(s: string)
    ensures ParseSubscription(SafeB64Encode(s)) == s
  {
    var e := SafeB64Encode(s);
    assert forall i :: 0 <= i < |e| ==> !IsJsWhitespace(e[i]);
    TrimOfTrimmed(e);
    SafeB64RoundTrip(s);
  }
}
