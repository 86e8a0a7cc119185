/** encodeURIComponent and decodeURIComponent of ECMAScript (sections 19.2.6.4 and
    19.2.6.2 of ECMA-262): characters outside the unreserved set are written as
    `%XX` escapes of their UTF-8 bytes, and decoding fails on a malformed escape or
    on escaped bytes that are not well-formed UTF-8. */
module UriComponent {
  import opened Text
  import Utf8

  /** The characters encodeURIComponent leaves as they are. */
  predicate IsUnreserved(c: char)
  {
    IsAsciiAlphanumeric(c) || c == '-' || c == '_' || c == '.' || c == '!' || c == '~'
    || c == '*' || c == '\'' || c == '(' || c == ')'
  }

  predicate IsHexDigit(c: char)
  {
    IsDigit(c) || ('A' <= c <= 'F') || ('a' <= c <= 'f')
  }

  function HexDigit(d: int): (c: char)
    requires 0 <= d < 16
    ensures IsHexDigit(c)
  {
    if d < 10 then ('0' as int + d) as char else ('A' as int + d - 10) as char
  }

  function HexValue(c: char): (d: int)
    requires IsHexDigit(c)
    ensures 0 <= d < 16
  {
    if IsDigit(c) then c as int - '0' as int
    else if 'A' <= c <= 'F' then c as int - 'A' as int + 10
    else c as int - 'a' as int + 10
  }

  /** `%XX` with upper-case hex digits. */
  function Escape(b: Utf8.Byte): (r: string)
    ensures |r| == 3 && r[0] == '%' && IsHexDigit(r[1]) && IsHexDigit(r[2])
  {
    ['%', HexDigit(b / 16), HexDigit(b % 16)]
  }

  function Escapes(bytes: seq<Utf8.Byte>): (r: string)
    ensures |r| == 3 * |bytes|
  {
    if bytes == [] then "" else Escape(bytes[0]) + Escapes(bytes[1..])
  }

  function EncodeChar(c: char): string
  {
    if IsUnreserved(c) then [c] else Escapes(Utf8.EncodeChar(c))
  }

  /** encodeURIComponent. */
  function Encode(s: string): (r: string)
    ensures forall i :: 0 <= i < |r| ==> IsUnreserved(r[i]) || r[i] == '%' || IsHexDigit(r[i])
  {
    if s == [] then ""
    else
      var e := EncodeChar(s[0]);
      assert forall i :: 0 <= i < |e| ==> IsUnreserved(e[i]) || e[i] == '%' || IsHexDigit(e[i]) by {
        if !IsUnreserved(s[0]) { EscapesAlphabet(Utf8.EncodeChar(s[0])); }
      }
      e + Encode(s[1..])
  }

  lemma {:induction false} EscapesAlphabet(bytes: seq<Utf8.Byte>)
    ensures forall i :: 0 <= i < |Escapes(bytes)| ==> Escapes(bytes)[i] == '%' || IsHexDigit(Escapes(bytes)[i])
  {
    if bytes != [] {
      EscapesAlphabet(bytes[1..]);
    }
  }

  predicate EscapeAt(s: string, i: nat)
  {
    i + 3 <= |s| && s[i] == '%' && IsHexDigit(s[i + 1]) && IsHexDigit(s[i + 2])
  }

  /** The bytes of the run of well-formed `%XX` escapes at the start of `s`. */
  function EscapedRun(s: string): (r: seq<Utf8.Byte>)
    ensures 3 * |r| <= |s|
    decreases |s|
  {
    if EscapeAt(s, 0) then [HexValue(s[1]) * 16 + HexValue(s[2])] + EscapedRun(s[3..]) else []
  }

  /** decodeURIComponent: None where it throws URIError. */
  function Decode(s: string): (r: Option<string>)
    decreases |s|
  {
    if s == [] then Some("")
    else if s[0] != '%' then
      match Decode(s[1..])
      case None => None
      case Some(t) => Some([s[0]] + t)
    else
      var run := EscapedRun(s);
      if run == [] then None
      else
        match Utf8.Decode(run)
        case None => None
        case Some(text) =>
          match Decode(s[3 * |run|..])
          case None => None
          case Some(t) => Some(text + t)
  }

  lemma HexRoundTrip(b: Utf8.Byte)
    ensures HexValue(HexDigit(b / 16)) * 16 + HexValue(HexDigit(b % 16)) == b
  {
  }

  /** Reading the escapes back stops where they end. */
  lemma {:induction false} EscapedRunOfEscapes(bytes: seq<Utf8.Byte>, t: string)
    requires t == [] || t[0] != '%'
    ensures EscapedRun(Escapes(bytes) + t) == bytes
  {
    var s := Escapes(bytes) + t;
    if bytes != [] {
      HexRoundTrip(bytes[0]);
      assert s[..3] == Escape(bytes[0]);
      assert s[3..] == Escapes(bytes[1..]) + t;
      EscapedRunOfEscapes(bytes[1..], t);
    } else {
      assert !EscapeAt(s, 0);
    }
  }

  lemma {:induction false} EscapesAppend(a: seq<Utf8.Byte>, b: seq<Utf8.Byte>)
    ensures Escapes(a + b) == Escapes(a) + Escapes(b)
  {
    if a != [] {
      assert (a + b)[0] == a[0] && (a + b)[1..] == a[1..] + b;
      EscapesAppend(a[1..], b);
      calc {
        Escapes(a + b);
        Escape(a[0]) + Escapes(a[1..] + b);
        Escape(a[0]) + (Escapes(a[1..]) + Escapes(b));
      }
    } else {
      assert a + b == b;
    }
  }

  lemma {:induction false} EncodeAppend(a: string, b: string)
    ensures Encode(a + b) == Encode(a) + Encode(b)
  {
    if a != [] {
      assert (a + b)[0] == a[0] && (a + b)[1..] == a[1..] + b;
      EncodeAppend(a[1..], b);
      calc {
        Encode(a + b);
        EncodeChar(a[0]) + Encode(a[1..] + b);
        EncodeChar(a[0]) + (Encode(a[1..]) + Encode(b));
      }
    } else {
      assert a + b == b;
    }
  }

  /** A stretch of reserved characters is encoded as the escapes of its UTF-8 bytes. */
  lemma {:induction false} EncodeReserved(p: string)
    requires forall i :: 0 <= i < |p| ==> !IsUnreserved(p[i])
    ensures Encode(p) == Escapes(Utf8.Encode(p))
  {
    if p != [] {
      EncodeReserved(p[1..]);
      EscapesAppend(Utf8.EncodeChar(p[0]), Utf8.Encode(p[1..]));
    }
  }

  /** The length of the stretch of reserved characters at the start of `s`. */
  function ReservedPrefix(s: string): (n: nat)
    ensures n <= |s|
    ensures forall i :: 0 <= i < n ==> !IsUnreserved(s[i])
    ensures n < |s| ==> IsUnreserved(s[n])
  {
    if s == [] || IsUnreserved(s[0]) then 0 else 1 + ReservedPrefix(s[1..])
  }

  /** decodeURIComponent reads back what encodeURIComponent wrote. */
  lemma {:induction false} DecodeEncode(s: string)
    ensures Decode(Encode(s)) == Some(s)
    decreases |s|
  {
    if s == [] {
    } else if IsUnreserved(s[0]) {
      DecodeEncode(s[1..]);
      DecodeEncodeUnreserved(s);
    } else {
      var n := ReservedPrefix(s);
      DecodeEncode(s[n..]);
      DecodeEncodeReserved(s, n);
    }
  }

  /** An unreserved first character is copied through both ways. */
  lemma DecodeEncodeUnreserved(s: string)
    requires s != [] && IsUnreserved(s[0])
    requires Decode(Encode(s[1..])) == Some(s[1..])
    ensures Decode(Encode(s)) == Some(s)
  {
    var e := Encode(s);
    assert e == [s[0]] + Encode(s[1..]);
    assert e[0] == s[0] != '%' && e[1..] == Encode(s[1..]);
    assert [s[0]] + s[1..] == s;
  }

  /** A leading run of reserved characters is escaped as one run of bytes
      and decoded back as one run. */
  lemma DecodeEncodeReserved(s: string, n: nat)
    requires s != [] && !IsUnreserved(s[0]) && n == ReservedPrefix(s)
    requires Decode(Encode(s[n..])) == Some(s[n..])
    ensures Decode(Encode(s)) == Some(s)
  {
    var p, rest := s[..n], s[n..];
    assert s == p + rest;
    EncodeAppend(p, rest);
    EncodeReserved(p);
    var bytes := Utf8.Encode(p);
    var tail := Encode(rest);
    EncodeStart(rest);
    EscapedRunOfEscapes(bytes, tail);
    Utf8.DecodeEncode(p);
    assert bytes != [];
    DecodeRun(Encode(s), bytes, p, tail, rest);
  }

  /** An encoding starts with an escape only if its text starts with a
      reserved character. */
  lemma EncodeStart(s: string)
    requires s == [] || IsUnreserved(s[0])
    ensures Encode(s) == [] || Encode(s)[0] != '%'
  {
    if s != [] {
      assert Encode(s) == [s[0]] + Encode(s[1..]);
    }
  }

  /** Decoding a run of escapes of well-formed UTF-8 followed by a
      decodable tail. */
  lemma DecodeRun(e: string, bytes: seq<Utf8.Byte>, text: string, tail: string, t: string)
    requires bytes != [] && e == Escapes(bytes) + tail && EscapedRun(e) == bytes
    requires Utf8.Decode(bytes) == Some(text) && Decode(tail) == Some(t)
    ensures Decode(e) == Some(text + t)
  {
    assert e[0] == '%';
    assert e[3 * |bytes|..] == tail;
  }
}
