/** Base64 with the standard alphabet of section 4 of RFC 4648, as the browser's
    btoa writes it and as atob reads it (the "forgiving-base64 decode" of the
    WHATWG Infra standard: ASCII whitespace is ignored, the padding is optional,
    and a group of two or three characters decodes to one or two bytes). */
module Base64 {
  import opened Text
  import opened Utf8

  predicate IsBase64Char(c: char)
  {
    IsAsciiAlphanumeric(c) || c == '+' || c == '/'
  }

  /** The character for a 6-bit value. */
  function CharOf(i: int): (c: char)
    requires 0 <= i < 64
    ensures IsBase64Char(c)
  {
    if i < 26 then ('A' as int + i) as char
    else if i < 52 then ('a' as int + i - 26) as char
    else if i < 62 then ('0' as int + i - 52) as char
    else if i == 62 then '+'
    else '/'
  }

  /** The 6-bit value of an alphabet character. */
  function ValueOf(c: char): (v: int)
    requires IsBase64Char(c)
    ensures 0 <= v < 64
  {
    if 'A' <= c <= 'Z' then c as int - 'A' as int
    else if 'a' <= c <= 'z' then c as int - 'a' as int + 26
    else if '0' <= c <= '9' then c as int - '0' as int + 52
    else if c == '+' then 62
    else 63
  }

  lemma ValueOfCharOf(i: int)
    requires 0 <= i < 64
    ensures ValueOf(CharOf(i)) == i
  {
  }

  /** Three bytes as four characters. */
  function EncodeGroup(b0: Byte, b1: Byte, b2: Byte): (r: string)
    ensures |r| == 4 && forall i :: 0 <= i < 4 ==> IsBase64Char(r[i])
  {
    [CharOf(b0 / 4), CharOf((b0 % 4) * 16 + b1 / 16), CharOf((b1 % 16) * 4 + b2 / 64), CharOf(b2 % 64)]
  }

  /** The characters for `b` without the trailing `=` padding: four for every
      three bytes, and two or three for a final group of one or two bytes. */
  function EncodeUnpadded(b: seq<Byte>): (r: string)
    ensures |r| % 4 != 1
    ensures |r| == 0 <==> |b| == 0
    ensures forall i :: 0 <= i < |r| ==> IsBase64Char(r[i])
  {
    if |b| == 0 then ""
    else if |b| == 1 then EncodeGroup(b[0], 0, 0)[..2]
    else if |b| == 2 then EncodeGroup(b[0], b[1], 0)[..3]
    else
      var g, rest := EncodeGroup(b[0], b[1], b[2]), EncodeUnpadded(b[3..]);
      LengthAfterGroup(g + rest, rest);
      g + rest
  }

  lemma LengthAfterGroup(s: string, rest: string)
    requires |s| == |rest| + 4 && |rest| % 4 != 1
    ensures |s| % 4 != 1
  {
  }

  /** The number of `=` that bring an unpadded encoding of length `n` to a
      multiple of four. */
  function PadCount(n: nat): (k: nat)
    ensures k < 4 && (n + k) % 4 == 0
  {
    (4 - n % 4) % 4
  }

  /** btoa: the padded standard encoding. */
  function Encode(b: seq<Byte>): (r: string)
    ensures |r| % 4 == 0
    ensures forall i :: 0 <= i < |r| ==> IsBase64Char(r[i]) || r[i] == '='
    ensures b == [] <==> r == []
  {
    var u := EncodeUnpadded(b);
    u + Repeat('=', PadCount(|u|))
  }

  predicate IsAsciiWhitespace(c: char)
  {
    c == '\t' || c == '\n' || c == '\U{C}' || c == '\r' || c == ' '
  }

  function RemoveAsciiWhitespace(s: string): (r: string)
    ensures |r| <= |s|
    ensures forall i :: 0 <= i < |r| ==> !IsAsciiWhitespace(r[i])
    ensures (forall i :: 0 <= i < |s| ==> !IsAsciiWhitespace(s[i])) ==> r == s
  {
    if s == [] then ""
    else if IsAsciiWhitespace(s[0]) then RemoveAsciiWhitespace(s[1..])
    else [s[0]] + RemoveAsciiWhitespace(s[1..])
  }

  /** Step 2 of forgiving-base64 decode: when the length is a multiple of four,
      one or two final `=` are dropped. */
  function DropPadding(s: string): (r: string)
    ensures |r| <= |s| && r == s[..|r|]
    ensures forall k :: |r| <= k < |s| ==> s[k] == '='
  {
    if |s| % 4 != 0 then s
    else if |s| >= 2 && s[|s| - 2..] == "==" then s[..|s| - 2]
    else if |s| >= 1 && s[|s| - 1] == '=' then s[..|s| - 1]
    else s
  }

  /** Four characters as three bytes. */
  function DecodeGroup(c0: char, c1: char, c2: char, c3: char): (r: seq<Byte>)
    requires IsBase64Char(c0) && IsBase64Char(c1) && IsBase64Char(c2) && IsBase64Char(c3)
    ensures |r| == 3
  {
    [ValueOf(c0) * 4 + ValueOf(c1) / 16, (ValueOf(c1) % 16) * 16 + ValueOf(c2) / 4,
     (ValueOf(c2) % 4) * 64 + ValueOf(c3)]
  }

  /** The bytes for alphabet characters, four characters to three bytes; a final
      group of two or three characters gives one or two bytes and its leftover
      bits are discarded. */
  function DecodeChars(s: string): (r: seq<Byte>)
    requires forall i :: 0 <= i < |s| ==> IsBase64Char(s[i])
    requires |s| % 4 != 1
  {
    if |s| == 0 then []
    else if |s| == 2 then DecodeGroup(s[0], s[1], 'A', 'A')[..1]
    else if |s| == 3 then DecodeGroup(s[0], s[1], s[2], 'A')[..2]
    else DecodeGroup(s[0], s[1], s[2], s[3]) + DecodeChars(s[4..])
  }

  /** atob: None where the browser throws. */
  function Decode(s: string): (r: Option<seq<Byte>>)
    ensures r.Some? <==>
      var t := DropPadding(RemoveAsciiWhitespace(s));
      |t| % 4 != 1 && forall i :: 0 <= i < |t| ==> IsBase64Char(t[i])
  {
    var t := DropPadding(RemoveAsciiWhitespace(s));
    if |t| % 4 == 1 then None
    else if exists i :: 0 <= i < |t| && !IsBase64Char(t[i]) then None
    else Some(DecodeChars(t))
  }

  /** Whitespace removal keeps every other character. */
  lemma {:induction false} RemoveAsciiWhitespaceKeeps(s: string, i: nat)
    requires i < |s| && !IsAsciiWhitespace(s[i])
    ensures s[i] in RemoveAsciiWhitespace(s)
  {
    if i > 0 {
      RemoveAsciiWhitespaceKeeps(s[1..], i - 1);
    }
  }

  /** atob throws on a character that is neither whitespace, padding nor in the
      alphabet, wherever it stands. */
  lemma DecodeRejectsForeign(s: string, i: nat)
    requires i < |s| && !IsAsciiWhitespace(s[i]) && s[i] != '=' && !IsBase64Char(s[i])
    ensures Decode(s) == None
  {
    var w := RemoveAsciiWhitespace(s);
    var t := DropPadding(w);
    RemoveAsciiWhitespaceKeeps(s, i);
    var j :| 0 <= j < |w| && w[j] == s[i];
    assert j < |t| && t[j] == s[i];
  }

  lemma GroupRoundTrip(b0: Byte, b1: Byte, b2: Byte)
    ensures var g := EncodeGroup(b0, b1, b2); DecodeGroup(g[0], g[1], g[2], g[3]) == [b0, b1, b2]
  {
    var v0, v1, v2, v3 := b0 / 4, (b0 % 4) * 16 + b1 / 16, (b1 % 16) * 4 + b2 / 64, b2 % 64;
    ValueOfCharOf(v0);
    ValueOfCharOf(v1);
    ValueOfCharOf(v2);
    ValueOfCharOf(v3);
    Glue(b0 % 4, b1 / 16, 16);
    Glue(b1 % 16, b2 / 64, 4);
    assert v0 * 4 + v1 / 16 == b0;
    assert (v1 % 16) * 16 + v2 / 4 == b1;
    assert (v2 % 4) * 64 + v3 == b2;
  }

  /** Digits `a` and `b` in base `n` read back. */
  lemma Glue(a: int, b: int, n: int)
    requires n == 4 || n == 16
    requires 0 <= a < 16 && 0 <= b < n
    ensures (a * n + b) / n == a && (a * n + b) % n == b
  {
    if n == 4 {
      assert a * 4 + b == a * n + b;
    } else {
      assert a * 16 + b == a * n + b;
    }
  }

  lemma DecodeLastOne(b0: Byte)
    ensures DecodeChars(EncodeUnpadded([b0])) == [b0]
  {
    GroupRoundTrip(b0, 0, 0);
    var g := EncodeGroup(b0, 0, 0);
    assert EncodeUnpadded([b0]) == g[..2];
    assert CharOf(0) == 'A';
  }

  lemma DecodeLastTwo(b0: Byte, b1: Byte)
    ensures DecodeChars(EncodeUnpadded([b0, b1])) == [b0, b1]
  {
    GroupRoundTrip(b0, b1, 0);
    var g := EncodeGroup(b0, b1, 0);
    assert EncodeUnpadded([b0, b1]) == g[..3];
    assert CharOf(0) == 'A';
  }

  lemma DecodeCharsCons(g: string, rest: string)
    requires |g| == 4 && forall i :: 0 <= i < 4 ==> IsBase64Char(g[i])
    requires forall i :: 0 <= i < |rest| ==> IsBase64Char(rest[i])
    requires |rest| % 4 != 1
    ensures DecodeChars(g + rest) == DecodeGroup(g[0], g[1], g[2], g[3]) + DecodeChars(rest)
  {
    var s := g + rest;
    assert s[4..] == rest;
  }

  /** Decoding the unpadded characters gives back the bytes. */
  lemma {:induction false} DecodeCharsEncodeUnpadded(b: seq<Byte>)
    ensures DecodeChars(EncodeUnpadded(b)) == b
  {
    if |b| == 1 {
      assert b == [b[0]];
      DecodeLastOne(b[0]);
    } else if |b| == 2 {
      assert b == [b[0], b[1]];
      DecodeLastTwo(b[0], b[1]);
    } else if |b| >= 3 {
      GroupRoundTrip(b[0], b[1], b[2]);
      var g := EncodeGroup(b[0], b[1], b[2]);
      var rest := EncodeUnpadded(b[3..]);
      assert EncodeUnpadded(b) == g + rest;
      DecodeCharsCons(g, rest);
      DecodeCharsEncodeUnpadded(b[3..]);
      FirstThree(DecodeChars(EncodeUnpadded(b)), DecodeGroup(g[0], g[1], g[2], g[3]), DecodeChars(rest), b);
    }
  }

  lemma FirstThree(x: seq<Byte>, y: seq<Byte>, z: seq<Byte>, b: seq<Byte>)
    requires |b| >= 3 && x == y + z && y == [b[0], b[1], b[2]] && z == b[3..]
    ensures x == b
  {
    assert b == [b[0], b[1], b[2]] + b[3..];
  }

  /** Step 2 of the decoder takes off exactly the padding the encoder put on. */
  lemma DropPaddingOfPadded(u: string)
    requires forall i :: 0 <= i < |u| ==> IsBase64Char(u[i])
    requires |u| % 4 != 1
    ensures DropPadding(u + Repeat('=', PadCount(|u|))) == u
  {
    var k := PadCount(|u|);
    var s := u + Repeat('=', k);
    if |u| >= 1 {
      Base64CharNotWhitespace(u[|u| - 1]);
    }
    if k == 2 {
      assert s[|s| - 2..] == "==";
      assert s[..|s| - 2] == u;
    } else if k == 1 {
      DropOnePad(u, s);
    } else {
      assert s == u;
      DropPaddingUnended(u);
    }
  }

  /** One `=` after text not ending in `=`, at a multiple of four: just the
      `=` comes off. */
  lemma DropOnePad(u: string, s: string)
    requires |u| >= 1 && u[|u| - 1] != '=' && s == u + "=" && |s| % 4 == 0
    ensures DropPadding(s) == u
  {
    assert s[|s| - 2..][0] == u[|u| - 1];
    assert s[..|s| - 1] == u;
  }

  /** atob reads back what btoa wrote. */
  lemma DecodeEncode(b: seq<Byte>)
    ensures Decode(Encode(b)) == Some(b)
  {
    var u := EncodeUnpadded(b);
    var s := Encode(b);
    assert s == u + Repeat('=', PadCount(|u|));
    forall i | 0 <= i < |s| ensures !IsAsciiWhitespace(s[i]) {
      if i < |u| { assert IsBase64Char(u[i]); } else { assert s[i] == '='; }
    }
    assert RemoveAsciiWhitespace(s) == s;
    DropPaddingOfPadded(u);
    DecodeCharsEncodeUnpadded(b);
  }

  /** atob also reads the encoding without its padding, as forgiving-base64
      decode allows. */
  lemma DecodeUnpadded(b: seq<Byte>)
    ensures Decode(EncodeUnpadded(b)) == Some(b)
  {
    var u := EncodeUnpadded(b);
    DropPaddingOfPlain(u);
    DecodeCharsEncodeUnpadded(b);
  }

  /** Text of alphabet characters passes both cleaning steps unchanged. */
  lemma DropPaddingOfPlain(u: string)
    requires forall i :: 0 <= i < |u| ==> IsBase64Char(u[i])
    ensures DropPadding(RemoveAsciiWhitespace(u)) == u
  {
    PlainKeptByWhitespaceRemoval(u);
    if |u| >= 1 {
      assert IsBase64Char(u[|u| - 1]);
    }
    DropPaddingUnended(u);
  }

  /** Whitespace removal keeps text of alphabet characters as it is. */
  lemma PlainKeptByWhitespaceRemoval(u: string)
    requires forall i :: 0 <= i < |u| ==> IsBase64Char(u[i])
    ensures RemoveAsciiWhitespace(u) == u
  {
    forall i | 0 <= i < |u| ensures !IsAsciiWhitespace(u[i]) {
      Base64CharNotWhitespace(u[i]);
    }
  }

  lemma Base64CharNotWhitespace(c: char)
    requires IsBase64Char(c)
    ensures !IsAsciiWhitespace(c) && c != '='
  {
  }

  /** Text that does not end in `=` keeps all its characters. */
  lemma DropPaddingUnended(u: string)
    requires u == [] || u[|u| - 1] != '='
    ensures DropPadding(u) == u
  {
    if |u| >= 2 {
      assert u[|u| - 2..][1] == u[|u| - 1];
    }
  }
}
