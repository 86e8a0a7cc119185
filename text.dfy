/** String operations with the meaning JavaScript gives them, on Dafny strings
    (sequences of Unicode scalar values). */
module Text {

  datatype Option<+T> = None | Some(value: T)

  /** JavaScript's WhiteSpace and LineTerminator code points: what
      String.prototype.trim removes. */
  predicate IsJsWhitespace(c: char)
  {
    c == '\t' || c == '\n' || c == '\U{B}' || c == '\U{C}' || c == '\r' || c == ' '
    || c == '\U{A0}' || c == '\U{1680}' || ('\U{2000}' <= c <= '\U{200A}')
    || c == '\U{2028}' || c == '\U{2029}' || c == '\U{202F}' || c == '\U{205F}'
    || c == '\U{3000}' || c == '\U{FEFF}'
  }

  /** `s` with its leading whitespace removed. */
  function TrimStart(s: string): string
  {
    if s == [] || !IsJsWhitespace(s[0]) then s else TrimStart(s[1..])
  }

  /** The result of TrimStart is the longest suffix that does not start with
      whitespace: what it drops is all whitespace. */
  lemma {:induction false} TrimStartShape(s: string)
    ensures var r := TrimStart(s);
      |r| <= |s| && r == s[|s| - |r|..]
      && (forall k :: 0 <= k < |s| - |r| ==> IsJsWhitespace(s[k]))
      && (r == [] || !IsJsWhitespace(r[0]))
  {
    if s != [] && IsJsWhitespace(s[0]) {
      TrimStartShape(s[1..]);
      var r := TrimStart(s);
      forall k | 0 <= k < |s| - |r| ensures IsJsWhitespace(s[k]) {
        if k > 0 { assert s[k] == s[1..][k - 1]; }
      }
    }
  }

  /** `s` with its trailing whitespace removed. */
  function TrimEnd(s: string): string
  {
    if s == [] || !IsJsWhitespace(s[|s| - 1]) then s else TrimEnd(s[..|s| - 1])
  }

  /** The result of TrimEnd is the longest prefix that does not end with
      whitespace: what it drops is all whitespace. */
  lemma {:induction false} TrimEndShape(s: string)
    ensures var r := TrimEnd(s);
      |r| <= |s| && r == s[..|r|]
      && (forall k :: |r| <= k < |s| ==> IsJsWhitespace(s[k]))
      && (r == [] || !IsJsWhitespace(r[|r| - 1]))
  {
    if s != [] && IsJsWhitespace(s[|s| - 1]) {
      TrimEndShape(s[..|s| - 1]);
      var r := TrimEnd(s);
      assert s[..|s| - 1][..|r|] == s[..|r|];
      forall k | |r| <= k < |s| ensures IsJsWhitespace(s[k]) {
        if k < |s| - 1 { assert s[k] == s[..|s| - 1][k]; }
      }
    }
  }

  /** String.prototype.trim. */
  function Trim(s: string): string
  {
    TrimStart(TrimEnd(s))
  }

  /** The trim is no longer than the string and neither starts nor ends with
      whitespace. */
  lemma TrimShape(s: string)
    ensures |Trim(s)| <= |s|
    ensures Trim(s) == [] || (!IsJsWhitespace(Trim(s)[0]) && !IsJsWhitespace(Trim(s)[|Trim(s)| - 1]))
  {
    var e := TrimEnd(s);
    TrimEndShape(s);
    TrimStartShape(e);
    var r := TrimStart(e);
    if r != [] {
      assert r[|r| - 1] == e[|e| - 1];
    }
  }

  /** The trim is empty exactly when the string is all whitespace. */
  lemma TrimEmpty(s: string)
    ensures Trim(s) == [] <==> forall k :: 0 <= k < |s| ==> IsJsWhitespace(s[k])
  {
    var e := TrimEnd(s);
    TrimEndShape(s);
    TrimStartShape(e);
    if Trim(s) == [] {
      assert e == [];
    } else {
      var r := Trim(s);
      var k := |e| - |r|;
      assert r[0] == e[k] == s[k];
    }
  }

  /** The trim is a piece of the string: it holds no character the string
      does not. */
  lemma TrimWithout(s: string, c: char)
    requires c !in s
    ensures c !in Trim(s)
  {
    var e := TrimEnd(s);
    TrimEndShape(s);
    TrimStartShape(e);
    var r := Trim(s);
    forall k | 0 <= k < |r| ensures r[k] != c {
      assert r[k] == e[|e| - |r| + k] == s[|e| - |r| + k];
    }
  }

  /** A string that neither starts nor ends with whitespace is its own trim. */
  lemma TrimOfTrimmed(s: string)
    requires s == [] || (!IsJsWhitespace(s[0]) && !IsJsWhitespace(s[|s| - 1]))
    ensures Trim(s) == s
  {
  }

  predicate StartsWith(s: string, prefix: string)
  {
    |prefix| <= |s| && s[..|prefix|] == prefix
  }

  /** String.prototype.indexOf for one character: -1 when absent. */
  function IndexOf(s: string, c: char): (r: int)
    ensures -1 <= r < |s|
    ensures r == -1 <==> c !in s
    ensures r >= 0 ==> s[r] == c && c !in s[..r]
  {
    if s == [] then -1
    else if s[0] == c then 0
    else
      var k := IndexOf(s[1..], c);
      if k < 0 then -1
      else
        assert s[..k + 1] == [s[0]] + s[1..][..k];
        k + 1
  }

  predicate OccursAt(s: string, pat: string, i: nat)
  {
    i + |pat| <= |s| && s[i..i + |pat|] == pat
  }

  /** String.prototype.indexOf for a substring, searching from position `from`. */
  function IndexOfFrom(s: string, pat: string, from: nat): (r: int)
    ensures r == -1 || from <= r <= |s| - |pat|
    ensures r >= 0 ==> OccursAt(s, pat, r)
    ensures forall i :: from <= i && (r < 0 || i < r) ==> !OccursAt(s, pat, i)
    decreases |s| - from
  {
    if from + |pat| > |s| then -1
    else if s[from..from + |pat|] == pat then from
    else IndexOfFrom(s, pat, from + 1)
  }

  function IndexOfSub(s: string, pat: string): (r: int)
    ensures r == -1 || 0 <= r <= |s| - |pat|
    ensures r >= 0 ==> OccursAt(s, pat, r)
    ensures forall i :: 0 <= i && (r < 0 || i < r) ==> !OccursAt(s, pat, i)
  {
    IndexOfFrom(s, pat, 0)
  }

  /** Joins with `sep` between consecutive parts (Array.prototype.join). */
  function Join(parts: seq<string>, sep: string): string
  {
    if |parts| == 0 then ""
    else if |parts| == 1 then parts[0]
    else parts[0] + sep + Join(parts[1..], sep)
  }

  lemma JoinTwo(a: string, b: string, sep: string)
    ensures Join([a, b], sep) == a + sep + b
  {
    assert [a, b][1..] == [b];
  }

  lemma JoinFour(a: string, b: string, c: string, d: string, sep: string)
    ensures Join([a, b, c, d], sep) == a + sep + (b + sep + (c + sep + d))
  {
    JoinTwo(c, d, sep);
    assert [b, c, d][1..] == [c, d];
    assert Join([b, c, d], sep) == b + sep + (c + sep + d);
    assert [a, b, c, d][1..] == [b, c, d];
  }

  /** Joining with one more part appends the separator and that part. */
  lemma {:induction false} JoinSnoc(parts: seq<string>, last: string, sep: string)
    requires |parts| >= 1
    ensures Join(parts + [last], sep) == Join(parts, sep) + sep + last
  {
    if |parts| == 1 {
      assert (parts + [last])[1..] == [last];
    } else {
      assert (parts + [last])[1..] == parts[1..] + [last];
      JoinSnoc(parts[1..], last, sep);
    }
  }

  /** String.prototype.split with a one-character separator: the pieces never
      contain the separator and joining them back gives `s`. */
  function Split(s: string, c: char): (r: seq<string>)
    ensures |r| >= 1
    ensures forall i :: 0 <= i < |r| ==> c !in r[i]
    ensures Join(r, [c]) == s
    decreases |s|
  {
    var k := IndexOf(s, c);
    if k < 0 then [s]
    else
      var rest := Split(s[k + 1..], c);
      assert s == s[..k] + [c] + s[k + 1..];
      [s[..k]] + rest
  }

  /** Splitting a join of separator-free parts gives the parts back. */
  lemma {:induction false} SplitJoin(parts: seq<string>, c: char)
    requires |parts| >= 1
    requires forall i :: 0 <= i < |parts| ==> c !in parts[i]
    ensures Split(Join(parts, [c]), c) == parts
  {
    if |parts| > 1 {
      var rest := Join(parts[1..], [c]);
      var s := parts[0] + [c] + rest;
      assert Join(parts, [c]) == s;
      assert s[..|parts[0]|] == parts[0];
      assert s[|parts[0]|] == c;
      assert IndexOf(s, c) == |parts[0]|;
      assert s[|parts[0]| + 1..] == rest;
      SplitJoin(parts[1..], c);
    }
  }

  /** A string without the separator splits into itself. */
  lemma SplitNoSeparator(s: string, c: char)
    requires c !in s
    ensures Split(s, c) == [s]
  {
  }

  /** The first piece of `p + [c] + d` split at `c` is `p` when `p` holds no `c`. */
  lemma SplitFirst(p: string, c: char, d: string)
    requires c !in p
    ensures Split(p + [c] + d, c)[0] == p
  {
    var s := p + [c] + d;
    IndexOfAt(s, c, |p|);
    assert s[..|p|] == p;
  }

  /** The first occurrence is the one with no occurrence before it. */
  lemma IndexOfAt(s: string, c: char, k: nat)
    requires k < |s| && s[k] == c && c !in s[..k]
    ensures IndexOf(s, c) == k
  {
    assert s[k] in s;
  }

  /** Splitting at the first separator, found at `k`. */
  lemma SplitAt(s: string, c: char, k: nat)
    requires IndexOf(s, c) == k
    ensures Split(s, c) == [s[..k]] + Split(s[k + 1..], c)
  {
  }

  /** With no separator in `p`, `p + [c] + d` splits into `p` and `d`. */
  lemma SplitPair(p: string, c: char, d: string)
    requires c !in p && c !in d
    ensures Split(p + [c] + d, c) == [p, d]
  {
    var s := p + [c] + d;
    assert s[..|p|] == p;
    IndexOfAt(s, c, |p|);
    SplitAt(s, c, |p|);
    assert s[|p| + 1..] == d;
    SplitNoSeparator(d, c);
  }

  /** The first piece comes off the same way with `[c] + d` appended. */
  lemma SplitHeadStep(p: string, c: char, d: string, k: nat)
    requires IndexOf(p, c) == k
    ensures Split(p + [c] + d, c) == [p[..k]] + Split(p[k + 1..] + [c] + d, c)
  {
    var s := p + [c] + d;
    assert s[..k] == p[..k];
    IndexOfAt(s, c, k);
    SplitAt(s, c, k);
    assert s[k + 1..] == p[k + 1..] + [c] + d;
  }

  lemma ConsSnoc(x: seq<string>, y: seq<string>, a: string, z: seq<string>, d: string)
    requires x == [a] + y && y == z + [d]
    ensures x == ([a] + z) + [d]
  {
  }

  /** The piece after the last separator is the last piece. */
  lemma {:induction false} SplitSnoc(p: string, c: char, d: string)
    requires c !in d
    ensures Split(p + [c] + d, c) == Split(p, c) + [d]
    decreases |p|
  {
    var k := IndexOf(p, c);
    if k < 0 {
      SplitPair(p, c, d);
      SplitNoSeparator(p, c);
    } else {
      SplitHeadStep(p, c, d, k);
      SplitAt(p, c, k);
      SplitSnoc(p[k + 1..], c, d);
      ConsSnoc(Split(p + [c] + d, c), Split(p[k + 1..] + [c] + d, c), p[..k], Split(p[k + 1..], c), d);
    }
  }

  /** `s.replace(/^prefix/, '')`: the prefix is dropped when it is there. */
  function DropPrefix(s: string, prefix: string): (r: string)
    ensures StartsWith(s, prefix) ==> s == prefix + r
    ensures !StartsWith(s, prefix) ==> r == s
  {
    if StartsWith(s, prefix) then s[|prefix|..] else s
  }

  /** String.prototype.split with a separator string: the first piece is what
      precedes the first occurrence, and so on. */
  function SplitOn(s: string, sep: string): (r: seq<string>)
    requires |sep| > 0
    ensures |r| >= 1
    ensures IndexOfSub(s, sep) < 0 ==> r == [s]
    ensures IndexOfSub(s, sep) >= 0 ==> r[0] == s[..IndexOfSub(s, sep)]
    ensures Join(r, sep) == s
    ensures forall i :: 0 <= i < |r| ==> IndexOfSub(r[i], sep) < 0
    decreases |s|
  {
    var k := IndexOfSub(s, sep);
    if k < 0 then [s]
    else
      var rest := SplitOn(s[k + |sep|..], sep);
      BeforeFirstOccurrence(s, sep, k);
      JoinCons(s[..k], rest, sep);
      assert s == s[..k] + sep + s[k + |sep|..];
      [s[..k]] + rest
  }

  /** What precedes the first occurrence of a pattern does not hold it. */
  lemma BeforeFirstOccurrence(s: string, sep: string, k: int)
    requires |sep| > 0 && k == IndexOfSub(s, sep) && k >= 0
    ensures IndexOfSub(s[..k], sep) < 0
  {
    var p := s[..k];
    forall i | 0 <= i && OccursAt(p, sep, i) ensures OccursAt(s, sep, i) && i < k {
      assert s[i..i + |sep|] == p[i..i + |sep|];
    }
  }

  lemma JoinCons(a: string, rest: seq<string>, sep: string)
    requires |rest| >= 1
    ensures Join([a] + rest, sep) == a + sep + Join(rest, sep)
  {
    assert ([a] + rest)[1..] == rest;
  }

  /** Splitting `a + sep + b` where `sep` first occurs after `a` and never in `b`. */
  lemma SplitOnConcat(a: string, sep: string, b: string)
    requires |sep| > 0
    requires forall i :: 0 <= i < |a| ==> !OccursAt(a + sep + b, sep, i)
    requires IndexOfSub(b, sep) < 0
    ensures SplitOn(a + sep + b, sep) == [a, b]
  {
    var s := a + sep + b;
    assert OccursAt(s, sep, |a|) by {
      assert s[|a|..|a| + |sep|] == sep;
    }
    assert IndexOfSub(s, sep) == |a|;
    assert s[|a| + |sep|..] == b;
    assert s[..|a|] == a;
  }

  /** String.prototype.replace with a string pattern: only the first
      occurrence is removed. */
  function RemoveFirst(s: string, pat: string): (r: string)
    ensures IndexOfSub(s, pat) < 0 ==> r == s
    ensures IndexOfSub(s, pat) >= 0 ==> |r| == |s| - |pat|
    ensures IndexOfSub(s, pat) >= 0 ==>
      s == r[..IndexOfSub(s, pat)] + pat + r[IndexOfSub(s, pat)..]
  {
    var k := IndexOfSub(s, pat);
    if k < 0 then s else s[..k] + s[k + |pat|..]
  }

  /** Removing a prefix that the string starts with drops exactly that prefix. */
  lemma RemoveFirstPrefix(s: string, pat: string)
    requires StartsWith(s, pat)
    ensures RemoveFirst(s, pat) == s[|pat|..]
  {
    assert OccursAt(s, pat, 0);
  }

  /** `s.replace(/a/g, b)` for single characters. */
  function ReplaceAll(s: string, a: char, b: char): (r: string)
    ensures |r| == |s|
    ensures forall i :: 0 <= i < |s| ==> r[i] == (if s[i] == a then b else s[i])
  {
    seq(|s|, i requires 0 <= i < |s| => if s[i] == a then b else s[i])
  }

  /** `s.replace(/c+$/, '')`: the longest prefix of `s` that does not end in `c`. */
  function StripTrailing(s: string, c: char): (r: string)
    ensures |r| <= |s| && r == s[..|r|]
    ensures forall k :: |r| <= k < |s| ==> s[k] == c
    ensures r == [] || r[|r| - 1] != c
  {
    if s == [] || s[|s| - 1] != c then s else StripTrailing(s[..|s| - 1], c)
  }

  /** `n` copies of `c`. */
  function Repeat(c: char, n: nat): (r: string)
    ensures |r| == n && forall i :: 0 <= i < n ==> r[i] == c
  {
    seq(n, _ => c)
  }

  /** Stripping trailing `c`s from a body without `c` followed by `c`s gives the body. */
  lemma StripTrailingRepeat(body: string, c: char, n: nat)
    requires c !in body
    ensures StripTrailing(body + Repeat(c, n), c) == body
  {
    var s := body + Repeat(c, n);
    var r := StripTrailing(s, c);
    if |body| > 0 {
      assert s[|body| - 1] == body[|body| - 1] != c;
    }
    if |r| > |body| {
      assert false;
    }
  }

  function UpperAsciiChar(c: char): char
  {
    if 'a' <= c <= 'z' then (c as int - 32) as char else c
  }

  /** toUpperCase restricted to the ASCII letters. */
  function UpperAscii(s: string): (r: string)
    ensures |r| == |s|
    ensures forall i :: 0 <= i < |s| ==> r[i] == UpperAsciiChar(s[i])
  {
    seq(|s|, i requires 0 <= i < |s| => UpperAsciiChar(s[i]))
  }

  predicate IsDigit(c: char)
  {
    '0' <= c <= '9'
  }

  predicate IsAsciiLetter(c: char)
  {
    ('A' <= c <= 'Z') || ('a' <= c <= 'z')
  }

  predicate IsAsciiAlphanumeric(c: char)
  {
    IsDigit(c) || IsAsciiLetter(c)
  }

  function DigitChar(d: nat): char
    requires d < 10
  {
    ('0' as int + d) as char
  }

  /** The value of a string of decimal digits. */
  function DigitsValue(s: string): nat
    requires forall i :: 0 <= i < |s| ==> IsDigit(s[i])
  {
    if s == [] then 0
    else
      assert IsDigit(s[|s| - 1]);
      DigitsValue(s[..|s| - 1]) * 10 + (s[|s| - 1] as int - '0' as int)
  }

  /** The decimal representation of a natural number, as `${n}` writes it. */
  function NatToString(n: nat): (r: string)
    ensures |r| >= 1
    ensures forall i :: 0 <= i < |r| ==> IsDigit(r[i])
    ensures |r| > 1 ==> r[0] != '0'
  {
    if n < 10 then [DigitChar(n)] else NatToString(n / 10) + [DigitChar(n % 10)]
  }

  /** Reading the decimal representation back gives the number. */
  lemma {:induction false} NatToStringValue(n: nat)
    ensures DigitsValue(NatToString(n)) == n
  {
    if n >= 10 {
      var r := NatToString(n);
      assert r[..|r| - 1] == NatToString(n / 10);
      NatToStringValue(n / 10);
    }
  }

  /** Number.prototype.toString for an integer. */
  function IntToString(i: int): (r: string)
    ensures i >= 0 ==> r == NatToString(i)
    ensures i < 0 ==> r == "-" + NatToString(-i)
  {
    if i >= 0 then NatToString(i) else "-" + NatToString(-i)
  }
}
