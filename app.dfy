/** Helpers of the publishing page: the file name a subscription link ends
    in, the id of the gist a link points to, and the revision-free form of a
    raw gist link. */
module App {
  import opened Text

  /** The name used when a link does not end in a file name. */
  const DefaultFilename := "sub.txt"

  /** The link before its first `?` and, of that, before its first `#`. */
  function WithoutQueryAndHash(url: string): string
  {
    Split(Split(url, '?')[0], '#')[0]
  }

  /** The last `/`-separated segment of the link without query and hash. */
  function LastSegment(url: string): string
  {
    var parts := Split(WithoutQueryAndHash(url), '/');
    parts[|parts| - 1]
  }

  /** extractFilename: the last segment when it is non-empty and has a dot,
      otherwise the default name. */
  function ExtractFilename(url: string): string
  {
    var last := LastSegment(url);
    if last != "" && '.' in last then last else DefaultFilename
  }

  /** A character missing from a string is missing from its pieces. */
  lemma {:induction false} SplitKeepsOut(s: string, c: char, d: char)
    requires d !in s
    ensures forall i :: 0 <= i < |Split(s, c)| ==> d !in Split(s, c)[i]
    decreases |s|
  {
    var k := IndexOf(s, c);
    if k >= 0 {
      assert forall x :: x in s[..k] ==> x in s;
      assert forall x :: x in s[k + 1..] ==> x in s;
      SplitKeepsOut(s[k + 1..], c, d);
    }
  }

  /** The last segment has no `/`, `?` or `#`. */
  lemma LastSegmentPlain(url: string)
    ensures var last := LastSegment(url);
      '/' !in last && '?' !in last && '#' !in last
  {
    var beforeQuery := Split(url, '?')[0];
    SplitKeepsOut(beforeQuery, '#', '?');
    var clean := WithoutQueryAndHash(url);
    SplitKeepsOut(clean, '/', '?');
    SplitKeepsOut(clean, '/', '#');
  }

  /** The file name is the last segment exactly when that has a dot, and the
      default otherwise; it never holds `/`, `?` or `#`, and always a dot. */
  lemma ExtractFilenameShape(url: string)
    ensures var r := ExtractFilename(url);
      var last := LastSegment(url);
      ('.' in last ==> r == last) && ('.' !in last ==> r == DefaultFilename)
      && '/' !in r && '?' !in r && '#' !in r && '.' in r
  {
    LastSegmentPlain(url);
    assert DefaultFilename[3] == '.';
  }

  /** Cutting at the first `?` and then the first `#` leaves `p` when the
      text after it is empty, a query, or a hash without `?`. */
  lemma WithoutQueryAndHashOf(p: string, tail: string)
    requires '?' !in p && '#' !in p
    requires tail == "" || tail[0] == '?' || (tail[0] == '#' && '?' !in tail)
    ensures WithoutQueryAndHash(p + tail) == p
  {
    var url := p + tail;
    if tail == "" {
      assert url == p;
      SplitNoSeparator(p, '?');
    } else if tail[0] == '?' {
      assert url == p + ['?'] + tail[1..];
      SplitFirst(p, '?', tail[1..]);
    } else {
      assert '?' !in url;
      SplitNoSeparator(url, '?');
      assert url == p + ['#'] + tail[1..];
      SplitFirst(p, '#', tail[1..]);
    }
    SplitNoSeparator(p, '#');
  }

  /** A link to `dir/name`, possibly followed by a query or a hash, gives
      `name` when that has a dot. */
  lemma ExtractFilenameOf(dir: string, name: string, tail: string)
    requires '/' !in name && '?' !in name && '#' !in name && '.' in name
    requires '?' !in dir && '#' !in dir
    requires tail == "" || tail[0] == '?' || (tail[0] == '#' && '?' !in tail)
    ensures ExtractFilename(dir + "/" + name + tail) == name
  {
    var p := dir + "/" + name;
    assert p == dir + ['/'] + name;
    assert '?' !in p && '#' !in p;
    WithoutQueryAndHashOf(p, tail);
    SplitSnoc(dir, '/', name);
  }

  /** ASCII case folding, the comparison the `i` flag makes. */
  function LowerAsciiChar(c: char): char
  {
    if 'A' <= c <= 'Z' then (c as int + 32) as char else c
  }

  /** `t` starts with the lower-case `lit`, ignoring ASCII case. */
  predicate StartsWithFolded(t: string, lit: string)
  {
    |lit| <= |t| && forall k :: 0 <= k < |lit| ==> LowerAsciiChar(t[k]) == lit[k]
  }

  /** Whether a text starts with a literal depends only on its first
      characters. */
  lemma FoldedPrefix(x: string, y: string, lit: string)
    requires |lit| <= |x| && |lit| <= |y| && x[..|lit|] == y[..|lit|]
    ensures StartsWithFolded(x, lit) == StartsWithFolded(y, lit)
  {
    assert forall k :: 0 <= k < |lit| ==> x[k] == x[..|lit|][k] && y[k] == y[..|lit|][k];
  }

  /** `[0-9a-f]` under the `i` flag. */
  predicate IsHexChar(c: char)
  {
    IsDigit(c) || 'a' <= LowerAsciiChar(c) <= 'f'
  }

  /** 32 hexadecimal digits start at `i`. */
  predicate Hex32At(t: string, i: nat)
  {
    i + 32 <= |t| && forall k :: i <= k < i + 32 ==> IsHexChar(t[k])
  }

  /** The leftmost position at or after `p` where `m` matches, with what it
      gives there: the search `match` and `replace` make for a pattern
      without the global flag. */
  function FirstMatch<T>(m: string -> Option<T>, s: string, p: nat): Option<(nat, T)>
    requires p <= |s|
    decreases |s| - p
  {
    match m(s[p..])
    case Some(v) => Some((p, v))
    case None => if p == |s| then None else FirstMatch(m, s, p + 1)
  }

  /** The search finds the leftmost match, and finds none only when there is
      none. */
  lemma {:induction false} FirstMatchLeftmost<T>(m: string -> Option<T>, s: string, p: nat)
    requires p <= |s|
    ensures var r := FirstMatch(m, s, p);
      (r.None? <==> forall j :: p <= j <= |s| ==> m(s[j..]).None?)
      && (r.Some? ==> p <= r.value.0 <= |s| && m(s[r.value.0..]) == Some(r.value.1)
                      && forall j :: p <= j < r.value.0 ==> m(s[j..]).None?)
    decreases |s| - p
  {
    if m(s[p..]).None? && p < |s| {
      FirstMatchLeftmost(m, s, p + 1);
    }
  }

  /** The search skips positions where nothing matches. */
  lemma {:induction false} FirstMatchSkip<T>(m: string -> Option<T>, s: string, p: nat, q: nat)
    requires p <= q <= |s|
    requires forall j :: p <= j < q ==> m(s[j..]).None?
    ensures FirstMatch(m, s, p) == FirstMatch(m, s, q)
    decreases q - p
  {
    if p < q {
      FirstMatchSkip(m, s, p + 1, q);
    }
  }

  /** Where the run of characters other than `/` that starts at `i` ends:
      at the next `/` or at the end. */
  function SegmentEnd(t: string, i: nat): (e: nat)
    requires i <= |t|
    ensures i <= e <= |t| && (e < |t| ==> t[e] == '/')
    ensures forall k :: i <= k < e ==> t[k] != '/'
    decreases |t| - i
  {
    if i == |t| || t[i] == '/' then i else SegmentEnd(t, i + 1)
  }

  /** `(?:\/[^/]+)?\/([0-9a-f]{32})` at the start of `t`, the optional
      segment tried first: the 32 digits captured. A shorter segment cannot
      be followed by `/`, so the greedy segment is the only one to try. */
  function IdAfterHost(t: string): Option<string>
  {
    if t == [] || t[0] != '/' then None
    else
      var e := SegmentEnd(t, 1);
      if 1 < e < |t| && Hex32At(t, e + 1) then Some(t[e + 1..e + 33])
      else if Hex32At(t, 1) then Some(t[1..33])
      else None
  }

  /** The host with the optional `usercontent`, which is tried first. */
  const LongHost := "gist.githubusercontent.com"
  const ShortHost := "gist.github.com"

  /** The whole pattern matched at the start of `t`: the capture. */
  function GistIdAt(t: string): Option<string>
  {
    var long := if StartsWithFolded(t, LongHost) then IdAfterHost(t[|LongHost|..]) else None;
    if long.Some? then long
    else if StartsWithFolded(t, ShortHost) then IdAfterHost(t[|ShortHost|..])
    else None
  }

  /** extractGistId: the capture of the first match in the link, if any. */
  function ExtractGistId(url: string): Option<string>
  {
    match FirstMatch(GistIdAt, url, 0)
    case None => None
    case Some((_, id)) => Some(id)
  }

  /** A match captures 32 hexadecimal digits. */
  lemma GistIdAtShape(t: string)
    ensures GistIdAt(t).Some? ==> |GistIdAt(t).value| == 32 && forall k :: 0 <= k < 32 ==> IsHexChar(GistIdAt(t).value[k])
  {
  }

  /** The id is absent exactly when nothing in the link matches, and
      otherwise is 32 hexadecimal digits captured by the leftmost match. */
  lemma ExtractGistIdShape(url: string)
    ensures var r := ExtractGistId(url);
      (r.None? <==> forall j :: 0 <= j <= |url| ==> GistIdAt(url[j..]).None?)
      && (r.Some? ==> |r.value| == 32 && (forall k :: 0 <= k < 32 ==> IsHexChar(r.value[k]))
                      && exists j :: 0 <= j <= |url| && GistIdAt(url[j..]) == r
                                     && forall i :: 0 <= i < j ==> GistIdAt(url[i..]).None?)
  {
    FirstMatchLeftmost(GistIdAt, url, 0);
    var r := ExtractGistId(url);
    if r.Some? {
      var j := FirstMatch(GistIdAt, url, 0).value.0;
      GistIdAtShape(url[j..]);
    }
  }

  /** After the host, a user segment and an id give the id. */
  lemma IdAfterUser(user: string, id: string, rest: string)
    requires user != "" && '/' !in user
    requires |id| == 32 && forall k :: 0 <= k < 32 ==> IsHexChar(id[k])
    ensures IdAfterHost("/" + user + "/" + id + rest) == Some(id)
  {
    var t := "/" + user + "/" + id + rest;
    var e := 1 + |user|;
    assert forall k :: 1 <= k < e ==> t[k] == user[k - 1];
    assert t[e] == '/';
    assert SegmentEnd(t, 1) == e;
    assert forall k :: e + 1 <= k < e + 33 ==> t[k] == id[k - e - 1];
    assert t[e + 1..e + 33] == id;
  }

  /** A gist host followed by a user segment and an id matches with the id. */
  lemma GistIdAtLink(host: string, user: string, id: string, rest: string)
    requires host == LongHost || host == ShortHost
    requires user != "" && '/' !in user
    requires |id| == 32 && forall k :: 0 <= k < 32 ==> IsHexChar(id[k])
    ensures GistIdAt(host + "/" + user + "/" + id + rest) == Some(id)
  {
    var u := "/" + user + "/" + id + rest;
    assert host + "/" + user + "/" + id + rest == host + u;
    IdAfterUser(user, id, rest);
    if host == LongHost {
      GistIdAtLong(u);
    } else {
      GistIdAtShort(u);
    }
  }

  lemma GistIdAtLong(u: string)
    requires IdAfterHost(u).Some?
    ensures GistIdAt(LongHost + u) == IdAfterHost(u)
  {
    var t := LongHost + u;
    assert t[..|LongHost|] == LongHost;
    assert t[|LongHost|..] == u;
  }

  lemma GistIdAtShort(u: string)
    requires IdAfterHost(u).Some?
    ensures GistIdAt(ShortHost + u) == IdAfterHost(u)
  {
    var t := ShortHost + u;
    assert t[..|ShortHost|] == ShortHost;
    assert t[|ShortHost|..] == u;
    assert t[11] == '.';
    assert !StartsWithFolded(t, LongHost);
  }

  /** The link of a user's gist yields its id, whatever follows the id. */
  lemma ExtractGistIdOf(prefix: string, host: string, user: string, id: string, rest: string)
    requires host == LongHost || host == ShortHost
    requires forall k :: 0 <= k < |prefix| ==> LowerAsciiChar(prefix[k]) != 'g'
    requires user != "" && '/' !in user
    requires |id| == 32 && forall k :: 0 <= k < 32 ==> IsHexChar(id[k])
    ensures ExtractGistId(prefix + host + "/" + user + "/" + id + rest) == Some(id)
  {
    var t := host + "/" + user + "/" + id + rest;
    var s := prefix + t;
    assert s == prefix + host + "/" + user + "/" + id + rest;
    forall j | 0 <= j < |prefix| ensures GistIdAt(s[j..]).None? {
      assert s[j..][0] == prefix[j];
    }
    FirstMatchSkip(GistIdAt, s, 0, |prefix|);
    assert s[|prefix|..] == t;
    GistIdAtLink(host, user, id, rest);
  }

  /** Where the run of ASCII letters and digits that starts at `i` ends. */
  function AlnumEnd(t: string, i: nat): (e: nat)
    requires i <= |t|
    ensures i <= e <= |t| && (e < |t| ==> !IsAsciiAlphanumeric(t[e]))
    ensures forall k :: i <= k < e ==> IsAsciiAlphanumeric(t[k])
    decreases |t| - i
  {
    if i == |t| || !IsAsciiAlphanumeric(t[i]) then i else AlnumEnd(t, i + 1)
  }

  /** `\/raw\/[a-z0-9]+\/`, ignoring case, at the start of `t`: the length of
      the match. A shorter run cannot be followed by `/`, so the greedy run is
      the only one to try. */
  function RawRevisionAt(t: string): Option<nat>
  {
    if StartsWithFolded(t, "/raw/") && 5 < AlnumEnd(t, 5) < |t| && t[AlnumEnd(t, 5)] == '/' then
      Some(AlnumEnd(t, 5) + 1)
    else None
  }

  /** The permanent link: the first `/raw/<revision>/` becomes `/raw/`. */
  function PermanentUrl(rawUrl: string): string
  {
    match FirstMatch(RawRevisionAt, rawUrl, 0)
    case None => rawUrl
    case Some((p, n)) =>
      if p + n <= |rawUrl| then rawUrl[..p] + "/raw/" + rawUrl[p + n..] else rawUrl
  }

  /** A segment fits in the text it starts. */
  lemma RawRevisionFits(t: string)
    ensures RawRevisionAt(t).Some? ==> 6 < RawRevisionAt(t).value <= |t|
  {
  }

  /** The leftmost segment is replaced by `/raw/`: the text before and
      after it is kept, and the link gets shorter. */
  lemma PermanentUrlSplice(rawUrl: string)
    ensures FirstMatch(RawRevisionAt, rawUrl, 0).Some? ==>
      var (p, n) := FirstMatch(RawRevisionAt, rawUrl, 0).value;
      var r := PermanentUrl(rawUrl);
      p + n <= |rawUrl| && |r| < |rawUrl| && r[..p] == rawUrl[..p] && r[p..p + 5] == "/raw/" && r[p + 5..] == rawUrl[p + n..]
  {
    FirstMatchLeftmost(RawRevisionAt, rawUrl, 0);
    var f := FirstMatch(RawRevisionAt, rawUrl, 0);
    if f.Some? {
      var (p, n) := f.value;
      RawRevisionFits(rawUrl[p..]);
      var r := PermanentUrl(rawUrl);
      assert r == rawUrl[..p] + "/raw/" + rawUrl[p + n..];
    }
  }

  /** The link is left as it is exactly when it holds no revision segment. */
  lemma PermanentUrlUnchanged(rawUrl: string)
    ensures PermanentUrl(rawUrl) == rawUrl <==> forall j :: 0 <= j <= |rawUrl| ==> RawRevisionAt(rawUrl[j..]).None?
  {
    FirstMatchLeftmost(RawRevisionAt, rawUrl, 0);
    PermanentUrlSplice(rawUrl);
  }

  /** `/raw/`, a revision and `/` at the start of a text form a segment. */
  lemma RawRevisionOf(h: string, b: string)
    requires h != "" && forall k :: 0 <= k < |h| ==> IsAsciiAlphanumeric(h[k])
    ensures RawRevisionAt("/raw/" + h + "/" + b) == Some(|h| + 6)
  {
    var t := "/raw/" + h + "/" + b;
    assert t[..5] == "/raw/";
    assert forall k :: 5 <= k < 5 + |h| ==> t[k] == h[k - 5];
    assert t[5 + |h|] == '/';
    assert AlnumEnd(t, 5) == 5 + |h|;
  }

  /** A raw link `a/raw/<h>/b` whose first `/raw/` is the one before the
      revision `h` becomes `a/raw/b`. */
  lemma PermanentUrlOf(a: string, h: string, b: string)
    requires h != "" && forall k :: 0 <= k < |h| ==> IsAsciiAlphanumeric(h[k])
    requires forall j :: 0 <= j < |a| ==> !StartsWithFolded((a + "/raw/")[j..], "/raw/")
    ensures PermanentUrl(a + "/raw/" + h + "/" + b) == a + "/raw/" + b
  {
    var t := "/raw/" + h + "/" + b;
    var s := a + t;
    assert s == a + "/raw/" + h + "/" + b;
    assert s[..|a| + 5] == a + "/raw/";
    forall j | 0 <= j < |a| ensures RawRevisionAt(s[j..]).None? {
      assert s[j..][..5] == (a + "/raw/")[j..][..5];
      FoldedPrefix(s[j..], (a + "/raw/")[j..], "/raw/");
    }
    FirstMatchSkip(RawRevisionAt, s, 0, |a|);
    assert s[|a|..] == t;
    RawRevisionOf(h, b);
    assert s[..|a|] == a;
    assert s[|a| + |h| + 6..] == b;
  }
}
