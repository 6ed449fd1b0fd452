/** A message shown instead of hosts: one dead link per line of it. */
module Placeholder {
  import opened Strings
  import opened Links
  import opened Sniffing
  import Base64

  // ---------- the names ----------

  /** The trimmed names that are not blank, each once, in order of first appearance. */
  function Unique(names: seq<Bytes>, taken: seq<Bytes>): (r: seq<Bytes>)
    ensures taken <= r
    decreases |names|
  {
    if names == [] then taken
    else
      var name := TrimSpace(names[0]);
      Unique(names[1..], if name == [] || name in taken then taken else taken + [name])
  }

  function UniqueNames(names: seq<Bytes>): seq<Bytes> {
    Unique(names, [])
  }

  method CollectNames(names: seq<Bytes>) returns (out: seq<Bytes>)
    ensures out == UniqueNames(names)
  {
    hide TrimSpace;
    var seen: set<Bytes> := {};
    out := [];
    for i := 0 to |names|
      invariant forall n :: n in seen <==> n in out
      invariant Unique(names[i..], out) == UniqueNames(names)
    {
      assert names[i..][0] == names[i] && names[i..][1..] == names[i + 1..];
      var name := TrimSpace(names[i]);
      if name == [] {
        continue;
      }
      if name in seen {
        continue;
      }
      seen := seen + {name};
      out := out + [name];
    }
  }

  /** Exactly the trimmed non-blank names, none twice. */
  lemma {:induction false} UniqueIs(names: seq<Bytes>, taken: seq<Bytes>)
    requires forall i, j :: 0 <= i < j < |taken| ==> taken[i] != taken[j]
    ensures var r := Unique(names, taken);
      && (forall i, j :: 0 <= i < j < |r| ==> r[i] != r[j])
      && (forall n :: n in r <==> n in taken || (n != [] && exists i :: 0 <= i < |names| && TrimSpace(names[i]) == n))
    decreases |names|
  {
    hide TrimSpace;
    if names != [] {
      var name := TrimSpace(names[0]);
      var more := if name == [] || name in taken then taken else taken + [name];
      UniqueIs(names[1..], more);
      var r := Unique(names, taken);
      forall n | n in r || n in taken || (n != [] && exists i :: 0 <= i < |names| && TrimSpace(names[i]) == n)
        ensures n in r <==> n in taken || (n != [] && exists i :: 0 <= i < |names| && TrimSpace(names[i]) == n)
      {
        if i :| 0 <= i < |names| && TrimSpace(names[i]) == n {
          assert i > 0 ==> TrimSpace(names[1..][i - 1]) == n;
        }
        if i :| 0 <= i < |names[1..]| && TrimSpace(names[1..][i]) == n {
          assert TrimSpace(names[i + 1]) == n;
        }
      }
    }
  }

  /** n is the trimmed form of a name before any that trims to m. */
  ghost predicate AppearsBefore(names: seq<Bytes>, n: Bytes, m: Bytes) {
    exists a :: 0 <= a < |names| && TrimSpace(names[a]) == n && forall b :: 0 <= b <= a ==> TrimSpace(names[b]) != m
  }

  lemma NotAmong(front: seq<Bytes>, r: seq<Bytes>, j: nat)
    requires front <= r && |front| <= j < |r|
    requires forall a, b :: 0 <= a < b < |r| ==> r[a] != r[b]
    ensures r[j] !in front
  {
    assert forall k :: 0 <= k < |front| ==> front[k] == r[k];
  }

  /** In the order of their first appearance: an earlier name of the result was met before the later one. */
  lemma {:induction false} UniqueInOrder(names: seq<Bytes>, taken: seq<Bytes>, i: nat, j: nat)
    requires forall i, j :: 0 <= i < j < |taken| ==> taken[i] != taken[j]
    requires |taken| <= i < j < |Unique(names, taken)|
    ensures AppearsBefore(names, Unique(names, taken)[i], Unique(names, taken)[j])
    decreases |names|
  {
    hide TrimSpace;
    var r := Unique(names, taken);
    var name := TrimSpace(names[0]);
    var more := if name == [] || name in taken then taken else taken + [name];
    UniqueIs(names, taken);
    NotAmong(taken, r, j);
    assert r[j] in r && r[j] != [];
    if i < |more| {
      assert r[i] == more[i] == name;
    } else {
      NotAmong(more, r, j);
      UniqueInOrder(names[1..], more, i, j);
      MetLater(names, r[i], r[j]);
    }
  }

  lemma MetLater(names: seq<Bytes>, n: Bytes, m: Bytes)
    requires names != [] && TrimSpace(names[0]) != m && AppearsBefore(names[1..], n, m)
    ensures AppearsBefore(names, n, m)
  {
    hide TrimSpace;
    var a :| 0 <= a < |names[1..]| && TrimSpace(names[1..][a]) == n
             && forall b :: 0 <= b <= a ==> TrimSpace(names[1..][b]) != m;
    assert TrimSpace(names[a + 1]) == n;
    forall b | 0 <= b <= a + 1 ensures TrimSpace(names[b]) != m {
      if b > 0 {
        assert names[1..][b - 1] == names[b];
      }
    }
  }

  // ---------- percent-encoding ----------

  predicate Unescaped(c: byte) {
    || 'A' <= c <= 'Z' || 'a' <= c <= 'z' || '0' <= c <= '9'
    || c == '-' || c == '_' || c == '.' || c == '~'
    || c == '$' || c == '&' || c == '+' || c == '=' || c == ':' || c == '@'
  }

  function HexDigit(v: nat): (c: byte)
    requires v < 16
    ensures HexValue(c) == Some(v) && ('0' <= c <= '9' || 'A' <= c <= 'F')
  {
    if v < 10 then ('0' as int + v) as char else ('A' as int + v - 10) as char
  }

  /** url.PathEscape (RFC 3986, section 2.1). */
  function PathEscape(s: Bytes): Bytes {
    if s == [] then []
    else if Unescaped(s[0]) then [s[0]] + PathEscape(s[1..])
    else
      var v := s[0] as int;
      ['%', HexDigit(v / 16), HexDigit(v % 16)] + PathEscape(s[1..])
  }

  lemma UnescapedByte(c: byte, rest: Bytes)
    ensures c != '%' ==> PathUnescape([c] + rest) == Base64.Prepend([c], PathUnescape(rest))
  {
    assert ([c] + rest)[1..] == rest;
  }

  lemma EscapedByte(c: byte, rest: Bytes)
    ensures var v := c as int;
      PathUnescape(['%', HexDigit(v / 16), HexDigit(v % 16)] + rest) == Base64.Prepend([c], PathUnescape(rest))
  {
    hide HexDigit, HexValue;
    var v := c as int;
    var escaped: Bytes := ['%', HexDigit(v / 16), HexDigit(v % 16)] + rest;
    assert escaped[3..] == rest;
    assert Byte(v / 16, v % 16) == c;
  }

  lemma {:induction false} UnescapeOfEscape(s: Bytes)
    ensures PathUnescape(PathEscape(s)) == Some(s)
    ensures forall c :: c in PathEscape(s) ==> Unescaped(c) || c == '%'
  {
    hide PathUnescape, HexValue;
    if s == [] {
      UnescapeOfNone();
    } else {
      UnescapeOfEscape(s[1..]);
      var rest := PathEscape(s[1..]);
      assert s == [s[0]] + s[1..];
      UnescapedByte(s[0], rest);
      EscapedByte(s[0], rest);
    }
  }

  lemma UnescapeOfNone()
    ensures PathUnescape([]) == Some([])
  {}

  // ---------- the links ----------

  const SCHEME: Bytes := "vless"
  const UUID_FRONT: Bytes := "00000000-0000-0000"
  const UUID_BACK: Bytes := "-0000-000000000000"
  const SERVER: Bytes := "0.0.0.0"
  const PORT: Bytes := "1"
  const QUERY_FRONT: Bytes := "?type=tcp&"
  const QUERY_BACK: Bytes := "security=none"
  const QUERY: Bytes := QUERY_FRONT + QUERY_BACK

  function Head(): Bytes {
    SCHEME + "://" + UUID_FRONT + UUID_BACK + "@" + SERVER + ":" + PORT + QUERY
  }

  function Link(name: Bytes): Bytes {
    Head() + ['#'] + PathEscape(name)
  }

  function LinksFor(names: seq<Bytes>): (links: seq<Bytes>)
    ensures |links| == |names|
    ensures forall i :: 0 <= i < |names| ==> links[i] == Link(names[i])
  {
    seq(|names|, i requires 0 <= i < |names| => Link(names[i]))
  }

  function PlaceholderLinks(names: seq<Bytes>): Bytes {
    Base64.Encode(Base64.STD, Join(LinksFor(names), [NEWLINE]))
  }

  method BuildLinks(names: seq<Bytes>) returns (body: Bytes)
    ensures body == PlaceholderLinks(UniqueNames(names))
  {
    hide UniqueNames, Link, Join, Base64.Encode;
    var unique := CollectNames(names);
    var links := new Bytes[|unique|](_ => []);
    for i := 0 to |unique|
      invariant forall j :: 0 <= j < i ==> links[j] == Link(unique[j])
    {
      links[i] := Link(unique[i]);
    }
    assert links[..] == LinksFor(unique);
    body := Base64.Encode(Base64.STD, Join(links[..], [NEWLINE]));
  }

  predicate Clean(s: Bytes) {
    forall c :: c in s ==> Solid(c) && c != '#' && c != NEWLINE && c != '\r'
  }

  lemma CleanSum(a: Bytes, b: Bytes)
    requires Clean(a) && Clean(b)
    ensures Clean(a + b)
  {}

  lemma CleanPieces()
    ensures Clean(SCHEME) && Clean("://") && Clean("@") && Clean(SERVER) && Clean(":") && Clean(PORT)
  {}

  lemma CleanUuid()
    ensures Clean(UUID_FRONT) && Clean(UUID_BACK)
  {}

  lemma CleanQueryParts()
    ensures Clean(QUERY_FRONT) && Clean(QUERY_BACK)
  {}

  lemma CleanQuery()
    ensures Clean(QUERY)
  {
    hide Clean;
    CleanQueryParts();
    CleanSum(QUERY_FRONT, QUERY_BACK);
  }

  lemma HeadBytes()
    ensures Clean(Head())
    ensures |Head()| > 8 && Head()[..5] == SCHEME && Head()[5..8] == "://"
  {
    hide Clean;
    CleanPieces();
    CleanUuid();
    CleanQuery();
    HeadIsClean(SCHEME, "://", UUID_FRONT, UUID_BACK, "@", SERVER, ":", PORT, QUERY);
    var tail := UUID_FRONT + UUID_BACK + "@" + SERVER + ":" + PORT + QUERY;
    FrontOfThree(SCHEME, "://", tail);
    assert Head() == SCHEME + "://" + tail;
  }

  lemma FrontOfThree(a: Bytes, b: Bytes, c: Bytes)
    ensures (a + b + c)[..|a|] == a && (a + b + c)[|a|..|a| + |b|] == b
  {}

  lemma HeadIsClean(a: Bytes, b: Bytes, c: Bytes, d: Bytes, e: Bytes, f: Bytes, g: Bytes, h: Bytes, i: Bytes)
    requires Clean(a) && Clean(b) && Clean(c) && Clean(d) && Clean(e) && Clean(f) && Clean(g) && Clean(h) && Clean(i)
    ensures Clean(a + b + c + d + e + f + g + h + i)
  {
    hide Clean;
    CleanSum(a, b);
    CleanSum(a + b, c);
    CleanSum(a + b + c, d);
    CleanSum(a + b + c + d, e);
    CleanSum(a + b + c + d + e, f);
    CleanSum(a + b + c + d + e + f, g);
    CleanSum(a + b + c + d + e + f + g, h);
    CleanSum(a + b + c + d + e + f + g + h, i);
  }

  /** A link is one solid piece, on one line. */
  lemma LinkBytes(name: Bytes)
    ensures forall c :: c in Link(name) ==> Solid(c) && c != NEWLINE && c != '\r'
    ensures TrimSpace(Link(name)) == Link(name) && Link(name) != []
    ensures TrimCR(Link(name)) == Link(name)
  {
    hide TrimSpace, HexDigit, PathUnescape;
    HeadBytes();
    UnescapeOfEscape(name);
    TrimKeepsSolid(Link(name));
    assert Link(name)[|Link(name)| - 1] in Link(name);
  }

  lemma LinkScheme(name: Bytes)
    ensures Cut(Link(name), "://") == Cutting(SCHEME, Link(name)[8..], true)
    ensures IsLink(Link(name)) && !FoldsTo(SCHEME, "vmess")
  {
    hide PathEscape, Head, Clean;
    HeadBytes();
    CutAtScheme(SCHEME, Link(name)[8..]);
    assert Link(name) == SCHEME + "://" + Link(name)[8..];
  }

  lemma CutAtScheme(scheme: Bytes, rest: Bytes)
    requires ':' !in scheme
    ensures Cut(scheme + "://" + rest, "://") == Cutting(scheme, rest, true)
  {
    var s := scheme + "://" + rest;
    assert s[|scheme|..|scheme| + 3] == "://";
    assert At(s, "://", |scheme|);
    forall j | 0 <= j < |scheme| ensures !At(s, "://", j) {
      assert s[j] == scheme[j];
      AtStarts(s, "://", j);
    }
    assert Index(s, "://") == |scheme|;
    assert s[..|scheme|] == scheme && s[|scheme| + 3..] == rest;
  }

  /** A placeholder link carries its name. */
  lemma LinkCarriesName(name: Bytes, ps: PsReader)
    ensures NameOfLine(Link(name), ps) == name
  {
    hide PathEscape, PathUnescape, TrimCR, FoldsTo, Index;
    HeadBytes();
    LinkBytes(name);
    LinkScheme(name);
    CutAtByte(Head(), '#', PathEscape(name));
    assert "#" == ['#'];
    UnescapeOfEscape(name);
  }

  lemma JoinedLinks(names: seq<Bytes>)
    requires names != []
    ensures Split(Join(LinksFor(names), [NEWLINE]), NEWLINE) == LinksFor(names)
    ensures IsLinkList(Join(LinksFor(names), [NEWLINE]))
    ensures Join(LinksFor(names), [NEWLINE]) != []
  {
    hide Split, Join, Link, IsLink, TrimSpace;
    var links := LinksFor(names);
    forall p | p in links ensures NEWLINE !in p {
      var i :| 0 <= i < |links| && links[i] == p;
      LinkBytes(names[i]);
    }
    SplitOfJoin(links, NEWLINE);
    LinkBytes(names[0]);
    LinkScheme(names[0]);
    BlankIsNoList();
  }

  lemma NoListInBase64(text: Bytes)
    requires ':' !in text && NEWLINE !in text && TrimSpace(text) == text
    ensures !IsLinkList(text)
  {
    hide TrimSpace;
    SplitFirst(text, NEWLINE, []);
    NoColonNoCut(text);
    BlankIsNoList();
    assert Split(text, NEWLINE) == [text] && [text][1..] == [];
    assert !IsLink(text);
    assert !FirstIsLink([text]);
  }

  lemma NoColonNoCut(text: Bytes)
    requires ':' !in text
    ensures !Cut(text, "://").found
  {
    if i :| At(text, "://", i) {
      AtHolds(text, "://", i, 0);
    }
  }

  lemma EncodedHead(raw: Bytes)
    requires raw != []
    ensures var body := Base64.Encode(Base64.STD, raw); body != [] && body[0] != '[' && body[0] != '{'
  {
    hide Base64.Quanta;
    Base64.EncodedBytes(Base64.STD, raw);
    var body := Base64.Encode(Base64.STD, raw);
    assert |body| >= 2;
    assert body[0] in body;
  }

  /** Placeholder links read back: a list with a name that is not blank sniffs
      as links, and decoding it and naming each line gives exactly the trimmed,
      de-duplicated names, in order. */
  lemma PlaceholderReadsBack(names: seq<Bytes>, ps: PsReader)
    requires exists i :: 0 <= i < |names| && TrimSpace(names[i]) != []
    ensures var body := PlaceholderLinks(UniqueNames(names));
      && Sniff(body) == LinkList
      && DecodeList(body).Some?
      && Links.NamesOf(Split(DecodeList(body).value.0, NEWLINE), ps) == UniqueNames(names)
  {
    hide *;
    var unique := UniqueNames(names);
    UniqueNotEmpty(names);
    var text := Join(LinksFor(unique), [NEWLINE]);
    var body := Base64.Encode(Base64.STD, text);
    PlaceholderIs(unique);
    JoinedLinks(unique);
    Base64.DecodeStringOfEncode(Base64.STD, text);
    EncodedPlain(text);
    EncodedHead(text);
    SniffOfColonFree(body);
    NoListInBase64(body);
    DecodesTo(body, text);
    var read := Links.NamesOf(LinksFor(unique), ps);
    forall i | 0 <= i < |unique| ensures read[i] == unique[i] {
      LinkCarriesName(unique[i], ps);
    }
  }

  lemma EncodedPlain(raw: Bytes)
    ensures var body := Base64.Encode(Base64.STD, raw); ':' !in body && NEWLINE !in body
  {
    hide Base64.Encode;
    Base64.EncodedBytes(Base64.STD, raw);
  }

  lemma PlaceholderIs(names: seq<Bytes>)
    ensures PlaceholderLinks(names) == Base64.Encode(Base64.STD, Join(LinksFor(names), [NEWLINE]))
  {}

  lemma DecodesTo(body: Bytes, text: Bytes)
    requires body == Base64.Encode(Base64.STD, text) && !IsLinkList(body) && IsLinkList(text)
    ensures DecodeList(body).Some? && DecodeList(body).value.0 == text
  {
    hide IsLinkList, Base64.Encode, Base64.Decoded;
    Base64.DecodedOfEncode(Base64.STD, text, Some(IsLinkList));
  }

  lemma UniqueNotEmpty(names: seq<Bytes>)
    requires exists i :: 0 <= i < |names| && TrimSpace(names[i]) != []
    ensures UniqueNames(names) != []
  {
    hide TrimSpace;
    UniqueIs(names, []);
    var i :| 0 <= i < |names| && TrimSpace(names[i]) != [];
    assert TrimSpace(names[i]) in UniqueNames(names);
  }
}
