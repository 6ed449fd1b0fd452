/** What kind of subscription body this is, read off the body alone. */
module Sniffing {
  import opened Strings

  datatype Format = Unknown | LinkList | Xray | Singbox | Clash

  const KEY: Bytes := "proxies:"

  /** A plain byte search. */
  predicate LooksLikeClash(body: Bytes) {
    KEY <= body || Contains(body, ['\n'] + KEY)
  }

  function Sniff(body: Bytes): Format {
    var trimmed := TrimSpace(body);
    if trimmed == [] then Unknown
    else if trimmed[0] == '[' then Xray
    else if trimmed[0] == '{' then Singbox
    else if LooksLikeClash(trimmed) then Clash
    else LinkList
  }

  /** What the regexp (?m)^proxies: looks for: the key at the start of some line. */
  ghost predicate KeyStartsLine(body: Bytes) {
    exists i :: At(body, KEY, i) && (i == 0 || body[i - 1] == '\n')
  }

  /** The byte search finds what the multi-line regexp would. */
  lemma ClashIsKeyAtLineStart(body: Bytes)
    ensures LooksLikeClash(body) <==> KeyStartsLine(body)
  {
    var wanted: Bytes := ['\n'] + KEY;
    if KEY <= body {
      assert At(body, KEY, 0);
    } else if Contains(body, wanted) {
      var i := Index(body, wanted);
      assert body[i + 1..i + 1 + |KEY|] == body[i..i + |wanted|][1..];
      assert At(body, KEY, i + 1) && body[i] == body[i..i + |wanted|][0];
    }
    if i :| At(body, KEY, i) && (i == 0 || body[i - 1] == '\n') {
      if i > 0 {
        assert body[i - 1..i - 1 + |wanted|] == ['\n'] + body[i..i + |KEY|];
        assert At(body, wanted, i - 1);
      }
    }
  }

  /** A text of base64 bytes sniffs as a link list. */
  lemma SniffOfColonFree(body: Bytes)
    requires body != [] && TrimSpace(body) == body
    requires ':' !in body && body[0] != '[' && body[0] != '{'
    ensures Sniff(body) == LinkList
  {
    if i :| At(body, KEY, i) {
      AtHolds(body, KEY, i, 7);
    }
    ClashIsKeyAtLineStart(body);
  }
}
