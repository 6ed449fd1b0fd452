/** Link lists: one link per line, plain or base64-wrapped. Lines move byte for byte. */
module Links {
  import opened Strings
  import opened Shuffle
  import Base64

  const NEWLINE: byte := '\n'

  // ---------- percent-encoding ----------

  function HexValue(c: byte): Option<nat> {
    if '0' <= c <= '9' then Some(c as int - '0' as int)
    else if 'a' <= c <= 'f' then Some(c as int - 'a' as int + 10)
    else if 'A' <= c <= 'F' then Some(c as int - 'A' as int + 10)
    else None
  }

  /** url.PathUnescape: none when a percent sign is not followed by two hex digits. */
  function PathUnescape(s: Bytes): Option<Bytes> {
    if s == [] then Some([])
    else if s[0] != '%' then Base64.Prepend([s[0]], PathUnescape(s[1..]))
    else if |s| < 3 || HexValue(s[1]).None? || HexValue(s[2]).None? then None
    else
      var high, low := HexValue(s[1]).value, HexValue(s[2]).value;
      Base64.Prepend([Byte(high, low)], PathUnescape(s[3..]))
  }

  function Byte(high: nat, low: nat): byte {
    (high % 16 * 16 + low % 16) as char
  }

  // ---------- names ----------

  /** Reads the "ps" field of a JSON text; blank when there is none. JSON itself is left open. */
  type PsReader = Bytes -> Bytes

  function Unescape(fragment: Bytes): Bytes {
    PathUnescape(fragment).GetOr(fragment)
  }

  function FragmentName(link: Bytes): Bytes {
    var cut := Cut(link, "#");
    if !cut.found then [] else PathUnescape(cut.after).GetOr([])
  }

  function VmessName(payload: Bytes, ps: PsReader): Bytes {
    var cut := Cut(payload, "#");
    match Base64.Decoded(cut.before, None)
    case None => Unescape(cut.after)
    case Some((json, _)) => if ps(json) == [] then Unescape(cut.after) else ps(json)
  }

  function LinkName(link: Bytes, ps: PsReader): Bytes {
    var cut := Cut(link, "://");
    if !cut.found then []
    else if FoldsTo(cut.before, "vmess") then VmessName(cut.after, ps)
    else FragmentName(link)
  }

  /** bytes.TrimRight(line, "\r") */
  function TrimCR(line: Bytes): Bytes {
    if line != [] && line[|line| - 1] == '\r' then TrimCR(line[..|line| - 1]) else line
  }

  function NameOfLine(line: Bytes, ps: PsReader): Bytes {
    LinkName(TrimCR(line), ps)
  }

  function NamesOf(lines: seq<Bytes>, ps: PsReader): (names: seq<Bytes>)
    ensures |names| == |lines|
    ensures forall i :: 0 <= i < |lines| ==> names[i] == NameOfLine(lines[i], ps)
  {
    seq(|lines|, i requires 0 <= i < |lines| => NameOfLine(lines[i], ps))
  }

  // ---------- recognising a list ----------

  predicate IsSchemeName(scheme: Bytes) {
    forall c :: c in scheme ==>
      'a' <= c <= 'z' || 'A' <= c <= 'Z' || '0' <= c <= '9' || c == '+' || c == '-' || c == '.'
  }

  predicate IsLink(line: Bytes) {
    var cut := Cut(line, "://");
    cut.found && cut.before != [] && IsSchemeName(cut.before)
  }

  /** The first line that is not blank decides. */
  predicate FirstIsLink(lines: seq<Bytes>) {
    lines != [] &&
    (if TrimSpace(lines[0]) == [] then FirstIsLink(lines[1..]) else IsLink(TrimSpace(lines[0])))
  }

  predicate IsLinkList(text: Bytes) {
    FirstIsLink(Split(text, NEWLINE))
  }

  lemma SplitAtCut(text: Bytes)
    ensures var cut := Cut(text, [NEWLINE]);
      Split(text, NEWLINE) == [cut.before] + if cut.found then Split(cut.after, NEWLINE) else []
  {
    CutParts(text, NEWLINE);
    var cut := Cut(text, [NEWLINE]);
    SplitFirst(cut.before, NEWLINE, cut.after);
  }

  lemma BlankIsNoList()
    ensures TrimSpace([]) == [] && Split([], NEWLINE) == [[]] && !FirstIsLink([[]]) && !FirstIsLink([])
  {}

  /** isLinkList: looks at the lines one by one, without splitting the whole text. */
  method LooksLikeLinks(body: Bytes) returns (found: bool)
    ensures found <==> IsLinkList(body)
  {
    hide Split, TrimSpace, Cut, IsLink;
    BlankIsNoList();
    var text := body;
    while |text| > 0
      invariant IsLinkList(text) <==> IsLinkList(body)
      decreases |text|
    {
      SplitAtCut(text);
      ShorterAfterCut(text);
      var cut := Cut(text, [NEWLINE]);
      ghost var rest := if cut.found then Split(cut.after, NEWLINE) else [];
      assert Split(text, NEWLINE)[1..] == rest;
      text := if cut.found then cut.after else [];
      var line := TrimSpace(cut.before);
      if line == [] {
        continue;
      }
      return IsLink(line);
    }
    found := false;
  }

  lemma ShorterAfterCut(text: Bytes)
    ensures var cut := Cut(text, [NEWLINE]); cut.found ==> |cut.after| < |text|
  {}

  // ---------- the shuffle ----------

  /** The text of a list and how it was wrapped; none for any other body. */
  function DecodeList(body: Bytes): Option<(Bytes, Option<Base64.Encoding>)> {
    if IsLinkList(body) then Some((body, None))
    else
      match Base64.Decoded(body, Some(IsLinkList))
      case None => None
      case Some((text, enc)) => Some((text, Some(enc)))
  }

  function Wrap(text: Bytes, enc: Option<Base64.Encoding>): Bytes {
    if enc.None? then text else Base64.Encode(enc.value, text)
  }

  function Unwrap(body: Bytes, enc: Option<Base64.Encoding>): Option<Bytes> {
    if enc.None? then Some(body) else Base64.DecodeString(enc.value, body)
  }

  method ApplyLinks(groups: Groups, random: Randomness, ps: PsReader, body: Bytes) returns (out: Bytes, changed: bool)
    requires Proper(random)
    ensures !changed ==> out == body
    ensures DecodeList(body).None? ==> !changed
    ensures DecodeList(body).Some? ==>
      var (text, enc) := DecodeList(body).value;
      var lines := Split(text, NEWLINE);
      var perm := Shuffled(groups, NamesOf(lines, ps), random);
      && (changed <==> perm != Identity(|lines|))
      && Within(perm, |lines|)
      && (changed ==> out == Wrap(Join(Arranged(lines, perm), [NEWLINE]), enc))
  {
    hide IsLinkList, Split, Base64.Decoded, NameOfLine, Shuffled, Join, Base64.Encode;
    var list := DecodeList(body);
    if list.None? {
      return body, false;
    }
    var (text, enc) := list.value;
    var lines := Split(text, NEWLINE);
    var names: seq<Bytes> := [];
    for i := 0 to |lines|
      invariant |names| == i && forall j :: 0 <= j < i ==> names[j] == NameOfLine(lines[j], ps)
    {
      names := names + [NameOfLine(lines[i], ps)];
    }
    assert names == NamesOf(lines, ps);
    var perm := Permutation(groups, names, random);
    ShuffledIsBijection(groups, names, random);
    if perm.None? {
      return body, false;
    }
    var shuffled: seq<Bytes> := [];
    for slot := 0 to |lines|
      invariant |shuffled| == slot && forall j :: 0 <= j < slot ==> shuffled[j] == lines[perm.value[j]]
    {
      shuffled := shuffled + [lines[perm.value[slot]]];
    }
    assert shuffled == Arranged(lines, perm.value);
    out := Join(shuffled, [NEWLINE]);
    if enc.Some? {
      out := Base64.Encode(enc.value, out);
    }
    changed := true;
  }

  /** Lines joined in another order split into just that order. */
  lemma MovedLines(text: Bytes, perm: seq<nat>)
    requires Bijection(perm) && |perm| == |Split(text, NEWLINE)|
    ensures var moved := Arranged(Split(text, NEWLINE), perm);
      && Split(Join(moved, [NEWLINE]), NEWLINE) == moved
      && multiset(moved) == multiset(Split(text, NEWLINE))
  {
    hide Split, Join;
    var lines := Split(text, NEWLINE);
    var moved := Arranged(lines, perm);
    JoinOfSplit(text, NEWLINE);
    forall p | p in moved ensures NEWLINE !in p {
      var i :| 0 <= i < |moved| && moved[i] == p;
      assert lines[perm[i]] in lines;
    }
    SplitOfJoin(moved, NEWLINE);
    ArrangedKeepsAll(lines, perm);
  }

  lemma UnwrapOfWrap(text: Bytes, enc: Option<Base64.Encoding>)
    ensures Unwrap(Wrap(text, enc), enc) == Some(text)
  {
    hide Base64.Encode, Base64.DecodeString;
    if enc.Some? {
      Base64.DecodeStringOfEncode(enc.value, text);
    }
  }

  /** For any list and any outcome of the shuffle, what is written decodes, under
      the wrapping it came in, to the same lines rearranged, with every line
      outside the groups where it was. */
  lemma LinksOnlyMove(groups: Groups, random: Randomness, ps: PsReader, body: Bytes)
    requires Proper(random) && DecodeList(body).Some?
    ensures var (text, enc) := DecodeList(body).value;
      var lines := Split(text, NEWLINE);
      var names := NamesOf(lines, ps);
      var perm := Shuffled(groups, names, random);
      && Within(perm, |lines|)
      && var out := Wrap(Join(Arranged(lines, perm), [NEWLINE]), enc);
         var again := Unwrap(out, enc);
         && again.Some?
         && var moved := Split(again.value, NEWLINE);
            && |moved| == |lines| && multiset(moved) == multiset(lines)
            && (forall i :: 0 <= i < |lines| && Group(groups, names[i]) < 0 ==> moved[i] == lines[i])
            && (forall i :: 0 <= i < |lines| ==>
                  moved[i] == lines[perm[i]] && Group(groups, names[perm[i]]) == Group(groups, names[i]))
  {
    hide *;
    var (text, enc) := DecodeList(body).value;
    var lines := Split(text, NEWLINE);
    var names := NamesOf(lines, ps);
    var perm := Shuffled(groups, names, random);
    ShuffleIsWithin(groups, names, random);
    MovedLines(text, perm);
    UnwrapOfWrap(Join(Arranged(lines, perm), [NEWLINE]), enc);
    ShuffledIsBijection(groups, names, random);
  }
}
