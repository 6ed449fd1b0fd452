/** A link list that is shuffled twice, when it is stored and when it is replayed:
    when what the first shuffle wrote is still read as a link list. */
module Relisting {
  import opened Strings
  import opened Shuffle
  import opened Links
  import opened Sniffing
  import opened Lines
  import Base64
  import Placeholder

  // ---------- the outcome of a shuffle ----------

  function LinesOf(body: Bytes): seq<Bytes>
    requires DecodeList(body).Some?
  {
    Split(DecodeList(body).value.0, NEWLINE)
  }

  ghost function MovedLinesOf(groups: Groups, random: Randomness, ps: PsReader, lines: seq<Bytes>): (moved: seq<Bytes>)
    requires Proper(random)
    ensures |moved| == |lines|
  {
    hide *;
    ShuffleIsWithin(groups, Links.NamesOf(lines, ps), random);
    Arranged(lines, Shuffled(groups, Links.NamesOf(lines, ps), random))
  }

  /** What ApplyLinks writes for one outcome of the random source, moved or not. */
  ghost function Outcome(groups: Groups, random: Randomness, ps: PsReader, body: Bytes): Bytes
    requires Proper(random) && DecodeList(body).Some?
  {
    Wrap(Join(MovedLinesOf(groups, random, ps, LinesOf(body)), [NEWLINE]), DecodeList(body).value.1)
  }

  /** to is from with lines moved within their groups, and the others in place. */
  ghost predicate SameLinks(groups: Groups, ps: PsReader, from: seq<Bytes>, to: seq<Bytes>) {
    && |to| == |from| && multiset(to) == multiset(from)
    && (forall i :: 0 <= i < |from| ==>
          && Group(groups, NameOfLine(to[i], ps)) == Group(groups, NameOfLine(from[i], ps))
          && (Group(groups, NameOfLine(from[i], ps)) < 0 ==> to[i] == from[i]))
  }

  lemma SameLinksTwice(groups: Groups, ps: PsReader, a: seq<Bytes>, b: seq<Bytes>, c: seq<Bytes>)
    requires SameLinks(groups, ps, a, b) && SameLinks(groups, ps, b, c)
    ensures SameLinks(groups, ps, a, c)
  {
    hide Group, NameOfLine;
  }

  lemma SameLinksSelf(groups: Groups, ps: PsReader, lines: seq<Bytes>)
    ensures SameLinks(groups, ps, lines, lines)
  {
    hide Group, NameOfLine;
  }

  lemma MovedAreSame(groups: Groups, random: Randomness, ps: PsReader, lines: seq<Bytes>)
    requires Proper(random)
    ensures SameLinks(groups, ps, lines, MovedLinesOf(groups, random, ps, lines))
  {
    hide Group, NameOfLine, Shuffled;
    var names := Links.NamesOf(lines, ps);
    ShuffledIsBijection(groups, names, random);
    ShuffleIsWithin(groups, names, random);
    ArrangedKeepsAll(lines, Shuffled(groups, names, random));
  }

  /** A body as its reader takes it under a given wrapping. */
  function Reading(body: Bytes, enc: Option<Base64.Encoding>): Option<Bytes> {
    if enc.None? then Some(body) else Base64.DecodeString(enc.value, TrimSpace(body))
  }

  /** A list reads as the text it decodes to. */
  lemma ListReads(body: Bytes)
    requires DecodeList(body).Some?
    ensures Reading(body, DecodeList(body).value.1) == Some(DecodeList(body).value.0)
  {
    hide IsLinkList, TrimSpace, Base64.DecodeString, Base64.FirstAccepted;
    if !IsLinkList(body) {
      Base64.FirstAcceptedSound(TrimSpace(body), Some(IsLinkList), Base64.ENCODINGS);
    }
  }

  lemma WrapReads(text: Bytes, enc: Option<Base64.Encoding>)
    ensures Reading(Wrap(text, enc), enc) == Some(text)
  {
    hide Base64.Encode, Base64.DecodeString, TrimSpace;
    if enc.Some? {
      Base64.DecodeStringOfEncode(enc.value, text);
    }
  }

  /** The outcome reads, under the wrapping of the list, as its lines moved. */
  lemma OutcomeHolds(groups: Groups, random: Randomness, ps: PsReader, body: Bytes)
    requires Proper(random) && DecodeList(body).Some?
    ensures var moved := MovedLinesOf(groups, random, ps, LinesOf(body));
      && Reading(Outcome(groups, random, ps, body), DecodeList(body).value.1) == Some(Join(moved, [NEWLINE]))
      && Split(Join(moved, [NEWLINE]), NEWLINE) == moved
      && forall l :: l in moved ==> NEWLINE !in l
  {
    hide DecodeList, Wrap, Reading, Join, Split, MovedLinesOf;
    var lines := LinesOf(body);
    var moved := MovedLinesOf(groups, random, ps, lines);
    WrapReads(Join(moved, [NEWLINE]), DecodeList(body).value.1);
    JoinOfSplit(DecodeList(body).value.0, NEWLINE);
    MovedAreSame(groups, random, ps, lines);
    MovedHold(groups, random, ps, lines);
    SplitOfJoin(moved, NEWLINE);
  }

  lemma MovedHold(groups: Groups, random: Randomness, ps: PsReader, lines: seq<Bytes>)
    requires Proper(random)
    ensures forall l :: l in MovedLinesOf(groups, random, ps, lines) <==> l in lines
  {
    hide Group, MovedLinesOf;
    MovedAreSame(groups, random, ps, lines);
    var moved := MovedLinesOf(groups, random, ps, lines);
    assert forall l :: l in moved <==> l in multiset(moved);
    assert forall l :: l in lines <==> l in multiset(lines);
  }

  // ---------- the first line that is not blank ----------

  lemma ColonShows(line: Bytes)
    requires ':' in line
    ensures ':' in TrimSpace(line) && !Blank(line)
  {
    hide *;
    var k :| 0 <= k < |line| && line[k] == ':';
    var front, back := line[..k], line[k + 1..];
    assert line == front + [':'] + back;
    SolidKey();
    TrimAtSolid(front, ':', back);
    ColonBetween(TrimLeft(front), TrimRight(back));
    TrimIs(line);
  }

  lemma ColonBetween(front: Bytes, back: Bytes)
    ensures ':' in front + [':'] + back
  {
    assert (front + [':'] + back)[|front|] == ':';
  }

  lemma {:induction false} TrimCRHolds(line: Bytes)
    requires ':' in TrimCR(line)
    ensures ':' in line
    decreases |line|
  {
    if line != [] && line[|line| - 1] == '\r' {
      TrimCRHolds(line[..|line| - 1]);
    }
  }

  lemma CutHolds(text: Bytes)
    requires Cut(text, "://").found
    ensures ':' in text
  {
    var i := Index(text, "://");
    AtHolds(text, "://", i, 0);
  }

  lemma BlankHasNoGroup(groups: Groups, ps: PsReader, line: Bytes)
    requires Blank(line)
    ensures Group(groups, NameOfLine(line, ps)) < 0
  {
    hide Blank, Cut, FoldsTo, VmessName, FragmentName, TrimCR;
    if Cut(TrimCR(line), "://").found {
      CutHolds(TrimCR(line));
      TrimCRHolds(line);
      ColonShows(line);
    }
  }

  /** The shuffle keeps blank lines in place, and moves none into the place of another. */
  lemma HeadStays(groups: Groups, random: Randomness, ps: PsReader, lines: seq<Bytes>)
    requires Proper(random) && Head(lines) < |lines|
    ensures Head(MovedLinesOf(groups, random, ps, lines)) == Head(lines)
  {
    hide Group, NameOfLine, Blank, MovedLinesOf, Head;
    var moved := MovedLinesOf(groups, random, ps, lines);
    var h := Head(lines);
    HeadIsFirst(lines);
    MovedAreSame(groups, random, ps, lines);
    forall i | 0 <= i <= h ensures Blank(moved[i]) <==> Blank(lines[i]) {
      if Blank(lines[i]) {
        BlankHasNoGroup(groups, ps, lines[i]);
      } else if Blank(moved[i]) {
        BlankHasNoGroup(groups, ps, moved[i]);
      }
    }
    HeadIs(moved, h);
  }

  lemma HeadIs(lines: seq<Bytes>, h: nat)
    requires h < |lines| && !Blank(lines[h]) && forall i :: 0 <= i < h ==> Blank(lines[i])
    ensures Head(lines) == h
  {
    hide Blank, Head;
    HeadIsFirst(lines);
  }

  lemma {:induction false} FirstIsLinkAt(lines: seq<Bytes>)
    ensures FirstIsLink(lines) <==> Head(lines) < |lines| && IsLink(TrimSpace(lines[Head(lines)]))
    decreases |lines|
  {
    hide TrimSpace, IsLink;
    if lines != [] && Blank(lines[0]) {
      FirstIsLinkAt(lines[1..]);
    }
  }

  // ---------- reading an outcome ----------

  /** What Apply shuffles as a link list. */
  predicate ReadsAsLinks(body: Bytes) {
    Sniff(body) == LinkList && DecodeList(body).Some?
  }

  /** A list with this line in front is still read as one: it is a link, and in
      a plain list not one that looks like the key of a Clash document. */
  predicate CanLead(line: Bytes, plain: bool) {
    IsLink(TrimSpace(line)) && !(plain && KeyLed(TrimSpace(line)))
  }

  lemma {:induction false} JoinHolds(parts: seq<Bytes>, part: Bytes, c: byte)
    requires part in parts && c in part
    ensures c in Join(parts, [NEWLINE])
    decreases |parts|
  {
    hide Join;
    JoinStep(parts, [NEWLINE]);
    if |parts| > 1 && part != parts[0] {
      JoinHolds(parts[1..], part, c);
    }
  }

  lemma LinkHolds(line: Bytes)
    requires IsLink(TrimSpace(line))
    ensures ':' in line && !Blank(line)
    ensures TrimSpace(line)[0] != '[' && TrimSpace(line)[0] != '{'
  {
    hide TrimSpace;
    var t := TrimSpace(line);
    CutHolds(t);
    CutStarts(t);
    TrimHolds(line, ':');
    BlankIs(line);
  }

  lemma TrimHolds(line: Bytes, c: byte)
    requires c in TrimSpace(line)
    ensures c in line
  {
    hide TrimRight, TrimLeft;
    TrimLeftSubset(line, c);
  }

  lemma CutStarts(t: Bytes)
    requires Cut(t, "://").found && Cut(t, "://").before != []
    ensures Cut(t, "://").before[0] == t[0] && t[0] in Cut(t, "://").before
  {}

  /** A text with a colon is no base64. */
  lemma ColonIsNoBase64(s: Bytes, accept: Base64.Accept)
    requires ':' in s
    ensures Base64.Decoded(s, accept).None?
  {
    hide TrimSpace, Base64.DecodeString, Base64.FirstAccepted;
    ColonShows(s);
    forall e ensures Base64.DecodeString(e, TrimSpace(s)).None? {
      Base64.ImplausibleNeverDecodes(TrimSpace(s), ':', e);
    }
    Base64.NothingDecodes(TrimSpace(s), accept, Base64.ENCODINGS);
  }

  lemma PlainLines(lines: seq<Bytes>)
    requires lines != [] && forall l :: l in lines ==> NEWLINE !in l
    requires exists l :: l in lines && ':' in l
    ensures var text := Join(lines, [NEWLINE]);
      && (IsLinkList(text) <==> FirstIsLink(lines))
      && DecodeList(text) == if FirstIsLink(lines) then Some((text, None)) else None
  {
    hide FirstIsLink, Join, Split, Base64.Decoded;
    SplitOfJoin(lines, NEWLINE);
    var text := Join(lines, [NEWLINE]);
    var l :| l in lines && ':' in l;
    JoinHolds(lines, l, ':');
    ColonIsNoBase64(text, Some(IsLinkList));
  }

  lemma WrappedLines(e: Base64.Encoding, lines: seq<Bytes>)
    requires lines != [] && forall l :: l in lines ==> NEWLINE !in l
    requires exists l :: l in lines && ':' in l
    requires e in Base64.ENCODINGS
    ensures var text := Join(lines, [NEWLINE]);
      var out := Base64.Encode(e, text);
      && Sniff(out) == LinkList
      && (DecodeList(out).Some? <==> FirstIsLink(lines))
      && (DecodeList(out).Some? ==> DecodeList(out).value.0 == text && DecodeList(out).value.1.Some?)
  {
    hide FirstIsLink, Join, Split, Base64.FirstAccepted, TrimSpace, Base64.Encode, Sniff, IsLinkList;
    var text := Join(lines, [NEWLINE]);
    var l :| l in lines && ':' in l;
    JoinHolds(lines, l, ':');
    ListIs(lines);
    var out := Base64.Encode(e, text);
    WrappedIsNoList(e, text);
    Base64.DecodedOfEncode(e, text, None);
    Base64.DecodedAsksOnce(TrimSpace(out), Some(IsLinkList));
  }

  lemma ListIs(lines: seq<Bytes>)
    requires lines != [] && forall l :: l in lines ==> NEWLINE !in l
    ensures IsLinkList(Join(lines, [NEWLINE])) <==> FirstIsLink(lines)
  {
    hide FirstIsLink, Join, Split;
    SplitOfJoin(lines, NEWLINE);
  }

  lemma WrappedIsNoList(e: Base64.Encoding, text: Bytes)
    requires text != []
    ensures var out := Base64.Encode(e, text); Sniff(out) == LinkList && !IsLinkList(out)
  {
    hide Base64.Encode, Sniff, IsLinkList, TrimSpace;
    var out := Base64.Encode(e, text);
    Base64.DecodeStringOfEncode(e, text);
    WrappedBytes(e, text);
    SniffOfColonFree(out);
    Placeholder.NoListInBase64(out);
  }

  lemma WrappedBytes(e: Base64.Encoding, text: Bytes)
    requires text != []
    ensures var out := Base64.Encode(e, text);
      out != [] && out[0] != '[' && out[0] != '{' && ':' !in out && NEWLINE !in out
  {
    Base64.EncodedBytes(e, text);
    var out := Base64.Encode(e, text);
    assert out != [];
    assert out[0] in out;
  }

  /** A list that is read as one starts with a line that can lead it. */
  lemma HeadLeads(body: Bytes)
    requires ReadsAsLinks(body)
    ensures var lines := LinesOf(body);
      && Head(lines) < |lines| && CanLead(lines[Head(lines)], DecodeList(body).value.1.None?)
      && (forall l :: l in lines ==> NEWLINE !in l)
      && (DecodeList(body).value.1.None? ==> !LaterKey(lines, Head(lines)))
      && (DecodeList(body).value.1.Some? ==> DecodeList(body).value.1.value in Base64.ENCODINGS)
  {
    hide Split, Head, FirstIsLink, IsLink, TrimSpace, KeyLed, LaterKey, Sniff, Base64.FirstAccepted;
    var (text, enc) := DecodeList(body).value;
    var lines := LinesOf(body);
    JoinOfSplit(text, NEWLINE);
    FirstIsLinkAt(lines);
    if enc.None? {
      SniffByLines(lines);
    } else {
      Base64.FirstAcceptedSound(TrimSpace(body), Some(IsLinkList), Base64.ENCODINGS);
    }
  }

  /** The shuffle puts no key at the start of a later line. */
  lemma NoLaterKey(groups: Groups, random: Randomness, ps: PsReader, lines: seq<Bytes>)
    requires Proper(random) && Head(lines) < |lines|
    requires !KeyLed(TrimSpace(lines[Head(lines)])) && !LaterKey(lines, Head(lines))
    ensures !LaterKey(MovedLinesOf(groups, random, ps, lines), Head(lines))
  {
    hide Head, KeyLed, TrimSpace, MovedLinesOf, Blank;
    var h := Head(lines);
    var moved := MovedLinesOf(groups, random, ps, lines);
    MovedHold(groups, random, ps, lines);
    HeadIsFirst(lines);
    forall l | l in lines ensures !KeyLed(l) {
      var j :| 0 <= j < |lines| && lines[j] == l;
      if KeyLed(l) {
        KeyShows(l);
      }
    }
  }

  lemma KeyShows(l: Bytes)
    requires KeyLed(l)
    ensures KeyLed(TrimSpace(l)) && !Blank(l)
  {
    hide KeyLed, TrimLeft, TrimSpace;
    KeyIsNotIndented(l);
    KeyLedTrims(l);
    KeyIsSome(TrimSpace(l));
  }

  lemma KeyIsSome(l: Bytes)
    requires KeyLed(l)
    ensures l != []
  {}

  /** What a shuffle wrote is read as a list again exactly when the line that
      came to the front can lead it. */
  lemma OutcomeReads(groups: Groups, random: Randomness, ps: PsReader, body: Bytes)
    requires Proper(random) && ReadsAsLinks(body)
    ensures var lines := LinesOf(body);
      var moved := MovedLinesOf(groups, random, ps, lines);
      var out := Outcome(groups, random, ps, body);
      && Head(lines) < |lines|
      && (ReadsAsLinks(out) <==> CanLead(moved[Head(lines)], DecodeList(body).value.1.None?))
      && (DecodeList(out).Some? ==> DecodeList(out).value.0 == Join(moved, [NEWLINE]))
  {
    hide Sniff, DecodeList, MovedLinesOf, Head, FirstIsLink, IsLink, TrimSpace, KeyLed, Join, Split, Blank, LaterKey,
      Base64.Encode;
    var lines := LinesOf(body);
    var h := Head(lines);
    var moved := MovedLinesOf(groups, random, ps, lines);
    HeadLeads(body);
    HeadStays(groups, random, ps, lines);
    OutcomeHolds(groups, random, ps, body);
    MovedHold(groups, random, ps, lines);
    LinkHolds(lines[h]);
    assert lines[h] in moved;
    FirstIsLinkAt(moved);
    match DecodeList(body).value.1 {
      case Some(e) => WrappedLines(e, moved);
      case None =>
        PlainLines(moved);
        SniffByLines(moved);
        NoLaterKey(groups, random, ps, lines);
        if IsLink(TrimSpace(moved[h])) {
          LinkHolds(moved[h]);
        }
    }
  }

  // ---------- over every outcome ----------

  /** Every line that a shuffle may bring to the front can lead the list. */
  predicate Steady(groups: Groups, ps: PsReader, body: Bytes) {
    DecodeList(body).Some? &&
    var lines := LinesOf(body);
    var h := Head(lines);
    h < |lines| &&
    var g := Group(groups, NameOfLine(lines[h], ps));
    g < 0 || forall j :: 0 <= j < |lines| && Group(groups, NameOfLine(lines[j], ps)) == g ==>
               CanLead(lines[j], DecodeList(body).value.1.None?)
  }

  /** A source that swaps the i-th and j-th member of one group, and nothing else. */
  ghost function OneSwap(g: int, n: nat, i: nat, j: nat): Randomness {
    (group: nat, size: nat) => if group == g && size == n then [(i, j)] else []
  }

  lemma SwappedOnce(order: seq<nat>, i: nat, j: nat)
    requires i < |order| && j < |order|
    ensures InRange([(i, j)], |order|) && Swapped(order, [(i, j)])[i] == order[j]
  {
    var swaps := [(i, j)];
    var after := order[i := order[j]][j := order[i]];
    assert swaps[1..] == [];
    assert Swapped(after, []) == after;
  }

  /** Any two members of a group can change places. */
  lemma SwapsTwo(groups: Groups, names: seq<Bytes>, p: nat, q: nat) returns (random: Randomness)
    requires p < |names| && q < |names| && Group(groups, names[p]) == Group(groups, names[q]) >= 0
    ensures Proper(random) && Shuffled(groups, names, random)[p] == q
  {
    hide Group;
    var g := Group(groups, names[p]);
    var slots := Slots(groups, names, g, |names|);
    var i, j := Rank(slots, p), Rank(slots, q);
    random := OneSwap(g, |slots|, i, j);
    SwappedOnce(slots, i, j);
  }

  lemma MovedFrom(groups: Groups, random: Randomness, ps: PsReader, lines: seq<Bytes>, p: nat, q: nat)
    requires Proper(random) && p < |lines| && q < |lines|
    requires Shuffled(groups, Links.NamesOf(lines, ps), random)[p] == q
    ensures MovedLinesOf(groups, random, ps, lines)[p] == lines[q]
  {
    hide Shuffled, Group, NameOfLine;
    ShuffleIsWithin(groups, Links.NamesOf(lines, ps), random);
  }

  lemma SteadyIs(groups: Groups, ps: PsReader, body: Bytes)
    requires ReadsAsLinks(body) && Head(LinesOf(body)) < |LinesOf(body)|
    ensures var lines := LinesOf(body);
      var g := Group(groups, NameOfLine(lines[Head(lines)], ps));
      Steady(groups, ps, body) <==> g < 0 || forall j :: 0 <= j < |lines| && Group(groups, NameOfLine(lines[j], ps)) == g ==>
        CanLead(lines[j], DecodeList(body).value.1.None?)
  {
    hide ReadsAsLinks, CanLead, Head, LinesOf, Group, NameOfLine, DecodeList;
    ListIsThere(body);
  }

  lemma SteadyReads(groups: Groups, random: Randomness, ps: PsReader, body: Bytes)
    requires ReadsAsLinks(body) && Steady(groups, ps, body) && Proper(random)
    ensures ReadsAsLinks(Outcome(groups, random, ps, body))
  {
    hide *;
    ListIsThere(body);
    HeadLeads(body);
    SteadyIs(groups, ps, body);
    OutcomeReads(groups, random, ps, body);
    var lines := LinesOf(body);
    var h := Head(lines);
    var moved := MovedLinesOf(groups, random, ps, lines);
    MovedAt(groups, random, ps, lines, h);
    MovedHold(groups, random, ps, lines);
    assert moved[h] in moved;
    var j :| 0 <= j < |lines| && lines[j] == moved[h];
  }

  lemma MovedAt(groups: Groups, random: Randomness, ps: PsReader, lines: seq<Bytes>, i: nat)
    requires Proper(random) && i < |lines|
    ensures var moved := MovedLinesOf(groups, random, ps, lines);
      && Group(groups, NameOfLine(moved[i], ps)) == Group(groups, NameOfLine(lines[i], ps))
      && (Group(groups, NameOfLine(lines[i], ps)) < 0 ==> moved[i] == lines[i])
  {
    hide Group, NameOfLine, MovedLinesOf;
    MovedAreSame(groups, random, ps, lines);
  }

  lemma UnsteadyBreaks(groups: Groups, ps: PsReader, body: Bytes) returns (random: Randomness)
    requires ReadsAsLinks(body) && !Steady(groups, ps, body)
    ensures Proper(random) && DecodeList(body).Some? && !ReadsAsLinks(Outcome(groups, random, ps, body))
  {
    hide *;
    ListIsThere(body);
    HeadLeads(body);
    SteadyIs(groups, ps, body);
    var lines := LinesOf(body);
    var h := Head(lines);
    var q :| 0 <= q < |lines| && Group(groups, NameOfLine(lines[q], ps)) == Group(groups, NameOfLine(lines[h], ps))
             && !CanLead(lines[q], DecodeList(body).value.1.None?);
    random := SwapsTwo(groups, Links.NamesOf(lines, ps), h, q);
    MovedFrom(groups, random, ps, lines, h, q);
    OutcomeReads(groups, random, ps, body);
  }

  /** Whatever the random source does, what is written is read as a list again:
      this holds exactly when every line of the first link's group can lead. */
  lemma StaysAList(groups: Groups, ps: PsReader, body: Bytes)
    requires ReadsAsLinks(body)
    ensures (forall random :: Proper(random) ==> ReadsAsLinks(Outcome(groups, random, ps, body))) <==>
      Steady(groups, ps, body)
  {
    hide ReadsAsLinks, Outcome, Proper, Steady, DecodeList;
    ListIsThere(body);
    if Steady(groups, ps, body) {
      forall random | Proper(random) ensures ReadsAsLinks(Outcome(groups, random, ps, body)) {
        SteadyReads(groups, random, ps, body);
      }
    } else {
      var random := UnsteadyBreaks(groups, ps, body);
    }
  }

  lemma ListIsThere(body: Bytes)
    requires ReadsAsLinks(body)
    ensures Sniff(body) == LinkList && DecodeList(body).Some?
  {
    hide Sniff, DecodeList;
  }
}
