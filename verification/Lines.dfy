/** Texts of several lines: what trimming the text does to its first line that is
    not blank, and how a text is sniffed by its lines. */
module Lines {
  import opened Strings
  import opened Sniffing

  const BREAK: byte := '\n'

  predicate Blank(line: Bytes) {
    TrimSpace(line) == []
  }

  /** The first line that is not blank. */
  function Head(lines: seq<Bytes>): (h: nat)
    ensures h <= |lines|
  {
    hide *;
    if lines == [] || !Blank(lines[0]) then 0 else 1 + Head(lines[1..])
  }

  lemma {:induction false} HeadIsFirst(lines: seq<Bytes>)
    ensures forall i :: 0 <= i < Head(lines) ==> Blank(lines[i])
    ensures Head(lines) < |lines| ==> !Blank(lines[Head(lines)])
    decreases |lines|
  {
    hide Blank;
    if lines != [] && Blank(lines[0]) {
      HeadIsFirst(lines[1..]);
      assert forall i :: 0 < i < |lines| ==> lines[i] == lines[1..][i - 1];
    }
  }

  // ---------- trimming across a line break ----------

  lemma BreakIsSpace()
    ensures IsSpaceRune([BREAK])
  {}

  lemma NoBreakInside(s: Bytes, k: nat)
    requires k <= |s|
    ensures BREAK in First(s, k) && IsSpaceRune(First(s, k)) ==> k == 1
  {}

  lemma SpaceBeforeBreak(a: Bytes, b: Bytes)
    requires a != []
    ensures SpaceAtStart(a + [BREAK] + b) == SpaceAtStart(a)
  {
    hide *;
    var s := a + [BREAK] + b;
    forall k: nat | 0 < k <= 3 && k <= |s|
      ensures if k <= |a| then First(s, k) == First(a, k) else !IsSpaceRune(First(s, k))
    {
      FirstOfFront(a, BREAK, b, k);
      NoBreakInside(s, k);
    }
    SpaceStartByCases(s, a);
  }

  /** A blank line goes with its break; any other keeps the rest of the text behind it. */
  lemma {:induction false} TrimLeftAtBreak(a: Bytes, b: Bytes)
    ensures TrimLeft(a + [BREAK] + b) ==
      if TrimLeft(a) == [] then TrimLeft(b) else TrimLeft(a) + [BREAK] + b
    decreases |a|
  {
    hide *;
    if a == [] {
      BreakIsSpace();
      TrimLeftStep([BREAK], b);
      TrimOfEmpty();
      assert a + [BREAK] + b == [BREAK] + b;
    } else {
      SpaceBeforeBreak(a, b);
      if SpaceAtStart(a) == 0 {
        TrimLeftNone(a);
        TrimLeftNone(a + [BREAK] + b);
      } else {
        var w, rest := TakeSpaceStart(a);
        TrimLeftStep(w, rest);
        TrimLeftStep(w, rest + [BREAK] + b);
        assert a + [BREAK] + b == w + (rest + [BREAK] + b);
        TrimLeftAtBreak(rest, b);
      }
    }
  }

  /** What does not start with white space is not trimmed away from behind. */
  lemma {:induction false} TrimRightKeepsSome(s: Bytes)
    requires SpaceAtStart(s) == 0 && s != []
    ensures TrimRight(s) != [] && TrimRight(s)[0] == s[0]
    decreases |s|
  {
    hide *;
    if SpaceAtEnd(s) == 0 {
      TrimRightNone(s);
    } else {
      var front, w := TakeSpaceEnd(s);
      TrimRightStep(front, w);
      SpaceStartIs(w, []);
      assert w + [] == [] + w == w;
      if front != [] {
        PrefixNotSpace(s, |front|);
        assert s[..|front|] == front;
        TrimRightKeepsSome(front);
      }
    }
  }

  lemma BlankIs(line: Bytes)
    ensures Blank(line) <==> TrimLeft(line) == []
    ensures !Blank(line) ==> TrimLeft(line)[0] == TrimSpace(line)[0]
  {
    hide *;
    TrimOfEmpty();
    TrimIs(line);
    if TrimLeft(line) != [] {
      TrimRightKeepsSome(TrimLeft(line));
    }
  }

  lemma TrimIs(line: Bytes)
    ensures TrimSpace(line) == TrimRight(TrimLeft(line))
    ensures Blank(line) <==> TrimSpace(line) == []
    ensures SpaceAtStart(TrimLeft(line)) == 0
  {}

  /** Trimming a text in front drops its blank lines and trims the one that is not. */
  lemma {:induction false} TrimLeftOfLines(lines: seq<Bytes>)
    requires Head(lines) < |lines|
    ensures var h := Head(lines);
      TrimLeft(Join(lines, [BREAK])) == Join([TrimLeft(lines[h])] + lines[h + 1..], [BREAK])
    decreases |lines|
  {
    hide TrimLeft, TrimRight, TrimSpace, Join;
    var h := Head(lines);
    JoinStep(lines, [BREAK]);
    BlankIs(lines[0]);
    TrimLeftAtBreak(lines[0], if |lines| == 1 then [] else Join(lines[1..], [BREAK]));
    if h == 0 {
      var trimmed := [TrimLeft(lines[0])] + lines[1..];
      JoinStep(trimmed, [BREAK]);
      assert trimmed[1..] == lines[1..];
    } else {
      TrimLeftOfLines(lines[1..]);
      assert lines[1..][h..] == lines[h + 1..];
    }
  }

  // ---------- sniffing by lines ----------

  predicate KeyLed(line: Bytes) {
    KEY <= line
  }

  /** The key stands at i, and a line starts there. */
  ghost predicate KeyAt(s: Bytes, i: int) {
    0 <= i <= |s| - 8 && s[i..i + 8] == KEY && (i == 0 || s[i - 1] == BREAK)
  }

  lemma KeyStartsLineIs(s: Bytes)
    ensures KeyStartsLine(s) <==> exists i :: KeyAt(s, i)
  {
    if i :| At(s, KEY, i) && (i == 0 || s[i - 1] == '\n') {
      assert KeyAt(s, i);
    }
    if i :| KeyAt(s, i) {
      assert At(s, KEY, i);
    }
  }

  lemma SolidKey()
    ensures Solid(':') && Solid('p')
  {}

  lemma KeyParts(s: Bytes, i: int)
    requires KeyAt(s, i)
    ensures i >= 0 && |s| >= i + 8 && s == s[..i + 7] + [':'] + s[i + 8..]
  {
    assert s[i..i + 8][7] == s[i + 7];
  }

  lemma KeyStays(s: Bytes, i: int)
    requires KeyAt(s, i)
    ensures |TrimRight(s)| >= i + 8
  {
    hide *;
    SolidKey();
    KeyParts(s, i);
    TrimRightAtSolid(s[..i + 7], ':', s[i + 8..]);
  }

  lemma KeyInPrefix(s: Bytes, t: Bytes, i: int)
    requires t <= s && i + 8 <= |t|
    ensures KeyAt(s, i) <==> KeyAt(t, i)
  {
    if i >= 0 {
      assert t[i..i + 8] == s[i..i + 8];
    }
  }

  lemma KeyFits(s: Bytes, i: int)
    requires KeyAt(s, i)
    ensures 0 <= i <= |s| - 8
  {}

  /** Trimming behind removes no key. */
  lemma KeySurvives(s: Bytes)
    ensures KeyStartsLine(TrimRight(s)) <==> KeyStartsLine(s)
  {
    hide *;
    var t := TrimRight(s);
    KeyStartsLineIs(s);
    KeyStartsLineIs(t);
    if i :| KeyAt(s, i) {
      KeyStays(s, i);
      KeyInPrefix(s, t, i);
    }
    if i :| KeyAt(t, i) {
      KeyFits(t, i);
      KeyInPrefix(s, t, i);
    }
  }

  lemma KeyLedAt(l: Bytes, rest: Bytes)
    requires BREAK !in l
    ensures KeyAt(l + [BREAK] + rest, 0) <==> KeyLed(l)
  {
    var s := l + [BREAK] + rest;
    if |l| >= 8 {
      assert s[0..8] == l[..8];
    } else if |s| >= 8 {
      assert s[0..8][|l|] == BREAK;
    }
  }

  lemma KeyBehind(l: Bytes, rest: Bytes, i: nat)
    requires BREAK !in l
    ensures KeyAt(l + [BREAK] + rest, i + |l| + 1) <==> KeyAt(rest, i)
  {
    var s := l + [BREAK] + rest;
    assert s[|l| + 1..] == rest;
    if i + 8 <= |rest| {
      assert s[i + |l| + 1..i + |l| + 9] == rest[i..i + 8];
    }
    if i > 0 && i <= |rest| {
      assert s[i + |l|] == rest[i - 1];
    }
  }

  lemma KeyNotInside(l: Bytes, rest: Bytes, i: int)
    requires BREAK !in l && KeyAt(l + [BREAK] + rest, i)
    ensures i == 0 || i > |l|
  {}

  lemma KeyAcross(l: Bytes, rest: Bytes)
    requires BREAK !in l
    ensures KeyStartsLine(l + [BREAK] + rest) <==> KeyLed(l) || KeyStartsLine(rest)
  {
    hide *;
    var s := l + [BREAK] + rest;
    KeyStartsLineIs(s);
    KeyStartsLineIs(rest);
    KeyLedAt(l, rest);
    if i :| KeyAt(s, i) {
      KeyNotInside(l, rest, i);
      if i > 0 {
        KeyBehind(l, rest, i - |l| - 1);
      }
    }
    if i :| KeyAt(rest, i) {
      KeyFits(rest, i);
      KeyBehind(l, rest, i);
    }
  }

  lemma KeyInLine(l: Bytes)
    requires BREAK !in l
    ensures KeyStartsLine(l) <==> KeyLed(l)
  {
    hide KeyStartsLine;
    KeyStartsLineIs(l);
    if KeyLed(l) {
      assert KeyAt(l, 0) by {
        assert l[0..8] == l[..8];
      }
    }
  }

  /** A key starts a line exactly when one of the lines starts with it. */
  lemma {:induction false} KeyStartsSomeLine(s: Bytes)
    ensures KeyStartsLine(s) <==> exists l :: l in Split(s, BREAK) && KeyLed(l)
    decreases |s|
  {
    hide Split, Cut, KeyStartsLine, KeyLed;
    CutParts(s, BREAK);
    var cut := Cut(s, [BREAK]);
    SplitFirst(cut.before, BREAK, cut.after);
    KeyInLine(cut.before);
    if cut.found {
      KeyAcross(cut.before, cut.after);
      KeyStartsSomeLine(cut.after);
      assert forall l :: l in [cut.before] + Split(cut.after, BREAK) <==> l == cut.before || l in Split(cut.after, BREAK);
    }
  }

  // ---------- a text read through its lines ----------

  lemma KeyLedTrims(line: Bytes)
    ensures KeyLed(TrimLeft(line)) <==> KeyLed(TrimSpace(line))
  {
    hide *;
    var s := TrimLeft(line);
    TrimIs(line);
    KeyLedIs(s);
    KeyLedIs(TrimRight(s));
    if KeyLed(s) {
      KeyStays(s, 0);
      KeyInPrefix(s, TrimRight(s), 0);
    }
    if KeyLed(TrimRight(s)) {
      KeyFits(TrimRight(s), 0);
      KeyInPrefix(s, TrimRight(s), 0);
    }
  }

  lemma KeyLedIs(s: Bytes)
    ensures KeyLed(s) <==> KeyAt(s, 0)
  {
    if |s| >= 8 {
      assert s[0..8] == s[..8];
    }
  }

  lemma KeyIsNotIndented(line: Bytes)
    requires KeyLed(line)
    ensures TrimLeft(line) == line
  {
    hide *;
    SolidKey();
    KeyFront(line);
    SpaceBeforeSolid([], 'p', line[1..]);
    assert [] + ['p'] + line[1..] == line;
    TrimOfEmpty();
    NoSpaceInNothing();
    TrimLeftNone(line);
  }

  lemma KeyFront(line: Bytes)
    requires KeyLed(line)
    ensures line != [] && line == ['p'] + line[1..]
  {}

  lemma NoSpaceInNothing()
    ensures SpaceAtStart([]) == 0
  {}

  ghost predicate LaterKey(lines: seq<Bytes>, h: nat) {
    exists j :: h < j < |lines| && KeyLed(lines[j])
  }

  lemma KeyAmongRest(first: Bytes, lines: seq<Bytes>, h: nat)
    requires h < |lines|
    ensures (exists l :: l in [first] + lines[h + 1..] && KeyLed(l)) <==> KeyLed(first) || LaterKey(lines, h)
  {
    hide KeyLed;
    var cut := [first] + lines[h + 1..];
    assert cut[0] == first;
    if l :| l in cut && KeyLed(l) {
      var j :| 0 <= j < |cut| && cut[j] == l;
      assert j > 0 ==> lines[h + j] == l;
    }
    if j :| h < j < |lines| && KeyLed(lines[j]) {
      assert cut[j - h] == lines[j];
    }
  }

  /** The text in front of whose first line everything blank is trimmed away. */
  lemma TrimmedLines(lines: seq<Bytes>)
    requires Head(lines) < |lines| && forall l :: l in lines ==> BREAK !in l
    ensures var h := Head(lines);
      var text := Join(lines, [BREAK]);
      && TrimSpace(text) != [] && TrimSpace(lines[h]) != []
      && TrimSpace(text)[0] == TrimSpace(lines[h])[0]
      && (LooksLikeClash(TrimSpace(text)) <==> KeyLed(TrimSpace(lines[h])) || LaterKey(lines, h))
  {
    hide *;
    var h := Head(lines);
    var text := Join(lines, [BREAK]);
    var cut := [TrimLeft(lines[h])] + lines[h + 1..];
    var left := Join(cut, [BREAK]);
    HeadIsFirst(lines);
    TrimLeftOfLines(lines);
    TrimIs(text);
    TrimIs(lines[h]);
    BlankIs(lines[h]);
    LeftIsSome(cut);
    TrimRightKeepsSome(left);
    ClashIsKeyAtLineStart(TrimSpace(text));
    KeySurvives(left);
    KeyStartsSomeLine(left);
    forall l | l in cut ensures BREAK !in l {
      CutHasNoBreak(lines, h, l);
    }
    SplitOfJoin(cut, BREAK);
    KeyLedTrims(lines[h]);
    KeyAmongRest(TrimLeft(lines[h]), lines, h);
  }

  /** How a text is sniffed by its lines: the first that is not blank gives the
      format away, or a later one that starts with the key. */
  lemma SniffByLines(lines: seq<Bytes>)
    requires Head(lines) < |lines| && forall l :: l in lines ==> BREAK !in l
    ensures var h := Head(lines);
      var first := TrimSpace(lines[h]);
      && first != []
      && (Sniff(Join(lines, [BREAK])) == LinkList <==>
            first[0] != '[' && first[0] != '{' && !KeyLed(first) && !LaterKey(lines, h))
  {
    hide *;
    TrimmedLines(lines);
    SniffIs(Join(lines, [BREAK]));
  }

  lemma SniffIs(text: Bytes)
    requires TrimSpace(text) != []
    ensures Sniff(text) == LinkList <==>
      TrimSpace(text)[0] != '[' && TrimSpace(text)[0] != '{' && !LooksLikeClash(TrimSpace(text))
  {
    hide TrimSpace, LooksLikeClash;
  }

  lemma LeftIsSome(cut: seq<Bytes>)
    requires cut != [] && cut[0] != []
    ensures Join(cut, [BREAK]) != [] && Join(cut, [BREAK])[0] == cut[0][0]
    ensures SpaceAtStart(cut[0]) == 0 ==> SpaceAtStart(Join(cut, [BREAK])) == 0
  {
    hide *;
    JoinStep(cut, [BREAK]);
    if |cut| > 1 {
      SpaceBeforeBreak(cut[0], Join(cut[1..], [BREAK]));
    }
  }

  lemma CutHasNoBreak(lines: seq<Bytes>, h: nat, l: Bytes)
    requires h < |lines| && forall l :: l in lines ==> BREAK !in l
    requires l in [TrimLeft(lines[h])] + lines[h + 1..]
    ensures BREAK !in l
  {
    hide *;
    if BREAK in TrimLeft(lines[h]) {
      TrimLeftSubset(lines[h], BREAK);
    }
  }

  // ---------- blank texts ----------

  ghost predicate SomeShows(lines: seq<Bytes>) {
    exists i :: 0 <= i < |lines| && !Blank(lines[i])
  }

  lemma SomeShowsStep(first: Bytes, rest: seq<Bytes>)
    ensures SomeShows([first] + rest) <==> !Blank(first) || SomeShows(rest)
  {
    hide Blank;
    var lines := [first] + rest;
    assert lines[0] == first;
    if i :| 0 <= i < |rest| && !Blank(rest[i]) {
      assert lines[i + 1] == rest[i];
    }
    if i :| 0 <= i < |lines| && !Blank(lines[i]) {
      assert i > 0 ==> rest[i - 1] == lines[i];
    }
  }

  /** A text that is not blank has a line that is not. */
  lemma {:induction false} SomeLineShows(text: Bytes)
    requires !Blank(text)
    ensures SomeShows(Split(text, BREAK))
    decreases |text|
  {
    hide *;
    CutParts(text, BREAK);
    var cut := Cut(text, [BREAK]);
    SplitFirst(cut.before, BREAK, cut.after);
    SomeShowsStep(cut.before, if cut.found then Split(cut.after, BREAK) else []);
    assert [cut.before] + [] == [cut.before];
    if cut.found && Blank(cut.before) {
      TrimLeftAtBreak(cut.before, cut.after);
      BlankIs(cut.before);
      BlankIs(text);
      BlankIs(cut.after);
      SomeLineShows(cut.after);
    }
  }
}
