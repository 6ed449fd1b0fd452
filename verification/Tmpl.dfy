/** Placeholders: {NAME} or {NAME|modifier|...}, found by one regexp,
    \{([A-Z][A-Z0-9_]*)((?:\|[^{}|]*)*)\}, and replaced in a single pass. */
module Tmpl {
  import opened Strings
  import opened Numbers
  import Codec

  datatype Unknown = Keep | Blank

  /** Some(value) for a known name. */
  type Lookup = Bytes -> Option<Bytes>

  /** strings.ToUpper and strings.ToLower: Unicode tables that this model leaves open. */
  datatype Casing = Casing(upper: Bytes -> Bytes, lower: Bytes -> Bytes)

  // ---------- the regexp, as a language ----------

  predicate IsNameStart(c: byte) {
    'A' <= c <= 'Z'
  }

  predicate IsNameByte(c: byte) {
    'A' <= c <= 'Z' || '0' <= c <= '9' || c == '_'
  }

  /** [A-Z][A-Z0-9_]* */
  predicate IsName(s: Bytes) {
    s != [] && IsNameStart(s[0]) && forall c :: c in s ==> IsNameByte(c)
  }

  /** (?:\|[^{}|]*)* */
  predicate IsSpec(s: Bytes) {
    s == [] || (s[0] == '|' && forall c :: c in s ==> c != '{' && c != '}')
  }

  /** One match: where it starts and ends, and where its name ends. */
  datatype Match = Match(start: nat, nameEnd: nat, end: nat)

  /** The regexp matches s from m.start to m.end, with the name up to m.nameEnd. */
  predicate Matches(s: Bytes, m: Match) {
    && m.start + 1 < m.nameEnd < m.end <= |s|
    && s[m.start] == '{'
    && IsName(s[m.start + 1..m.nameEnd])
    && IsSpec(s[m.nameEnd..m.end - 1])
    && s[m.end - 1] == '}'
  }

  function Name(s: Bytes, m: Match): Bytes
    requires Matches(s, m)
  {
    s[m.start + 1..m.nameEnd]
  }

  function Spec(s: Bytes, m: Match): Bytes
    requires Matches(s, m)
  {
    s[m.nameEnd..m.end - 1]
  }

  /** The end of the longest run of name bytes from i on. */
  function NameEnd(s: Bytes, i: nat): (j: nat)
    requires i <= |s|
    ensures i <= j <= |s|
    ensures forall k :: i <= k < j ==> IsNameByte(s[k])
    ensures j < |s| ==> !IsNameByte(s[j])
    decreases |s| - i
  {
    if i < |s| && IsNameByte(s[i]) then NameEnd(s, i + 1) else i
  }

  /** The first brace from i on, |s| if there is none. */
  function BraceAt(s: Bytes, i: nat): (j: nat)
    requires i <= |s|
    ensures i <= j <= |s|
    ensures forall k :: i <= k < j ==> s[k] != '{' && s[k] != '}'
    ensures j < |s| ==> s[j] == '{' || s[j] == '}'
    decreases |s| - i
  {
    if i == |s| || s[i] == '{' || s[i] == '}' then i else BraceAt(s, i + 1)
  }

  /** The match that starts at i, if the regexp has one there. */
  function MatchAt(s: Bytes, i: nat): (m: Option<Match>)
    requires i < |s|
  {
    if s[i] != '{' || i + 1 == |s| || !IsNameStart(s[i + 1]) then None
    else
      var nameEnd := NameEnd(s, i + 1);
      if nameEnd == |s| then None
      else if s[nameEnd] == '}' then Some(Match(i, nameEnd, nameEnd + 1))
      else if s[nameEnd] != '|' then None
      else
        var brace := BraceAt(s, nameEnd);
        if brace < |s| && s[brace] == '}' then Some(Match(i, nameEnd, brace + 1)) else None
  }

  lemma MatchAtMatches(s: Bytes, i: nat)
    requires i < |s| && MatchAt(s, i).Some?
    ensures Matches(s, MatchAt(s, i).value) && MatchAt(s, i).value.start == i
  {
    var m := MatchAt(s, i).value;
    var name := s[i + 1..m.nameEnd];
    assert forall c :: c in name ==> IsNameByte(c);
    assert name[0] == s[i + 1];
    var spec := s[m.nameEnd..m.end - 1];
    if spec != [] {
      assert spec[0] == s[m.nameEnd];
    }
  }

  lemma NameEndIs(s: Bytes, m: Match)
    requires Matches(s, m)
    ensures NameEnd(s, m.start + 1) == m.nameEnd
    ensures IsNameStart(s[m.start + 1])
  {
    var j := NameEnd(s, m.start + 1);
    var name := s[m.start + 1..m.nameEnd];
    assert name[0] == s[m.start + 1];
    forall k | m.start + 1 <= k < m.nameEnd ensures IsNameByte(s[k]) {
      assert name[k - m.start - 1] == s[k];
    }
    var spec := s[m.nameEnd..m.end - 1];
    assert spec != [] ==> spec[0] == s[m.nameEnd];
    assert !IsNameByte(s[m.nameEnd]);
  }

  lemma BraceIs(s: Bytes, m: Match)
    requires Matches(s, m)
    ensures BraceAt(s, m.nameEnd) == m.end - 1
  {
    var spec := s[m.nameEnd..m.end - 1];
    forall k | m.nameEnd <= k < m.end - 1 ensures s[k] != '{' && s[k] != '}' {
      assert spec[k - m.nameEnd] == s[k] && s[k] in spec;
    }
  }

  /** A placeholder is unambiguous: whatever the regexp matches from a position is what MatchAt finds there. */
  lemma Unambiguous(s: Bytes, m: Match)
    requires Matches(s, m)
    ensures MatchAt(s, m.start) == Some(m)
  {
    NameEndIs(s, m);
    BraceIs(s, m);
    var spec := s[m.nameEnd..m.end - 1];
    assert spec != [] ==> spec[0] == s[m.nameEnd];
  }

  /** Two placeholders of a text are the same or do not overlap. */
  lemma Disjoint(s: Bytes, m: Match, n: Match)
    requires Matches(s, m) && Matches(s, n) && m.start <= n.start
    ensures m == n || m.end <= n.start
  {
    if m.start == n.start {
      Unambiguous(s, m);
      Unambiguous(s, n);
    } else if n.start < m.end {
      InsideIsNoBrace(s, m, n.start);
    }
  }

  lemma InsideIsNoBrace(s: Bytes, m: Match, k: nat)
    requires Matches(s, m) && m.start < k < m.end
    ensures s[k] != '{'
  {
    if k < m.nameEnd {
      var name := s[m.start + 1..m.nameEnd];
      assert name[k - m.start - 1] == s[k] && s[k] in name;
    } else if k < m.end - 1 {
      var spec := s[m.nameEnd..m.end - 1];
      assert spec[k - m.nameEnd] == s[k] && s[k] in spec;
    }
  }

  // ---------- all matches ----------

  /** FindAllStringSubmatchIndex from i on: leftmost first, each after the one before. */
  function FindAll(s: Bytes, i: nat): (ms: seq<Match>)
    requires i <= |s|
    ensures forall m :: m in ms ==> Matches(s, m) && i <= m.start
    decreases |s| - i
  {
    if i == |s| then []
    else
      var m := MatchAt(s, i);
      if m.None? then FindAll(s, i + 1)
      else
        assert Matches(s, m.value) && m.value.start == i by { MatchAtMatches(s, i); }
        [m.value] + FindAll(s, m.value.end)
  }

  /** The search misses none: a placeholder anywhere in the text is among the matches. */
  lemma {:induction false} FindAllComplete(s: Bytes, i: nat, m: Match)
    requires Matches(s, m) && i <= m.start
    ensures m in FindAll(s, i)
    decreases |s| - i
  {
    hide Matches, MatchAt;
    assert m.start < |s| by { MatchIsInside(s, m); }
    var here := MatchAt(s, i);
    if here.None? {
      if m.start == i {
        Unambiguous(s, m);
      }
      FindAllComplete(s, i + 1, m);
    } else {
      MatchAtMatches(s, i);
      Disjoint(s, here.value, m);
      MatchIsInside(s, here.value);
      if here.value != m {
        FindAllComplete(s, here.value.end, m);
      }
    }
  }

  lemma MatchIsInside(s: Bytes, m: Match)
    requires Matches(s, m)
    ensures m.start < m.end <= |s|
  {}

  predicate HasPlaceholder(s: Bytes) {
    FindAll(s, 0) != []
  }

  /** The names in a text, without duplicates, in order of first appearance. */
  function AddNames(names: seq<Bytes>, s: Bytes, ms: seq<Match>): seq<Bytes>
    requires forall m :: m in ms ==> Matches(s, m)
    decreases |ms|
  {
    if ms == [] then names
    else
      var name := Name(s, ms[0]);
      AddNames(if name in names then names else names + [name], s, ms[1..])
  }

  function NamesOf(s: Bytes): seq<Bytes> {
    AddNames([], s, FindAll(s, 0))
  }

  lemma {:induction false} AddNamesHolds(names: seq<Bytes>, s: Bytes, ms: seq<Match>)
    requires forall m :: m in ms ==> Matches(s, m)
    requires forall i, j :: 0 <= i < j < |names| ==> names[i] != names[j]
    ensures var all := AddNames(names, s, ms);
      && (forall n :: n in all <==> n in names || exists m :: m in ms && Name(s, m) == n)
      && (forall i, j :: 0 <= i < j < |all| ==> all[i] != all[j])
    decreases |ms|
  {
    hide Matches, Name;
    if ms != [] {
      var name := Name(s, ms[0]);
      assert ms == [ms[0]] + ms[1..];
      AddNamesHolds(if name in names then names else names + [name], s, ms[1..]);
    }
  }

  /** Names lists exactly the names of the placeholders the text holds, each once. */
  lemma NamesAreThePlaceholders(s: Bytes, name: Bytes)
    ensures name in NamesOf(s) <==> exists m :: Matches(s, m) && Name(s, m) == name
    ensures forall i, j :: 0 <= i < j < |NamesOf(s)| ==> NamesOf(s)[i] != NamesOf(s)[j]
  {
    hide Matches, Name, FindAll, AddNames;
    AddNamesHolds([], s, FindAll(s, 0));
    if m :| Matches(s, m) && Name(s, m) == name {
      FindAllComplete(s, 0, m);
    }
  }

  lemma {:induction false} NoBraceNoMatch(s: Bytes, i: nat)
    requires '{' !in s && i <= |s|
    ensures FindAll(s, i) == []
    decreases |s| - i
  {
    if i < |s| {
      assert s[i] in s;
      NoBraceNoMatch(s, i + 1);
    }
  }

  /** A text contains a placeholder exactly when it names one. */
  lemma ContainsIffNames(s: Bytes)
    ensures HasPlaceholder(s) <==> NamesOf(s) != []
    ensures HasPlaceholder(s) <==> exists m :: Matches(s, m)
  {
    hide Matches, Name, FindAll, AddNames;
    var ms := FindAll(s, 0);
    AddNamesHolds([], s, ms);
    if ms != [] {
      assert ms[0] in ms;
      var name := Name(s, ms[0]);
      assert exists m :: m in ms && Name(s, m) == name;
      assert name in NamesOf(s);
    } else {
      AddNamesOfNone(s);
    }
    if m :| Matches(s, m) {
      FindAllComplete(s, 0, m);
    }
  }

  lemma AddNamesOfNone(s: Bytes)
    ensures AddNames([], s, []) == []
  {}

  method ContainsPlaceholder(s: Bytes) returns (found: bool)
    ensures found <==> exists m :: Matches(s, m)
  {
    hide Matches, FindAll;
    found := '{' in s && FindAll(s, 0) != [];
    ContainsIffNames(s);
    if '{' !in s {
      NoBraceNoMatch(s, 0);
    }
  }

  method Names(s: Bytes) returns (names: seq<Bytes>)
    ensures names == NamesOf(s)
  {
    hide Matches, Name, FindAll;
    names := [];
    if '{' !in s {
      NoBraceNoMatch(s, 0);
      AddNamesOfNone(s);
      return;
    }
    var ms := FindAll(s, 0);
    for i := 0 to |ms|
      invariant AddNames(names, s, ms[i..]) == NamesOf(s)
    {
      assert ms[i..][0] == ms[i] && ms[i..][1..] == ms[i + 1..];
      var name := Name(s, ms[i]);
      if name !in names {
        names := names + [name];
      }
    }
  }

  // ---------- modifiers ----------

  datatype Modifier = Modifier(name: Bytes, arg: Bytes)

  function ParseModifier(part: Bytes): Modifier {
    var cut := Cut(part, ":");
    Modifier(TrimSpace(cut.before), cut.after)
  }

  function ParseEach(parts: seq<Bytes>): seq<Modifier> {
    if parts == [] then [] else [ParseModifier(parts[0])] + ParseEach(parts[1..])
  }

  function ParseModifiers(spec: Bytes): seq<Modifier> {
    if spec == [] then []
    else ParseEach(Split(if spec[0] == '|' then spec[1..] else spec, '|'))
  }

  function DefaultOf(mods: seq<Modifier>): Option<Bytes> {
    if mods == [] then None
    else if LowersTo(mods[0].name, "default") then Some(mods[0].arg)
    else DefaultOf(mods[1..])
  }

  function ApplyModifier(casing: Casing, value: Bytes, m: Modifier): Bytes {
    if LowersTo(m.name, "upper") then casing.upper(value)
    else if LowersTo(m.name, "lower") then casing.lower(value)
    else if LowersTo(m.name, "trim") then TrimSpace(value)
    else if LowersTo(m.name, "truncate") then
      var n := ParseInt64(TrimSpace(m.arg));
      if n.Some? then Truncate(value, n.value) else value
    else value
  }

  /** Modifiers apply left to right. */
  function ApplyModifiers(casing: Casing, value: Bytes, mods: seq<Modifier>): Bytes
    decreases |mods|
  {
    hide *;
    if mods == [] then value else ApplyModifiers(casing, ApplyModifier(casing, value, mods[0]), mods[1..])
  }

  const ELLIPSIS: Bytes := ['\U{E2}', '\U{80}', '\U{A6}']
  const REPLACEMENT: Bytes := ['\U{EF}', '\U{BF}', '\U{BD}']

  /** []rune(s), each rune as the bytes string() writes for it: an invalid byte becomes U+FFFD. */
  function Runes(s: Bytes): seq<Bytes> {
    if s == [] then []
    else
      var n := Codec.RuneSize(s);
      if n == 0 then [REPLACEMENT] + Runes(s[1..]) else [s[..n]] + Runes(s[n..])
  }

  function Flatten(runes: seq<Bytes>): Bytes {
    if runes == [] then [] else runes[0] + Flatten(runes[1..])
  }

  function Truncate(s: Bytes, n: int): Bytes {
    var runes := Runes(s);
    if n <= 0 || |runes| <= n then s
    else if n == 1 then ELLIPSIS
    else Flatten(runes[..n - 1]) + ELLIPSIS
  }

  predicate IsRune(r: Bytes) {
    r != [] && Codec.RuneSize(r) == |r|
  }

  lemma RuneInFront(r: Bytes, rest: Bytes)
    requires IsRune(r)
    ensures Runes(r + rest) == [r] + Runes(rest)
  {
    var s := r + rest;
    assert forall i :: 0 <= i < |r| ==> s[i] == r[i];
    assert Codec.RuneSize(s) == |r|;
    assert s[..|r|] == r && s[|r|..] == rest;
  }

  lemma RuneIsPrefix(s: Bytes)
    requires Codec.RuneSize(s) > 0
    ensures IsRune(s[..Codec.RuneSize(s)])
  {}

  lemma {:induction false} RunesAreRunes(s: Bytes)
    ensures forall r :: r in Runes(s) ==> IsRune(r)
    decreases |s|
  {
    hide Codec.RuneSize;
    if s != [] {
      var n := Codec.RuneSize(s);
      if n == 0 {
        ReplacementIsRune();
        RunesAreRunes(s[1..]);
      } else {
        RuneIsPrefix(s);
        RunesAreRunes(s[n..]);
      }
    }
  }

  lemma ReplacementIsRune()
    ensures IsRune(REPLACEMENT) && IsRune(ELLIPSIS)
  {}

  lemma {:induction false} RunesOfFlatten(runes: seq<Bytes>, rest: Bytes)
    requires forall r :: r in runes ==> IsRune(r)
    ensures Runes(Flatten(runes) + rest) == runes + Runes(rest)
  {
    hide Codec.RuneSize, IsRune, Runes;
    if runes == [] {
      assert Flatten(runes) + rest == rest;
    } else {
      RunesOfFlatten(runes[1..], rest);
      RuneInFront(runes[0], Flatten(runes[1..]) + rest);
      assert Flatten(runes) + rest == runes[0] + (Flatten(runes[1..]) + rest);
      assert runes == [runes[0]] + runes[1..];
    }
  }

  lemma RunesOfEllipsis()
    ensures Runes(ELLIPSIS) == [ELLIPSIS]
  {
    hide Codec.RuneSize;
    ReplacementIsRune();
    RuneInFront(ELLIPSIS, []);
    assert ELLIPSIS + [] == ELLIPSIS;
  }

  /** A truncated text has exactly n runes: those in front, and the ellipsis. */
  lemma TruncateFits(s: Bytes, n: int)
    requires n > 0
    ensures Runes(Truncate(s, n)) == if |Runes(s)| <= n then Runes(s) else Runes(s)[..n - 1] + [ELLIPSIS]
  {
    hide Codec.RuneSize, Runes, IsRune;
    RunesOfEllipsis();
    if |Runes(s)| > n {
      RunesAreRunes(s);
      RunesOfFlatten(Runes(s)[..n - 1], ELLIPSIS);
    }
  }

  // ---------- rendering ----------

  /** How a rendering resolves names and what it does with unknown ones. */
  datatype Renderer = Renderer(lookup: Lookup, unknown: Unknown, casing: Casing)

  function RenderOne(r: Renderer, match_: Bytes, name: Bytes, spec: Bytes): Bytes {
    var mods := ParseModifiers(spec);
    var default := DefaultOf(mods);
    match r.lookup(name)
    case None =>
      if default.Some? then ApplyModifiers(r.casing, default.value, mods)
      else if r.unknown == Blank then []
      else match_
    case Some(value) =>
      ApplyModifiers(r.casing, if value == [] && default.Some? then default.value else value, mods)
  }

  function Replacement(r: Renderer, s: Bytes, m: Match): Bytes
    requires Matches(s, m)
  {
    RenderOne(r, s[m.start..m.end], Name(s, m), Spec(s, m))
  }

  /** The text from `last` on, with the given matches replaced. */
  function Replaced(r: Renderer, s: Bytes, last: nat, ms: seq<Match>): Bytes
    requires last <= |s|
    requires forall m :: m in ms ==> Matches(s, m) && last <= m.start
    requires forall i, j :: 0 <= i < j < |ms| ==> ms[i].end <= ms[j].start
    decreases |ms|
  {
    if ms == [] then s[last..]
    else
      assert ms[0] in ms && Matches(s, ms[0]);
      s[last..ms[0].start] + Replacement(r, s, ms[0]) + Replaced(r, s, ms[0].end, ms[1..])
  }

  lemma {:induction false} FindAllOrdered(s: Bytes, i: nat)
    requires i <= |s|
    ensures forall j, k :: 0 <= j < k < |FindAll(s, i)| ==> FindAll(s, i)[j].end <= FindAll(s, i)[k].start
    decreases |s| - i
  {
    hide Matches, MatchAt;
    if i < |s| {
      var m := MatchAt(s, i);
      if m.None? {
        FindAllOrdered(s, i + 1);
      } else {
        MatchAtMatches(s, i);
        MatchIsInside(s, m.value);
        FindAllOrdered(s, m.value.end);
        var rest := FindAll(s, m.value.end);
        forall k | 0 <= k < |rest| ensures m.value.end <= rest[k].start {
          assert rest[k] in rest;
        }
      }
    }
  }

  function RenderedFrom(r: Renderer, s: Bytes, i: nat): Bytes
    requires i <= |s|
  {
    FindAllOrdered(s, i);
    Replaced(r, s, i, FindAll(s, i))
  }

  function Rendered(r: Renderer, s: Bytes): Bytes {
    RenderedFrom(r, s, 0)
  }

  /** The matches lie behind last, in order. */
  ghost predicate Ahead(s: Bytes, last: nat, ms: seq<Match>) {
    && last <= |s|
    && (forall m :: m in ms ==> Matches(s, m) && last <= m.start)
    && (forall i, j :: 0 <= i < j < |ms| ==> ms[i].end <= ms[j].start)
  }

  ghost function Rest(r: Renderer, s: Bytes, last: nat, ms: seq<Match>): Bytes
    requires Ahead(s, last, ms)
  {
    Replaced(r, s, last, ms)
  }

  lemma RenderedIs(r: Renderer, s: Bytes)
    ensures Ahead(s, 0, FindAll(s, 0)) && Rendered(r, s) == Rest(r, s, 0, FindAll(s, 0))
    ensures FindAll(s, 0) == [] ==> Rendered(r, s) == s
  {
    hide Matches, FindAll;
    FindAllOrdered(s, 0);
    assert s[0..] == s;
  }

  lemma RestOfNone(r: Renderer, s: Bytes, last: nat)
    requires Ahead(s, last, [])
    ensures last <= |s| && Rest(r, s, last, []) == s[last..]
  {}

  lemma RestStep(r: Renderer, s: Bytes, last: nat, ms: seq<Match>)
    requires ms != [] && Ahead(s, last, ms)
    ensures var m := ms[0];
      && Matches(s, m) && last <= m.start < m.nameEnd < m.end <= |s| && Ahead(s, m.end, ms[1..])
      && Rest(r, s, last, ms) ==
           s[last..m.start] + RenderOne(r, s[m.start..m.end], Name(s, m), Spec(s, m)) + Rest(r, s, m.end, ms[1..])
  {
    hide IsName, IsSpec, RenderOne, Name, Spec;
    assert ms[0] in ms;
    MatchIsInside(s, ms[0]);
    forall m | m in ms[1..] ensures ms[0].end <= m.start && Matches(s, m) {
      var k :| 0 <= k < |ms[1..]| && ms[1..][k] == m;
      assert ms[k + 1] == m && m in ms;
    }
  }

  method Render(r: Renderer, s: Bytes) returns (out: Bytes)
    ensures out == Rendered(r, s)
  {
    hide *;
    RenderedIs(r, s);
    if '{' !in s {
      NoBraceNoMatch(s, 0);
      return s;
    }
    var ms := FindAll(s, 0);
    if ms == [] {
      return s;
    }
    out := [];
    var last: nat := 0;
    assert ms[0..] == ms;
    for i := 0 to |ms|
      invariant Ahead(s, last, ms[i..]) && out + Rest(r, s, last, ms[i..]) == Rendered(r, s)
    {
      var m := ms[i];
      assert ms[i..][0] == m && ms[i..][1..] == ms[i + 1..];
      RestStep(r, s, last, ms[i..]);
      var before := s[last..m.start];
      var one := RenderOne(r, s[m.start..m.end], Name(s, m), Spec(s, m));
      ghost var rest := Rest(r, s, m.end, ms[i + 1..]);
      assert out + (before + one + rest) == out + before + one + rest;
      out := out + before;
      out := out + one;
      last := m.end;
    }
    assert ms[|ms|..] == [];
    RestOfNone(r, s, last);
    out := out + s[last..];
  }

  // ---------- the two-pass renderer ----------

  lemma SliceOfSlice(s: Bytes, a: nat, b: nat, c: nat, d: nat)
    requires a <= b <= |s| && c <= d <= b - a
    ensures s[a..b][c..d] == s[a + c..a + d]
  {
    var x, y := s[a..b][c..d], s[a + c..a + d];
    forall i | 0 <= i < d - c ensures x[i] == y[i] {
      assert x[i] == s[a..b][c + i] == s[a + c + i];
    }
  }

  /** The match found again inside the matched text alone. */
  lemma MatchOfMatch(s: Bytes, m: Match)
    requires Matches(s, m)
    ensures var w := s[m.start..m.end]; var again := Match(0, m.nameEnd - m.start, |w|);
      Matches(w, again) && MatchAt(w, 0) == Some(again) && Name(w, again) == Name(s, m) && Spec(w, again) == Spec(s, m)
  {
    hide IsName, IsSpec, MatchAt;
    var w := s[m.start..m.end];
    var again := Match(0, m.nameEnd - m.start, |w|);
    SliceOfSlice(s, m.start, m.end, 1, again.nameEnd);
    SliceOfSlice(s, m.start, m.end, again.nameEnd, |w| - 1);
    Unambiguous(w, again);
  }

  /** ReplaceAllStringFunc's callback: it sees the matched text only and parses it once more. */
  function ReplaceMatch(r: Renderer, w: Bytes): Bytes {
    if w == [] || MatchAt(w, 0).None? then w
    else
      MatchAtMatches(w, 0);
      var m := MatchAt(w, 0).value;
      RenderOne(r, w, Name(w, m), Spec(w, m))
  }

  /** Replacing every match, first to find it, second to take it apart. */
  function TwoPass(r: Renderer, s: Bytes, i: nat): Bytes
    requires i <= |s|
    decreases |s| - i
  {
    if i == |s| then []
    else
      var m := MatchAt(s, i);
      if m.None? then [s[i]] + TwoPass(r, s, i + 1)
      else
        MatchAtMatches(s, i);
        ReplaceMatch(r, s[i..m.value.end]) + TwoPass(r, s, m.value.end)
  }

  lemma MatchHere(s: Bytes, i: nat)
    requires i < |s| && MatchAt(s, i).Some?
    ensures var m := MatchAt(s, i).value; Matches(s, m) && m.start == i && i < m.end <= |s|
  {
    hide Matches, MatchAt;
    MatchAtMatches(s, i);
    MatchIsInside(s, MatchAt(s, i).value);
  }

  lemma PassesEnd(r: Renderer, s: Bytes)
    ensures RenderedFrom(r, s, |s|) == [] == TwoPass(r, s, |s|)
  {}

  lemma TwoPassStep(r: Renderer, s: Bytes, i: nat)
    requires i < |s|
    ensures MatchAt(s, i).None? ==> TwoPass(r, s, i) == [s[i]] + TwoPass(r, s, i + 1)
    ensures MatchAt(s, i).Some? ==>
      var m := MatchAt(s, i).value;
      && Matches(s, m) && m.start == i && i < m.end <= |s|
      && TwoPass(r, s, i) == RenderOne(r, s[i..m.end], Name(s, m), Spec(s, m)) + TwoPass(r, s, m.end)
  {
    hide Matches, MatchAt, RenderOne, Name, Spec;
    if MatchAt(s, i).Some? {
      MatchHere(s, i);
      MatchOfMatch(s, MatchAt(s, i).value);
    }
  }

  lemma RenderedStep(r: Renderer, s: Bytes, i: nat)
    requires i < |s|
    ensures MatchAt(s, i).None? ==> RenderedFrom(r, s, i) == [s[i]] + RenderedFrom(r, s, i + 1)
    ensures MatchAt(s, i).Some? ==>
      var m := MatchAt(s, i).value;
      && Matches(s, m) && m.start == i && i < m.end <= |s|
      && RenderedFrom(r, s, i) == RenderOne(r, s[i..m.end], Name(s, m), Spec(s, m)) + RenderedFrom(r, s, m.end)
  {
    hide Matches, MatchAt, RenderOne, Name, Spec;
    FindAllOrdered(s, i);
    if MatchAt(s, i).None? {
      FindAllOrdered(s, i + 1);
      SkipOne(r, s, i, FindAll(s, i + 1));
    } else {
      MatchHere(s, i);
      var m := MatchAt(s, i).value;
      FindAllOrdered(s, m.end);
      var ms := FindAll(s, i);
      assert ms[0] == m && ms[1..] == FindAll(s, m.end);
      assert s[i..i] == [];
    }
  }

  lemma {:induction false} SinglePassIsTwoPass(r: Renderer, s: Bytes, i: nat)
    requires i <= |s|
    ensures RenderedFrom(r, s, i) == TwoPass(r, s, i)
    decreases |s| - i
  {
    hide *;
    if i == |s| {
      PassesEnd(r, s);
    } else {
      TwoPassStep(r, s, i);
      RenderedStep(r, s, i);
      if MatchAt(s, i).None? {
        SinglePassIsTwoPass(r, s, i + 1);
      } else {
        SinglePassIsTwoPass(r, s, MatchAt(s, i).value.end);
      }
    }
  }

  lemma SkipOne(r: Renderer, s: Bytes, i: nat, ms: seq<Match>)
    requires i < |s|
    requires forall m :: m in ms ==> Matches(s, m) && i + 1 <= m.start
    requires forall j, k :: 0 <= j < k < |ms| ==> ms[j].end <= ms[k].start
    ensures Replaced(r, s, i, ms) == [s[i]] + Replaced(r, s, i + 1, ms)
  {
    hide RenderOne;
    if ms == [] {
      assert s[i..] == [s[i]] + s[i + 1..];
    } else {
      assert ms[0] in ms;
      MatchIsInside(s, ms[0]);
      assert s[i..ms[0].start] == [s[i]] + s[i + 1..ms[0].start];
    }
  }

  /** The single-pass renderer equals the two-pass one it replaced. */
  lemma RenderIsTwoPass(r: Renderer, s: Bytes)
    ensures Rendered(r, s) == TwoPass(r, s, 0)
  {
    SinglePassIsTwoPass(r, s, 0);
  }

  // ---------- what a rendering depends on ----------

  lemma {:induction false} ReplacedDepends(r: Renderer, q: Renderer, s: Bytes, last: nat, ms: seq<Match>)
    requires last <= |s|
    requires forall m :: m in ms ==> Matches(s, m) && last <= m.start
    requires forall i, j :: 0 <= i < j < |ms| ==> ms[i].end <= ms[j].start
    requires q == r.(lookup := q.lookup)
    requires forall m :: m in ms ==> r.lookup(Name(s, m)) == q.lookup(Name(s, m))
    ensures Replaced(r, s, last, ms) == Replaced(q, s, last, ms)
    decreases |ms|
  {
    hide Matches, Name, ParseModifiers, ApplyModifiers, DefaultOf;
    if ms != [] {
      assert ms[0] in ms;
      MatchIsInside(s, ms[0]);
      forall m | m in ms[1..] ensures ms[0].end <= m.start {
        var k :| 0 <= k < |ms[1..]| && ms[1..][k] == m;
        assert ms[k + 1] == m;
      }
      ReplacedDepends(r, q, s, ms[0].end, ms[1..]);
    }
  }

  /** Render consults the lookup on the names in the text, and on nothing else. */
  lemma RenderUsesNamesOnly(r: Renderer, q: Renderer, s: Bytes)
    requires q == r.(lookup := q.lookup)
    requires forall n :: n in NamesOf(s) ==> r.lookup(n) == q.lookup(n)
    ensures Rendered(r, s) == Rendered(q, s)
  {
    hide Matches, Name, FindAll, AddNames;
    FindAllOrdered(s, 0);
    AddNamesHolds([], s, FindAll(s, 0));
    ReplacedDepends(r, q, s, 0, FindAll(s, 0));
  }

  lemma {:induction false} ReplacedKeeps(r: Renderer, s: Bytes, last: nat, ms: seq<Match>)
    requires last <= |s|
    requires forall m :: m in ms ==> Matches(s, m) && last <= m.start
    requires forall i, j :: 0 <= i < j < |ms| ==> ms[i].end <= ms[j].start
    requires forall m :: m in ms ==> Replacement(r, s, m) == s[m.start..m.end]
    ensures Replaced(r, s, last, ms) == s[last..]
    decreases |ms|
  {
    hide Matches, Replacement;
    if ms != [] {
      var m := ms[0];
      assert m in ms;
      MatchIsInside(s, m);
      forall n | n in ms[1..] ensures m.end <= n.start {
        var k :| 0 <= k < |ms[1..]| && ms[1..][k] == n;
        assert ms[k + 1] == n;
      }
      ReplacedKeeps(r, s, m.end, ms[1..]);
      assert s[last..] == s[last..m.start] + s[m.start..m.end] + s[m.end..];
    }
  }

  /** With every name unknown and kept, and no default to fall back on, rendering changes nothing. */
  lemma RenderOfUnknownIsIdentity(r: Renderer, s: Bytes)
    requires r.unknown == Keep
    requires forall m :: Matches(s, m) ==>
      r.lookup(Name(s, m)).None? && DefaultOf(ParseModifiers(Spec(s, m))).None?
    ensures Rendered(r, s) == s
  {
    hide Matches, Name, FindAll, ParseModifiers, DefaultOf;
    FindAllOrdered(s, 0);
    ReplacedKeeps(r, s, 0, FindAll(s, 0));
    assert s[0..] == s;
  }
}
