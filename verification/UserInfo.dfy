/** The subscription-userinfo header: "upload=1; download=2; total=3; expire=4". */
module UserInfo {
  import opened Strings
  import opened Numbers

  /** Fields are -1 when absent; a zero total means unlimited. */
  datatype Info = Info(upload: int, download: int, total: int, expire: int)

  const ABSENT := Info(-1, -1, -1, -1)

  const TOTAL_ZERO: Bytes := "total=0"

  function Used(u: Info): int {
    if u.upload < 0 && u.download < 0 then -1
    else if u.upload < 0 then u.download
    else if u.download < 0 then u.upload
    else Add64(u.upload, u.download)
  }

  /** Used is the plain sum of the counters present unless there is none or that
      overflows, and then it comes out negative, as nothing known. */
  lemma UsedIsSum(u: Info)
    requires u.upload <= MAX_INT64 && u.download <= MAX_INT64
    ensures var sum := (if u.upload < 0 then 0 else u.upload) + (if u.download < 0 then 0 else u.download);
      if (u.upload >= 0 || u.download >= 0) && sum <= MAX_INT64 then Used(u) == sum else Used(u) < 0
  {}

  // ---------- parsing ----------

  /** What is known after some parts: the fields, and whether any was usable. */
  datatype Parsed = Parsed(info: Info, any: bool)

  /** The name and value of a part, both trimmed; none without "=". */
  function Field(part: Bytes): Option<(Bytes, Bytes)> {
    var cut := Cut(part, "=");
    if cut.found then Some((TrimSpace(cut.before), TrimSpace(cut.after))) else None
  }

  /** One part of the header: a malformed one, or one with another name, is passed over. */
  function ParsePart(p: Parsed, part: Bytes): Parsed {
    match Field(part)
    case None => p
    case Some((key, value)) =>
      var n := ParseInt64(value);
      if n.None? then p else SetField(p, key, n.value)
  }

  function SetField(p: Parsed, key: Bytes, n: int): Parsed {
    if LowersTo(key, "upload") then Parsed(p.info.(upload := n), true)
    else if LowersTo(key, "download") then Parsed(p.info.(download := n), true)
    else if LowersTo(key, "total") then Parsed(p.info.(total := n), true)
    else if LowersTo(key, "expire") then Parsed(p.info.(expire := n), true)
    else p
  }

  function ParseParts(p: Parsed, parts: seq<Bytes>): Parsed
    decreases |parts|
  {
    hide *;
    if parts == [] then p else ParseParts(ParsePart(p, parts[0]), parts[1..])
  }

  function Parse(header: Bytes): Parsed {
    if TrimSpace(header) == [] then Parsed(ABSENT, false)
    else ParseParts(Parsed(ABSENT, false), Split(header, ';'))
  }

  method ParseUserInfo(header: Bytes) returns (info: Info, any: bool)
    ensures Parsed(info, any) == Parse(header)
  {
    hide LowersTo, TrimSpace, ParseInt64, Index, Split;
    info, any := ABSENT, false;
    if TrimSpace(header) == [] {
      return;
    }
    var parts := Split(header, ';');
    for i := 0 to |parts|
      invariant ParseParts(Parsed(info, any), parts[i..]) == ParseParts(Parsed(ABSENT, false), parts)
    {
      assert parts[i..][0] == parts[i] && parts[i..][1..] == parts[i + 1..];
      var cut := Cut(parts[i], "=");
      if !cut.found {
        continue;
      }
      var n := ParseInt64(TrimSpace(cut.after));
      if n.None? {
        continue;
      }
      var key := TrimSpace(cut.before);
      if LowersTo(key, "upload") {
        info, any := info.(upload := n.value), true;
      } else if LowersTo(key, "download") {
        info, any := info.(download := n.value), true;
      } else if LowersTo(key, "total") {
        info, any := info.(total := n.value), true;
      } else if LowersTo(key, "expire") {
        info, any := info.(expire := n.value), true;
      }
    }
  }

  // ---------- forcing an unlimited total ----------

  predicate IsTotal(part: Bytes) {
    hide *;
    Field(part).Some? && FoldsTo(Field(part).value.0, "total")
  }

  /** The parts rewritten: totals replaced, others trimmed, blank ones dropped. */
  function ForceParts(parts: seq<Bytes>): seq<Bytes> {
    if parts == [] then []
    else
      var rest := ForceParts(parts[1..]);
      if IsTotal(parts[0]) then [TOTAL_ZERO] + rest
      else if TrimSpace(parts[0]) != [] then [TrimSpace(parts[0])] + rest
      else rest
  }

  predicate HasTotal(parts: seq<Bytes>) {
    exists i :: 0 <= i < |parts| && IsTotal(parts[i])
  }

  function ForcedParts(header: Bytes): seq<Bytes> {
    var parts := Split(header, ';');
    ForceParts(parts) + if HasTotal(parts) then [] else [TOTAL_ZERO]
  }

  function Force(header: Bytes): Bytes {
    if TrimSpace(header) == [] then TOTAL_ZERO else Join(ForcedParts(header), "; ")
  }

  lemma {:induction false} ForcePartsSnoc(parts: seq<Bytes>, last: Bytes)
    ensures ForceParts(parts + [last]) == ForceParts(parts) + ForceParts([last])
  {
    hide IsTotal, TrimSpace;
    if parts != [] {
      ForcePartsSnoc(parts[1..], last);
      assert (parts + [last])[1..] == parts[1..] + [last];
    } else {
      assert [] + [last] == [last];
    }
  }

  lemma ForcePartsNone()
    ensures ForceParts([]) == []
  {}

  lemma ForcePartsOne(part: Bytes)
    ensures ForceParts([part]) ==
      if IsTotal(part) then [TOTAL_ZERO] else if TrimSpace(part) != [] then [TrimSpace(part)] else []
  {}

  method ForceUnlimitedTotal(header: Bytes) returns (forced: Bytes)
    ensures forced == Force(header)
  {
    hide FoldsTo, TrimSpace, Index, Split, ForceParts, Join;
    if TrimSpace(header) == [] {
      return TOTAL_ZERO;
    }
    var parts := Split(header, ';');
    var out: seq<Bytes> := [];
    var replaced := false;
    ForcePartsNone();
    for i := 0 to |parts|
      invariant out == ForceParts(parts[..i])
      invariant replaced <==> exists j :: 0 <= j < i && IsTotal(parts[j])
    {
      ForcePartsSnoc(parts[..i], parts[i]);
      assert parts[..i + 1] == parts[..i] + [parts[i]];
      ForcePartsOne(parts[i]);
      var cut := Cut(parts[i], "=");
      if cut.found && FoldsTo(TrimSpace(cut.before), "total") {
        out := out + [TOTAL_ZERO];
        replaced := true;
        continue;
      }
      var trimmed := TrimSpace(parts[i]);
      if trimmed != [] {
        out := out + [trimmed];
      }
    }
    assert parts[..|parts|] == parts;
    if !replaced {
      out := out + [TOTAL_ZERO];
    }
    assert out == ForcedParts(header);
    forced := Join(out, "; ");
  }

  // ---------- forcing, then parsing or forcing again ----------

  lemma FieldAt(a: Bytes, b: Bytes)
    requires '=' !in a
    ensures Field(a + ['='] + b) == Some((TrimSpace(a), TrimSpace(b)))
  {
    hide TrimSpace;
    CutAtByte(a, '=', b);
    assert "=" == ['='];
  }

  lemma NoField(s: Bytes)
    requires '=' !in s
    ensures Field(s) == None
  {
    CutParts(s, '=');
    assert "=" == ['='];
  }

  lemma FieldSplits(part: Bytes) returns (a: Bytes, b: Bytes)
    requires '=' in part
    ensures '=' !in a && part == a + ['='] + b
  {
    CutParts(part, '=');
    var cut := Cut(part, ['=']);
    a, b := cut.before, cut.after;
  }

  lemma TrimSubset(s: Bytes, c: byte)
    ensures c in TrimSpace(s) ==> c in s && c in TrimLeft(s)
  {
    hide TrimLeft;
    if c in TrimSpace(s) {
      assert TrimSpace(s) <= TrimLeft(s);
      TrimLeftSubset(s, c);
    }
  }

  /** Trimming a part, or putting a space in front, leaves its field as it was. */
  lemma FieldOfTrim(part: Bytes)
    ensures Field(TrimSpace(part)) == Field(part)
    ensures Field([' '] + part) == Field(part)
  {
    hide *;
    if '=' in part {
      var a, b := FieldSplits(part);
      if '=' in TrimLeft(a) {
        TrimLeftSubset(a, '=');
      }
      SolidEquals();
      TrimAtSolid(a, '=', b);
      TrimAbsorbs(a);
      TrimAbsorbs(b);
      FieldAt(a, b);
      FieldAt(TrimLeft(a), TrimRight(b));
      TrimLeadingSpace(a);
      FieldAt([' '] + a, b);
      assert [' '] + a + ['='] + b == [' '] + (a + ['='] + b);
    } else {
      if '=' in TrimSpace(part) {
        TrimSubset(part, '=');
      }
      NoField(part);
      NoField(TrimSpace(part));
      NoField([' '] + part);
    }
  }

  lemma SolidEquals()
    ensures Solid('=')
  {}

  lemma SolidIsNotBlank(s: Bytes)
    requires '=' in s
    ensures TrimSpace(s) != []
  {
    hide *;
    SolidEquals();
    var a, b := FieldSplits(s);
    TrimAtSolid(a, '=', b);
  }

  /** The parts as the joined header splits again: all but the first with a space in front. */
  function Spaced(parts: seq<Bytes>): seq<Bytes> {
    if |parts| <= 1 then parts else Spaced(parts[..|parts| - 1]) + [[' '] + parts[|parts| - 1]]
  }

  lemma {:induction false} JoinSnoc(parts: seq<Bytes>, last: Bytes, sep: Bytes)
    requires parts != []
    ensures Join(parts + [last], sep) == Join(parts, sep) + sep + last
  {
    if |parts| == 1 {
      assert parts + [last] == [parts[0], last];
      assert [parts[0], last][1..] == [last];
    } else {
      JoinSnoc(parts[1..], last, sep);
      assert (parts + [last])[1..] == parts[1..] + [last];
      assert parts[0] + sep + (Join(parts[1..], sep) + sep + last) == parts[0] + sep + Join(parts[1..], sep) + sep + last;
    }
  }

  lemma JoinOfFew(parts: seq<Bytes>, a: Bytes, b: Bytes)
    requires |parts| <= 1
    ensures Join(parts, a) == Join(parts, b)
  {}

  lemma {:induction false} JoinIsSpaced(parts: seq<Bytes>)
    ensures |Spaced(parts)| == |parts|
    ensures Join(parts, "; ") == Join(Spaced(parts), [';'])
    ensures forall i :: 0 <= i < |parts| ==> Spaced(parts)[i] == if i == 0 then parts[0] else [' '] + parts[i]
    decreases |parts|
  {
    hide Join;
    if |parts| <= 1 {
      JoinOfFew(parts, "; ", [';']);
    } else {
      var front, last := parts[..|parts| - 1], parts[|parts| - 1];
      JoinIsSpaced(front);
      JoinSnoc(front, last, "; ");
      JoinSnoc(Spaced(front), [' '] + last, [';']);
      assert parts == front + [last];
      assert "; " == [';'] + [' '];
      assert Join(front, "; ") + "; " + last == Join(front, "; ") + [';'] + ([' '] + last);
    }
  }

  /** Splitting the rewritten header yields the rewritten parts, spaced. */
  lemma SplitOfForced(parts: seq<Bytes>)
    requires parts != [] && forall p :: p in parts ==> ';' !in p
    ensures Split(Join(parts, "; "), ';') == Spaced(parts)
  {
    JoinIsSpaced(parts);
    forall p | p in Spaced(parts) ensures ';' !in p {
      var i :| 0 <= i < |parts| && Spaced(parts)[i] == p;
      assert parts[i] in parts;
    }
    SplitOfJoin(Spaced(parts), ';');
  }

  /** A rewritten part: rewriting it again changes nothing. */
  predicate Settled(part: Bytes) {
    && ';' !in part && part != []
    && if IsTotal(part) then part == TOTAL_ZERO else TrimSpace(part) == part
  }

  lemma TotalZeroIsTotal()
    ensures Field(TOTAL_ZERO) == Some(("total", "0")) && IsTotal(TOTAL_ZERO) && Settled(TOTAL_ZERO)
    ensures ParseInt64("0") == Some(0)
  {
    hide Field, FoldsTo, LowersTo, TrimSpace;
    var name: Bytes := "total";
    var zero: Bytes := "0";
    assert TOTAL_ZERO == name + ['='] + zero;
    FieldAt(name, zero);
    TrimKeepsSolid(name);
    TrimKeepsSolid(zero);
    assert zero[..0] == [];
    FoldsToSelf(name);
  }

  lemma {:induction false} ForcePartsSettled(parts: seq<Bytes>)
    requires forall p :: p in parts ==> ';' !in p
    ensures forall p :: p in ForceParts(parts) ==> Settled(p)
    ensures HasTotal(parts) ==> TOTAL_ZERO in ForceParts(parts)
  {
    hide TrimSpace, Field, FoldsTo;
    if parts != [] {
      ForcePartsSettled(parts[1..]);
      PartSettles(parts[0]);
      TotalZeroIsTotal();
      if HasTotal(parts) && !IsTotal(parts[0]) {
        var i :| 0 <= i < |parts| && IsTotal(parts[i]);
        assert IsTotal(parts[1..][i - 1]);
      }
    }
  }

  lemma PartSettles(part: Bytes)
    requires ';' !in part
    ensures !IsTotal(part) && TrimSpace(part) != [] ==> Settled(TrimSpace(part))
  {
    hide TrimSpace, Field, FoldsTo;
    FieldOfTrim(part);
    TrimIsTrimmed(part);
    if ';' in TrimSpace(part) {
      TrimSubset(part, ';');
    }
  }

  lemma ForcedSettled(header: Bytes)
    requires TrimSpace(header) != []
    ensures forall p :: p in ForcedParts(header) ==> Settled(p)
    ensures TOTAL_ZERO in ForcedParts(header)
  {
    JoinOfSplit(header, ';');
    ForcePartsSettled(Split(header, ';'));
    TotalZeroIsTotal();
  }

  lemma {:induction false} ForceSettledParts(parts: seq<Bytes>, spaced: seq<Bytes>)
    requires |spaced| == |parts|
    requires forall i :: 0 <= i < |parts| ==> Settled(parts[i]) && (spaced[i] == parts[i] || spaced[i] == [' '] + parts[i])
    ensures ForceParts(spaced) == parts
  {
    hide TrimSpace, Field, FoldsTo;
    if parts != [] {
      ForceSettledParts(parts[1..], spaced[1..]);
      FieldOfTrim(parts[0]);
      TrimLeadingSpace(parts[0]);
      assert Settled(parts[0]);
      assert parts == [parts[0]] + parts[1..];
    }
  }

  lemma ForcedHoldsEquals(parts: seq<Bytes>)
    requires TOTAL_ZERO in parts
    ensures '=' in Join(parts, "; ")
  {
    if parts[0] == TOTAL_ZERO {
      assert TOTAL_ZERO[5] == '=';
      assert Join(parts, "; ")[5] == '=';
    } else {
      ForcedHoldsEquals(parts[1..]);
    }
  }

  /** Forcing twice is forcing once. */
  lemma ForceTwice(header: Bytes)
    ensures Force(Force(header)) == Force(header)
  {
    hide TrimSpace, Field, FoldsTo, Join, ForceParts, Split, Settled, Spaced;
    TotalZeroIsTotal();
    var parts := if TrimSpace(header) == [] then [TOTAL_ZERO] else ForcedParts(header);
    if TrimSpace(header) != [] {
      ForcedSettled(header);
    }
    JoinOfOne(TOTAL_ZERO);
    var forced := Force(header);
    assert forced == Join(parts, "; ");
    SettledHasNoSeparator(parts);
    SplitOfForced(parts);
    JoinIsSpaced(parts);
    ForceSettledParts(parts, Spaced(parts));
    ForcedHoldsEquals(parts);
    SolidIsNotBlank(forced);
    var i :| 0 <= i < |parts| && parts[i] == TOTAL_ZERO;
    FieldOfTrim(TOTAL_ZERO);
    assert IsTotal(Spaced(parts)[i]);
    assert ForcedParts(forced) == parts + [] == parts;
  }

  lemma JoinOfOne(part: Bytes)
    ensures Join([part], "; ") == part
  {}

  lemma SettledHasNoSeparator(parts: seq<Bytes>)
    requires forall p :: p in parts ==> Settled(p)
    ensures forall p :: p in parts ==> ';' !in p
  {}

  // The parse of a forced header follows that of the original.

  lemma {:induction false} ParseOfSpaced(p: Parsed, parts: seq<Bytes>, spaced: seq<Bytes>)
    requires |spaced| == |parts|
    requires forall i :: 0 <= i < |parts| ==> spaced[i] == parts[i] || spaced[i] == [' '] + parts[i]
    ensures ParseParts(p, spaced) == ParseParts(p, parts)
    decreases |parts|
  {
    hide Field, SetField, ParseInt64;
    if parts != [] {
      FieldOfTrim(parts[0]);
      ParseOfSpaced(ParsePart(p, parts[0]), parts[1..], spaced[1..]);
    }
  }

  /** The forced parse has the same fields, and total 0 once a total was seen. */
  ghost predicate Follows(p: Parsed, forced: Parsed, seen: bool) {
    if seen then forced == Parsed(p.info.(total := 0), true) else forced == p
  }

  lemma TotalPartParses(p: Parsed, part: Bytes)
    requires IsTotal(part)
    ensures ParsePart(p, part).info == p.info.(total := ParsePart(p, part).info.total)
  {
    hide ParseInt64, LowersTo, FoldsTo, Field;
    var key := Field(part).value.0;
    FoldIsLower(key, "total");
    OneKeyword(key);
  }

  lemma OneKeyword(key: Bytes)
    requires LowersTo(key, "total")
    ensures !LowersTo(key, "upload") && !LowersTo(key, "download")
  {}

  lemma TotalZeroParses(p: Parsed)
    ensures ParsePart(p, TOTAL_ZERO) == Parsed(p.info.(total := 0), true)
  {
    hide Field, ParseInt64, FoldsTo, LowersTo;
    TotalZeroIsTotal();
    FoldIsLower("total", "total");
    OneKeyword("total");
  }

  lemma OtherPartFollows(p: Parsed, q: Parsed, part: Bytes, seen: bool)
    requires Follows(p, q, seen) && !IsTotal(part)
    ensures Follows(ParsePart(p, part), ParsePart(q, TrimSpace(part)), seen)
    ensures TrimSpace(part) == [] ==> Follows(ParsePart(p, part), q, seen)
  {
    hide TrimSpace, ParseInt64, FoldsTo, LowersTo;
    FieldOfTrim(part);
    if Field(part).Some? {
      FoldIsLower(Field(part).value.0, "total");
    }
    NoField([]);
  }

  lemma {:induction false} ForcePartsFollows(p: Parsed, q: Parsed, parts: seq<Bytes>, seen: bool)
    requires Follows(p, q, seen)
    ensures Follows(ParseParts(p, parts), ParseParts(q, ForceParts(parts)), seen || HasTotal(parts))
    decreases |parts|
  {
    hide TrimSpace, Field, SetField, FoldsTo, ParsePart, IsTotal;
    if parts != [] {
      var part := parts[0];
      var here := IsTotal(part);
      assert HasTotal(parts) <==> here || HasTotal(parts[1..]) by {
        HasTotalStep(parts);
      }
      var p' := ParsePart(p, part);
      var rest := ForceParts(parts[1..]);
      if here {
        TotalPartParses(p, part);
        TotalZeroParses(q);
        assert ([TOTAL_ZERO] + rest)[1..] == rest;
        ForcePartsFollows(p', ParsePart(q, TOTAL_ZERO), parts[1..], true);
      } else {
        OtherPartFollows(p, q, part, seen);
        if TrimSpace(part) != [] {
          assert ([TrimSpace(part)] + rest)[1..] == rest;
          ForcePartsFollows(p', ParsePart(q, TrimSpace(part)), parts[1..], seen);
        } else {
          ForcePartsFollows(p', q, parts[1..], seen);
        }
      }
    }
  }

  lemma HasTotalStep(parts: seq<Bytes>)
    requires parts != []
    ensures HasTotal(parts) <==> IsTotal(parts[0]) || HasTotal(parts[1..])
  {
    hide IsTotal;
    if HasTotal(parts) {
      var i :| 0 <= i < |parts| && IsTotal(parts[i]);
      assert i > 0 ==> parts[1..][i - 1] == parts[i];
    }
    if HasTotal(parts[1..]) {
      var i :| 0 <= i < |parts[1..]| && IsTotal(parts[1..][i]);
      assert parts[i + 1] == parts[1..][i];
    }
  }

  lemma {:induction false} ParsePartsSnoc(p: Parsed, parts: seq<Bytes>, last: Bytes)
    ensures ParseParts(p, parts + [last]) == ParsePart(ParseParts(p, parts), last)
    decreases |parts|
  {
    hide ParsePart;
    if parts == [] {
      assert [] + [last] == [last];
    } else {
      ParsePartsSnoc(ParsePart(p, parts[0]), parts[1..], last);
      assert (parts + [last])[1..] == parts[1..] + [last];
    }
  }

  /** Whatever the header holds, the forced one parses, to the same fields with a total of 0. */
  lemma ForcedParses(header: Bytes)
    ensures Parse(Force(header)) == Parsed(Parse(header).info.(total := 0), true)
  {
    hide TrimSpace, Field, FoldsTo, Join, ForceParts, Split, Settled, Spaced, ParseParts, ParsePart, IsTotal;
    var start := Parsed(ABSENT, false);
    TotalZeroIsTotal();
    JoinOfOne(TOTAL_ZERO);
    var parts := if TrimSpace(header) == [] then [TOTAL_ZERO] else ForcedParts(header);
    if TrimSpace(header) != [] {
      ForcedSettled(header);
    }
    var forced := Force(header);
    SettledHasNoSeparator(parts);
    SplitOfForced(parts);
    JoinIsSpaced(parts);
    ParseOfSpaced(start, parts, Spaced(parts));
    ForcedHoldsEquals(parts);
    SolidIsNotBlank(forced);
    assert Parse(forced) == ParseParts(start, parts);
    TotalZeroParses(ParsePartsOf(start, header));
    if TrimSpace(header) == [] {
      ParsePartsSnoc(start, [], TOTAL_ZERO);
      ParsePartsNone(start);
      assert [] + [TOTAL_ZERO] == parts;
      TotalZeroParses(start);
    } else {
      var original := Split(header, ';');
      ForcePartsFollows(start, start, original, false);
      if HasTotal(original) {
        assert parts == ForceParts(original) + [] == ForceParts(original);
      } else {
        ParsePartsSnoc(start, ForceParts(original), TOTAL_ZERO);
      }
    }
  }

  function ParsePartsOf(p: Parsed, header: Bytes): Parsed {
    ParseParts(p, Split(header, ';'))
  }

  lemma ParsePartsNone(p: Parsed)
    ensures ParseParts(p, []) == p
  {}
}
