/** Go strings and byte slices, and the parts of packages `strings` and `bytes`
    that the proxy relies on. A Go string is a sequence of bytes; each byte is a
    character below 256, so that literals can be written as strings. */
module Strings {

  datatype Option<+T> = None | Some(value: T) {
    function GetOr(default: T): T {
      if Some? then value else default
    }
  }

  type byte = c: char | c < '\U{0100}'
  type Bytes = seq<byte>

  /** What strings.Cut returns. */
  datatype Cutting = Cutting(before: Bytes, after: Bytes, found: bool)

  /** sub occurs in s at index j. */
  predicate At(s: Bytes, sub: Bytes, j: int) {
    0 <= j <= |s| - |sub| && s[j..j + |sub|] == sub
  }

  /** Where sub occurs, so does each of its bytes. */
  lemma AtHolds(s: Bytes, sub: Bytes, j: int, k: nat)
    requires At(s, sub, j) && k < |sub|
    ensures sub[k] in s
  {
    assert s[j..j + |sub|][k] == s[j + k];
  }

  lemma AtStarts(s: Bytes, sub: Bytes, j: int)
    requires 0 <= j < |s| && |sub| > 0 && s[j] != sub[0]
    ensures !At(s, sub, j)
  {
    if j <= |s| - |sub| {
      assert s[j..j + |sub|][0] == s[j];
    }
  }

  lemma AtBehind(s: Bytes, sub: Bytes)
    requires s != [] && !At(s, sub, 0)
    ensures forall j :: At(s, sub, j) ==> At(s[1..], sub, j - 1)
    ensures forall j :: At(s[1..], sub, j) ==> At(s, sub, j + 1)
  {
    forall j | At(s, sub, j) ensures At(s[1..], sub, j - 1) {
      assert s[1..][j - 1..j - 1 + |sub|] == s[j..j + |sub|];
    }
    forall j | At(s[1..], sub, j) ensures At(s, sub, j + 1) {
      assert s[1..][j..j + |sub|] == s[j + 1..j + 1 + |sub|];
    }
  }

  /** The first occurrence of sub in s, -1 when there is none. */
  function Index(s: Bytes, sub: Bytes): (i: int)
    ensures i == -1 || At(s, sub, i)
    ensures forall j :: At(s, sub, j) ==> 0 <= i <= j
  {
    if |s| < |sub| then -1
    else if At(s, sub, 0) then 0
    else if s == [] then -1
    else
      var rest := Index(s[1..], sub);
      AtBehind(s, sub);
      if rest < 0 then -1 else rest + 1
  }

  function Cut(s: Bytes, sep: Bytes): Cutting {
    var i := Index(s, sep);
    if i < 0 then Cutting(s, [], false) else Cutting(s[..i], s[i + |sep|..], true)
  }

  predicate Contains(s: Bytes, sub: Bytes) {
    Index(s, sub) >= 0
  }

  /** Cutting a + sep + b at a separator byte that a does not hold. */
  lemma CutAtByte(a: Bytes, c: byte, b: Bytes)
    requires c !in a
    ensures Cut(a + [c] + b, [c]) == Cutting(a, b, true)
  {
    var s := a + [c] + b;
    assert At(s, [c], |a|);
    var i := Index(s, [c]);
    assert s[i] == s[i..i + 1][0] == c;
    assert s[..|a|] == a && s[|a| + 1..] == b;
  }

  lemma CutParts(s: Bytes, c: byte)
    ensures var cut := Cut(s, [c]);
            && c !in cut.before
            && (cut.found ==> s == cut.before + [c] + cut.after)
            && (!cut.found ==> cut.before == s)
  {
    var i := Index(s, [c]);
    forall j | 0 <= j < (if i < 0 then |s| else i) ensures s[j] != c {
      assert !At(s, [c], j);
    }
  }

  // ---------- splitting and joining ----------

  /** strings.Split on one byte: always at least one part. */
  function Split(s: Bytes, c: byte): (parts: seq<Bytes>)
    ensures |parts| > 0
  {
    if s == [] then [[]]
    else
      var rest := Split(s[1..], c);
      if s[0] == c then [[]] + rest else [[s[0]] + rest[0]] + rest[1..]
  }

  function Join(parts: seq<Bytes>, sep: Bytes): Bytes {
    if parts == [] then []
    else if |parts| == 1 then parts[0]
    else parts[0] + sep + Join(parts[1..], sep)
  }

  lemma JoinStep(parts: seq<Bytes>, sep: Bytes)
    requires parts != []
    ensures Join(parts, sep) == if |parts| == 1 then parts[0] else parts[0] + sep + Join(parts[1..], sep)
  {}

  lemma JoinFront(parts: seq<Bytes>, x: byte, c: byte)
    requires parts != []
    ensures Join([[x] + parts[0]] + parts[1..], [c]) == [x] + Join(parts, [c])
    ensures Join([[]] + parts, [c]) == [c] + Join(parts, [c])
  {
    hide Join;
    var more, empty := [[x] + parts[0]] + parts[1..], [[]] + parts;
    JoinStep(parts, [c]);
    JoinStep(more, [c]);
    JoinStep(empty, [c]);
    assert more[1..] == parts[1..] && empty[1..] == parts;
    var rest := Join(parts[1..], [c]);
    assert [x] + parts[0] + [c] + rest == [x] + (parts[0] + [c] + rest);
    assert [] + [c] + Join(parts, [c]) == [c] + Join(parts, [c]);
  }

  lemma {:induction false} JoinOfSplit(s: Bytes, c: byte)
    ensures Join(Split(s, c), [c]) == s
    ensures forall p :: p in Split(s, c) ==> c !in p
  {
    if s != [] {
      hide Join;
      JoinOfSplit(s[1..], c);
      assert s == [s[0]] + s[1..];
      JoinFront(Split(s[1..], c), s[0], c);
    }
  }

  /** A part without the separator is split off whole. */
  lemma {:induction false} SplitFirst(p: Bytes, c: byte, tail: Bytes)
    requires c !in p
    ensures Split(p, c) == [p]
    ensures Split(p + [c] + tail, c) == [p] + Split(tail, c)
  {
    if p == [] {
      assert [c] + tail == p + [c] + tail;
    } else {
      SplitFirst(p[1..], c, tail);
      assert (p + [c] + tail)[1..] == p[1..] + [c] + tail;
      assert [p[0]] + p[1..] == p;
    }
  }

  lemma {:induction false} SplitOfJoin(parts: seq<Bytes>, c: byte)
    requires parts != []
    requires forall p :: p in parts ==> c !in p
    ensures Split(Join(parts, [c]), c) == parts
  {
    SplitFirst(parts[0], c, []);
    if |parts| > 1 {
      SplitOfJoin(parts[1..], c);
      SplitFirst(parts[0], c, Join(parts[1..], [c]));
      assert parts == [parts[0]] + parts[1..];
    }
  }

  // ---------- trimming ----------

  predicate IsAsciiSpace(c: byte) {
    c == ' ' || '\t' <= c <= '\r'
  }

  /** The UTF-8 form of one white-space code point, as unicode.IsSpace lists them. */
  predicate IsSpaceRune(w: Bytes) {
    || (|w| == 1 && IsAsciiSpace(w[0]))
    || (|w| == 2 && w[0] == '\U{C2}' && (w[1] == '\U{85}' || w[1] == '\U{A0}'))
    || (|w| == 3 && w[0] == '\U{E1}' && w[1] == '\U{9A}' && w[2] == '\U{80}')
    || (|w| == 3 && w[0] == '\U{E2}' && w[1] == '\U{80}' &&
        ('\U{80}' <= w[2] <= '\U{8A}' || w[2] == '\U{A8}' || w[2] == '\U{A9}' || w[2] == '\U{AF}'))
    || (|w| == 3 && w[0] == '\U{E2}' && w[1] == '\U{81}' && w[2] == '\U{9F}')
    || (|w| == 3 && w[0] == '\U{E3}' && w[1] == '\U{80}' && w[2] == '\U{80}')
  }

  function First(s: Bytes, k: nat): Bytes
    requires k <= |s|
  {
    s[..k]
  }

  function Last(s: Bytes, k: nat): Bytes
    requires k <= |s|
  {
    s[|s| - k..]
  }

  /** Length of the white-space rune s starts with, 0 for none. */
  function SpaceAtStart(s: Bytes): (n: nat)
    ensures n <= |s| && n <= 3
    ensures n > 0 ==> IsSpaceRune(First(s, n))
  {
    if |s| >= 1 && IsSpaceRune(First(s, 1)) then 1
    else if |s| >= 2 && IsSpaceRune(First(s, 2)) then 2
    else if |s| >= 3 && IsSpaceRune(First(s, 3)) then 3
    else 0
  }

  function SpaceAtEnd(s: Bytes): (n: nat)
    ensures n <= |s| && n <= 3
    ensures n > 0 ==> IsSpaceRune(Last(s, n))
  {
    if |s| >= 1 && IsSpaceRune(Last(s, 1)) then 1
    else if |s| >= 2 && IsSpaceRune(Last(s, 2)) then 2
    else if |s| >= 3 && IsSpaceRune(Last(s, 3)) then 3
    else 0
  }

  function TrimLeft(s: Bytes): (r: Bytes)
    ensures |r| <= |s|
    ensures SpaceAtStart(r) == 0
  {
    var n := SpaceAtStart(s);
    if n == 0 then s else TrimLeft(s[n..])
  }

  function TrimRight(s: Bytes): (r: Bytes)
    ensures |r| <= |s| && r <= s
    ensures SpaceAtEnd(r) == 0
  {
    var n := SpaceAtEnd(s);
    if n == 0 then s else TrimRight(s[..|s| - n])
  }

  function TrimSpace(s: Bytes): Bytes {
    TrimRight(TrimLeft(s))
  }

  /** A byte that is part of no white-space rune. */
  predicate Solid(c: byte) {
    !IsAsciiSpace(c) && c < '\U{80}'
  }

  lemma SpaceStartIs(w: Bytes, b: Bytes)
    requires IsSpaceRune(w)
    ensures SpaceAtStart(w + b) == |w|
  {
    var s := w + b;
    assert First(s, |w|) == w;
    assert |s| >= 1 ==> First(s, 1) == [w[0]];
    assert |w| >= 2 ==> First(s, 2) == [w[0], w[1]];
  }

  lemma SpaceEndIs(b: Bytes, w: Bytes)
    requires IsSpaceRune(w)
    ensures SpaceAtEnd(b + w) == |w|
  {
    var s := b + w;
    assert Last(s, |w|) == w;
    assert |s| >= 1 ==> Last(s, 1) == [w[|w| - 1]];
    assert |w| >= 2 ==> Last(s, 2) == [w[|w| - 2], w[|w| - 1]];
  }

  lemma TrimRightStep(b: Bytes, w: Bytes)
    requires IsSpaceRune(w)
    ensures TrimRight(b + w) == TrimRight(b)
  {
    SpaceEndIs(b, w);
    assert (b + w)[..|b + w| - |w|] == b;
  }

  lemma TrimRightNone(s: Bytes)
    requires SpaceAtEnd(s) == 0
    ensures TrimRight(s) == s
  {}

  lemma TakeSpaceEnd(s: Bytes) returns (front: Bytes, w: Bytes)
    requires SpaceAtEnd(s) > 0
    ensures s == front + w && IsSpaceRune(w) && |w| > 0
  {
    var n := SpaceAtEnd(s);
    front, w := s[..|s| - n], Last(s, n);
  }

  lemma NoSpaceAcross(s: Bytes, k: nat, c: byte)
    requires k <= |s| && Solid(c)
    ensures c in First(s, k) ==> !IsSpaceRune(First(s, k))
    ensures c in Last(s, k) ==> !IsSpaceRune(Last(s, k))
  {}

  lemma SpaceStartByCases(s: Bytes, a: Bytes)
    requires |s| >= |a|
    requires forall k: nat :: 0 < k <= 3 && k <= |s| ==>
      if k <= |a| then First(s, k) == First(a, k) else !IsSpaceRune(First(s, k))
    ensures SpaceAtStart(s) == SpaceAtStart(a)
  {
    hide IsSpaceRune, First;
    assert |s| >= 1 ==> if 1 <= |a| then First(s, 1) == First(a, 1) else !IsSpaceRune(First(s, 1));
    assert |s| >= 2 ==> if 2 <= |a| then First(s, 2) == First(a, 2) else !IsSpaceRune(First(s, 2));
    assert |s| >= 3 ==> if 3 <= |a| then First(s, 3) == First(a, 3) else !IsSpaceRune(First(s, 3));
  }

  lemma FirstOfFront(a: Bytes, c: byte, b: Bytes, k: nat)
    requires k <= |a + [c] + b|
    ensures if k <= |a| then First(a + [c] + b, k) == First(a, k) else c in First(a + [c] + b, k)
  {
    if k > |a| {
      assert First(a + [c] + b, k)[|a|] == c;
    }
  }

  lemma LastOfRear(a: Bytes, c: byte, b: Bytes, k: nat)
    requires k <= |a + [c] + b|
    ensures if k <= |b| then Last(a + [c] + b, k) == Last(b, k) else c in Last(a + [c] + b, k)
  {
    if k > |b| {
      assert Last(a + [c] + b, k)[k - |b| - 1] == c;
    }
  }

  lemma SpaceEndByCases(s: Bytes, b: Bytes)
    requires |s| >= |b|
    requires forall k: nat :: 0 < k <= 3 && k <= |s| ==>
      if k <= |b| then Last(s, k) == Last(b, k) else !IsSpaceRune(Last(s, k))
    ensures SpaceAtEnd(s) == SpaceAtEnd(b)
  {
    hide IsSpaceRune, Last;
    assert |s| >= 1 ==> if 1 <= |b| then Last(s, 1) == Last(b, 1) else !IsSpaceRune(Last(s, 1));
    assert |s| >= 2 ==> if 2 <= |b| then Last(s, 2) == Last(b, 2) else !IsSpaceRune(Last(s, 2));
    assert |s| >= 3 ==> if 3 <= |b| then Last(s, 3) == Last(b, 3) else !IsSpaceRune(Last(s, 3));
  }

  lemma LastOfBack(a: Bytes, b: Bytes, k: nat)
    requires k <= |b|
    ensures Last(a + b, k) == Last(b, k)
  {}

  lemma SpaceBeforeSolid(a: Bytes, c: byte, b: Bytes)
    requires Solid(c)
    ensures SpaceAtStart(a + [c] + b) == SpaceAtStart(a)
  {
    hide *;
    var s := a + [c] + b;
    forall k: nat | 0 < k <= 3 && k <= |s|
      ensures if k <= |a| then First(s, k) == First(a, k) else !IsSpaceRune(First(s, k))
    {
      FirstOfFront(a, c, b, k);
      NoSpaceAcross(s, k, c);
    }
    SpaceStartByCases(s, a);
  }

  lemma SpaceAfterSolid(a: Bytes, c: byte, b: Bytes)
    requires Solid(c)
    ensures SpaceAtEnd(a + [c] + b) == SpaceAtEnd(b)
  {
    hide *;
    var s := a + [c] + b;
    forall k: nat | 0 < k <= 3 && k <= |s|
      ensures if k <= |b| then Last(s, k) == Last(b, k) else !IsSpaceRune(Last(s, k))
    {
      LastOfRear(a, c, b, k);
      NoSpaceAcross(s, k, c);
    }
    SpaceEndByCases(s, b);
  }

  lemma {:induction false} TrimLeftAtSolid(a: Bytes, c: byte, b: Bytes)
    requires Solid(c)
    ensures TrimLeft(a + [c] + b) == TrimLeft(a) + [c] + b
    decreases |a|
  {
    hide IsSpaceRune;
    SpaceBeforeSolid(a, c, b);
    var n := SpaceAtStart(a);
    if n > 0 {
      assert (a + [c] + b)[n..] == a[n..] + [c] + b;
      TrimLeftAtSolid(a[n..], c, b);
    }
  }

  lemma {:induction false} TrimRightAtSolid(a: Bytes, c: byte, b: Bytes)
    requires Solid(c)
    ensures TrimRight(a + [c] + b) == a + [c] + TrimRight(b)
    decreases |b|
  {
    hide *;
    SpaceAfterSolid(a, c, b);
    var n := SpaceAtEnd(b);
    if n > 0 {
      var front, w := TakeSpaceEnd(b);
      TrimRightAtSolid(a, c, front);
      TrimRightStep(a + [c] + front, w);
      TrimRightStep(front, w);
      assert a + [c] + b == a + [c] + front + w;
    } else {
      TrimRightNone(b);
      TrimRightNone(a + [c] + b);
    }
  }

  lemma TrimAtSolid(a: Bytes, c: byte, b: Bytes)
    requires Solid(c)
    ensures TrimSpace(a + [c] + b) == TrimLeft(a) + [c] + TrimRight(b)
  {
    TrimLeftAtSolid(a, c, b);
    TrimRightAtSolid(TrimLeft(a), c, b);
  }

  lemma PrefixNotSpace(s: Bytes, n: nat)
    requires n <= |s| && SpaceAtStart(s) == 0
    ensures SpaceAtStart(s[..n]) == 0
  {
    forall k: nat | 0 < k <= n ensures First(s[..n], k) == First(s, k) {}
  }

  lemma TrimIsTrimmed(s: Bytes)
    ensures SpaceAtStart(TrimSpace(s)) == 0 && SpaceAtEnd(TrimSpace(s)) == 0
    ensures TrimSpace(TrimSpace(s)) == TrimSpace(s)
  {
    PrefixNotSpace(TrimLeft(s), |TrimSpace(s)|);
  }

  /** The end of a text that starts inside a white-space rune, or with one, is none. */
  lemma SpaceRuneHead(w: Bytes, l: Bytes, k: nat)
    requires IsSpaceRune(w) && k < |w| && |l| > 0 && l[0] == w[k]
    requires k == 0 ==> w < l
    ensures !IsSpaceRune(l)
  {}

  lemma LastBehind(w: Bytes, b: Bytes, k: nat)
    requires b != [] && |b| < k <= |w + b|
    ensures Last(w + b, k) != [] && |w + b| - k < |w| && Last(w + b, k)[0] == w[|w + b| - k]
    ensures k == |w + b| ==> w < Last(w + b, k)
  {}

  /** A white-space rune in front ends the text only when nothing follows it. */
  lemma SpaceEndBehind(w: Bytes, b: Bytes)
    requires IsSpaceRune(w) && b != []
    ensures SpaceAtEnd(w + b) == SpaceAtEnd(b)
  {
    hide *;
    var s := w + b;
    forall k: nat | 0 < k <= 3 && k <= |s|
      ensures if k <= |b| then Last(s, k) == Last(b, k) else !IsSpaceRune(Last(s, k))
    {
      if k <= |b| {
        LastOfBack(w, b, k);
      } else {
        LastBehind(w, b, k);
        SpaceRuneHead(w, Last(s, k), |s| - k);
      }
    }
    SpaceEndByCases(s, b);
  }

  lemma {:induction false} TrimRightBehindSpace(w: Bytes, b: Bytes)
    requires IsSpaceRune(w)
    ensures TrimRight(w + b) == if TrimRight(b) == [] then [] else w + TrimRight(b)
    decreases |b|
  {
    hide *;
    if b == [] {
      TrimRightStep([], w);
      assert w + b == [] + w;
    } else {
      SpaceEndBehind(w, b);
      if SpaceAtEnd(b) > 0 {
        var front, l := TakeSpaceEnd(b);
        TrimRightBehindSpace(w, front);
        TrimRightStep(front, l);
        TrimRightStep(w + front, l);
        assert w + b == w + front + l;
      } else {
        TrimRightNone(b);
        TrimRightNone(w + b);
      }
    }
  }

  lemma TrimLeftStep(w: Bytes, b: Bytes)
    requires IsSpaceRune(w)
    ensures TrimLeft(w + b) == TrimLeft(b)
  {
    SpaceStartIs(w, b);
    assert (w + b)[|w|..] == b;
  }

  lemma TrimLeftNone(s: Bytes)
    requires SpaceAtStart(s) == 0
    ensures TrimLeft(s) == s
  {}

  lemma TakeSpaceStart(s: Bytes) returns (w: Bytes, back: Bytes)
    requires SpaceAtStart(s) > 0
    ensures s == w + back && IsSpaceRune(w) && |back| < |s|
  {
    var n := SpaceAtStart(s);
    w, back := First(s, n), s[n..];
  }

  lemma TrimOfEmpty()
    ensures TrimLeft([]) == [] == TrimRight([])
  {}

  lemma {:induction false} TrimsCommute(s: Bytes)
    ensures TrimLeft(TrimRight(s)) == TrimRight(TrimLeft(s))
    decreases |s|
  {
    hide *;
    if SpaceAtStart(s) == 0 {
      PrefixNotSpace(s, |TrimRight(s)|);
      assert s[..|TrimRight(s)|] == TrimRight(s);
      TrimLeftNone(s);
      TrimLeftNone(TrimRight(s));
    } else {
      var w, b := TakeSpaceStart(s);
      TrimRightBehindSpace(w, b);
      TrimsCommute(b);
      TrimLeftStep(w, b);
      if TrimRight(b) != [] {
        TrimLeftStep(w, TrimRight(b));
      } else {
        TrimOfEmpty();
      }
    }
  }

  /** Trimming one side first changes nothing. */
  lemma TrimAbsorbs(s: Bytes)
    ensures TrimSpace(TrimLeft(s)) == TrimSpace(s) == TrimSpace(TrimRight(s))
  {
    TrimsCommute(s);
    TrimsCommute(TrimRight(s));
    TrimIsTrimmed(s);
  }

  lemma TrimKeepsSolid(s: Bytes)
    requires forall c :: c in s ==> Solid(c)
    ensures TrimSpace(s) == s
  {
    forall k: nat | 0 < k <= |s| ensures !IsSpaceRune(First(s, k)) && !IsSpaceRune(Last(s, k)) {
      NoSpaceAcross(s, k, First(s, k)[0]);
      NoSpaceAcross(s, k, Last(s, k)[0]);
    }
  }

  lemma TrimLeadingSpace(s: Bytes)
    ensures TrimSpace([' '] + s) == TrimSpace(s)
  {
    SpaceStartIs([' '], s);
    assert ([' '] + s)[1..] == s;
  }

  lemma {:induction false} TrimLeftSubset(s: Bytes, c: byte)
    requires c in TrimLeft(s)
    ensures c in s
    decreases |s|
  {
    hide IsSpaceRune;
    var n := SpaceAtStart(s);
    if n > 0 {
      TrimLeftSubset(s[n..], c);
    }
  }

  // ---------- comparing against a lower-case ASCII keyword ----------

  function LowerAscii(c: byte): byte {
    if 'A' <= c <= 'Z' then (c as int + 32) as char else c
  }

  /** strings.ToLower(s) == keyword, for a lower-case ASCII keyword. The only
      letters outside ASCII with a lower case inside it are U+0130 and U+212A. */
  predicate LowersTo(s: Bytes, keyword: Bytes) {
    if s == [] then keyword == []
    else if s[0] < '\U{80}' then keyword != [] && LowerAscii(s[0]) == keyword[0] && LowersTo(s[1..], keyword[1..])
    else if |s| >= 2 && s[..2] == ['\U{C4}', '\U{B0}'] then keyword != [] && keyword[0] == 'i' && LowersTo(s[2..], keyword[1..])
    else if |s| >= 3 && s[..3] == ['\U{E2}', '\U{84}', '\U{AA}'] then keyword != [] && keyword[0] == 'k' && LowersTo(s[3..], keyword[1..])
    else false
  }

  /** strings.EqualFold(s, keyword), for a lower-case ASCII keyword. The only
      letters outside ASCII that fold into it are U+017F and U+212A. */
  predicate FoldsTo(s: Bytes, keyword: Bytes) {
    if s == [] then keyword == []
    else if s[0] < '\U{80}' then keyword != [] && LowerAscii(s[0]) == keyword[0] && FoldsTo(s[1..], keyword[1..])
    else if |s| >= 2 && s[..2] == ['\U{C5}', '\U{BF}'] then keyword != [] && keyword[0] == 's' && FoldsTo(s[2..], keyword[1..])
    else if |s| >= 3 && s[..3] == ['\U{E2}', '\U{84}', '\U{AA}'] then keyword != [] && keyword[0] == 'k' && FoldsTo(s[3..], keyword[1..])
    else false
  }

  lemma {:induction false} FoldIsLower(s: Bytes, keyword: Bytes)
    requires 'i' !in keyword && 'k' !in keyword && 's' !in keyword
    ensures FoldsTo(s, keyword) <==> LowersTo(s, keyword)
    decreases |s|
  {
    if s != [] && keyword != [] {
      FoldIsLower(s[1..], keyword[1..]);
    }
  }

  lemma {:induction false} FoldsToSelf(s: Bytes)
    requires forall c :: c in s ==> 'a' <= c <= 'z'
    ensures FoldsTo(s, s)
  {
    if s != [] {
      assert s[0] in s;
      assert forall c :: c in s[1..] ==> c in s;
      FoldsToSelf(s[1..]);
    }
  }
}
