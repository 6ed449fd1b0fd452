/** Base64 as package encoding/base64 reads and writes it (RFC 4648, sections 4
    and 5, with and without the padding of section 3.2), and the proxy's decoder
    that tries all four alphabets over one shared buffer. CR and LF are skipped
    anywhere; non-zero trailing bits are accepted. */
module Base64 {
  import opened Strings

  datatype Encoding = Encoding(url: bool, padded: bool)

  const STD := Encoding(false, true)
  const RAW_STD := Encoding(false, false)
  const URL := Encoding(true, true)
  const RAW_URL := Encoding(true, false)

  const ENCODINGS: seq<Encoding> := [STD, RAW_STD, URL, RAW_URL]

  const PAD: byte := '='

  type Sextet = v: nat | v < 64

  // ---------- the alphabets ----------

  predicate IsNewline(c: byte) {
    c == '\r' || c == '\n'
  }

  predicate InAlphabet(e: Encoding, c: byte) {
    || 'A' <= c <= 'Z' || 'a' <= c <= 'z' || '0' <= c <= '9'
    || (if e.url then c == '-' || c == '_' else c == '+' || c == '/')
  }

  /** The value of an alphabet byte; '+' and '-' agree, and so do '/' and '_'. */
  function ValueOf(c: byte): Sextet {
    if 'A' <= c <= 'Z' then c as int - 'A' as int
    else if 'a' <= c <= 'z' then c as int - 'a' as int + 26
    else if '0' <= c <= '9' then c as int - '0' as int + 52
    else if c == '+' || c == '-' then 62
    else 63
  }

  function CharOf(e: Encoding, v: Sextet): (c: byte)
    ensures InAlphabet(e, c) && ValueOf(c) == v
  {
    if v < 26 then ('A' as int + v) as char
    else if v < 52 then ('a' as int + v - 26) as char
    else if v < 62 then ('0' as int + v - 52) as char
    else if v == 62 then (if e.url then '-' else '+')
    else if e.url then '_' else '/'
  }

  lemma CharOfValue(e: Encoding, c: byte)
    requires InAlphabet(e, c)
    ensures CharOf(e, ValueOf(c)) == c
  {}

  predicate AllIn(e: Encoding, s: Bytes) {
    forall c :: c in s ==> InAlphabet(e, c)
  }

  // ---------- encoding ----------

  function Encode1(e: Encoding, x: byte): (q: Bytes)
    ensures |q| == 2 && AllIn(e, q)
  {
    var a := x as int;
    [CharOf(e, a / 4), CharOf(e, a % 4 * 16)]
  }

  function Encode2(e: Encoding, x: byte, y: byte): (q: Bytes)
    ensures |q| == 3 && AllIn(e, q)
  {
    var a, b := x as int, y as int;
    [CharOf(e, a / 4), CharOf(e, a % 4 * 16 + b / 16), CharOf(e, b % 16 * 4)]
  }

  function Encode3(e: Encoding, x: byte, y: byte, z: byte): (q: Bytes)
    ensures |q| == 4 && AllIn(e, q)
  {
    var a, b, c := x as int, y as int, z as int;
    [CharOf(e, a / 4), CharOf(e, a % 4 * 16 + b / 16), CharOf(e, b % 16 * 4 + c / 64), CharOf(e, c % 64)]
  }

  /** Encoding.EncodeToString. */
  function Encode(e: Encoding, raw: Bytes): Bytes {
    if |raw| == 0 then []
    else if |raw| == 1 then Encode1(e, raw[0]) + if e.padded then [PAD, PAD] else []
    else if |raw| == 2 then Encode2(e, raw[0], raw[1]) + if e.padded then [PAD] else []
    else Encode3(e, raw[0], raw[1], raw[2]) + Encode(e, raw[3..])
  }

  // ---------- decoding ----------

  function Decode1(p: byte, q: byte): (raw: Bytes)
    ensures |raw| == 1
  {
    [(ValueOf(p) * 4 + ValueOf(q) / 16) as char]
  }

  function Decode2(p: byte, q: byte, r: byte): (raw: Bytes)
    ensures |raw| == 2
  {
    Decode1(p, q) + [(ValueOf(q) % 16 * 16 + ValueOf(r) / 4) as char]
  }

  function Decode3(p: byte, q: byte, r: byte, t: byte): (raw: Bytes)
    ensures |raw| == 3
  {
    Decode2(p, q, r) + [(ValueOf(r) % 4 * 64 + ValueOf(t)) as char]
  }

  function Prepend(front: Bytes, rest: Option<Bytes>): Option<Bytes> {
    match rest
    case None => None
    case Some(tail) => Some(front + tail)
  }

  /** What a newline-free text decodes to, quantum by quantum. */
  function Quanta(e: Encoding, s: Bytes): Option<Bytes> {
    if s == [] then Some([])
    else if |s| < 2 || !InAlphabet(e, s[0]) || !InAlphabet(e, s[1]) then None
    else if |s| >= 4 && InAlphabet(e, s[2]) && InAlphabet(e, s[3]) then
      Prepend(Decode3(s[0], s[1], s[2], s[3]), Quanta(e, s[4..]))
    else Tail(e, s)
  }

  /** A last, short quantum. */
  function Tail(e: Encoding, s: Bytes): Option<Bytes>
    requires |s| >= 2
  {
    if e.padded then
      if |s| != 4 || s[3] != PAD then None
      else if InAlphabet(e, s[2]) then Some(Decode2(s[0], s[1], s[2]))
      else if s[2] == PAD then Some(Decode1(s[0], s[1]))
      else None
    else
      if |s| == 2 then Some(Decode1(s[0], s[1]))
      else if |s| == 3 && InAlphabet(e, s[2]) then Some(Decode2(s[0], s[1], s[2]))
      else None
  }

  function StripNewlines(s: Bytes): Bytes {
    if s == [] then []
    else if IsNewline(s[0]) then StripNewlines(s[1..])
    else [s[0]] + StripNewlines(s[1..])
  }

  /** Encoding.DecodeString, on its own buffer. */
  function DecodeString(e: Encoding, s: Bytes): Option<Bytes> {
    Quanta(e, StripNewlines(s))
  }

  // ---------- the decoders agree ----------

  lemma {:induction false} QuantaAgree(e: Encoding, f: Encoding, s: Bytes)
    requires Quanta(e, s).Some? && Quanta(f, s).Some?
    ensures Quanta(e, s) == Quanta(f, s)
    decreases |s|
  {
    if |s| >= 4 && InAlphabet(e, s[2]) && InAlphabet(e, s[3]) && InAlphabet(f, s[2]) && InAlphabet(f, s[3]) {
      QuantaAgree(e, f, s[4..]);
    }
  }

  /** Every alphabet that decodes a text decodes it to the same bytes. */
  lemma AlphabetsAgree(e: Encoding, f: Encoding, s: Bytes)
    requires DecodeString(e, s).Some? && DecodeString(f, s).Some?
    ensures DecodeString(e, s) == DecodeString(f, s)
  {
    QuantaAgree(e, f, StripNewlines(s));
  }

  lemma {:induction false} QuantaBytes(e: Encoding, s: Bytes)
    requires Quanta(e, s).Some?
    ensures forall c :: c in s ==> InAlphabet(e, c) || c == PAD
    decreases |s|
  {
    if |s| >= 4 && InAlphabet(e, s[2]) && InAlphabet(e, s[3]) {
      QuantaBytes(e, s[4..]);
      assert s == [s[0], s[1], s[2], s[3]] + s[4..];
    }
  }

  lemma {:induction false} StrippedBytes(s: Bytes)
    ensures forall c :: c in StripNewlines(s) <==> c in s && !IsNewline(c)
  {
    if s != [] {
      StrippedBytes(s[1..]);
      assert s == [s[0]] + s[1..];
    }
  }

  lemma {:induction false} StripKeeps(s: Bytes)
    requires forall c :: c in s ==> !IsNewline(c)
    ensures StripNewlines(s) == s
  {
    if s != [] {
      StripKeeps(s[1..]);
      assert s == [s[0]] + s[1..];
    }
  }

  // ---------- encoding and back ----------

  lemma Arithmetic1(e: Encoding, x: byte)
    ensures var q := Encode1(e, x); Decode1(q[0], q[1]) == [x]
  {}

  lemma Arithmetic2(e: Encoding, x: byte, y: byte)
    ensures var q := Encode2(e, x, y); Decode2(q[0], q[1], q[2]) == [x, y]
  {
    var q := Encode2(e, x, y);
    assert ValueOf(q[1]) / 16 == x as int % 4 && ValueOf(q[1]) % 16 == y as int / 16;
  }

  lemma Arithmetic3(e: Encoding, x: byte, y: byte, z: byte)
    ensures var q := Encode3(e, x, y, z); Decode3(q[0], q[1], q[2], q[3]) == [x, y, z]
  {
    var q := Encode3(e, x, y, z);
    assert ValueOf(q[1]) / 16 == x as int % 4 && ValueOf(q[1]) % 16 == y as int / 16;
    assert ValueOf(q[2]) / 4 == y as int % 16 && ValueOf(q[2]) % 4 == z as int / 64;
  }

  lemma {:induction false} QuantaOfEncode(e: Encoding, raw: Bytes)
    ensures Quanta(e, Encode(e, raw)) == Some(raw)
    ensures forall c :: c in Encode(e, raw) ==> InAlphabet(e, c) || c == PAD
  {
    hide InAlphabet, Encode1, Encode2, Encode3, Decode1, Decode2, Decode3;
    assert !InAlphabet(e, PAD) by { PadIsOutside(e); }
    if |raw| == 1 {
      Arithmetic1(e, raw[0]);
      assert raw == [raw[0]];
    } else if |raw| == 2 {
      Arithmetic2(e, raw[0], raw[1]);
      assert raw == [raw[0], raw[1]];
    } else if |raw| >= 3 {
      var q := Encode3(e, raw[0], raw[1], raw[2]);
      Arithmetic3(e, raw[0], raw[1], raw[2]);
      QuantaOfEncode(e, raw[3..]);
      assert (q + Encode(e, raw[3..]))[4..] == Encode(e, raw[3..]);
      assert raw == [raw[0], raw[1], raw[2]] + raw[3..];
    }
  }

  lemma PadIsOutside(e: Encoding)
    ensures !InAlphabet(e, PAD) && !InAlphabet(e, '\r') && !InAlphabet(e, '\n')
  {}

  lemma SharedChar(e: Encoding, f: Encoding, v: Sextet)
    requires InAlphabet(f, CharOf(e, v))
    ensures CharOf(f, v) == CharOf(e, v)
  {
    CharOfValue(f, CharOf(e, v));
  }

  lemma Shared1(e: Encoding, f: Encoding, x: byte)
    requires var q := Encode1(e, x); InAlphabet(f, q[0]) && InAlphabet(f, q[1])
    ensures Encode1(f, x) == Encode1(e, x)
  {
    hide InAlphabet, CharOf;
    var a := x as int;
    SharedChar(e, f, a / 4);
    SharedChar(e, f, a % 4 * 16);
  }

  lemma Shared2(e: Encoding, f: Encoding, x: byte, y: byte)
    requires var q := Encode2(e, x, y); InAlphabet(f, q[0]) && InAlphabet(f, q[1]) && InAlphabet(f, q[2])
    ensures Encode2(f, x, y) == Encode2(e, x, y)
  {
    hide InAlphabet, CharOf;
    var a, b := x as int, y as int;
    SharedChar(e, f, a / 4);
    SharedChar(e, f, a % 4 * 16 + b / 16);
    SharedChar(e, f, b % 16 * 4);
  }

  lemma Shared3(e: Encoding, f: Encoding, x: byte, y: byte, z: byte)
    requires var q := Encode3(e, x, y, z);
      InAlphabet(f, q[0]) && InAlphabet(f, q[1]) && InAlphabet(f, q[2]) && InAlphabet(f, q[3])
    ensures Encode3(f, x, y, z) == Encode3(e, x, y, z)
  {
    hide InAlphabet, CharOf;
    var a, b, c := x as int, y as int, z as int;
    SharedChar(e, f, a / 4);
    SharedChar(e, f, a % 4 * 16 + b / 16);
    SharedChar(e, f, b % 16 * 4 + c / 64);
    SharedChar(e, f, c % 64);
  }

  /** An alphabet that reads what another wrote would have written the same. */
  lemma {:induction false} ReencodesAlike(e: Encoding, f: Encoding, raw: Bytes)
    requires Quanta(f, Encode(e, raw)).Some?
    ensures Encode(f, raw) == Encode(e, raw)
  {
    hide InAlphabet, CharOf, Encode1, Encode2, Encode3, Decode1, Decode2, Decode3;
    PadIsOutside(e);
    PadIsOutside(f);
    var s := Encode(e, raw);
    if |raw| == 1 {
      var q := Encode1(e, raw[0]);
      assert s[0] == q[0] && s[1] == q[1];
      Shared1(e, f, raw[0]);
    } else if |raw| == 2 {
      var q := Encode2(e, raw[0], raw[1]);
      assert s[0] == q[0] && s[1] == q[1] && s[2] == q[2];
      Shared2(e, f, raw[0], raw[1]);
    } else if |raw| >= 3 {
      var q := Encode3(e, raw[0], raw[1], raw[2]);
      assert s[0] == q[0] && s[1] == q[1] && s[2] == q[2] && s[3] == q[3];
      assert s[4..] == Encode(e, raw[3..]);
      assert q[2] in q && q[3] in q;
      Shared3(e, f, raw[0], raw[1], raw[2]);
      ReencodesAlike(e, f, raw[3..]);
    }
  }

  /** What encoding writes, the same encoding reads back. */
  lemma DecodeStringOfEncode(e: Encoding, raw: Bytes)
    ensures DecodeString(e, Encode(e, raw)) == Some(raw)
    ensures TrimSpace(Encode(e, raw)) == Encode(e, raw)
  {
    hide Encode, InAlphabet, Quanta;
    QuantaOfEncode(e, raw);
    EncodedBytes(e, raw);
    StripKeeps(Encode(e, raw));
    TrimKeepsSolid(Encode(e, raw));
  }

  predicate Plausible(c: byte) {
    InAlphabet(STD, c) || InAlphabet(URL, c) || c == PAD || IsNewline(c)
  }

  lemma EncodedBytes(e: Encoding, raw: Bytes)
    ensures forall c :: c in Encode(e, raw) ==> Plausible(c) && !IsNewline(c) && Solid(c)
  {
    hide Encode, Quanta;
    QuantaOfEncode(e, raw);
  }

  // ---------- Decode ----------

  type Accept = Option<Bytes -> bool>

  predicate Accepts(accept: Accept, raw: Bytes) {
    accept.None? || accept.value(raw)
  }

  /** Every alphabet in turn, each with its own buffer and no early rejection. */
  function FirstAccepted(s: Bytes, accept: Accept, encodings: seq<Encoding>): Option<(Bytes, Encoding)> {
    if encodings == [] then None
    else
      var raw := DecodeString(encodings[0], s);
      if raw.Some? && Accepts(accept, raw.value) then Some((raw.value, encodings[0]))
      else FirstAccepted(s, accept, encodings[1..])
  }

  function Decoded(s: Bytes, accept: Accept): Option<(Bytes, Encoding)> {
    FirstAccepted(TrimSpace(s), accept, ENCODINGS)
  }

  /** accept sees at most one distinct result: the answer depends on it for that
      one value only, and the alphabet is the first that decodes at all. */
  lemma {:induction false} AcceptSeesOneValue(s: Bytes, accept: Accept, encodings: seq<Encoding>, raw: Bytes)
    requires forall e :: e in encodings && DecodeString(e, s).Some? ==> DecodeString(e, s).value == raw
    ensures FirstAccepted(s, accept, encodings) ==
      if Accepts(accept, raw) then FirstAccepted(s, None, encodings) else None
  {
    if encodings != [] {
      AcceptSeesOneValue(s, accept, encodings[1..], raw);
      assert encodings[0] in encodings;
    }
  }

  /** So, with or without the trimming that Decode does first, the alphabets give
      what they would give without accept, or nothing, as accept says of the one
      value that can be decoded. */
  lemma DecodedAsksOnce(text: Bytes, accept: Accept)
    ensures var unasked := FirstAccepted(text, None, ENCODINGS);
      FirstAccepted(text, accept, ENCODINGS) ==
      if unasked.Some? && Accepts(accept, unasked.value.0) then unasked else None
  {
    FirstAcceptedSound(text, None, ENCODINGS);
    FirstAcceptedSound(text, accept, ENCODINGS);
    var unasked := FirstAccepted(text, None, ENCODINGS);
    if unasked.Some? {
      forall e | e in ENCODINGS && DecodeString(e, text).Some? ensures DecodeString(e, text).value == unasked.value.0 {
        AlphabetsAgree(e, unasked.value.1, text);
      }
      AcceptSeesOneValue(text, accept, ENCODINGS, unasked.value.0);
    }
  }

  lemma {:induction false} FirstAcceptedSound(s: Bytes, accept: Accept, encodings: seq<Encoding>)
    ensures var r := FirstAccepted(s, accept, encodings);
      if r.Some? then r.value.1 in encodings && DecodeString(r.value.1, s) == Some(r.value.0) && Accepts(accept, r.value.0)
      else forall e :: e in encodings && DecodeString(e, s).Some? ==> !Accepts(accept, DecodeString(e, s).value)
  {
    if encodings != [] {
      FirstAcceptedSound(s, accept, encodings[1..]);
    }
  }

  /** Decode reads back what any of the alphabets wrote, if the bytes are
      accepted, and names an alphabet that writes the same text. */
  lemma DecodedOfEncode(e: Encoding, raw: Bytes, accept: Accept)
    requires e in ENCODINGS && Accepts(accept, raw)
    ensures var r := Decoded(Encode(e, raw), accept);
      r.Some? && r.value.0 == raw && r.value.1 in ENCODINGS && Encode(r.value.1, raw) == Encode(e, raw)
  {
    var s := Encode(e, raw);
    DecodeStringOfEncode(e, raw);
    FirstAcceptedSound(s, accept, ENCODINGS);
    var f := Decoded(s, accept).value.1;
    AlphabetsAgree(e, f, s);
    EncodedBytes(e, raw);
    StripKeeps(s);
    ReencodesAlike(e, f, raw);
  }

  // ---------- the decoder over a buffer ----------

  lemma QuantaOfFour(e: Encoding, quad: Bytes, rest: Bytes)
    requires |quad| == 4 && AllIn(e, quad)
    ensures Quanta(e, quad + rest) == Prepend(Decode3(quad[0], quad[1], quad[2], quad[3]), Quanta(e, rest))
  {
    assert (quad + rest)[4..] == rest;
  }

  lemma QuantaAtEnd(e: Encoding, quad: Bytes)
    requires |quad| < 4 && AllIn(e, quad)
    ensures Quanta(e, quad) ==
      if quad == [] then Some([])
      else if e.padded || |quad| == 1 then None
      else if |quad| == 2 then Some(Decode1(quad[0], quad[1]))
      else Some(Decode2(quad[0], quad[1], quad[2]))
  {}

  lemma QuantaAtStop(e: Encoding, quad: Bytes, c: byte, rest: Bytes)
    requires |quad| < 4 && AllIn(e, quad) && !InAlphabet(e, c)
    ensures Quanta(e, quad + [c] + rest) ==
      if !e.padded || c != PAD then None
      else if |quad| == 2 && rest == [PAD] then Some(Decode1(quad[0], quad[1]))
      else if |quad| == 3 && rest == [] then Some(Decode2(quad[0], quad[1], quad[2]))
      else None
  {
    hide InAlphabet, Decode1, Decode2, Decode3;
    PadIsOutside(e);
    var s := quad + [c] + rest;
    assert s[|quad|] == c;
    assert forall i :: 0 <= i < |quad| ==> s[i] == quad[i];
    assert |rest| > 0 ==> s[|quad| + 1] == rest[0];
  }

  lemma StripAt(src: Bytes, i: nat)
    requires i < |src|
    ensures StripNewlines(src[i..]) ==
      if IsNewline(src[i]) then StripNewlines(src[i + 1..]) else [src[i]] + StripNewlines(src[i + 1..])
  {
    assert src[i..][1..] == src[i + 1..];
  }

  lemma PrependTwice(front: Bytes, quantum: Bytes, rest: Option<Bytes>)
    ensures Prepend(front, Prepend(quantum, rest)) == Prepend(front + quantum, rest)
  {
    if rest.Some? {
      assert front + (quantum + rest.value) == front + quantum + rest.value;
    }
  }

  /** The position after any newlines at i. */
  method SkipNewlines(src: Bytes, i: nat) returns (j: nat)
    requires i <= |src|
    ensures i <= j <= |src|
    ensures StripNewlines(src[j..]) == StripNewlines(src[i..])
    ensures j < |src| ==> !IsNewline(src[j])
  {
    j := i;
    while j < |src| && IsNewline(src[j])
      invariant i <= j <= |src|
      invariant StripNewlines(src[j..]) == StripNewlines(src[i..])
    {
      StripAt(src, j);
      j := j + 1;
    }
  }

  /** Encoding.Decode: whatever the buffer held before, floor(6n/8) bytes of it
      suffice, and on success its first n bytes are the decoded text. */
  method DecodeInto(e: Encoding, dst: array<byte>, src: Bytes) returns (n: nat, ok: bool)
    requires dst.Length >= |src| * 6 / 8
    modifies dst
    ensures n <= dst.Length
    ensures ok <==> DecodeString(e, src).Some?
    ensures ok ==> dst[..n] == DecodeString(e, src).value
  {
    hide InAlphabet, Quanta, Tail, StripNewlines, ValueOf, Decode1, Decode2, Decode3;
    n, ok := 0, false;
    var si := 0;
    var quantum: Bytes := [];
    assert src[0..] == src;
    assert [] + StripNewlines(src) == StripNewlines(src);
    PrependNothing(Quanta(e, StripNewlines(src)));
    while si < |src|
      invariant si <= |src| && |quantum| < 4 && AllIn(e, quantum)
      invariant 4 * n + 3 * |quantum| <= 3 * si && n <= dst.Length
      invariant DecodeString(e, src) == Prepend(dst[..n], Quanta(e, quantum + StripNewlines(src[si..])))
    {
      var c := src[si];
      StripAt(src, si);
      ghost var rest := StripNewlines(src[si + 1..]);
      si := si + 1;
      if InAlphabet(e, c) {
        InsideIsNoNewline(e, c);
        assert quantum + ([c] + rest) == quantum + [c] + rest;
        quantum := quantum + [c];
        if |quantum| == 4 {
          QuantaOfFour(e, quantum, rest);
          PrependTwice(dst[..n], Decode3(quantum[0], quantum[1], quantum[2], quantum[3]), Quanta(e, rest));
          n := Write(dst, n, Decode3(quantum[0], quantum[1], quantum[2], quantum[3]));
          quantum := [];
          assert [] + rest == rest;
        }
        continue;
      }
      if IsNewline(c) {
        continue;
      }
      assert quantum + ([c] + rest) == quantum + [c] + rest;
      QuantaAtStop(e, quantum, c, rest);
      if !e.padded || c != PAD || |quantum| < 2 {
        return;
      }
      if |quantum| == 2 {
        si := SkipNewlines(src, si);
        if si == |src| || src[si] != PAD {
          StripEmptyOrHead(src, si);
          return;
        }
        StripAt(src, si);
        si := si + 1;
      }
      si := SkipNewlines(src, si);
      StripEmptyOrHead(src, si);
      if si < |src| {
        return;
      }
      if |quantum| == 2 {
        n := Write(dst, n, Decode1(quantum[0], quantum[1]));
      } else {
        n := Write(dst, n, Decode2(quantum[0], quantum[1], quantum[2]));
      }
      return n, true;
    }
    StripEmptyOrHead(src, si);
    assert quantum + [] == quantum;
    QuantaAtEnd(e, quantum);
    if quantum == [] {
      PrependEmpty(dst[..n]);
      return n, true;
    }
    if e.padded || |quantum| == 1 {
      return;
    }
    if |quantum| == 2 {
      n := Write(dst, n, Decode1(quantum[0], quantum[1]));
    } else {
      n := Write(dst, n, Decode2(quantum[0], quantum[1], quantum[2]));
    }
    ok := true;
  }

  lemma PrependNothing(rest: Option<Bytes>)
    ensures Prepend([], rest) == rest
  {
    if rest.Some? {
      assert [] + rest.value == rest.value;
    }
  }

  lemma PrependEmpty(front: Bytes)
    ensures Prepend(front, Some([])) == Some(front)
  {
    assert front + [] == front;
  }

  lemma InsideIsNoNewline(e: Encoding, c: byte)
    requires InAlphabet(e, c)
    ensures !IsNewline(c)
  {}

  lemma StripEmptyOrHead(src: Bytes, i: nat)
    requires i <= |src|
    ensures i == |src| ==> StripNewlines(src[i..]) == []
    ensures i < |src| && !IsNewline(src[i]) ==> StripNewlines(src[i..]) != [] && StripNewlines(src[i..])[0] == src[i]
  {}

  method Write(dst: array<byte>, n: nat, quantum: Bytes) returns (m: nat)
    requires n + |quantum| <= dst.Length
    modifies dst
    ensures m == n + |quantum|
    ensures dst[..m] == old(dst[..n]) + quantum
  {
    for k := 0 to |quantum|
      invariant dst[..n + k] == old(dst[..n]) + quantum[..k]
    {
      dst[n + k] := quantum[k];
      assert quantum[..k + 1] == quantum[..k] + [quantum[k]];
    }
    m := n + |quantum|;
  }

  /** A byte outside both alphabets rules every decode out. */
  lemma ImplausibleNeverDecodes(s: Bytes, c: byte, e: Encoding)
    requires c in s && !Plausible(c)
    ensures DecodeString(e, s).None?
  {
    hide Quanta, StripNewlines;
    StrippedBytes(s);
    if DecodeString(e, s).Some? {
      QuantaBytes(e, StripNewlines(s));
      InSomeAlphabet(e, c);
    }
  }

  lemma InSomeAlphabet(e: Encoding, c: byte)
    ensures InAlphabet(e, c) ==> InAlphabet(STD, c) || InAlphabet(URL, c)
  {}

  lemma {:induction false} NothingDecodes(s: Bytes, accept: Accept, encodings: seq<Encoding>)
    requires forall e :: DecodeString(e, s).None?
    ensures FirstAccepted(s, accept, encodings).None?
  {
    if encodings != [] {
      NothingDecodes(s, accept, encodings[1..]);
    }
  }

  method IsPlausible(s: Bytes) returns (all: bool)
    ensures all <==> forall c :: c in s ==> Plausible(c)
  {
    for i := 0 to |s|
      invariant forall j :: 0 <= j < i ==> Plausible(s[j])
    {
      var c := s[i];
      if 'A' <= c <= 'Z' || 'a' <= c <= 'z' || '0' <= c <= '9' {
      } else if c == '+' || c == '/' || c == '-' || c == '_' || c == '=' || c == '\r' || c == '\n' {
      } else {
        assert !Plausible(s[i]);
        return false;
      }
    }
    all := true;
  }

  /** The early rejection and the one buffer shared by all four attempts change
      nothing: the result is that of independent decodes in order. */
  method Decode(s: Bytes, accept: Accept) returns (r: Option<(Bytes, Encoding)>)
    ensures r == Decoded(s, accept)
  {
    var t := TrimSpace(s);
    var plausible := IsPlausible(t);
    if !plausible {
      var c :| c in t && !Plausible(c);
      forall e ensures DecodeString(e, t).None? {
        ImplausibleNeverDecodes(t, c, e);
      }
      NothingDecodes(t, accept, ENCODINGS);
      return None;
    }
    var dst := new byte[|t| * 6 / 8];
    for i := 0 to |ENCODINGS|
      invariant FirstAccepted(t, accept, ENCODINGS[i..]) == FirstAccepted(t, accept, ENCODINGS)
    {
      assert ENCODINGS[i..][0] == ENCODINGS[i] && ENCODINGS[i..][1..] == ENCODINGS[i + 1..];
      var n, ok := DecodeInto(ENCODINGS[i], dst, t);
      if ok && (accept.None? || accept.value(dst[..n])) {
        return Some((dst[..n], ENCODINGS[i]));
      }
    }
    r := None;
  }
}
