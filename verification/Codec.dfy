/** How a header value is wrapped on the wire, and unwrapped again. */
module Codec {
  import opened Strings
  import Base64

  datatype Form = Plain | Base64Prefixed | Base64Bare

  const PREFIX: Bytes := "base64:"

  predicate Between(c: byte, low: byte, high: byte) {
    low <= c <= high
  }

  predicate Continues(s: Bytes, i: nat) {
    i < |s| && Between(s[i], '\U{80}', '\U{BF}')
  }

  /** Length of the UTF-8 sequence s starts with, 0 when it starts with none. */
  function RuneSize(s: Bytes): (n: nat)
    ensures n <= |s| && n <= 4
  {
    if s == [] then 0
    else if s[0] < '\U{80}' then 1
    else if Between(s[0], '\U{C2}', '\U{DF}') && Continues(s, 1) then 2
    else if Between(s[0], '\U{E0}', '\U{EF}') && Continues(s, 1) && Continues(s, 2)
            && (s[0] == '\U{E0}' ==> s[1] >= '\U{A0}') && (s[0] == '\U{ED}' ==> s[1] < '\U{A0}') then 3
    else if Between(s[0], '\U{F0}', '\U{F4}') && Continues(s, 1) && Continues(s, 2) && Continues(s, 3)
            && (s[0] == '\U{F0}' ==> s[1] >= '\U{90}') && (s[0] == '\U{F4}' ==> s[1] < '\U{90}') then 4
    else 0
  }

  predicate ValidUtf8(s: Bytes) {
    s == [] || (RuneSize(s) > 0 && ValidUtf8(s[RuneSize(s)..]))
  }

  /** Non-empty UTF-8 without control characters other than tab and line breaks. */
  predicate IsText(raw: Bytes) {
    && raw != []
    && ValidUtf8(raw)
    && forall c :: c in raw ==> c >= ' ' || c == '\t' || c == '\n' || c == '\r'
  }

  function DecodeAny(value: Bytes): Option<Bytes> {
    var trimmed := TrimSpace(value);
    if |trimmed| < 4 then None
    else
      match Base64.Decoded(trimmed, Some(IsText))
      case None => None
      case Some((raw, _)) => Some(raw)
  }

  function DecodeBase64(value: Bytes): Option<(Bytes, Form)> {
    if PREFIX <= value then
      match DecodeAny(TrimSpace(value[|PREFIX|..]))
      case None => None
      case Some(text) => Some((text, Base64Prefixed))
    else
      match DecodeAny(value)
      case None => None
      case Some(text) => Some((text, Base64Bare))
  }

  function Encode(text: Bytes, form: Form): Bytes {
    match form
    case Base64Prefixed => PREFIX + Base64.Encode(Base64.STD, text)
    case Base64Bare => Base64.Encode(Base64.STD, text)
    case Plain => text
  }

  lemma EncodedLength(raw: Bytes)
    requires raw != []
    ensures |Base64.Encode(Base64.STD, raw)| >= 4
  {}

  lemma NoPrefix(s: Bytes)
    requires ':' !in s
    ensures !(PREFIX <= s)
  {
    if |s| >= 7 {
      assert s[6] in s;
    }
  }

  lemma TextIsNotEmpty(text: Bytes)
    requires IsText(text)
    ensures text != []
  {}

  lemma DecodeAnyOfEncode(text: Bytes)
    requires IsText(text)
    ensures var s := Base64.Encode(Base64.STD, text);
      DecodeAny(s) == Some(text) && TrimSpace(s) == s && ':' !in s
  {
    hide IsText, Base64.Encode, Base64.Decoded, Base64.DecodeString, TrimSpace;
    TextIsNotEmpty(text);
    EncodedLength(text);
    Base64.DecodeStringOfEncode(Base64.STD, text);
    Base64.DecodedOfEncode(Base64.STD, text, Some(IsText));
    Base64.EncodedBytes(Base64.STD, text);
  }

  /** Printable text wrapped in either base64 form comes back as the same text in the same form. */
  lemma DecodeInvertsEncode(text: Bytes, form: Form)
    requires IsText(text) && form != Plain
    ensures DecodeBase64(Encode(text, form)) == Some((text, form))
  {
    hide IsText, DecodeAny, Base64.Encode, TrimSpace;
    var s := Base64.Encode(Base64.STD, text);
    DecodeAnyOfEncode(text);
    if form.Base64Prefixed? {
      assert (PREFIX + s)[|PREFIX|..] == s;
    } else {
      NoPrefix(s);
    }
  }
}
