/** Response headers: field names in canonical form, each with its values. */
module Headers {
  import opened Strings

  type Header = map<Bytes, seq<Bytes>>

  const CONTENT_LENGTH: Bytes := "Content-Length"

  /** A byte that may stand in a field name (section 5.6.2 of RFC 9110). */
  predicate IsToken(c: byte) {
    'a' <= c <= 'z' || 'A' <= c <= 'Z' || '0' <= c <= '9' || c in "!#$%&'*+-.^_`|~"
  }

  function Capital(c: byte): byte {
    if 'a' <= c <= 'z' then ((c as int) - 32) as char else c
  }

  function Small(c: byte): byte {
    if 'A' <= c <= 'Z' then ((c as int) + 32) as char else c
  }

  function Cased(s: Bytes, upper: bool): (r: Bytes)
    ensures |r| == |s|
  {
    if s == [] then [] else [if upper then Capital(s[0]) else Small(s[0])] + Cased(s[1..], s[0] == '-')
  }

  /** http.CanonicalHeaderKey: a capital in front and behind every hyphen; a
      name with a byte no field name may hold stays as it is. */
  function Canonical(name: Bytes): (r: Bytes)
    ensures |r| == |name|
  {
    if forall c :: c in name ==> IsToken(c) then Cased(name, true) else name
  }

  predicate AllCanonical(h: Header) {
    forall k :: k in h ==> Canonical(k) == k
  }

  lemma CasedOne(c: byte)
    ensures IsToken(c) ==> IsToken(Capital(c)) && IsToken(Small(c))
    ensures Capital(Capital(c)) == Capital(c) && Small(Small(c)) == Small(c)
    ensures Capital(c) == '-' <==> c == '-'
    ensures Small(c) == '-' <==> c == '-'
  {}

  lemma {:induction false} CasedTwice(s: Bytes, upper: bool)
    ensures Cased(Cased(s, upper), upper) == Cased(s, upper)
    ensures (forall c :: c in s ==> IsToken(c)) ==> forall c :: c in Cased(s, upper) ==> IsToken(c)
  {
    hide IsToken, Capital, Small;
    if s != [] {
      CasedOne(s[0]);
      CasedTwice(s[1..], s[0] == '-');
      var t := Cased(s, upper);
      assert t[1..] == Cased(s[1..], s[0] == '-');
    }
  }

  lemma CanonicalTwice(name: Bytes)
    ensures Canonical(Canonical(name)) == Canonical(name)
  {
    hide IsToken, Cased;
    CasedTwice(name, true);
  }

  /** The values of a field, none when it is absent. */
  function Field(h: Header, key: Bytes): Option<seq<Bytes>> {
    if key in h then Some(h[key]) else None
  }

  lemma FieldIs(h: Header, key: Bytes)
    ensures Field(h, key) == if key in h then Some(h[key]) else None
  {}

  /** The first value of a field. */
  function FirstValue(h: Header, name: Bytes): Option<Bytes> {
    var key := Canonical(name);
    if key in h && h[key] != [] then Some(h[key][0]) else None
  }

  /** Header.Get: absent reads as empty. */
  function Get(h: Header, name: Bytes): Bytes {
    FirstValue(h, name).GetOr([])
  }

  lemma GetReadsField(h: Header, name: Bytes)
    ensures Get(h, name) ==
      var values := Field(h, Canonical(name)).GetOr([]); if values == [] then [] else values[0]
  {
    hide Canonical;
  }

  /** Header.Set. */
  function Set(h: Header, name: Bytes, value: Bytes): Header {
    h[Canonical(name) := [value]]
  }

  /** Header.Del. */
  function Del(h: Header, name: Bytes): Header {
    h - {Canonical(name)}
  }

  lemma SetKeepsCanonical(h: Header, name: Bytes, value: Bytes)
    requires AllCanonical(h)
    ensures AllCanonical(Set(h, name, value)) && AllCanonical(Del(h, name))
  {
    CanonicalTwice(name);
  }

  lemma SetIsRead(h: Header, name: Bytes, value: Bytes)
    ensures Get(Set(h, name, value), name) == value
  {}
}
