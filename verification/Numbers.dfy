/** int64 arithmetic and the decimal parser of package strconv. */
module Numbers {
  import opened Strings

  const MAX_INT64 := 0x7FFF_FFFF_FFFF_FFFF

  /** int64 addition. */
  function Add64(a: int, b: int): int {
    var sum := a + b;
    if sum > MAX_INT64 then sum - 0x1_0000_0000_0000_0000
    else if sum < -MAX_INT64 - 1 then sum + 0x1_0000_0000_0000_0000
    else sum
  }

  function Digits(s: Bytes): Option<nat> {
    if s == [] then Some(0)
    else
      var last := s[|s| - 1];
      var front := Digits(s[..|s| - 1]);
      if front.Some? && '0' <= last <= '9' then Some(front.value * 10 + (last as int - '0' as int)) else None
  }

  /** strconv.ParseInt(s, 10, 64). */
  function ParseInt64(s: Bytes): Option<int> {
    var negative := s != [] && s[0] == '-';
    var body := if s != [] && (s[0] == '-' || s[0] == '+') then s[1..] else s;
    var n := if body == [] then None else Digits(body);
    if n.None? then None
    else
      var v: int := if negative then -(n.value as int) else n.value;
      if -MAX_INT64 - 1 <= v <= MAX_INT64 then Some(v) else None
  }

  /** strconv.Itoa of a natural number. */
  function Decimal(n: nat): Bytes {
    var digit: Bytes := [('0' as int + n % 10) as char];
    if n < 10 then digit else Decimal(n / 10) + digit
  }

  /** The written length reads back. */
  lemma {:induction false} DecimalReadsBack(n: nat)
    ensures Decimal(n) != [] && Digits(Decimal(n)) == Some(n)
  {
    var d := Decimal(n);
    if n >= 10 {
      DecimalReadsBack(n / 10);
      assert d[..|d| - 1] == Decimal(n / 10);
    } else {
      assert d[..0] == [];
    }
  }

  /** strconv.Itoa and strconv.FormatInt in base 10. */
  function FormatInt(n: int): Bytes {
    if n < 0 then ['-'] + Decimal(-n) else Decimal(n)
  }
}
