/** Decimal text: Go's `%d` and `strconv.ParseUint(s, 10, 64)`. */
module Decimal {
  import opened ByteStrings

  const ZERO: byte := 48
  const MAX_UINT64: int := 0xFFFF_FFFF_FFFF_FFFF

  predicate IsDigit(c: byte) {
    48 <= c <= 57
  }

  function Digits(n: nat): (s: bytes)
    ensures s != [] && forall i :: 0 <= i < |s| ==> IsDigit(s[i])
    decreases n
  {
    if n < 10 then [(48 + n) as byte] else Digits(n / 10) + [(48 + n % 10) as byte]
  }

  /** The number that a string of digits spells. */
  function ValueOf(s: bytes): nat
    requires forall i :: 0 <= i < |s| ==> IsDigit(s[i])
  {
    if s == [] then 0 else 10 * ValueOf(s[..|s| - 1]) + (var c := s[|s| - 1]; assert IsDigit(c); c as int - 48)
  }

  lemma {:induction false} ValueOfDigits(n: nat)
    ensures ValueOf(Digits(n)) == n
    decreases n
  {
    var s := Digits(n);
    if n < 10 {
      assert s[..0] == [];
    } else {
      assert s[..|s| - 1] == Digits(n / 10);
      ValueOfDigits(n / 10);
    }
  }

  /** Base 10 is given, so no sign, underscore or prefix is allowed; leading zeros are. */
  function ParseUint64(s: bytes): Option<nat> {
    if s == [] || exists i :: 0 <= i < |s| && !IsDigit(s[i]) then None
    else if ValueOf(s) > MAX_UINT64 then None
    else Some(ValueOf(s))
  }

  lemma ParseUint64RoundTrip(n: nat)
    ensures ParseUint64(Digits(n)) == if n <= MAX_UINT64 then Some(n) else None
  {
    ValueOfDigits(n);
  }

  /** Base ten, the most significant digit first and never a zero before others. */
  lemma {:induction false} DigitsSpell(n: nat)
    ensures var s := Digits(n);
      && s[|s| - 1] == "0123456789"[n % 10] as int as byte
      && (|s| == 1 <==> n < 10)
      && (n >= 10 ==> s[..|s| - 1] == Digits(n / 10) && s[0] != '0' as int as byte)
    decreases n
  {
    if n >= 10 {
      DigitsSpell(n / 10);
      assert Digits(n)[..|Digits(n)| - 1] == Digits(n / 10);
    }
  }

  /** What a further digit adds to the number. */
  lemma ValueOfSnoc(s: bytes, c: byte)
    requires IsDigit(c) && forall i :: 0 <= i < |s| ==> IsDigit(s[i])
    ensures ValueOf([]) == 0 && ValueOf(s + [c]) == 10 * ValueOf(s) + c as int - '0' as int
  {
    assert (s + [c])[..|s|] == s;
  }

  /** A non-empty string of digits for a number below 2^64. */
  predicate Spells(s: bytes, n: nat) {
    && s != [] && (forall i :: 0 <= i < |s| ==> '0' as int <= s[i] as int <= '9' as int)
    && n < 0x1_0000_0000_0000_0000 && n == ValueOf(s)
  }

  /** Exactly these strings are sizes. */
  lemma ParsesIff(s: bytes, n: nat)
    ensures ParseUint64(s) == Some(n) <==> Spells(s, n)
  {
  }
}
