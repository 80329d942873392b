/** `encoding/hex`: lower-case output, either case accepted. */
module Hex {
  import opened ByteStrings

  function Digit(n: nat): (c: char)
    requires n < 16
  {
    if n < 10 then (48 + n) as char else (87 + n) as char
  }

  function DigitValue(c: char): (n: Option<nat>)
    ensures n.Some? ==> n.value < 16
  {
    if '0' <= c <= '9' then Some(c as int - 48)
    else if 'a' <= c <= 'f' then Some(c as int - 87)
    else if 'A' <= c <= 'F' then Some(c as int - 55)
    else None
  }

  function Encode(b: bytes): (s: string)
    ensures |s| == 2 * |b|
  {
    if b == [] then "" else
      [Digit(b[0] as int / 16), Digit(b[0] as int % 16)] + Encode(b[1..])
  }

  function Decode(s: string): Option<bytes> {
    if s == "" then Some([])
    else if |s| == 1 then None
    else
      var hi, lo, rest := DigitValue(s[0]), DigitValue(s[1]), Decode(s[2..]);
      if hi.None? || lo.None? || rest.None? then None
      else Some([(16 * hi.value + lo.value) as byte] + rest.value)
  }

  lemma {:induction false} DecodeEncode(b: bytes)
    ensures Decode(Encode(b)) == Some(b)
  {
    if b != [] {
      assert Encode(b)[2..] == Encode(b[1..]);
      DecodeEncode(b[1..]);
      assert b == [b[0]] + b[1..];
    }
  }

  lemma EncodeInjective(a: bytes, b: bytes)
    requires Encode(a) == Encode(b)
    ensures a == b
  {
    DecodeEncode(a);
    DecodeEncode(b);
  }

  // ---- digits, two per byte ----

  lemma {:induction false} EncodeAt(b: bytes, i: nat)
    requires i < |b|
    ensures Encode(b)[2 * i] == "0123456789abcdef"[b[i] as int / 16]
    ensures Encode(b)[2 * i + 1] == "0123456789abcdef"[b[i] as int % 16]
    decreases |b|
  {
    DigitIsLower(b[0] as int / 16);
    DigitIsLower(b[0] as int % 16);
    if i > 0 {
      EncodeAt(b[1..], i - 1);
    }
  }

  lemma DigitIsLower(n: nat)
    requires n < 16
    ensures Digit(n) == "0123456789abcdef"[n]
  {
  }

  /** A character that stands for a hex digit, in either case. */
  predicate IsDigitOf(c: char, n: nat)
    requires n < 16
  {
    c == "0123456789abcdef"[n] || c == "0123456789ABCDEF"[n]
  }

  /** A text that spells some bytes, two digits for each. */
  predicate Spells(s: string, b: bytes) {
    && |s| == 2 * |b|
    && forall i :: 0 <= i < |b| ==> IsDigitOf(s[2 * i], b[i] as int / 16) && IsDigitOf(s[2 * i + 1], b[i] as int % 16)
  }

  lemma DigitValueIs(c: char, n: nat)
    requires n < 16
    ensures IsDigitOf(c, n) <==> DigitValue(c) == Some(n)
  {
  }

  /** Decoding gives exactly the bytes that are spelled, and fails when none are. */
  lemma {:induction false} DecodesSpelled(s: string, b: bytes)
    ensures Decode(s) == Some(b) <==> Spells(s, b)
    decreases |s|
  {
    hide DigitValue, IsDigitOf;
    if |s| >= 2 && b != [] {
      DecodesSpelled(s[2..], b[1..]);
      DigitValueIs(s[0], b[0] as int / 16);
      DigitValueIs(s[1], b[0] as int % 16);
      SpellsStep(s, b);
      assert b == [b[0]] + b[1..];
      FirstByte(s, b);
    }
  }

  lemma SpellsStep(s: string, b: bytes)
    requires |s| >= 2 && b != []
    ensures Spells(s, b) <==>
      IsDigitOf(s[0], b[0] as int / 16) && IsDigitOf(s[1], b[0] as int % 16) && Spells(s[2..], b[1..])
  {
    hide IsDigitOf;
    var t, c := s[2..], b[1..];
    if Spells(s, b) {
      forall i | 0 <= i < |c| ensures IsDigitOf(t[2 * i], c[i] as int / 16) && IsDigitOf(t[2 * i + 1], c[i] as int % 16) {
        assert t[2 * i] == s[2 * (i + 1)] && t[2 * i + 1] == s[2 * (i + 1) + 1] && c[i] == b[i + 1];
      }
    }
    if IsDigitOf(s[0], b[0] as int / 16) && IsDigitOf(s[1], b[0] as int % 16) && Spells(t, c) {
      forall i | 0 <= i < |b| ensures IsDigitOf(s[2 * i], b[i] as int / 16) && IsDigitOf(s[2 * i + 1], b[i] as int % 16) {
        if i > 0 {
          assert t[2 * (i - 1)] == s[2 * i] && t[2 * (i - 1) + 1] == s[2 * i + 1] && c[i - 1] == b[i];
        }
      }
    }
  }

  lemma FirstByte(s: string, b: bytes)
    requires |s| >= 2 && b != []
    ensures Decode(s) == Some(b) <==>
      DigitValue(s[0]) == Some(b[0] as int / 16) && DigitValue(s[1]) == Some(b[0] as int % 16) && Decode(s[2..]) == Some(b[1..])
  {
    hide DigitValue;
    var hi, lo, rest := DigitValue(s[0]), DigitValue(s[1]), Decode(s[2..]);
    assert b == [b[0]] + b[1..];
    if hi.Some? && lo.Some? && rest.Some? {
      var whole := [(16 * hi.value + lo.value) as byte] + rest.value;
      assert whole[0] == (16 * hi.value + lo.value) as byte && whole[1..] == rest.value;
      assert (16 * hi.value + lo.value) / 16 == hi.value && (16 * hi.value + lo.value) % 16 == lo.value;
    }
  }
}
