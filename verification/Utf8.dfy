/** UTF-8 as far as note text and `strings.TrimSpace` depend on it. */
module Utf8 {
  import opened ByteStrings

  predicate Continues(c: byte) {
    0x80 <= c <= 0xBF
  }

  /** The length of the encoded rune that a string starts with, 0 when there is none. */
  function RuneLength(s: bytes): (n: nat)
    ensures n <= |s| && n <= 4
  {
    if s == [] then 0
    else if s[0] < 0x80 then 1
    else if |s| < 2 then 0
    else if 0xC2 <= s[0] <= 0xDF then (if Continues(s[1]) then 2 else 0)
    else if |s| < 3 || !Continues(s[2]) then 0
    else if 0xE0 <= s[0] <= 0xEF then
      var least, most := if s[0] == 0xE0 then 0xA0 else 0x80, if s[0] == 0xED then 0x9F else 0xBF;
      if least <= s[1] <= most then 3 else 0
    else if |s| < 4 || !Continues(s[3]) then 0
    else if 0xF0 <= s[0] <= 0xF4 then
      var least, most := if s[0] == 0xF0 then 0x90 else 0x80, if s[0] == 0xF4 then 0x8F else 0xBF;
      if least <= s[1] <= most then 4 else 0
    else 0
  }

  /** Valid UTF-8 with no ASCII control character but newlines. */
  predicate ValidText(s: bytes)
    decreases |s|
  {
    s == [] || (RuneLength(s) > 0 && (s[0] >= 0x20 || s[0] == NEWLINE) && ValidText(s[RuneLength(s)..]))
  }

  /** The length of the white space rune (`unicode.IsSpace`) that a string starts with, or 0. */
  function LeadingSpace(s: bytes): (n: nat)
    ensures n <= |s|
  {
    if |s| >= 1 && IsAsciiSpace(s[0]) then 1
    else if |s| >= 2 && IsTwoByteSpace(s[0], s[1]) then 2
    else if |s| >= 3 && IsThreeByteSpace(s[0], s[1], s[2]) then 3
    else 0
  }

  function TrailingSpace(s: bytes): (n: nat)
    ensures n <= |s|
  {
    var k := |s|;
    if k >= 1 && IsAsciiSpace(s[k - 1]) then 1
    else if k >= 2 && IsTwoByteSpace(s[k - 2], s[k - 1]) then 2
    else if k >= 3 && IsThreeByteSpace(s[k - 3], s[k - 2], s[k - 1]) then 3
    else 0
  }

  predicate IsAsciiSpace(c: byte) {
    9 <= c <= 13 || c == SPACE
  }

  /** U+0085 and U+00A0. */
  predicate IsTwoByteSpace(a: byte, b: byte) {
    a == 0xC2 && (b == 0x85 || b == 0xA0)
  }

  /** U+1680, U+2000 to U+200A, U+2028, U+2029, U+202F, U+205F and U+3000. */
  predicate IsThreeByteSpace(a: byte, b: byte, c: byte) {
    || (a == 0xE1 && b == 0x9A && c == 0x80)
    || (a == 0xE2 && b == 0x80 && (0x80 <= c <= 0x8A || c == 0xA8 || c == 0xA9 || c == 0xAF))
    || (a == 0xE2 && b == 0x81 && c == 0x9F)
    || (a == 0xE3 && b == 0x80 && c == 0x80)
  }

  function TrimLeft(s: bytes): bytes
    decreases |s|
  {
    if LeadingSpace(s) == 0 then s else TrimLeft(s[LeadingSpace(s)..])
  }

  function TrimRight(s: bytes): bytes
    decreases |s|
  {
    if TrailingSpace(s) == 0 then s else TrimRight(s[..|s| - TrailingSpace(s)])
  }

  /** `strings.TrimSpace`. */
  function TrimSpace(s: bytes): bytes {
    TrimRight(TrimLeft(s))
  }

  /** A plain byte is printable ASCII. */
  predicate IsPlain(c: byte) {
    0x21 <= c <= 0x7E
  }

  lemma {:induction false} PlainIsValid(s: bytes)
    requires forall i :: 0 <= i < |s| ==> s[i] == NEWLINE || s[i] == SPACE || IsPlain(s[i])
    ensures ValidText(s)
    decreases |s|
  {
    if s != [] {
      PlainIsValid(s[1..]);
    }
  }

  lemma RuneLengthAppend(a: bytes, b: bytes)
    requires RuneLength(a) > 0
    ensures RuneLength(a + b) == RuneLength(a)
    ensures (a + b)[RuneLength(a)..] == a[RuneLength(a)..] + b
  {
  }

  lemma {:induction false} ValidAppend(a: bytes, b: bytes)
    requires ValidText(a)
    ensures ValidText(a + b) <==> ValidText(b)
    decreases |a|
  {
    if a == [] {
      assert a + b == b;
    } else {
      var n := RuneLength(a);
      RuneLengthAppend(a, b);
      ValidAppend(a[n..], b);
    }
  }

  /** A key name: not empty, valid, with neither white space nor a plus sign. */
  predicate ValidName(name: bytes) {
    name != [] && NameRunes(name)
  }

  predicate NameRunes(s: bytes)
    decreases |s|
  {
    s == [] || (RuneLength(s) > 0 && LeadingSpace(s) == 0 && s[0] != 43 && NameRunes(s[RuneLength(s)..]))
  }

  lemma {:induction false} NameBytes(name: bytes)
    requires NameRunes(name)
    ensures SPACE !in name && NEWLINE !in name
    decreases |name|
  {
    if name != [] {
      var n := RuneLength(name);
      NameBytes(name[n..]);
      assert forall i :: 1 <= i < n ==> name[i] >= 0x80;
      assert name == name[..n] + name[n..];
    }
  }

  /** Only lead bytes and ASCII can stand where no rune is continued. */
  lemma {:induction false} ValidBytes(s: bytes)
    requires ValidText(s)
    ensures forall i :: 0 <= i < |s| ==> s[i] >= 0x20 || s[i] == NEWLINE
    decreases |s|
  {
    if s != [] {
      var n := RuneLength(s);
      ValidBytes(s[n..]);
      assert forall i :: 1 <= i < n ==> s[i] >= 0x80;
      assert forall i :: n <= i < |s| ==> s[i] == s[n..][i - n];
    }
  }

  lemma RuneStopsAtNewline(a: bytes, b: bytes)
    requires a != [] && RuneLength(a + [NEWLINE] + b) > 0
    ensures RuneLength(a + [NEWLINE] + b) == RuneLength(a)
  {
    var s := a + [NEWLINE] + b;
    assert s[|a|] == NEWLINE;
    assert forall i :: 0 <= i < |a| ==> s[i] == a[i];
  }

  /** Valid text splits at newlines into valid parts. */
  lemma {:induction false} ValidSplit(a: bytes, b: bytes)
    requires ValidText(a + [NEWLINE] + b)
    ensures ValidText(a) && ValidText(b)
    decreases |a|
  {
    var s := a + [NEWLINE] + b;
    if a == [] {
      assert s[1..] == b;
    } else {
      RuneStopsAtNewline(a, b);
      var n := RuneLength(a);
      assert s[n..] == a[n..] + [NEWLINE] + b;
      ValidSplit(a[n..], b);
    }
  }

  // ---- code points ----

  /** A Unicode scalar value: no surrogate. */
  predicate IsScalar(c: nat) {
    c < 0xD800 || 0xE000 <= c < 0x11_0000
  }

  /** Its encoding (RFC 3629 section 3). */
  function EncodeRune(c: nat): (s: bytes)
    requires IsScalar(c)
    ensures 1 <= |s| <= 4
  {
    if c < 0x80 then [c as byte]
    else if c < 0x800 then [(0xC0 + c / 0x40) as byte, (0x80 + c % 0x40) as byte]
    else if c < 0x1_0000 then [(0xE0 + c / 0x1000) as byte, (0x80 + c / 0x40 % 0x40) as byte, (0x80 + c % 0x40) as byte]
    else [(0xF0 + c / 0x4_0000) as byte, (0x80 + c / 0x1000 % 0x40) as byte, (0x80 + c / 0x40 % 0x40) as byte, (0x80 + c % 0x40) as byte]
  }

  lemma ShortRune(s: bytes, p: nat, q: nat)
    requires p < 0x20 && q < 0x40 && p >= 2 && |s| >= 2 && s[0] as int == 0xC0 + p && s[1] as int == 0x80 + q
    ensures RuneLength(s) == 2
  {
  }

  lemma ThreeByteRune(s: bytes, p: nat, q: nat, r: nat)
    requires p < 0x10 && q < 0x40 && r < 0x40 && (p == 0 ==> q >= 0x20) && (p == 0xD ==> q < 0x20)
    requires |s| >= 3 && s[0] as int == 0xE0 + p && s[1] as int == 0x80 + q && s[2] as int == 0x80 + r
    ensures RuneLength(s) == 3
  {
  }

  lemma FourByteRune(s: bytes, p: nat, q: nat, r: nat, t: nat)
    requires p < 5 && q < 0x40 && r < 0x40 && t < 0x40 && (p == 0 ==> q >= 0x10) && (p == 4 ==> q < 0x10)
    requires |s| >= 4 && s[0] as int == 0xF0 + p && s[1] as int == 0x80 + q && s[2] as int == 0x80 + r && s[3] as int == 0x80 + t
    ensures RuneLength(s) == 4
  {
  }

  /** A string that starts with an encoded scalar value starts with a rune of that length. */
  lemma RuneEncoded(c: nat, x: bytes)
    requires IsScalar(c)
    ensures RuneLength(EncodeRune(c) + x) == |EncodeRune(c)|
  {
    hide RuneLength;
    var e := EncodeRune(c);
    var s := e + x;
    if c < 0x80 {
      OneByteRune(s);
    } else if c < 0x800 {
      assert s[0] == e[0] && s[1] == e[1];
      ShortRune(s, c / 0x40, c % 0x40);
    } else if c < 0x1_0000 {
      ThreeBytesEncoded(c, x);
    } else {
      FourBytesEncoded(c, x);
    }
  }

  lemma ThreeBytesEncoded(c: nat, x: bytes)
    requires IsScalar(c) && 0x800 <= c < 0x1_0000
    ensures RuneLength(EncodeRune(c) + x) == 3
  {
    hide RuneLength;
    var e := EncodeRune(c);
    var s := e + x;
    assert s[0] == e[0] && s[1] == e[1] && s[2] == e[2];
    assert c / 0x40 == c / 0x1000 * 0x40 + c / 0x40 % 0x40;
    ThreeByteRune(s, c / 0x1000, c / 0x40 % 0x40, c % 0x40);
  }

  lemma FourBytesEncoded(c: nat, x: bytes)
    requires IsScalar(c) && 0x1_0000 <= c
    ensures RuneLength(EncodeRune(c) + x) == 4
  {
    hide RuneLength;
    var e := EncodeRune(c);
    var s := e + x;
    assert s[0] == e[0] && s[1] == e[1] && s[2] == e[2] && s[3] == e[3];
    assert c / 0x1000 == c / 0x4_0000 * 0x40 + c / 0x1000 % 0x40;
    FourByteRune(s, c / 0x4_0000, c / 0x1000 % 0x40, c / 0x40 % 0x40, c % 0x40);
  }

  lemma OneByteRune(s: bytes)
    requires s != [] && s[0] < 0x80
    ensures RuneLength(s) == 1
  {
  }

  /** And a rune is always one encoded scalar value. */
  lemma RuneDecoded(s: bytes) returns (c: nat)
    requires RuneLength(s) > 0
    ensures IsScalar(c) && EncodeRune(c) == s[..RuneLength(s)]
  {
    var n := RuneLength(s);
    if n == 1 {
      c := s[0] as int;
    } else if n == 2 {
      c := (s[0] as int - 0xC0) * 0x40 + (s[1] as int - 0x80);
    } else if n == 3 {
      c := (s[0] as int - 0xE0) * 0x1000 + (s[1] as int - 0x80) * 0x40 + (s[2] as int - 0x80);
      ThreeParts(s[0] as int - 0xE0, s[1] as int - 0x80, s[2] as int - 0x80);
    } else {
      c := (s[0] as int - 0xF0) * 0x4_0000 + (s[1] as int - 0x80) * 0x1000 + (s[2] as int - 0x80) * 0x40 + (s[3] as int - 0x80);
      FourParts(s[0] as int - 0xF0, s[1] as int - 0x80, s[2] as int - 0x80, s[3] as int - 0x80);
    }
  }

  lemma ThreeParts(p: nat, q: nat, r: nat)
    requires q < 0x40 && r < 0x40
    ensures var c := p * 0x1000 + q * 0x40 + r; c / 0x1000 == p && c / 0x40 % 0x40 == q && c % 0x40 == r
  {
    assert (p * 0x1000 + q * 0x40 + r) / 0x40 == p * 0x40 + q;
  }

  lemma FourParts(p: nat, q: nat, r: nat, t: nat)
    requires q < 0x40 && r < 0x40 && t < 0x40
    ensures var c := p * 0x4_0000 + q * 0x1000 + r * 0x40 + t;
      c / 0x4_0000 == p && c / 0x1000 % 0x40 == q && c / 0x40 % 0x40 == r && c % 0x40 == t
  {
    var c := p * 0x4_0000 + q * 0x1000 + r * 0x40 + t;
    assert c / 0x1000 == p * 0x40 + q && c / 0x40 == (p * 0x40 + q) * 0x40 + r;
  }

  /** The property White_Space of the Unicode character database. */
  predicate IsSpaceRune(c: nat) {
    || 0x09 <= c <= 0x0D || c == 0x20 || c == 0x85 || c == 0xA0 || c == 0x1680
    || 0x2000 <= c <= 0x200A || c == 0x2028 || c == 0x2029 || c == 0x202F || c == 0x205F || c == 0x3000
  }

  /** White space at either end is recognised exactly for these code points. */
  lemma SpaceAtEnds(c: nat, x: bytes)
    requires IsScalar(c)
    ensures LeadingSpace(EncodeRune(c) + x) == if IsSpaceRune(c) then |EncodeRune(c)| else 0
    ensures TrailingSpace(x + EncodeRune(c)) == if IsSpaceRune(c) then |EncodeRune(c)| else 0
  {
    hide LeadingSpace, TrailingSpace, IsSpaceRune;
    if c < 0x80 {
      ShortSpace(c, x);
    } else if c < 0x800 {
      TwoByteSpace(c, x);
    } else if c < 0x1_0000 {
      ThreeByteSpace(c, x);
    } else {
      NoFourByteSpace(c, x);
    }
  }

  lemma ShortSpace(c: nat, x: bytes)
    requires c < 0x80
    ensures LeadingSpace(EncodeRune(c) + x) == TrailingSpace(x + EncodeRune(c)) == if IsSpaceRune(c) then 1 else 0
  {
    var s, t, k := EncodeRune(c) + x, x + EncodeRune(c), |x| + 1;
    assert s[0] == t[k - 1] == EncodeRune(c)[0];
  }

  lemma TwoByteSpace(c: nat, x: bytes)
    requires 0x80 <= c < 0x800
    ensures LeadingSpace(EncodeRune(c) + x) == TrailingSpace(x + EncodeRune(c)) == if IsSpaceRune(c) then 2 else 0
  {
    var e, s, t, k := EncodeRune(c), EncodeRune(c) + x, x + EncodeRune(c), |x| + 2;
    assert s[0] == t[k - 2] == e[0] && s[1] == t[k - 1] == e[1];
    assert c == c / 0x40 * 0x40 + c % 0x40;
  }

  lemma ThreeByteSpace(c: nat, x: bytes)
    requires IsScalar(c) && 0x800 <= c < 0x1_0000
    ensures LeadingSpace(EncodeRune(c) + x) == TrailingSpace(x + EncodeRune(c)) == if IsSpaceRune(c) then 3 else 0
  {
    hide IsThreeByteSpace, IsSpaceRune;
    var e, s, t, k := EncodeRune(c), EncodeRune(c) + x, x + EncodeRune(c), |x| + 3;
    assert s[0] == t[k - 3] == e[0] && s[1] == t[k - 2] == e[1] && s[2] == t[k - 1] == e[2];
    ThreeByteSpaceIs(c);
  }

  lemma ThreeByteSpaceIs(c: nat)
    requires IsScalar(c) && 0x800 <= c < 0x1_0000
    ensures var e := EncodeRune(c); IsThreeByteSpace(e[0], e[1], e[2]) <==> IsSpaceRune(c)
  {
    assert c == c / 0x1000 * 0x1000 + c / 0x40 % 0x40 * 0x40 + c % 0x40;
  }

  lemma NoFourByteSpace(c: nat, x: bytes)
    requires IsScalar(c) && c >= 0x1_0000
    ensures LeadingSpace(EncodeRune(c) + x) == TrailingSpace(x + EncodeRune(c)) == 0 && !IsSpaceRune(c)
  {
    var e, s, t, k := EncodeRune(c), EncodeRune(c) + x, x + EncodeRune(c), |x| + 4;
    assert s[0] == e[0] && t[k - 3] == e[1] && t[k - 2] == e[2] && t[k - 1] == e[3];
  }

  /** Text is valid rune by rune: no control character but the newline. */
  lemma ValidTextStep(c: nat, x: bytes)
    requires IsScalar(c)
    ensures ValidText(EncodeRune(c) + x) <==> (c >= 0x20 || c == 0x0A) && ValidText(x)
  {
    RuneEncoded(c, x);
    var s := EncodeRune(c) + x;
    assert s[|EncodeRune(c)|..] == x && s[0] == EncodeRune(c)[0];
  }

  /** So are names: no white space and no plus sign. */
  lemma NameStep(c: nat, x: bytes)
    requires IsScalar(c)
    ensures NameRunes(EncodeRune(c) + x) <==> !IsSpaceRune(c) && c != '+' as int && NameRunes(x)
  {
    hide LeadingSpace, IsSpaceRune;
    RuneEncoded(c, x);
    SpaceAtEnds(c, x);
    var s := EncodeRune(c) + x;
    assert s[|EncodeRune(c)|..] == x && s[0] == EncodeRune(c)[0];
  }

  /** Trimming takes white space off both ends, all of it, and nothing else. */
  lemma TrimSpaceStep(c: nat, x: bytes)
    requires IsScalar(c)
    ensures IsSpaceRune(c) ==> TrimSpace(EncodeRune(c) + x) == TrimSpace(x)
    ensures IsSpaceRune(c) ==> TrimRight(x + EncodeRune(c)) == TrimRight(x)
  {
    hide LeadingSpace, TrailingSpace, IsSpaceRune;
    SpaceAtEnds(c, x);
    assert (EncodeRune(c) + x)[|EncodeRune(c)|..] == x && (x + EncodeRune(c))[..|x|] == x;
  }

  lemma TrimSpaceKeeps(s: bytes)
    requires LeadingSpace(s) == 0 && TrailingSpace(s) == 0
    ensures TrimSpace(s) == s
  {
  }
}
