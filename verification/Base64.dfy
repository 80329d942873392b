/** `base64.StdEncoding`: RFC 4648 section 4 with padding. Go's decoder skips carriage returns and
    newlines and does not look at the unused bits of the last group. */
module Base64 {
  import opened ByteStrings

  const PAD: byte := 61

  function Symbol(n: nat): (c: byte)
    requires n < 64
  {
    if n < 26 then (65 + n) as byte
    else if n < 52 then (71 + n) as byte
    else if n < 62 then (n - 4) as byte
    else if n == 62 then 43
    else 47
  }

  function SymbolValue(c: byte): (n: Option<nat>)
    ensures n.Some? ==> n.value < 64 && Symbol(n.value) == c
  {
    if 65 <= c <= 90 then Some(c as int - 65)
    else if 97 <= c <= 122 then Some(c as int - 71)
    else if 48 <= c <= 57 then Some(c as int + 4)
    else if c == 43 then Some(62)
    else if c == 47 then Some(63)
    else None
  }

  predicate IsSymbol(c: byte) {
    SymbolValue(c).Some? || c == PAD
  }

  lemma SymbolValueOfSymbol(n: nat)
    requires n < 64
    ensures SymbolValue(Symbol(n)) == Some(n)
  {
  }

  function EncodeOne(a: byte): bytes {
    [Symbol(a as int / 4), Symbol(a as int % 4 * 16), PAD, PAD]
  }

  function EncodeTwo(a: byte, b: byte): bytes {
    [Symbol(a as int / 4), Symbol(a as int % 4 * 16 + b as int / 16), Symbol(b as int % 16 * 4), PAD]
  }

  function EncodeThree(a: byte, b: byte, c: byte): bytes {
    [Symbol(a as int / 4), Symbol(a as int % 4 * 16 + b as int / 16), Symbol(b as int % 16 * 4 + c as int / 64), Symbol(c as int % 64)]
  }

  function Encode(b: bytes): (s: bytes)
    ensures |s| == (|b| + 2) / 3 * 4
  {
    if b == [] then []
    else if |b| == 1 then EncodeOne(b[0])
    else if |b| == 2 then EncodeTwo(b[0], b[1])
    else EncodeThree(b[0], b[1], b[2]) + Encode(b[3..])
  }

  function DecodeGroup(w: byte, x: byte, y: byte, z: byte, last: bool): Option<bytes> {
    var p, q, r, s := SymbolValue(w), SymbolValue(x), SymbolValue(y), SymbolValue(z);
    if p.None? || q.None? then None
    else if y == PAD then
      if last && z == PAD then Some([(p.value * 4 + q.value / 16) as byte]) else None
    else if r.None? then None
    else if z == PAD then
      if last then Some([(p.value * 4 + q.value / 16) as byte, (q.value % 16 * 16 + r.value / 4) as byte]) else None
    else if s.None? then None
    else Some([(p.value * 4 + q.value / 16) as byte, (q.value % 16 * 16 + r.value / 4) as byte, (r.value % 4 * 64 + s.value) as byte])
  }

  function DecodeGroups(s: bytes): Option<bytes> {
    if s == [] then Some([])
    else if |s| < 4 then None
    else
      var head, tail := DecodeGroup(s[0], s[1], s[2], s[3], |s| == 4), DecodeGroups(s[4..]);
      if head.None? || tail.None? then None else Some(head.value + tail.value)
  }

  predicate IsLineBreak(c: byte) {
    c == NEWLINE || c == RETURN
  }

  function WithoutLineBreaks(s: bytes): bytes {
    if s == [] then []
    else if IsLineBreak(s[0]) then WithoutLineBreaks(s[1..])
    else [s[0]] + WithoutLineBreaks(s[1..])
  }

  function Decode(s: bytes): Option<bytes> {
    DecodeGroups(WithoutLineBreaks(s))
  }

  // ---- round trip ----

  lemma DecodeOne(a: byte)
    ensures var e := EncodeOne(a); DecodeGroup(e[0], e[1], e[2], e[3], true) == Some([a])
  {
    SymbolValueOfSymbol(a as int / 4);
    SymbolValueOfSymbol(a as int % 4 * 16);
  }

  /** A symbol's value made of a high and a low part is taken apart again. */
  lemma SixBits(high: nat, low: nat, base: nat)
    requires (base == 4 || base == 16) && low < base
    ensures (high * base + low) / base == high && (high * base + low) % base == low
  {
  }

  lemma DecodeTwo(a: byte, b: byte)
    ensures var e := EncodeTwo(a, b); DecodeGroup(e[0], e[1], e[2], e[3], true) == Some([a, b])
  {
    hide Symbol, SymbolValue;
    SixBits(a as int % 4, b as int / 16, 16);
    SymbolValueOfSymbol(a as int / 4);
    SymbolValueOfSymbol(a as int % 4 * 16 + b as int / 16);
    SymbolValueOfSymbol(b as int % 16 * 4);
    SymbolIsNotPad(b as int % 16 * 4);
  }

  lemma DecodeThree(a: byte, b: byte, c: byte, last: bool)
    ensures var e := EncodeThree(a, b, c); DecodeGroup(e[0], e[1], e[2], e[3], last) == Some([a, b, c])
  {
    hide Symbol, SymbolValue;
    SixBits(a as int % 4, b as int / 16, 16);
    SixBits(b as int % 16, c as int / 64, 4);
    SymbolValueOfSymbol(a as int / 4);
    SymbolValueOfSymbol(a as int % 4 * 16 + b as int / 16);
    SymbolValueOfSymbol(b as int % 16 * 4 + c as int / 64);
    SymbolValueOfSymbol(c as int % 64);
    SymbolIsNotPad(b as int % 16 * 4 + c as int / 64);
    SymbolIsNotPad(c as int % 64);
  }

  lemma SymbolIsNotPad(n: nat)
    requires n < 64
    ensures Symbol(n) != PAD
  {
  }

  lemma GroupThenRest(g: bytes, rest: bytes, head: bytes, tail: bytes)
    requires |g| == 4 && DecodeGroup(g[0], g[1], g[2], g[3], rest == []) == Some(head)
    requires DecodeGroups(rest) == Some(tail)
    ensures DecodeGroups(g + rest) == Some(head + tail)
  {
    assert (g + rest)[4..] == rest;
  }

  lemma {:induction false} DecodeGroupsEncode(b: bytes)
    ensures DecodeGroups(Encode(b)) == Some(b)
    decreases |b|
  {
    hide DecodeGroup, Symbol, SymbolValue;
    if b == [] {
    } else if |b| == 1 {
      DecodeOne(b[0]);
      GroupThenRest(EncodeOne(b[0]), [], [b[0]], []);
      assert b == [b[0]] + [] && Encode(b) == EncodeOne(b[0]) + [];
    } else if |b| == 2 {
      DecodeTwo(b[0], b[1]);
      GroupThenRest(EncodeTwo(b[0], b[1]), [], [b[0], b[1]], []);
      assert b == [b[0], b[1]] + [] && Encode(b) == EncodeTwo(b[0], b[1]) + [];
    } else {
      DecodeThree(b[0], b[1], b[2], Encode(b[3..]) == []);
      DecodeGroupsEncode(b[3..]);
      GroupThenRest(EncodeThree(b[0], b[1], b[2]), Encode(b[3..]), [b[0], b[1], b[2]], b[3..]);
      assert b == [b[0], b[1], b[2]] + b[3..];
    }
  }

  lemma {:induction false} EncodeSymbols(b: bytes)
    ensures forall i :: 0 <= i < |Encode(b)| ==> IsSymbol(Encode(b)[i])
    decreases |b|
  {
    forall n: nat | n < 64 ensures IsSymbol(Symbol(n)) {
      SymbolValueOfSymbol(n);
    }
    if |b| >= 3 {
      EncodeSymbols(b[3..]);
    }
  }

  lemma {:induction false} NothingToSkip(s: bytes)
    requires forall i :: 0 <= i < |s| ==> !IsLineBreak(s[i])
    ensures WithoutLineBreaks(s) == s
    decreases |s|
  {
    if s != [] {
      NothingToSkip(s[1..]);
    }
  }

  lemma DecodeEncode(b: bytes)
    ensures Decode(Encode(b)) == Some(b)
  {
    EncodeSymbols(b);
    assert forall i :: 0 <= i < |Encode(b)| ==> IsSymbol(Encode(b)[i]) && !IsLineBreak(Encode(b)[i]);
    NothingToSkip(Encode(b));
    DecodeGroupsEncode(b);
  }

  // ---- what decodes ----

  lemma {:induction false} DecodableSymbols(s: bytes)
    requires DecodeGroups(s).Some?
    ensures forall i :: 0 <= i < |s| ==> IsSymbol(s[i])
    decreases |s|
  {
    if s != [] {
      DecodableSymbols(s[4..]);
      forall i | 0 <= i < |s| ensures IsSymbol(s[i]) {
        if i >= 4 {
          assert s[i] == s[4..][i - 4];
        }
      }
    }
  }

  lemma {:induction false} KeptOrSkipped(s: bytes)
    ensures forall i :: 0 <= i < |s| ==> IsLineBreak(s[i]) || s[i] in WithoutLineBreaks(s)
    decreases |s|
  {
    if s != [] {
      KeptOrSkipped(s[1..]);
      forall i | 0 <= i < |s| ensures IsLineBreak(s[i]) || s[i] in WithoutLineBreaks(s) {
        if i > 0 {
          assert s[i] == s[1..][i - 1];
        }
      }
    }
  }

  /** A text that decodes holds nothing but symbols, padding and line breaks. */
  lemma DecodableBytes(s: bytes)
    requires Decode(s).Some?
    ensures forall i :: 0 <= i < |s| ==> IsSymbol(s[i]) || IsLineBreak(s[i])
  {
    DecodableSymbols(WithoutLineBreaks(s));
    KeptOrSkipped(s);
  }

  lemma {:induction false} SkipsAppend(a: bytes, b: bytes)
    ensures WithoutLineBreaks(a + b) == WithoutLineBreaks(a) + WithoutLineBreaks(b)
    decreases |a|
  {
    if a == [] {
      assert a + b == b;
    } else {
      assert (a + b)[1..] == a[1..] + b;
      SkipsAppend(a[1..], b);
    }
  }

  // ---- the alphabet and the groups ----

  lemma SymbolIs(n: nat)
    requires n < 64
    ensures n < 26 ==> Symbol(n) as int == 'A' as int + n
    ensures 26 <= n < 52 ==> Symbol(n) as int == 'a' as int + n - 26
    ensures 52 <= n < 62 ==> Symbol(n) as int == '0' as int + n - 52
    ensures n == 62 ==> Symbol(n) as int == '+' as int
    ensures n == 63 ==> Symbol(n) as int == '/' as int
  {
  }

  /** Three bytes are four symbols for six bits each, the highest bits first; one or two bytes at the
      end are filled up with zero bits, and the text with `=`. */
  predicate EncodesGroup(s: bytes, b: bytes, i: nat)
    requires 3 * i < |b| && 4 * i + 4 <= |s|
  {
    var left := |b| - 3 * i;
    var bits := b[3 * i] as int * 0x1_0000 + (if left > 1 then b[3 * i + 1] as int * 0x100 else 0) + (if left > 2 then b[3 * i + 2] as int else 0);
    && s[4 * i] == Symbol(bits / 0x4_0000)
    && s[4 * i + 1] == Symbol(bits / 0x1000 % 64)
    && s[4 * i + 2] == (if left > 1 then Symbol(bits / 64 % 64) else '=' as int as byte)
    && s[4 * i + 3] == (if left > 2 then Symbol(bits % 64) else '=' as int as byte)
  }

  lemma {:induction false} EncodeGroupAt(b: bytes, i: nat)
    requires 3 * i < |b|
    ensures 4 * i + 4 <= |Encode(b)| && EncodesGroup(Encode(b), b, i)
    decreases |b|
  {
    hide Symbol, EncodesGroup;
    if i > 0 {
      EncodeGroupAt(b[3..], i - 1);
      LaterGroup(EncodeThree(b[0], b[1], b[2]), Encode(b[3..]), b, i);
    } else {
      FirstGroup(b);
    }
  }

  lemma LaterGroup(g: bytes, rest: bytes, b: bytes, i: nat)
    requires |g| == 4 && i > 0 && 3 * i < |b| && 4 * (i - 1) + 4 <= |rest| && EncodesGroup(rest, b[3..], i - 1)
    ensures EncodesGroup(g + rest, b, i)
  {
    hide Symbol;
    var s, c := g + rest, b[3..];
    assert s[4 * i] == rest[4 * (i - 1)] && s[4 * i + 1] == rest[4 * (i - 1) + 1];
    assert s[4 * i + 2] == rest[4 * (i - 1) + 2] && s[4 * i + 3] == rest[4 * (i - 1) + 3];
    assert c[3 * (i - 1)] == b[3 * i];
  }

  lemma FirstGroup(b: bytes)
    requires b != []
    ensures EncodesGroup(Encode(b), b, 0)
  {
    hide Symbol;
    GroupBits(b[0] as int, if |b| > 1 then b[1] as int else 0, if |b| > 2 then b[2] as int else 0);
  }

  /** The four six-bit parts of three bytes. */
  lemma GroupBits(a: nat, b: nat, c: nat)
    requires a < 256 && b < 256 && c < 256
    ensures var bits := a * 0x1_0000 + b * 0x100 + c;
      && bits / 0x4_0000 == a / 4
      && bits / 0x1000 % 64 == a % 4 * 16 + b / 16
      && bits / 64 % 64 == b % 16 * 4 + c / 64
      && bits % 64 == c % 64
  {
    var p, q, r, s := a / 4, a % 4 * 16 + b / 16, b % 16 * 4 + c / 64, c % 64;
    var bits := a * 0x1_0000 + b * 0x100 + c;
    assert bits == p * 0x4_0000 + q * 0x1000 + r * 64 + s;
    FourSixes(p, q, r, s, bits);
  }

  lemma FourSixes(p: nat, q: nat, r: nat, s: nat, bits: nat)
    requires p < 64 && q < 64 && r < 64 && s < 64 && bits == p * 0x4_0000 + q * 0x1000 + r * 64 + s
    ensures bits / 0x4_0000 == p && bits / 0x1000 % 64 == q && bits / 64 % 64 == r && bits % 64 == s
  {
    assert bits / 0x1000 == p * 64 + q;
    assert bits / 64 == (p * 64 + q) * 64 + r;
  }

  /** Line breaks are skipped wherever they stand, and nothing else is. */
  lemma LineBreaksSkipped(a: bytes, c: byte, b: bytes)
    ensures WithoutLineBreaks(a + [c] + b)
         == WithoutLineBreaks(a) + (if c as int == 10 || c as int == 13 then [] else [c]) + WithoutLineBreaks(b)
  {
    SkipsAppend(a + [c], b);
    SkipsAppend(a, [c]);
    assert WithoutLineBreaks([c]) == if IsLineBreak(c) then [] else [c];
  }

  /** Equal symbols but for the bits that the last group does not use: four after one byte, two
      after two. */
  predicate SameUsedBits(c: byte, d: byte, unused: nat)
    requires unused > 0
  {
    var m, n := SymbolValue(c), SymbolValue(d);
    m.Some? && n.Some? && m.value / unused == n.value / unused
  }

  /** The symbol that encoding writes, or one with the same used bits in the last group; `left` is
      the number of bytes in a last group that is not full. */
  predicate SpelledAt(t: bytes, e: bytes, left: nat, i: nat)
    requires |t| == |e| && i < |t|
  {
    || t[i] == e[i]
    || (left == 1 && i == |t| - 3 && SameUsedBits(t[i], e[i], 16))
    || (left == 2 && i == |t| - 2 && SameUsedBits(t[i], e[i], 4))
  }

  /** A text that encodes the bytes, whatever its unused bits are. */
  predicate Spells(t: bytes, b: bytes) {
    && |t| == |Encode(b)|
    && forall i :: 0 <= i < |t| ==> SpelledAt(t, Encode(b), |b| % 3, i)
  }

  lemma GroupOfOne(w: byte, x: byte, y: byte, z: byte, a: byte, last: bool)
    ensures DecodeGroup(w, x, y, z, last) == Some([a]) <==>
      last && w == Symbol(a as int / 4) && SameUsedBits(x, Symbol(a as int % 4 * 16), 16) && y == PAD && z == PAD
  {
    hide Symbol, SymbolValue;
    SymbolValueOfSymbol(a as int / 4);
    SymbolValueOfSymbol(a as int % 4 * 16);
    var p, q := SymbolValue(w), SymbolValue(x);
    if p.Some? && q.Some? {
      assert (p.value * 4 + q.value / 16) as byte == a <==> p.value == a as int / 4 && q.value / 16 == a as int % 4;
    }
  }

  lemma GroupOfTwo(w: byte, x: byte, y: byte, z: byte, a: byte, b: byte, last: bool)
    ensures DecodeGroup(w, x, y, z, last) == Some([a, b]) <==>
      last && w == Symbol(a as int / 4) && x == Symbol(a as int % 4 * 16 + b as int / 16)
      && SameUsedBits(y, Symbol(b as int % 16 * 4), 4) && z == PAD
  {
    hide Symbol, SymbolValue;
    SymbolValueOfSymbol(a as int / 4);
    SymbolValueOfSymbol(a as int % 4 * 16 + b as int / 16);
    SymbolValueOfSymbol(b as int % 16 * 4);
    PadIsNoSymbol();
    var p, q, r := SymbolValue(w), SymbolValue(x), SymbolValue(y);
    if p.Some? && q.Some? && r.Some? {
      TwoParts(p.value, q.value, r.value, a as int, b as int);
    }
  }

  lemma GroupOfThree(w: byte, x: byte, y: byte, z: byte, a: byte, b: byte, c: byte, last: bool)
    ensures DecodeGroup(w, x, y, z, last) == Some([a, b, c]) <==> [w, x, y, z] == EncodeThree(a, b, c)
  {
    hide Symbol, SymbolValue;
    PadIsNoSymbol();
    DecodeThree(a, b, c, last);
    var p, q, r, s := SymbolValue(w), SymbolValue(x), SymbolValue(y), SymbolValue(z);
    if p.Some? && q.Some? && r.Some? && s.Some? {
      TwoParts(p.value, q.value, r.value, a as int, b as int);
      if r.value / 4 == b as int % 16 {
        ThirdPart(r.value, s.value, b as int, c as int);
      }
    }
  }

  lemma PadIsNoSymbol()
    ensures SymbolValue(PAD).None?
  {
  }

  lemma TwoParts(p: nat, q: nat, r: nat, a: nat, b: nat)
    requires p < 64 && q < 64 && r < 64 && a < 256 && b < 256
    ensures p * 4 + q / 16 == a && q % 16 * 16 + r / 4 == b <==>
      p == a / 4 && q == a % 4 * 16 + b / 16 && r / 4 == b % 16
  {
  }

  lemma ThirdPart(r: nat, s: nat, b: nat, c: nat)
    requires r < 64 && s < 64 && b < 256 && c < 256 && r / 4 == b % 16
    ensures r % 4 * 64 + s == c <==> r == b % 16 * 4 + c / 64 && s == c % 64
  {
  }

  lemma OneGroup(t: bytes, b: bytes)
    requires |t| == 4 && b != []
    ensures DecodeGroups(t) == Some(b) <==> Spells(t, b)
  {
    hide DecodeGroup, Symbol, SymbolValue;
    assert t[4..] == [] && DecodeGroups([]) == Some([]);
    var head := DecodeGroup(t[0], t[1], t[2], t[3], true);
    assert head.Some? ==> head.value + [] == head.value;
    assert DecodeGroups(t) == head;
    var e := Encode(b);
    assert Spells(t, b) ==> SpelledAt(t, e, |b| % 3, 0) && SpelledAt(t, e, |b| % 3, 1) && SpelledAt(t, e, |b| % 3, 2) && SpelledAt(t, e, |b| % 3, 3);
    if |b| == 1 {
      assert b == [b[0]];
      GroupOfOne(t[0], t[1], t[2], t[3], b[0], true);
      SymbolValueOfSymbol(b[0] as int % 4 * 16);
    } else if |b| == 2 {
      assert b == [b[0], b[1]];
      GroupOfTwo(t[0], t[1], t[2], t[3], b[0], b[1], true);
      SymbolValueOfSymbol(b[1] as int % 16 * 4);
    } else if |b| == 3 {
      assert b == [b[0], b[1], b[2]] && b[3..] == [];
      GroupOfThree(t[0], t[1], t[2], t[3], b[0], b[1], b[2], true);
      assert Encode(b) == EncodeThree(b[0], b[1], b[2]) + [];
    } else {
      GroupLength(t);
    }
  }

  /** A group is one to three bytes, and three when it is not the last. */
  lemma GroupLength(t: bytes)
    requires |t| >= 4
    ensures var head := DecodeGroup(t[0], t[1], t[2], t[3], |t| == 4);
      head.Some? ==> 1 <= |head.value| <= 3 && (|t| > 4 ==> |head.value| == 3)
  {
  }

  lemma GroupAndRest(t: bytes, b: bytes)
    requires |t| > 4
    ensures DecodeGroups(t) == Some(b) <==>
      |b| > 3 && DecodeGroup(t[0], t[1], t[2], t[3], false) == Some([b[0], b[1], b[2]]) && DecodeGroups(t[4..]) == Some(b[3..])
  {
    hide DecodeGroup;
    GroupLength(t);
    var head, tail := DecodeGroup(t[0], t[1], t[2], t[3], false), DecodeGroups(t[4..]);
    if tail.Some? && head.Some? {
      NotEmptied(t[4..]);
      var whole := head.value + tail.value;
      assert whole[..3] == head.value && whole[3..] == tail.value;
      if |b| > 3 {
        assert b == [b[0], b[1], b[2]] + b[3..] && b[..3] == [b[0], b[1], b[2]];
      }
    }
  }

  lemma NotEmptied(t: bytes)
    requires t != [] && DecodeGroups(t).Some?
    ensures DecodeGroups(t).value != []
  {
    GroupLength(t);
  }

  lemma SpellsStep(t: bytes, b: bytes)
    requires |t| > 4 && |b| > 3
    ensures Spells(t, b) <==> [t[0], t[1], t[2], t[3]] == EncodeThree(b[0], b[1], b[2]) && Spells(t[4..], b[3..])
  {
    hide SpelledAt, EncodeThree;
    var g, e, u, f := EncodeThree(b[0], b[1], b[2]), Encode(b), t[4..], Encode(b[3..]);
    var left := |b| % 3;
    assert e == g + f && |b[3..]| % 3 == left;
    if |t| == |e| {
      forall i | 0 <= i < |u| ensures SpelledAt(u, f, left, i) <==> SpelledAt(t, e, left, i + 4) {
        SpelledLater(t, e, g, u, f, left, i);
      }
      forall i | 0 <= i < 4 ensures SpelledAt(t, e, left, i) <==> t[i] == g[i] {
        SpelledFirst(t, e, g, f, left, i);
      }
      if Spells(t, b) {
        assert SpelledAt(t, e, left, 0) && SpelledAt(t, e, left, 1) && SpelledAt(t, e, left, 2) && SpelledAt(t, e, left, 3);
      }
      if [t[0], t[1], t[2], t[3]] == g && Spells(u, b[3..]) {
        forall i | 0 <= i < |t| ensures SpelledAt(t, e, left, i) {
          if i < 4 {
            assert t[i] == [t[0], t[1], t[2], t[3]][i];
          } else {
            assert SpelledAt(u, f, left, i - 4);
          }
        }
      }
    }
  }

  lemma SpelledLater(t: bytes, e: bytes, g: bytes, u: bytes, f: bytes, left: nat, i: nat)
    requires |g| == 4 && e == g + f && |t| == |e| && u == t[4..] && i < |u|
    ensures SpelledAt(u, f, left, i) <==> SpelledAt(t, e, left, i + 4)
  {
    hide SameUsedBits;
    assert u[i] == t[i + 4] && f[i] == e[i + 4];
  }

  lemma SpelledFirst(t: bytes, e: bytes, g: bytes, f: bytes, left: nat, i: nat)
    requires |g| == 4 && |f| >= 4 && e == g + f && |t| == |e| && i < 4
    ensures SpelledAt(t, e, left, i) <==> t[i] == g[i]
  {
    hide SameUsedBits;
    assert e[i] == g[i];
  }

  lemma {:induction false} GroupsDecodeSpelled(t: bytes, b: bytes)
    ensures DecodeGroups(t) == Some(b) <==> Spells(t, b)
    decreases |t|
  {
    hide DecodeGroup, Symbol, SymbolValue, Spells;
    if |t| < 4 || b == [] {
      ShortTexts(t, b);
    } else if |t| == 4 {
      OneGroup(t, b);
    } else {
      GroupAndRest(t, b);
      if |b| > 3 {
        GroupOfThree(t[0], t[1], t[2], t[3], b[0], b[1], b[2], false);
        GroupsDecodeSpelled(t[4..], b[3..]);
        SpellsStep(t, b);
      } else {
        ShortBytes(t, b);
      }
    }
  }

  lemma ShortBytes(t: bytes, b: bytes)
    requires |t| > 4 && |b| <= 3
    ensures !Spells(t, b)
  {
  }

  lemma ShortTexts(t: bytes, b: bytes)
    requires |t| < 4 || b == []
    ensures DecodeGroups(t) == Some(b) <==> Spells(t, b)
  {
    hide DecodeGroup;
    if t != [] && b == [] && DecodeGroups(t).Some? {
      NotEmptied(t);
    }
  }

  /** What decodes: exactly the texts that encode the bytes up to unused bits, padding included, once
      line breaks are taken out. */
  lemma DecodesSpelled(s: bytes, b: bytes)
    ensures Decode(s) == Some(b) <==> Spells(WithoutLineBreaks(s), b)
  {
    hide Spells, DecodeGroups;
    GroupsDecodeSpelled(WithoutLineBreaks(s), b);
  }
}
