/** Objects as `encoding/json` writes a struct: members in field order, no white space, members
    tagged omitempty left out when they hold their zero value.

    String escaping and the spelling of floats and of instants are parameters; what is needed of
    them is that a string literal delimits itself and that different values are spelled
    differently. A concrete encoder shows that this can be met. */
module Json {
  import opened ByteStrings
  import Decimal

  /** A finite 64-bit float: zero, which is unsigned here, or the fields of its representation. The
      ranges of the fields do not matter to what follows. */
  datatype Float64 = Zero | NonZero(negative: bool, exponent: int, fraction: int)

  datatype Encoder = Encoder(str: string -> bytes, flt: Float64 -> bytes, time: int -> string)

  const QUOTE: byte := 34
  const COMMA: byte := 44
  const COLON: byte := 58
  const OPEN: byte := 123
  const CLOSE: byte := 125

  /** A byte that can follow a number inside an object. */
  predicate Ends(c: byte) {
    c == COMMA || c == CLOSE
  }

  ghost predicate Sound(enc: Encoder) {
    && (forall a, b, x, y :: enc.str(a) + x == enc.str(b) + y ==> a == b)
    && (forall a, b :: enc.flt(a) == enc.flt(b) ==> a == b)
    && (forall a, b :: enc.time(a) == enc.time(b) ==> a == b)
    && (forall a :: enc.flt(a) != [])
    && (forall a, i :: 0 <= i < |enc.flt(a)| ==> !Ends(enc.flt(a)[i]))
  }

  datatype Value = Str(s: string) | Int(i: int) | Flt(f: Float64) | Bool(b: bool)

  datatype Field = Field(name: string, omitEmpty: bool, value: Value)

  predicate IsEmpty(v: Value) {
    match v
    case Str(s) => s == ""
    case Int(i) => i == 0
    case Flt(f) => f.Zero?
    case Bool(b) => !b
  }

  predicate SameKind(v: Value, w: Value) {
    (v.Str? <==> w.Str?) && (v.Int? <==> w.Int?) && (v.Flt? <==> w.Flt?) && (v.Bool? <==> w.Bool?)
  }

  function IntText(i: int): (t: bytes)
    ensures t != [] && forall j :: 0 <= j < |t| ==> Decimal.IsDigit(t[j]) || (j == 0 && t[j] == 45)
  {
    if i < 0 then [45] + Decimal.Digits(-i) else Decimal.Digits(i)
  }

  const TRUE_TEXT: bytes := [116, 114, 117, 101]
  const FALSE_TEXT: bytes := [102, 97, 108, 115, 101]

  function ValueText(enc: Encoder, v: Value): bytes {
    match v
    case Str(s) => enc.str(s)
    case Int(i) => IntText(i)
    case Flt(f) => enc.flt(f)
    case Bool(b) => if b then TRUE_TEXT else FALSE_TEXT
  }

  /** Field names are plain ASCII identifiers, written without escapes. */
  predicate Plain(name: string) {
    forall i :: 0 <= i < |name| ==> name[i] as int < 128 && name[i] != '"'
  }

  function NameText(name: string): (t: bytes)
    requires Plain(name)
    ensures (t == [] <==> name == "") && forall i :: 0 <= i < |t| ==> t[i] != QUOTE
  {
    if name == "" then [] else [name[0] as int as byte] + NameText(name[1..])
  }

  function KeyText(name: string): bytes
    requires Plain(name)
  {
    [QUOTE] + NameText(name) + [QUOTE, COLON]
  }

  predicate Named(fields: seq<Field>) {
    forall i :: 0 <= i < |fields| ==> Plain(fields[i].name)
  }

  predicate Present(f: Field) {
    !(f.omitEmpty && IsEmpty(f.value))
  }

  function Members(enc: Encoder, fields: seq<Field>, first: bool): bytes
    requires Named(fields)
    decreases |fields|
  {
    if fields == [] then [CLOSE]
    else if !Present(fields[0]) then Members(enc, fields[1..], first)
    else (if first then [] else [COMMA]) + KeyText(fields[0].name) + ValueText(enc, fields[0].value)
         + Members(enc, fields[1..], false)
  }

  function Marshal(enc: Encoder, fields: seq<Field>): bytes
    requires Named(fields)
  {
    [OPEN] + Members(enc, fields, true)
  }

  // ---- unique readability ----

  predicate SameSchema(fs: seq<Field>, gs: seq<Field>) {
    && |fs| == |gs|
    && forall i :: 0 <= i < |fs| ==>
         fs[i].name == gs[i].name && fs[i].omitEmpty == gs[i].omitEmpty && SameKind(fs[i].value, gs[i].value)
  }

  /** No optional member can be taken for the one that is written next when it is left out. */
  predicate KeysSeparate(fs: seq<Field>) {
    forall i, j :: 0 <= i < j < |fs| && fs[i].omitEmpty && (forall k :: i < k < j ==> fs[k].omitEmpty)
      ==> fs[i].name != fs[j].name
  }

  const MINUS: byte := 45

  function IntOf(t: bytes): int
    requires t != [] && forall j :: 0 <= j < |t| ==> Decimal.IsDigit(t[j]) || (j == 0 && t[j] == MINUS)
  {
    if t[0] == MINUS then 0 - Decimal.ValueOf(t[1..]) else Decimal.ValueOf(t)
  }

  lemma IntTextReadBack(i: int)
    ensures IntOf(IntText(i)) == i
  {
    if i < 0 {
      assert IntText(i)[1..] == Decimal.Digits(-i);
      Decimal.ValueOfDigits(-i);
    } else {
      Decimal.ValueOfDigits(i);
    }
  }

  lemma ValueDelimited(enc: Encoder, v: Value, w: Value, x: bytes, y: bytes)
    requires Sound(enc) && SameKind(v, w)
    requires ValueText(enc, v) + x == ValueText(enc, w) + y
    requires x != [] && y != [] && Ends(x[0]) && Ends(y[0])
    ensures v == w && x == y
  {
    if v.Str? {
      assert v.s == w.s;
      SameSplit(enc.str(v.s), x, enc.str(w.s), y);
    } else {
      SelfDelimited(Ends, ValueText(enc, v), x, ValueText(enc, w), y);
      if v.Int? {
        IntTextReadBack(v.i);
        IntTextReadBack(w.i);
      }
    }
  }

  lemma {:induction false} NameTextInjective(a: string, b: string)
    requires Plain(a) && Plain(b) && NameText(a) == NameText(b)
    ensures a == b
    decreases |a|
  {
    if a != "" && b != "" {
      assert NameText(a)[1..] == NameText(a[1..]) && NameText(b)[1..] == NameText(b[1..]);
      NameTextInjective(a[1..], b[1..]);
    }
  }

  lemma KeyDelimited(a: string, b: string, x: bytes, y: bytes)
    requires Plain(a) && Plain(b) && KeyText(a) + x == KeyText(b) + y
    ensures a == b && x == y
  {
    var s, t := KeyText(a) + x, KeyText(b) + y;
    assert s[1..] == NameText(a) + ([QUOTE, COLON] + x);
    assert t[1..] == NameText(b) + ([QUOTE, COLON] + y);
    SelfDelimited((c: byte) => c == QUOTE, NameText(a), [QUOTE, COLON] + x, NameText(b), [QUOTE, COLON] + y);
    NameTextInjective(a, b);
    assert ([QUOTE, COLON] + x)[2..] == x && ([QUOTE, COLON] + y)[2..] == y;
  }

  lemma {:induction false} MembersEnd(enc: Encoder, fs: seq<Field>)
    requires Named(fs)
    ensures var m := Members(enc, fs, false); m != [] && Ends(m[0])
    decreases |fs|
  {
    if fs != [] && !Present(fs[0]) {
      MembersEnd(enc, fs[1..]);
    }
  }

  function Comma(first: bool): bytes {
    if first then [] else [COMMA]
  }

  lemma PresentFirst(enc: Encoder, fs: seq<Field>, first: bool)
    requires Named(fs) && fs != [] && Present(fs[0])
    ensures Members(enc, fs, first)
         == Comma(first) + KeyText(fs[0].name) + (ValueText(enc, fs[0].value) + Members(enc, fs[1..], false))
  {
    hide KeyText, ValueText, Present;
    ConcatAssociates(Comma(first) + KeyText(fs[0].name), ValueText(enc, fs[0].value), Members(enc, fs[1..], false));
  }

  /** The first member that is written, or none. */
  lemma {:induction false} NextMember(enc: Encoder, fs: seq<Field>, first: bool) returns (j: nat, rest: bytes)
    requires Named(fs)
    ensures j <= |fs| && (forall k :: 0 <= k < j ==> fs[k].omitEmpty)
    ensures Members(enc, fs, first) == if j < |fs| then Comma(first) + KeyText(fs[j].name) + rest else [CLOSE]
    decreases |fs|
  {
    hide KeyText, ValueText, Plain, Comma, IsEmpty;
    if fs == [] {
      j, rest := 0, [];
    } else if Present(fs[0]) {
      j, rest := 0, ValueText(enc, fs[0].value) + Members(enc, fs[1..], false);
      PresentFirst(enc, fs, first);
    } else {
      j, rest := NextMember(enc, fs[1..], first);
      j := j + 1;
      assert j < |fs| ==> fs[1..][j - 1] == fs[j];
    }
  }

  lemma DifferentKeysShow(first: bool, a: string, x: bytes, b: string, y: bytes)
    requires Plain(a) && Plain(b) && a != b
    ensures Comma(first) + KeyText(a) + x != Comma(first) + KeyText(b) + y
    ensures Comma(first) + KeyText(a) + x != [CLOSE]
  {
    var s, t, skip := Comma(first) + KeyText(a) + x, Comma(first) + KeyText(b) + y, |Comma(first)|;
    assert s[skip] == QUOTE;
    assert s[skip..] == KeyText(a) + x && t[skip..] == KeyText(b) + y;
    if KeyText(a) + x == KeyText(b) + y {
      KeyDelimited(a, b, x, y);
    }
  }

  /** A member that one object writes and the other leaves out makes the texts differ. */
  lemma MissingMemberShows(enc: Encoder, fs: seq<Field>, gs: seq<Field>, first: bool)
    requires Named(fs) && Named(gs) && SameSchema(fs, gs) && KeysSeparate(fs)
    requires fs != [] && Present(fs[0]) && !Present(gs[0])
    ensures Members(enc, fs, first) != Members(enc, gs, first)
  {
    hide KeyText, ValueText, Comma;
    var x := ValueText(enc, fs[0].value) + Members(enc, fs[1..], false);
    PresentFirst(enc, fs, first);
    var j, rest := NextMember(enc, gs[1..], first);
    if j < |gs| - 1 {
      NextKeyDiffers(fs, gs, j);
      DifferentKeysShow(first, fs[0].name, x, gs[1 + j].name, rest);
    } else {
      DifferentKeysShow(first, fs[0].name, x, fs[0].name + "_", []);
    }
  }

  lemma NextKeyDiffers(fs: seq<Field>, gs: seq<Field>, j: nat)
    requires SameSchema(fs, gs) && KeysSeparate(fs) && j + 1 < |gs|
    requires fs[0].omitEmpty && forall k :: 0 <= k < j ==> gs[1..][k].omitEmpty
    ensures fs[0].name != gs[1 + j].name
  {
    forall k | 0 < k < 1 + j ensures fs[k].omitEmpty {
      assert gs[1..][k - 1] == gs[k];
    }
  }

  lemma PresentMember(enc: Encoder, fs: seq<Field>, gs: seq<Field>, first: bool)
    requires Sound(enc) && Named(fs) && Named(gs) && SameSchema(fs, gs)
    requires fs != [] && Present(fs[0]) && Present(gs[0])
    requires Members(enc, fs, first) == Members(enc, gs, first)
    ensures fs[0] == gs[0] && Members(enc, fs[1..], false) == Members(enc, gs[1..], false)
  {
    hide KeyText, ValueText, Members, Comma, Plain, Present;
    var x, y := Members(enc, fs[1..], false), Members(enc, gs[1..], false);
    var v, w := ValueText(enc, fs[0].value), ValueText(enc, gs[0].value);
    var head := Comma(first) + KeyText(fs[0].name);
    PresentFirst(enc, fs, first);
    PresentFirst(enc, gs, first);
    SameSplit(head, v + x, head, w + y);
    MembersEnd(enc, fs[1..]);
    MembersEnd(enc, gs[1..]);
    ValueDelimited(enc, fs[0].value, gs[0].value, x, y);
  }

  lemma KeysSeparateTail(fs: seq<Field>)
    requires fs != [] && KeysSeparate(fs)
    ensures KeysSeparate(fs[1..])
  {
    forall i, j | 0 <= i < j < |fs[1..]| && fs[1..][i].omitEmpty && (forall k :: i < k < j ==> fs[1..][k].omitEmpty)
      ensures fs[1..][i].name != fs[1..][j].name
    {
      assert forall k :: i + 1 < k < j + 1 ==> fs[k] == fs[1..][k - 1];
    }
  }

  /** A list that ends in a member that is always written can be followed by any other. */
  lemma KeysSeparateAppend(fs: seq<Field>, gs: seq<Field>)
    requires fs != [] && !fs[|fs| - 1].omitEmpty && KeysSeparate(fs) && KeysSeparate(gs)
    ensures KeysSeparate(fs + gs)
  {
    var h, n := fs + gs, |fs|;
    forall i, j | 0 <= i < j < |h| && h[i].omitEmpty && (forall k :: i < k < j ==> h[k].omitEmpty)
      ensures h[i].name != h[j].name
    {
      if i < n {
        SeparateInFirst(fs, gs, i, j);
      } else {
        SeparateInSecond(fs, gs, i, j);
      }
    }
  }

  lemma SeparateInFirst(fs: seq<Field>, gs: seq<Field>, i: nat, j: nat)
    requires i < |fs| && !fs[|fs| - 1].omitEmpty && KeysSeparate(fs)
    requires var h := fs + gs; i < j < |h| && h[i].omitEmpty && (forall k :: i < k < j ==> h[k].omitEmpty)
    ensures (fs + gs)[i].name != (fs + gs)[j].name
  {
    var h := fs + gs;
    assert h[|fs| - 1] == fs[|fs| - 1];
    assert j < |fs|;
    assert forall k :: i < k < j ==> fs[k] == h[k];
  }

  lemma SeparateInSecond(fs: seq<Field>, gs: seq<Field>, i: nat, j: nat)
    requires |fs| <= i && KeysSeparate(gs)
    requires var h := fs + gs; i < j < |h| && h[i].omitEmpty && (forall k :: i < k < j ==> h[k].omitEmpty)
    ensures (fs + gs)[i].name != (fs + gs)[j].name
  {
    var h, n := fs + gs, |fs|;
    assert h[i] == gs[i - n] && h[j] == gs[j - n];
    forall k | i - n < k < j - n ensures gs[k].omitEmpty {
      assert h[k + n] == gs[k];
    }
  }

  /** Objects with the same schema and the same text hold the same values. */
  lemma {:induction false} MembersReadBack(enc: Encoder, fs: seq<Field>, gs: seq<Field>, first: bool)
    requires Sound(enc) && Named(fs) && Named(gs) && SameSchema(fs, gs) && KeysSeparate(fs)
    requires Members(enc, fs, first) == Members(enc, gs, first)
    ensures fs == gs
    decreases |fs|
  {
    hide KeyText, ValueText, Plain, KeysSeparate, Sound;
    if fs != [] {
      KeysSeparateTail(fs);
      if Present(fs[0]) && !Present(gs[0]) {
        MissingMemberShows(enc, fs, gs, first);
      } else if !Present(fs[0]) && Present(gs[0]) {
        SchemaSeparates(fs, gs);
        MissingMemberShows(enc, gs, fs, first);
      } else if Present(fs[0]) {
        PresentMember(enc, fs, gs, first);
        MembersReadBack(enc, fs[1..], gs[1..], false);
      } else {
        MembersReadBack(enc, fs[1..], gs[1..], first);
      }
      assert fs == [fs[0]] + fs[1..] && gs == [gs[0]] + gs[1..];
    }
  }

  lemma SameSchemaAppend(a: seq<Field>, x: seq<Field>, b: seq<Field>, y: seq<Field>)
    requires SameSchema(a, b) && SameSchema(x, y)
    ensures SameSchema(a + x, b + y)
  {
  }

  lemma SchemaSeparates(fs: seq<Field>, gs: seq<Field>)
    requires SameSchema(fs, gs) && KeysSeparate(fs)
    ensures SameSchema(gs, fs) && KeysSeparate(gs)
  {
    forall i, j | 0 <= i < j < |gs| && gs[i].omitEmpty && (forall k :: i < k < j ==> gs[k].omitEmpty)
      ensures gs[i].name != gs[j].name
    {
      assert forall k :: i < k < j ==> fs[k].omitEmpty == gs[k].omitEmpty;
    }
  }

  lemma MarshalReadBack(enc: Encoder, fs: seq<Field>, gs: seq<Field>)
    requires Sound(enc) && Named(fs) && Named(gs) && SameSchema(fs, gs) && KeysSeparate(fs)
    requires Marshal(enc, fs) == Marshal(enc, gs)
    ensures fs == gs
  {
    SameSplit([OPEN], Members(enc, fs, true), [OPEN], Members(enc, gs, true));
    MembersReadBack(enc, fs, gs, true);
  }

  // ---- the text ----

  /** A member as it is written: the quoted name, a colon, the value. */
  function MemberText(enc: Encoder, name: string, value: Value): bytes
    requires Plain(name)
  {
    [34] + NameText(name) + [34, 58] + ValueText(enc, value)
  }

  function MemberTexts(enc: Encoder, fs: seq<Field>): seq<bytes>
    requires Named(fs)
  {
    if fs == [] then []
    else if Present(fs[0]) then [MemberText(enc, fs[0].name, fs[0].value)] + MemberTexts(enc, fs[1..])
    else MemberTexts(enc, fs[1..])
  }

  /** Texts with a comma between any two. */
  function Separated(texts: seq<bytes>): bytes {
    if texts == [] then [] else if |texts| == 1 then texts[0] else texts[0] + [44] + Separated(texts[1..])
  }

  lemma {:induction false} MembersText(enc: Encoder, fs: seq<Field>, first: bool)
    requires Named(fs)
    ensures var texts := MemberTexts(enc, fs);
      Members(enc, fs, first) == (if first || texts == [] then [] else [44]) + Separated(texts) + [125]
    decreases |fs|
  {
    hide NameText, ValueText, IsEmpty, Plain;
    if fs != [] {
      MembersText(enc, fs[1..], if Present(fs[0]) then false else first);
      if Present(fs[0]) {
        var head, rest := MemberText(enc, fs[0].name, fs[0].value), MemberTexts(enc, fs[1..]);
        assert ([head] + rest)[1..] == rest;
        PresentFirst(enc, fs, first);
        assert KeyText(fs[0].name) + ValueText(enc, fs[0].value) == head;
      }
    }
  }

  /** The object: its present members between braces, commas between them, no white space. */
  lemma MarshalText(enc: Encoder, fs: seq<Field>)
    requires Named(fs)
    ensures Marshal(enc, fs) == [123] + Separated(MemberTexts(enc, fs)) + [125]
  {
    hide Separated, MemberTexts, Members;
    MembersText(enc, fs, true);
  }

  /** Names are written character by character. */
  lemma {:induction false} NameTextIs(name: string)
    requires Plain(name)
    ensures |NameText(name)| == |name| && forall i :: 0 <= i < |name| ==> NameText(name)[i] as int == name[i] as int
    decreases |name|
  {
    if name != "" {
      NameTextIs(name[1..]);
    }
  }

  lemma ValueTextIs(enc: Encoder, i: int, b: bool)
    ensures ValueText(enc, Int(i)) == if i < 0 then ['-' as int as byte] + Decimal.Digits(0 - i) else Decimal.Digits(i)
    ensures ValueText(enc, Bool(b)) == NameText(if b then "true" else "false")
  {
    hide Decimal.Digits;
    NameTextIs("true");
    NameTextIs("false");
  }

  /** Members are left out exactly when they are tagged so and hold the zero value of their type. */
  lemma OmittedIff(f: Field)
    ensures !Present(f) <==> f.omitEmpty && (f.value == Str("") || f.value == Int(0) || f.value == Flt(Zero) || f.value == Bool(false))
  {
  }

  // ---- an encoder that meets the requirements ----

  predicate IsQuote(c: byte) {
    c == QUOTE
  }

  predicate IsSpace(c: byte) {
    c == SPACE
  }

  /** The codes of the characters, a space after each. */
  function Codes(s: string): (t: bytes)
    ensures forall i :: 0 <= i < |t| ==> !IsQuote(t[i])
  {
    if s == "" then [] else Decimal.Digits(s[0] as int) + [SPACE] + Codes(s[1..])
  }

  function QuotedCodes(s: string): bytes {
    [QUOTE] + Codes(s) + [QUOTE]
  }

  function AsString(t: bytes): string {
    if t == [] then "" else [t[0] as char] + AsString(t[1..])
  }

  /** Sign, exponent and fraction, spelled out. */
  function FloatFields(f: Float64): bytes {
    match f
    case Zero => [QUOTE]
    case NonZero(negative, exponent, fraction) =>
      [if negative then MINUS else SPACE] + (IntText(exponent) + ([SPACE] + IntText(fraction)))
  }

  function SampleEncoder(): Encoder {
    Encoder(QuotedCodes, FloatFields, t => AsString(IntText(t)))
  }

  lemma DigitsInjective(a: nat, b: nat)
    requires Decimal.Digits(a) == Decimal.Digits(b)
    ensures a == b
  {
    Decimal.ValueOfDigits(a);
    Decimal.ValueOfDigits(b);
  }

  lemma IntTextInjective(a: int, b: int)
    requires IntText(a) == IntText(b)
    ensures a == b
  {
    IntTextReadBack(a);
    IntTextReadBack(b);
  }

  lemma IntTextBytes(i: int)
    ensures forall j :: 0 <= j < |IntText(i)| ==> !Ends(IntText(i)[j]) && !IsSpace(IntText(i)[j])
  {
    hide IntText;
    var t := IntText(i);
    forall j | 0 <= j < |t| ensures !Ends(t[j]) && !IsSpace(t[j]) {
      assert Decimal.IsDigit(t[j]) || (j == 0 && t[j] == 45);
    }
  }

  lemma FloatFieldsInjective(f: Float64, g: Float64)
    requires FloatFields(f) == FloatFields(g)
    ensures f == g
  {
    hide IntText;
    assert FloatFields(f)[0] == FloatFields(g)[0];
    if f.NonZero? && g.NonZero? {
      var d, e := IntText(f.exponent), IntText(g.exponent);
      var x, y := [SPACE] + IntText(f.fraction), [SPACE] + IntText(g.fraction);
      assert FloatFields(f)[1..] == d + x && FloatFields(g)[1..] == e + y;
      IntTextBytes(f.exponent);
      IntTextBytes(g.exponent);
      SelfDelimited(IsSpace, d, x, e, y);
      IntTextInjective(f.exponent, g.exponent);
      assert x[1..] == IntText(f.fraction) && y[1..] == IntText(g.fraction);
      IntTextInjective(f.fraction, g.fraction);
    }
  }

  lemma FloatFieldsBytes(f: Float64)
    ensures FloatFields(f) != [] && forall i :: 0 <= i < |FloatFields(f)| ==> !Ends(FloatFields(f)[i])
  {
    hide IntText;
    if f.NonZero? {
      IntTextBytes(f.exponent);
      IntTextBytes(f.fraction);
    }
  }

  lemma {:induction false} CodesInjective(a: string, b: string)
    requires Codes(a) == Codes(b)
    ensures a == b
    decreases |a|
  {
    hide Decimal.Digits;
    if a != "" && b != "" {
      var d, e := Decimal.Digits(a[0] as int), Decimal.Digits(b[0] as int);
      var x, y := [SPACE] + Codes(a[1..]), [SPACE] + Codes(b[1..]);
      assert d + x == Codes(a) && e + y == Codes(b);
      assert forall i :: 0 <= i < |d| ==> Decimal.IsDigit(d[i]);
      assert forall i :: 0 <= i < |e| ==> Decimal.IsDigit(e[i]);
      SelfDelimited(IsSpace, d, x, e, y);
      DigitsInjective(a[0] as int, b[0] as int);
      assert x[1..] == Codes(a[1..]) && y[1..] == Codes(b[1..]);
      CodesInjective(a[1..], b[1..]);
      assert a == [a[0]] + a[1..] && b == [b[0]] + b[1..];
    }
  }

  lemma QuotedCodesDelimited(a: string, b: string, x: bytes, y: bytes)
    requires QuotedCodes(a) + x == QuotedCodes(b) + y
    ensures a == b
  {
    hide Codes;
    var tail, tail' := [QUOTE] + x, [QUOTE] + y;
    assert (QuotedCodes(a) + x)[1..] == Codes(a) + tail && (QuotedCodes(b) + y)[1..] == Codes(b) + tail';
    SelfDelimited(IsQuote, Codes(a), tail, Codes(b), tail');
    CodesInjective(a, b);
  }

  lemma {:induction false} AsStringInjective(a: bytes, b: bytes)
    requires AsString(a) == AsString(b)
    ensures a == b
    decreases |a|
  {
    if a != [] && b != [] {
      assert AsString(a)[0] == AsString(b)[0] && AsString(a)[1..] == AsString(b)[1..];
      AsStringInjective(a[1..], b[1..]);
      assert a == [a[0]] + a[1..] && b == [b[0]] + b[1..];
    }
  }

  /** The requirements on the encoder can be met. */
  lemma SampleEncoderIsSound()
    ensures Sound(SampleEncoder())
  {
    hide QuotedCodes, FloatFields, IntText, AsString, Ends;
    var enc := SampleEncoder();
    forall a, b, x, y | enc.str(a) + x == enc.str(b) + y ensures a == b {
      QuotedCodesDelimited(a, b, x, y);
    }
    forall a, b | enc.flt(a) == enc.flt(b) ensures a == b {
      FloatFieldsInjective(a, b);
    }
    forall a, b | enc.time(a) == enc.time(b) ensures a == b {
      AsStringInjective(IntText(a), IntText(b));
      IntTextInjective(a, b);
    }
    forall a ensures enc.flt(a) != [] && forall i :: 0 <= i < |enc.flt(a)| ==> !Ends(enc.flt(a)[i]) {
      FloatFieldsBytes(a);
    }
  }
}
