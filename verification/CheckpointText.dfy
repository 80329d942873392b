/** Checkpoints as note text: `<origin>\n<tree size>\n<root in base64>\n`
    (internal/witness/checkpoint.go), and the second parser of the same text
    (internal/tessera/signer.go). */
module CheckpointText {
  import opened ByteStrings
  import opened Decimal
  import opened TextLines
  import opened Utf8
  import Base64

  datatype C2SPCheckpoint = C2SPCheckpoint(origin: bytes, treeSize: nat, rootHash: bytes)

  datatype ParseError = TooFewLines | BadSize | BadRoot

  function FormatCheckpoint(origin: bytes, treeSize: nat, rootHash: bytes): bytes {
    origin + [NEWLINE] + (Digits(treeSize) + [NEWLINE] + (Base64.Encode(rootHash) + [NEWLINE]))
  }

  function ParseLines(lines: seq<bytes>): Result<C2SPCheckpoint, ParseError> {
    if |lines| < 3 then Err(TooFewLines) else
      var size, root := ParseUint64(lines[1]), Base64.Decode(lines[2]);
      if size.None? then Err(BadSize)
      else if root.None? then Err(BadRoot)
      else Ok(C2SPCheckpoint(lines[0], size.value, root.value))
  }

  /** The body is what stands before the first blank line. */
  function ParseCheckpoint(raw: bytes): Result<C2SPCheckpoint, ParseError> {
    ParseLines(Lines(Head(raw)))
  }

  // ---- printing and parsing ----

  /** What may follow the printed text: nothing, or the blank line before the signatures. */
  predicate EndsOrBreaks(tail: bytes) {
    tail == [] || tail[0] == NEWLINE
  }

  lemma PlainLines(treeSize: nat, rootHash: bytes)
    ensures NEWLINE !in Digits(treeSize) && NEWLINE !in Base64.Encode(rootHash)
  {
    Base64.EncodeSymbols(rootHash);
    var d, b := Digits(treeSize), Base64.Encode(rootHash);
    assert forall i :: 0 <= i < |d| ==> IsDigit(d[i]);
    assert forall i :: 0 <= i < |b| ==> Base64.IsSymbol(b[i]);
  }

  /** The first blank line of a, newline, x when a has neither newline nor is followed by one. */
  lemma BlankLineAfter(a: bytes, x: bytes)
    requires NEWLINE !in a && (x == [] || x[0] != NEWLINE)
    ensures Head(a + [NEWLINE] + x) == a + [NEWLINE] + Head(x)
  {
    var s := a + [NEWLINE] + x;
    var k := |a| + 1;
    assert forall j :: 0 <= j < |a| ==> s[j] == a[j] && a[j] in a;
    assert forall j :: k <= j < |s| ==> s[j] == x[j - k];
    assert |x| > 0 ==> s[k] == x[0];
    forall j | 0 <= j < k ensures !BlankAt(s, j) {
      if j < |a| {
        assert s[j] != NEWLINE;
      }
    }
    forall j | j >= k ensures BlankAt(s, j) <==> BlankAt(x, j - k) {
    }
    forall i ensures BlankAt(x, i) <==> i >= 0 && BlankAt(s, i + k) {
    }
    match BlankLine(x)
    case Some(i) =>
      assert BlankAt(s, i + k);
      assert BlankLine(s) == Some(i + k);
      assert s[..i + k] == a + [NEWLINE] + x[..i];
    case None =>
      assert BlankLine(s) == None;
  }

  lemma BlankLineHere(a: bytes, tail: bytes)
    requires NEWLINE !in a && EndsOrBreaks(tail)
    ensures Head(a + [NEWLINE] + tail) == if tail == [] then a + [NEWLINE] else a
  {
    var s := a + [NEWLINE] + tail;
    assert forall j :: 0 <= j < |a| ==> s[j] == a[j] && a[j] in a;
    forall j | 0 <= j < |a| ensures !BlankAt(s, j) {
      assert s[j] != NEWLINE;
    }
    if tail == [] {
      assert BlankLine(s) == None && s == a + [NEWLINE];
    } else {
      assert s[|a|] == NEWLINE && s[|a| + 1] == tail[0];
      assert BlankAt(s, |a|);
      assert BlankLine(s) == Some(|a|) && s[..|a|] == a;
    }
  }

  /** The lines of the body when the origin has no newline: the three that were printed, and an
      empty one when nothing follows. */
  lemma BodyLines(origin: bytes, treeSize: nat, rootHash: bytes, tail: bytes)
    requires NEWLINE !in origin && rootHash != [] && EndsOrBreaks(tail)
    ensures Lines(Head(FormatCheckpoint(origin, treeSize, rootHash) + tail))
         == [origin, Digits(treeSize), Base64.Encode(rootHash)] + (if tail == [] then [[]] else [])
  {
    hide Digits, Base64.Encode, Head, Lines;
    var d, b := Digits(treeSize), Base64.Encode(rootHash);
    PlainLines(treeSize, rootHash);
    var x2 := b + [NEWLINE] + tail;
    var x1 := d + [NEWLINE] + x2;
    assert FormatCheckpoint(origin, treeSize, rootHash) + tail == origin + [NEWLINE] + x1;
    assert |b| == (|rootHash| + 2) / 3 * 4 > 0;
    assert b[0] in b && d[0] in d;
    assert x2[0] == b[0] && x1[0] == d[0];
    BlankLineAfter(origin, x1);
    BlankLineAfter(d, x2);
    BlankLineHere(b, tail);
    FirstLine(origin, Head(x1));
    FirstLine(d, Head(x2));
    FirstLine(b, []);
    FirstLine([], []);
    assert b + [NEWLINE] + [] == b + [NEWLINE];
  }

  lemma FormatHasNoBlankLine(origin: bytes, treeSize: nat, rootHash: bytes)
    requires NEWLINE !in origin && rootHash != []
    ensures BlankLine(FormatCheckpoint(origin, treeSize, rootHash)).None?
  {
    hide Digits, Base64.Encode, Head;
    var d, b := Digits(treeSize), Base64.Encode(rootHash);
    PlainLines(treeSize, rootHash);
    var x2 := b + [NEWLINE] + [];
    var x1 := d + [NEWLINE] + x2;
    assert x2 == b + [NEWLINE] && x1 == d + [NEWLINE] + (b + [NEWLINE]);
    assert FormatCheckpoint(origin, treeSize, rootHash) == origin + [NEWLINE] + x1;
    assert |b| == (|rootHash| + 2) / 3 * 4 > 0;
    assert b[0] in b && d[0] in d && x2[0] == b[0] && x1[0] == d[0];
    BlankLineAfter(origin, x1);
    BlankLineAfter(d, x2);
    BlankLineHere(b, []);
    WholeHead(FormatCheckpoint(origin, treeSize, rootHash));
  }

  lemma WholeHead(s: bytes)
    ensures Head(s) == s ==> BlankLine(s).None?
  {
  }

  /** The lines of the body when the root is empty: its line is taken for the blank line. */
  lemma EmptyRootLines(origin: bytes, treeSize: nat, tail: bytes)
    requires NEWLINE !in origin && EndsOrBreaks(tail)
    ensures Lines(Head(FormatCheckpoint(origin, treeSize, []) + tail)) == [origin, Digits(treeSize)]
  {
    hide Digits, Head, Lines;
    var d := Digits(treeSize);
    PlainLines(treeSize, []);
    var rest: bytes := [NEWLINE] + tail;
    var x1 := d + [NEWLINE] + rest;
    assert FormatCheckpoint(origin, treeSize, []) + tail == origin + [NEWLINE] + x1;
    assert d[0] in d && x1[0] == d[0];
    BlankLineAfter(origin, x1);
    BlankLineHere(d, rest);
    FirstLine(origin, d);
    FirstLine(d, []);
  }

  /** Printing then parsing gives back what was printed, alone or with signatures after it, exactly
      when the origin has no newline and the root is not empty. */
  lemma ParseFormat(origin: bytes, treeSize: nat, rootHash: bytes, tail: bytes)
    requires treeSize <= MAX_UINT64 && EndsOrBreaks(tail)
    ensures ParseCheckpoint(FormatCheckpoint(origin, treeSize, rootHash) + tail) == Ok(C2SPCheckpoint(origin, treeSize, rootHash))
       <==> NEWLINE !in origin && rootHash != []
  {
    hide Digits, Base64.Encode, Base64.Decode, FormatCheckpoint, Head, Lines;
    var raw := FormatCheckpoint(origin, treeSize, rootHash) + tail;
    if NEWLINE in origin {
      LinesHaveNoNewline(Head(raw));
      assert Lines(Head(raw))[0] in Lines(Head(raw));
    } else if rootHash == [] {
      EmptyRootLines(origin, treeSize, tail);
    } else {
      BodyLines(origin, treeSize, rootHash, tail);
      ParseUint64RoundTrip(treeSize);
      Base64.DecodeEncode(rootHash);
    }
  }

  /** What parses, for every text: three lines before any blank line, the second one the digits of
      the size and the third the root in base64. */
  lemma ParsesIff(raw: bytes, c: C2SPCheckpoint)
    ensures var lines := Lines(Head(raw));
      ParseCheckpoint(raw) == Ok(c) <==>
        |lines| >= 3 && lines[0] == c.origin && Decimal.Spells(lines[1], c.treeSize)
        && Base64.Spells(Base64.WithoutLineBreaks(lines[2]), c.rootHash)
  {
    hide Lines, Head, ParseUint64, Base64.Decode, Decimal.Spells, Base64.Spells;
    var lines := Lines(Head(raw));
    if |lines| >= 3 {
      Decimal.ParsesIff(lines[1], c.treeSize);
      Base64.DecodesSpelled(lines[2], c.rootHash);
    }
  }

  /** And what the error is otherwise. */
  lemma ParseErrorIs(raw: bytes)
    ensures var lines := Lines(Head(raw));
      && (ParseCheckpoint(raw) == Err(TooFewLines) <==> |lines| < 3)
      && (ParseCheckpoint(raw) == Err(BadSize) <==> |lines| >= 3 && forall n: nat :: !Decimal.Spells(lines[1], n))
  {
    hide Lines, Head, ParseUint64, Base64.Decode, Decimal.Spells;
    var lines := Lines(Head(raw));
    if |lines| >= 3 {
      forall n: nat ensures Decimal.Spells(lines[1], n) <==> ParseUint64(lines[1]) == Some(n) {
        Decimal.ParsesIff(lines[1], n);
      }
      var size := ParseUint64(lines[1]);
      assert size.Some? ==> Decimal.Spells(lines[1], size.value);
    }
  }

  // ---- the second parser ----

  function ParseCheckpointSize(raw: bytes): Result<nat, ParseError> {
    var lines := LinesN(raw, 4);
    if |lines| < 3 then Err(TooFewLines) else
      var size := ParseUint64(TrimSpace(lines[1]));
      if size.None? then Err(BadSize) else Ok(size.value)
  }

  function ParseCheckpointRoot(raw: bytes): Result<bytes, ParseError> {
    var lines := LinesN(raw, 4);
    if |lines| < 3 then Err(TooFewLines) else
      var root := Base64.Decode(TrimSpace(lines[2]));
      if root.None? then Err(BadRoot) else Ok(root.value)
  }

  /** What the second parser reads, for every text: the second and the third of four pieces, with white
      space around them taken off. */
  lemma SecondParserIs(raw: bytes, size: nat, root: bytes)
    ensures var pieces := LinesN(raw, 4);
      && (ParseCheckpointSize(raw) == Ok(size) <==> |pieces| >= 3 && Decimal.Spells(TrimSpace(pieces[1]), size))
      && (ParseCheckpointRoot(raw) == Ok(root)
          <==> |pieces| >= 3 && Base64.Spells(Base64.WithoutLineBreaks(TrimSpace(pieces[2])), root))
  {
    hide ParseUint64, Base64.Decode, TrimSpace, LinesN, Decimal.Spells, Base64.Spells;
    var pieces := LinesN(raw, 4);
    if |pieces| >= 3 {
      Decimal.ParsesIff(TrimSpace(pieces[1]), size);
      Base64.DecodesSpelled(TrimSpace(pieces[2]), root);
    }
  }

  /** The first lines of the body are the first pieces of the whole text. */
  lemma {:induction false} SameFirstLines(body: bytes, tail: bytes, k: nat)
    requires EndsOrBreaks(tail) && k <= |Lines(body)|
    ensures |LinesN(body + tail, k + 1)| >= k && LinesN(body + tail, k + 1)[..k] == Lines(body)[..k]
    decreases k
  {
    hide Lines, LinesN;
    if k > 0 {
      var a, x := LinesUnfold(body);
      if |Lines(body)| > 1 {
        SameFirstLines(x, tail, k - 1);
        assert body + tail == a + [NEWLINE] + (x + tail);
        FirstLineN(a, x + tail, k + 1);
      } else if tail == [] {
        assert body + tail == a;
        FirstLineN(a, [], k + 1);
      } else {
        assert body + tail == a + [NEWLINE] + tail[1..];
        FirstLineN(a, tail[1..], k + 1);
      }
    }
  }

  lemma TrimDigits(s: bytes)
    requires ParseUint64(s).Some?
    ensures TrimSpace(s) == s
  {
    assert IsDigit(s[0]) && IsDigit(s[|s| - 1]);
    assert LeadingSpace(s) == 0 && TrailingSpace(s) == 0;
  }

  /** A line that decodes holds no white space but carriage returns, which decoding skips. */
  predicate OnlyReturns(s: bytes) {
    forall i :: 0 <= i < |s| ==> s[i] == RETURN || IsPlain(s[i])
  }

  lemma {:induction false} TrimLeftReturns(s: bytes)
    requires OnlyReturns(s)
    ensures OnlyReturns(TrimLeft(s)) && Base64.WithoutLineBreaks(TrimLeft(s)) == Base64.WithoutLineBreaks(s)
    decreases |s|
  {
    assert s != [] ==> s[0] == RETURN || IsPlain(s[0]);
    if LeadingSpace(s) != 0 {
      TrimLeftReturns(s[1..]);
    }
  }

  lemma {:induction false} TrimRightReturns(s: bytes)
    requires OnlyReturns(s)
    ensures Base64.WithoutLineBreaks(TrimRight(s)) == Base64.WithoutLineBreaks(s)
    decreases |s|
  {
    assert s != [] ==> s[|s| - 1] == RETURN || IsPlain(s[|s| - 1]);
    if TrailingSpace(s) != 0 {
      var init := s[..|s| - 1];
      TrimRightReturns(init);
      assert s == init + [RETURN];
      Base64.SkipsAppend(init, [RETURN]);
      assert Base64.WithoutLineBreaks([RETURN]) == [];
    }
  }

  lemma TrimBase64(s: bytes)
    requires Base64.Decode(s).Some? && NEWLINE !in s
    ensures Base64.Decode(TrimSpace(s)) == Base64.Decode(s)
  {
    Base64.DecodableBytes(s);
    forall i | 0 <= i < |s| ensures s[i] == RETURN || IsPlain(s[i]) {
      assert s[i] in s;
    }
    TrimLeftReturns(s);
    TrimRightReturns(TrimLeft(s));
  }

  lemma HeadThenTail(raw: bytes)
    ensures |Head(raw)| <= |raw| && EndsOrBreaks(raw[|Head(raw)|..])
    ensures raw == Head(raw) + raw[|Head(raw)|..]
  {
  }

  /** When the body has three lines they are the first pieces of the whole text. */
  lemma BodyPieces(raw: bytes)
    requires |Lines(Head(raw))| >= 3
    ensures var lines, pieces := Lines(Head(raw)), LinesN(raw, 4);
      && |pieces| >= 3 && pieces[1] == lines[1] && pieces[2] == lines[2]
      && NEWLINE !in lines[1] && NEWLINE !in lines[2]
  {
    hide Lines, LinesN, Head;
    var lines, pieces := Lines(Head(raw)), LinesN(raw, 4);
    HeadThenTail(raw);
    SameFirstLines(Head(raw), raw[|Head(raw)|..], 3);
    LinesHaveNoNewline(Head(raw));
    assert pieces[1] == pieces[..3][1] == lines[..3][1] == lines[1];
    assert pieces[2] == pieces[..3][2] == lines[..3][2] == lines[2];
    assert lines[1] in lines && lines[2] in lines;
  }

  /** Whatever `ParseCheckpoint` accepts, the other parser reads with the same size and root. */
  lemma ParsersAgree(raw: bytes)
    requires ParseCheckpoint(raw).Ok?
    ensures ParseCheckpointSize(raw) == Ok(ParseCheckpoint(raw).value.treeSize)
    ensures ParseCheckpointRoot(raw) == Ok(ParseCheckpoint(raw).value.rootHash)
  {
    hide ParseUint64, Base64.Decode, TrimSpace, Head, Lines, LinesN;
    BodyPieces(raw);
    TrimDigits(LinesN(raw, 4)[1]);
    TrimBase64(LinesN(raw, 4)[2]);
  }

  /** The converse: of the texts that the second parser takes, `ParseCheckpoint` takes exactly those
      with three lines before any blank line, no space around the size, and a root line that decodes
      as it stands. */
  lemma SecondParserTakesMore(raw: bytes)
    requires ParseCheckpointSize(raw).Ok? && ParseCheckpointRoot(raw).Ok?
    ensures var pieces := LinesN(raw, 4);
      |pieces| >= 3 && (ParseCheckpoint(raw).Ok?
        <==> |Lines(Head(raw))| >= 3 && TrimSpace(pieces[1]) == pieces[1] && Base64.Decode(pieces[2]).Some?)
  {
    hide ParseUint64, Base64.Decode, TrimSpace, Head, Lines, LinesN;
    if |Lines(Head(raw))| >= 3 {
      BodyPieces(raw);
      if ParseCheckpoint(raw).Ok? {
        TrimDigits(LinesN(raw, 4)[1]);
      }
    }
  }

  lemma TrimOneSpace()
    ensures TrimSpace([SPACE, ZERO]) == [ZERO]
  {
    assert LeadingSpace([SPACE, ZERO]) == 1 && [SPACE, ZERO][1..] == [ZERO];
    assert LeadingSpace([ZERO]) == 0 && TrailingSpace([ZERO]) == 0;
    assert TrimLeft([SPACE, ZERO]) == TrimLeft([ZERO]) == [ZERO] && TrimRight([ZERO]) == [ZERO];
  }

  lemma DigitsOfZero()
    ensures Digits(0) == [ZERO]
  {
  }

  /** A text that only the second parser takes. */
  lemma SpaceBeforeSize()
    ensures var raw: bytes := [NEWLINE, SPACE, ZERO, NEWLINE];
      ParseCheckpoint(raw) == Err(BadSize) && ParseCheckpointSize(raw) == Ok(0)
  {
    hide Lines, LinesN, Head, TrimSpace, Digits;
    var raw: bytes := [NEWLINE, SPACE, ZERO, NEWLINE];
    var size: bytes := [SPACE, ZERO];
    var rest := size + [NEWLINE] + [];
    assert raw == [] + [NEWLINE] + rest;
    BlankLineAfter([], rest);
    BlankLineHere(size, []);
    FirstLine([], rest);
    FirstLine(size, []);
    FirstLine([], []);
    assert !IsDigit(size[0]) && Head(raw) == [] + [NEWLINE] + rest && rest == size + [NEWLINE];
    FirstLineN([], rest, 4);
    FirstLineN(size, [], 3);
    FirstLineN([], [], 2);
    TrimOneSpace();
    DigitsOfZero();
    ParseUint64RoundTrip(0);
  }
}
