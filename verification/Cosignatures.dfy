/** Merging the signature lines of cosigned notes, and extracting them (internal/witness/cosign.go). */
module Cosignatures {
  import opened ByteStrings
  import opened TextLines
  import opened Utf8

  /** An em dash and a space. */
  const PREFIX: bytes := [0xE2, 0x80, 0x94, 0x20]

  predicate HasPrefix(s: bytes, prefix: bytes) {
    |prefix| <= |s| && s[..|prefix|] == prefix
  }

  /** `strings.TrimRight(line, "\r")`. */
  function TrimReturns(s: bytes): (t: bytes)
    ensures NEWLINE !in s ==> NEWLINE !in t
    decreases |s|
  {
    if s != [] && s[|s| - 1] == RETURN then TrimReturns(s[..|s| - 1]) else s
  }

  /** The signature lines among some lines, in order. */
  function PrefixedLines(lines: seq<bytes>): seq<bytes> {
    if lines == [] then [] else
      var init, line := PrefixedLines(lines[..|lines| - 1]), TrimReturns(lines[|lines| - 1]);
      if HasPrefix(line, PREFIX) then init + [line] else init
  }

  function SectionLines(section: bytes): seq<bytes> {
    PrefixedLines(Lines(section))
  }

  /** The signature lines of a note, none when it has no blank line. */
  function NoteLines(noteText: bytes): seq<bytes> {
    match BlankLine(noteText)
    case Some(i) => SectionLines(noteText[i + 2..])
    case None => []
  }

  function AllLines(notes: seq<bytes>): seq<bytes> {
    if notes == [] then [] else AllLines(notes[..|notes| - 1]) + NoteLines(notes[|notes| - 1])
  }

  /** Each line once, where it first occurs. */
  function FirstOccurrences<T(==)>(xs: seq<T>): seq<T> {
    if xs == [] then [] else
      var init, last := xs[..|xs| - 1], xs[|xs| - 1];
      if last in init then FirstOccurrences(init) else FirstOccurrences(init) + [last]
  }

  datatype MergeError = MissingSeparator

  function Reassembled(body: bytes, lines: seq<bytes>): bytes {
    body + [NEWLINE] + Joined(lines)
  }

  function Merged(operatorSigned: bytes, notes: seq<bytes>): Result<bytes, MergeError> {
    match BlankLine(operatorSigned)
    case None => Err(MissingSeparator)
    case Some(i) =>
      Ok(Reassembled(operatorSigned[..i + 1], FirstOccurrences(NoteLines(operatorSigned) + AllLines(notes))))
  }

  // ---- first occurrences ----

  lemma FirstOccurrencesSnoc<T>(xs: seq<T>, x: T)
    ensures FirstOccurrences(xs + [x]) == if x in xs then FirstOccurrences(xs) else FirstOccurrences(xs) + [x]
  {
    assert (xs + [x])[..|xs|] == xs;
  }

  ghost predicate Distinct<T(!new)>(xs: seq<T>) {
    forall i, j :: 0 <= i < j < |xs| ==> xs[i] != xs[j]
  }

  /** The same elements, each once, in an order in which they first occur. */
  lemma {:induction false} FirstOccurrencesOf<T(!new)>(xs: seq<T>)
    ensures forall x :: x in FirstOccurrences(xs) <==> x in xs
    ensures Distinct(FirstOccurrences(xs))
    decreases |xs|
  {
    if xs != [] {
      FirstOccurrencesOf(xs[..|xs| - 1]);
      assert xs == xs[..|xs| - 1] + [xs[|xs| - 1]];
    }
  }

  /** Removing repetitions first, or elements already present, makes no difference. */
  lemma {:induction false} FirstOccurrencesAppend<T(!new)>(xs: seq<T>, ys: seq<T>)
    ensures FirstOccurrences(FirstOccurrences(xs) + ys) == FirstOccurrences(xs + ys)
    ensures (forall y :: y in ys ==> y in xs) ==> FirstOccurrences(xs + ys) == FirstOccurrences(xs)
    decreases |ys|
  {
    var once := FirstOccurrences(xs);
    FirstOccurrencesOf(xs);
    if ys == [] {
      assert once + ys == once && xs + ys == xs;
      OnceIsFixed(once);
    } else {
      var init, last := ys[..|ys| - 1], ys[|ys| - 1];
      FirstOccurrencesAppend(xs, init);
      assert once + ys == (once + init) + [last] && xs + ys == (xs + init) + [last];
      FirstOccurrencesSnoc(once + init, last);
      FirstOccurrencesSnoc(xs + init, last);
    }
  }

  lemma {:induction false} OnceIsFixed<T(!new)>(xs: seq<T>)
    requires Distinct(xs)
    ensures FirstOccurrences(xs) == xs
    decreases |xs|
  {
    if xs != [] {
      OnceIsFixed(xs[..|xs| - 1]);
      assert xs == xs[..|xs| - 1] + [xs[|xs| - 1]];
    }
  }

  // ---- the merge loop ----

  /** What the loops carry: the lines so far, each once, and the set of them. */
  ghost predicate Collected(read: seq<bytes>, seen: set<bytes>, sigLines: seq<bytes>) {
    sigLines == FirstOccurrences(read) && forall l :: l in seen <==> l in read
  }

  lemma NextLine(read: seq<bytes>, lines: seq<bytes>, i: nat, seen: set<bytes>, sigLines: seq<bytes>)
    requires i < |lines| && Collected(read + PrefixedLines(lines[..i]), seen, sigLines)
    ensures var line := TrimReturns(lines[i]);
      if HasPrefix(line, PREFIX) && line !in seen
      then Collected(read + PrefixedLines(lines[..i + 1]), seen + {line}, sigLines + [line])
      else Collected(read + PrefixedLines(lines[..i + 1]), seen, sigLines)
  {
    hide FirstOccurrences, TrimReturns, HasPrefix;
    var line, before := TrimReturns(lines[i]), read + PrefixedLines(lines[..i]);
    assert lines[..i + 1][..i] == lines[..i];
    if HasPrefix(line, PREFIX) {
      assert read + PrefixedLines(lines[..i + 1]) == before + [line];
      FirstOccurrencesSnoc(before, line);
    }
  }

  lemma NoLineYet(read: seq<bytes>, lines: seq<bytes>)
    ensures read + PrefixedLines(lines[..0]) == read && PrefixedLines(lines[..|lines|]) == PrefixedLines(lines)
  {
    assert lines[..|lines|] == lines;
  }

  method CollectLines(section: bytes, seen: set<bytes>, sigLines: seq<bytes>, ghost read: seq<bytes>)
    returns (seen': set<bytes>, sigLines': seq<bytes>)
    requires Collected(read, seen, sigLines)
    ensures Collected(read + SectionLines(section), seen', sigLines')
  {
    hide Collected, PrefixedLines, TrimReturns, HasPrefix, Lines;
    seen', sigLines' := seen, sigLines;
    var lines := Lines(section);
    NoLineYet(read, lines);
    for i := 0 to |lines|
      invariant Collected(read + PrefixedLines(lines[..i]), seen', sigLines')
    {
      NextLine(read, lines, i, seen', sigLines');
      var line := TrimReturns(lines[i]);
      if !HasPrefix(line, PREFIX) {
        continue;
      }
      if line !in seen' {
        seen' := seen' + {line};
        sigLines' := sigLines' + [line];
      }
    }
  }

  method WriteLines(body: bytes, sigLines: seq<bytes>) returns (out: bytes)
    ensures out == Reassembled(body, sigLines)
  {
    out := body + [NEWLINE];
    for i := 0 to |sigLines|
      invariant out == body + [NEWLINE] + Joined(sigLines[..i])
    {
      JoinedSnoc(sigLines[..i], sigLines[i]);
      SliceSnoc(sigLines, 0, i);
      out := out + sigLines[i] + [NEWLINE];
    }
    assert sigLines[..|sigLines|] == sigLines;
  }

  method MergeCosignatures(operatorSigned: bytes, cosignedNotes: seq<bytes>) returns (r: Result<bytes, MergeError>)
    ensures r == Merged(operatorSigned, cosignedNotes)
  {
    hide FirstOccurrences, SectionLines, Reassembled, Collected, AllLines, NoteLines;
    var idx := BlankLine(operatorSigned);
    if idx.None? {
      return Err(MissingSeparator);
    }
    FirstNote(operatorSigned, cosignedNotes);
    var seen, sigLines := CollectLines(operatorSigned[idx.value + 2..], {}, [], []);
    for i := 0 to |cosignedNotes|
      invariant Collected(Read(operatorSigned, cosignedNotes, i), seen, sigLines)
    {
      NextNote(operatorSigned, cosignedNotes, i);
      var split := BlankLine(cosignedNotes[i]);
      if split.Some? {
        seen, sigLines := CollectLines(cosignedNotes[i][split.value + 2..], seen, sigLines, Read(operatorSigned, cosignedNotes, i));
      }
    }
    assert cosignedNotes[..|cosignedNotes|] == cosignedNotes;
    CollectedOnce(Read(operatorSigned, cosignedNotes, |cosignedNotes|), seen, sigLines);
    var out := WriteLines(operatorSigned[..idx.value + 1], sigLines);
    r := Ok(out);
  }

  /** The lines read when i of the notes are done. */
  ghost function Read(operatorSigned: bytes, notes: seq<bytes>, i: nat): seq<bytes>
    requires i <= |notes|
  {
    NoteLines(operatorSigned) + AllLines(notes[..i])
  }

  lemma FirstNote(operatorSigned: bytes, notes: seq<bytes>)
    requires BlankLine(operatorSigned).Some?
    ensures Collected([], {}, [])
    ensures Read(operatorSigned, notes, 0) == [] + SectionLines(operatorSigned[BlankLine(operatorSigned).value + 2..])
  {
  }

  lemma NextNote(operatorSigned: bytes, notes: seq<bytes>, i: nat)
    requires i < |notes|
    ensures Read(operatorSigned, notes, i + 1) ==
      match BlankLine(notes[i])
      case Some(k) => Read(operatorSigned, notes, i) + SectionLines(notes[i][k + 2..])
      case None => Read(operatorSigned, notes, i)
  {
    assert notes[..i + 1][..i] == notes[..i];
    ConcatAssociates(NoteLines(operatorSigned), AllLines(notes[..i]), NoteLines(notes[i]));
  }

  lemma CollectedOnce(read: seq<bytes>, seen: set<bytes>, sigLines: seq<bytes>)
    requires Collected(read, seen, sigLines)
    ensures sigLines == FirstOccurrences(read)
  {
  }

  // ---- what the merged note holds ----

  /** A line that the merge keeps as it is. */
  predicate SignatureLine(line: bytes) {
    HasPrefix(line, PREFIX) && NEWLINE !in line && TrimReturns(line) == line
  }

  lemma {:induction false} PrefixedAreLines(lines: seq<bytes>)
    requires forall l :: l in lines ==> NEWLINE !in l
    ensures forall l :: l in PrefixedLines(lines) ==> SignatureLine(l)
    decreases |lines|
  {
    if lines != [] {
      assert lines[|lines| - 1] in lines && forall l :: l in lines[..|lines| - 1] ==> l in lines;
      PrefixedAreLines(lines[..|lines| - 1]);
      TrimReturnsTwice(lines[|lines| - 1]);
    }
  }

  lemma {:induction false} TrimReturnsTwice(s: bytes)
    ensures TrimReturns(TrimReturns(s)) == TrimReturns(s)
    decreases |s|
  {
    if s != [] && s[|s| - 1] == RETURN {
      TrimReturnsTwice(s[..|s| - 1]);
    }
  }

  lemma {:induction false} SignatureLinesStay(lines: seq<bytes>)
    requires forall l :: l in lines ==> SignatureLine(l)
    ensures PrefixedLines(lines) == lines && PrefixedLines(lines + [[]]) == lines
    decreases |lines|
  {
    assert (lines + [[]])[..|lines|] == lines;
    if lines != [] {
      assert lines[|lines| - 1] in lines && forall l :: l in lines[..|lines| - 1] ==> l in lines;
      SignatureLinesStay(lines[..|lines| - 1]);
    }
  }

  lemma NoteLinesAreLines(noteText: bytes)
    ensures forall l :: l in NoteLines(noteText) ==> SignatureLine(l)
  {
    if BlankLine(noteText).Some? {
      LinesHaveNoNewline(noteText[BlankLine(noteText).value + 2..]);
      PrefixedAreLines(Lines(noteText[BlankLine(noteText).value + 2..]));
    }
  }

  lemma {:induction false} AllLinesAreLines(notes: seq<bytes>)
    ensures forall l :: l in AllLines(notes) ==> SignatureLine(l)
    decreases |notes|
  {
    if notes != [] {
      AllLinesAreLines(notes[..|notes| - 1]);
      NoteLinesAreLines(notes[|notes| - 1]);
    }
  }

  /** A body that ends at its blank line, followed by signature lines, is split where it was joined. */
  lemma ReassembledSplits(body: bytes, lines: seq<bytes>)
    requires body != [] && body[|body| - 1] == NEWLINE && (forall j :: !BlankAt(body, j))
    requires forall l :: l in lines ==> SignatureLine(l)
    ensures BlankLine(Reassembled(body, lines)) == Some(|body| - 1)
    ensures Reassembled(body, lines)[..|body|] == body && Reassembled(body, lines)[|body| + 1..] == Joined(lines)
    ensures NoteLines(Reassembled(body, lines)) == lines
  {
    hide Lines, Joined, PrefixedLines;
    var m, k := Reassembled(body, lines), |body| - 1;
    assert forall j :: 0 <= j < |body| ==> m[j] == body[j];
    forall j | 0 <= j < k ensures !BlankAt(m, j) {
      assert !BlankAt(body, j);
    }
    assert m[k + 1] == NEWLINE && BlankAt(m, k);
    assert BlankLine(m) == Some(k) && m[k + 2..] == Joined(lines);
    LinesOfJoined(lines, []);
    assert Joined(lines) + [] == Joined(lines);
    SignatureLinesStay(lines);
  }

  lemma BodyBeforeBlank(s: bytes)
    requires BlankLine(s).Some?
    ensures var body := s[..BlankLine(s).value + 1];
      body != [] && body[|body| - 1] == NEWLINE && forall j :: !BlankAt(body, j)
  {
    var i := BlankLine(s).value;
    var body := s[..i + 1];
    forall j ensures !BlankAt(body, j) {
      if BlankAt(body, j) {
        assert BlankAt(s, j);
        assert false;
      }
    }
  }

  /** Splitting the merged note at its first blank line gives back the operator's body and every
      signature line of all the notes once, in the order of first occurrence. */
  lemma MergedSplits(operatorSigned: bytes, notes: seq<bytes>)
    requires BlankLine(operatorSigned).Some?
    ensures Merged(operatorSigned, notes).Ok?
    ensures var m, i := Merged(operatorSigned, notes).value, BlankLine(operatorSigned).value;
      && BlankLine(m) == Some(i) && m[..i + 1] == operatorSigned[..i + 1]
      && NoteLines(m) == FirstOccurrences(NoteLines(operatorSigned) + AllLines(notes))
      && m[i + 2..] == Joined(NoteLines(m))
  {
    hide NoteLines, FirstOccurrences, Reassembled, Joined;
    var lines := NoteLines(operatorSigned) + AllLines(notes);
    NoteLinesAreLines(operatorSigned);
    AllLinesAreLines(notes);
    FirstOccurrencesOf(lines);
    BodyBeforeBlank(operatorSigned);
    ReassembledSplits(operatorSigned[..BlankLine(operatorSigned).value + 1], FirstOccurrences(lines));
  }

  lemma AllLinesSnoc(notes: seq<bytes>, last: bytes)
    ensures AllLines(notes + [last]) == AllLines(notes) + NoteLines(last)
  {
    hide NoteLines;
    assert (notes + [last])[..|notes|] == notes;
  }

  lemma {:induction false} AllLinesAppend(a: seq<bytes>, b: seq<bytes>)
    ensures AllLines(a + b) == AllLines(a) + AllLines(b)
    decreases |b|
  {
    hide NoteLines, AllLines;
    if b == [] {
      AllLinesOfNothing(a);
    } else {
      var init, last := b[..|b| - 1], b[|b| - 1];
      assert b == init + [last] && a + b == (a + init) + [last];
      AllLinesAppend(a, init);
      AllLinesSnoc(init, last);
      AllLinesSnoc(a + init, last);
      ConcatAssociates(AllLines(a), AllLines(init), NoteLines(last));
    }
  }

  lemma AllLinesOfNothing(a: seq<bytes>)
    ensures AllLines(a + []) == AllLines(a) + AllLines([])
  {
    assert a + [] == a && AllLines([]) == [];
  }

  /** Merging in two steps is merging at once. */
  lemma MergeTwice(operatorSigned: bytes, a: seq<bytes>, b: seq<bytes>)
    requires BlankLine(operatorSigned).Some?
    ensures Merged(Merged(operatorSigned, a).value, b) == Merged(operatorSigned, a + b)
  {
    hide NoteLines, FirstOccurrences, Reassembled, AllLines;
    var own := NoteLines(operatorSigned);
    MergedSplits(operatorSigned, a);
    AllLinesAppend(a, b);
    ConcatAssociates(own, AllLines(a), AllLines(b));
    FirstOccurrencesAppend(own + AllLines(a), AllLines(b));
  }

  /** Merging notes whose signature lines are all there already changes nothing. */
  lemma MergeKnown(operatorSigned: bytes, a: seq<bytes>, b: seq<bytes>)
    requires BlankLine(operatorSigned).Some?
    requires forall l :: l in AllLines(b) ==> l in NoteLines(Merged(operatorSigned, a).value)
    ensures Merged(Merged(operatorSigned, a).value, b) == Merged(operatorSigned, a)
  {
    hide NoteLines, FirstOccurrences, Reassembled, AllLines;
    var own := NoteLines(operatorSigned);
    MergedSplits(operatorSigned, a);
    MergeTwice(operatorSigned, a, b);
    FirstOccurrencesOf(own + AllLines(a));
    FirstOccurrencesAppend(own + AllLines(a), AllLines(b));
    AllLinesAppend(a, b);
    ConcatAssociates(own, AllLines(a), AllLines(b));
  }

  // ---- extraction ----

  /** The trimmed signature lines among some lines. */
  function Trimmed(lines: seq<bytes>): seq<bytes> {
    if lines == [] then [] else
      var init, line := Trimmed(lines[..|lines| - 1]), TrimSpace(lines[|lines| - 1]);
      if HasPrefix(line, PREFIX) then init + [line] else init
  }

  /** The ones left when the lines named after the operator are passed over, as far as the source
      recognises them: it compares from the third byte of a four-byte prefix. */
  function WithoutOperator(lines: seq<bytes>, operatorName: bytes): seq<bytes> {
    if lines == [] then [] else
      var init, line := WithoutOperator(lines[..|lines| - 1], operatorName), lines[|lines| - 1];
      if HasPrefix(line[if |line| < 2 then |line| else 2..], operatorName + [SPACE]) then init else init + [line]
  }

  function TrimmedLines(cosigned: bytes): seq<bytes> {
    match BlankLine(cosigned)
    case Some(i) => Trimmed(Lines(cosigned[i + 2..]))
    case None => []
  }

  lemma NextExtracted(lines: seq<bytes>, i: nat, operatorName: bytes)
    requires i < |lines|
    ensures var line := TrimSpace(lines[i]);
      WithoutOperator(Trimmed(lines[..i + 1]), operatorName) ==
      if HasPrefix(line, PREFIX) && !HasPrefix(line[2..], operatorName + [SPACE])
      then WithoutOperator(Trimmed(lines[..i]), operatorName) + [line]
      else WithoutOperator(Trimmed(lines[..i]), operatorName)
  {
    hide TrimSpace;
    var line, before := TrimSpace(lines[i]), Trimmed(lines[..i]);
    assert lines[..i + 1][..i] == lines[..i];
    assert (before + [line])[..|before|] == before;
  }

  method ExtractCosignatures(cosigned: bytes, operatorName: bytes) returns (out: seq<bytes>)
    ensures out == WithoutOperator(TrimmedLines(cosigned), operatorName)
  {
    hide Trimmed, WithoutOperator, TrimSpace, Lines;
    out := [];
    NothingExtracted(operatorName);
    var split := BlankLine(cosigned);
    if split.None? {
      return;
    }
    var lines := Lines(cosigned[split.value + 2..]);
    for i := 0 to |lines|
      invariant out == WithoutOperator(Trimmed(lines[..i]), operatorName)
    {
      NextExtracted(lines, i, operatorName);
      var line := TrimSpace(lines[i]);
      if !HasPrefix(line, PREFIX) {
        continue;
      }
      if HasPrefix(line[2..], operatorName + [SPACE]) {
        continue;
      }
      out := out + [line];
    }
    assert lines[..|lines|] == lines;
  }

  lemma NothingExtracted(operatorName: bytes)
    ensures Trimmed([]) == [] && WithoutOperator([], operatorName) == []
  {
  }

  lemma {:induction false} TrimmedHavePrefix(lines: seq<bytes>)
    ensures forall l :: l in Trimmed(lines) ==> HasPrefix(l, PREFIX)
    decreases |lines|
  {
    if lines != [] {
      TrimmedHavePrefix(lines[..|lines| - 1]);
    }
  }

  lemma PrefixBegins(s: bytes, prefix: bytes)
    requires s != [] && prefix != []
    ensures HasPrefix(s, prefix) ==> s[0] == prefix[0]
  {
  }

  lemma NameNotAtThirdByte(line: bytes, operatorName: bytes)
    requires HasPrefix(line, PREFIX) && (operatorName == [] || operatorName[0] != 0x94)
    ensures !HasPrefix(line[2..], operatorName + [SPACE])
  {
    assert line[..4][2] == PREFIX[2] == 0x94;
    assert line[2..][0] == 0x94;
    PrefixBegins(line[2..], operatorName + [SPACE]);
  }

  lemma {:induction false} NothingDropped(lines: seq<bytes>, operatorName: bytes)
    requires forall l :: l in lines ==> HasPrefix(l, PREFIX)
    requires operatorName == [] || operatorName[0] != 0x94
    ensures WithoutOperator(lines, operatorName) == lines
    decreases |lines|
  {
    if lines != [] {
      assert lines[|lines| - 1] in lines && forall l :: l in lines[..|lines| - 1] ==> l in lines;
      NothingDropped(lines[..|lines| - 1], operatorName);
      NameNotAtThirdByte(lines[|lines| - 1], operatorName);
      assert lines == lines[..|lines| - 1] + [lines[|lines| - 1]];
    }
  }

  /** The operator's lines are not excluded, although the documentation of the function says so:
      for every note and every name that is valid UTF-8, all signature lines come out. */
  lemma ExtractionExcludesNothing(cosigned: bytes, operatorName: bytes)
    requires RuneLength(operatorName) > 0
    ensures WithoutOperator(TrimmedLines(cosigned), operatorName) == TrimmedLines(cosigned)
  {
    if BlankLine(cosigned).Some? {
      TrimmedHavePrefix(Lines(cosigned[BlankLine(cosigned).value + 2..]));
    }
    NothingDropped(TrimmedLines(cosigned), operatorName);
  }

  // ---- which lines come out ----

  /** U+2014 and U+0020. */
  lemma PrefixIs()
    ensures PREFIX == EncodeRune(0x2014) + EncodeRune(0x20)
  {
  }

  /** Carriage returns are taken off the end, all of them, and nothing else. */
  lemma TrimReturnsIs(s: bytes)
    ensures TrimReturns(s + [0x0D]) == TrimReturns(s)
    ensures s == [] || s[|s| - 1] as int != 0x0D ==> TrimReturns(s) == s
  {
    assert (s + [0x0D])[..|s|] == s;
  }

  /** A body that ends its last line and holds no blank one. */
  predicate Body(body: bytes) {
    body != [] && body[|body| - 1] == NEWLINE && BlankLine(body).None?
  }

  /** The section starts after the blank line. */
  lemma SectionAfter(body: bytes, section: bytes)
    requires Body(body)
    ensures BlankLine(body + [NEWLINE] + section) == Some(|body| - 1)
    ensures (body + [NEWLINE] + section)[|body| + 1..] == section
  {
    var m, k := body + [NEWLINE] + section, |body| - 1;
    assert forall j :: 0 <= j < |body| ==> m[j] == body[j];
    forall j | 0 <= j < k ensures !BlankAt(m, j) {
      assert !BlankAt(body, j);
    }
    assert m[k + 1] == NEWLINE && BlankAt(m, k);
  }

  function KeptLine(line: bytes): seq<bytes> {
    if HasPrefix(TrimReturns(line), PREFIX) then [TrimReturns(line)] else []
  }

  lemma {:induction false} PrefixedFront(line: bytes, lines: seq<bytes>)
    ensures PrefixedLines([line] + lines) == KeptLine(line) + PrefixedLines(lines)
    decreases |lines|
  {
    hide TrimReturns, HasPrefix;
    if lines == [] {
      assert [line] + lines == [line] && [line][..0] == [] && KeptLine(line) + [] == KeptLine(line);
    } else {
      var init, last := lines[..|lines| - 1], lines[|lines| - 1];
      PrefixedFront(line, init);
      assert ([line] + lines)[..|lines|] == [line] + init;
      ConcatAssociates(KeptLine(line), PrefixedLines(init), [TrimReturns(last)]);
    }
  }

  /** Line by line after the blank line: one that begins with the prefix is a signature line, without
      carriage returns at its end; others are passed over. Without a blank line there are none. */
  lemma NoteLinesStep(body: bytes, line: bytes, rest: bytes)
    requires Body(body) && NEWLINE !in line
    ensures NoteLines(body + [NEWLINE] + (line + [NEWLINE] + rest)) == KeptLine(line) + NoteLines(body + [NEWLINE] + rest)
    ensures NoteLines(body + [NEWLINE] + line) == KeptLine(line)
    ensures NoteLines(body) == []
  {
    hide KeptLine, PrefixedLines, BlankLine, Lines;
    SectionAfter(body, line + [NEWLINE] + rest);
    SectionAfter(body, rest);
    SectionAfter(body, line);
    FirstLine(line, rest);
    PrefixedFront(line, Lines(rest));
    PrefixedFront(line, []);
    NothingPrefixed();
    assert [line] + [] == [line] && KeptLine(line) + [] == KeptLine(line);
  }

  lemma NothingPrefixed()
    ensures PrefixedLines([]) == []
  {
  }

  function ExtractedLine(line: bytes, operatorName: bytes): seq<bytes> {
    var t := TrimSpace(line);
    if HasPrefix(t, PREFIX) && !HasPrefix(t[2..], operatorName + [SPACE]) then [t] else []
  }

  lemma {:induction false} ExtractedFront(line: bytes, lines: seq<bytes>, operatorName: bytes)
    ensures WithoutOperator(Trimmed([line] + lines), operatorName) == ExtractedLine(line, operatorName) + WithoutOperator(Trimmed(lines), operatorName)
    decreases |lines|
  {
    hide Trimmed, WithoutOperator, TrimSpace, HasPrefix;
    NothingExtracted(operatorName);
    if lines == [] {
      NextExtracted([line], 0, operatorName);
      assert [line][..1] == [line] && [line][..0] == [] && [line] + lines == [line];
    } else {
      var init, last, all := lines[..|lines| - 1], lines[|lines| - 1], [line] + lines;
      ExtractedFront(line, init, operatorName);
      NextExtracted(lines, |init|, operatorName);
      NextExtracted(all, |lines|, operatorName);
      assert all[..|lines| + 1] == all && all[..|lines|] == [line] + init && lines[..|init| + 1] == lines;
      ConcatAssociates(ExtractedLine(line, operatorName), WithoutOperator(Trimmed(init), operatorName), [TrimSpace(last)]);
    }
  }

  /** Line by line after the blank line: what comes out is the trimmed line, when it begins with the
      prefix and its third byte does not begin the name and a space. */
  lemma ExtractedStep(body: bytes, line: bytes, rest: bytes, operatorName: bytes)
    requires Body(body) && NEWLINE !in line
    ensures WithoutOperator(TrimmedLines(body + [NEWLINE] + (line + [NEWLINE] + rest)), operatorName)
         == ExtractedLine(line, operatorName) + WithoutOperator(TrimmedLines(body + [NEWLINE] + rest), operatorName)
    ensures WithoutOperator(TrimmedLines(body + [NEWLINE] + line), operatorName) == ExtractedLine(line, operatorName)
    ensures TrimmedLines(body) == []
  {
    hide ExtractedLine, WithoutOperator, Trimmed, BlankLine, Lines;
    SectionAfter(body, line + [NEWLINE] + rest);
    SectionAfter(body, rest);
    SectionAfter(body, line);
    FirstLine(line, rest);
    ExtractedFront(line, Lines(rest), operatorName);
    ExtractedFront(line, [], operatorName);
    NothingExtracted(operatorName);
    assert [line] + [] == [line] && ExtractedLine(line, operatorName) + [] == ExtractedLine(line, operatorName);
  }
}
