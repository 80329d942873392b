/** What the served note makes of the stored ones: no signature that verifies is lost, and the
    witnesses that cosign reach their threshold. */
module CosignAccumulation {
  import opened ByteStrings
  import opened MerkleTree
  import opened Signing
  import opened Ledger
  import opened InterleavedBuilds
  import opened TextLines
  import opened Utf8
  import opened CheckpointText
  import opened Cosignatures
  import opened Notes
  import opened Thresholds
  import opened Cosigning
  import opened WitnessEndpoints
  import opened CosignAgreement
  import Base64
  import Decimal
  import Hex

  // ---- the lines of a submitted note ----

  lemma {:induction false} LinesAreValid(s: bytes)
    requires ValidText(s)
    ensures forall l :: l in Lines(s) ==> ValidText(l) && NEWLINE !in l
    decreases |s|
  {
    hide ValidText;
    var i := IndexByte(NEWLINE, s);
    if i < |s| {
      assert s == s[..i] + [NEWLINE] + s[i + 1..];
      ValidSplit(s[..i], s[i + 1..]);
      LinesAreValid(s[i + 1..]);
    }
  }

  lemma NoReturnsToTrim(l: bytes)
    requires ValidText(l)
    ensures TrimReturns(l) == l
  {
    ValidBytes(l);
  }

  lemma {:induction false} PrefixedOfValid(lines: seq<bytes>)
    requires forall l :: l in lines ==> ValidText(l) && NEWLINE !in l
    ensures forall l :: l in PrefixedLines(lines) <==> l in lines && HasPrefix(l, PREFIX)
    ensures forall l :: l in PrefixedLines(lines) ==> NoteLine(l)
    decreases |lines|
  {
    hide ValidText, HasPrefix;
    if lines != [] {
      var init, last := lines[..|lines| - 1], lines[|lines| - 1];
      assert lines == init + [last] && last in lines && forall l :: l in init ==> l in lines;
      PrefixedOfValid(init);
      NoReturnsToTrim(last);
    }
  }

  lemma ValidAfterBlank(raw: bytes, i: nat)
    requires ValidText(raw) && BlankAt(raw, i)
    ensures ValidText(raw[i + 2..])
  {
    hide ValidText;
    var rest := raw[i + 2..];
    assert raw == raw[..i] + [NEWLINE] + ([NEWLINE] + rest);
    ValidSplit(raw[..i], [NEWLINE] + rest);
    assert [NEWLINE] + rest == [] + [NEWLINE] + rest;
    ValidSplit([], rest);
  }

  /** All lines that the merge takes from valid text are well formed. */
  lemma MergedLinesAreNoteLines(raw: bytes)
    requires ValidText(raw)
    ensures forall l :: l in NoteLines(raw) ==> NoteLine(l)
  {
    hide ValidText, Lines, PrefixedLines, NoteLine;
    if BlankLine(raw).Some? {
      var i := BlankLine(raw).value;
      ValidAfterBlank(raw, i);
      LinesAreValid(raw[i + 2..]);
      PrefixedOfValid(Lines(raw[i + 2..]));
    }
  }

  lemma OneBlankLine(raw: bytes)
    requires LastBlankLine(raw).Some? && BlankLine(TextOf(raw)).None?
    ensures BlankLine(raw) == LastBlankLine(raw)
  {
    var j := LastBlankLine(raw).value;
    assert forall p :: 0 <= p < j ==> (BlankAt(raw, p) <==> BlankAt(TextOf(raw), p));
  }

  lemma LinesKept(init: bytes, l: bytes)
    requires ValidText(init + [NEWLINE]) && l in Lines(init) && HasPrefix(l, PREFIX)
    ensures l in SectionLines(init + [NEWLINE])
  {
    hide ValidText, Lines, PrefixedLines, HasPrefix;
    LinesOfEnded(init);
    LinesAreValid(init + [NEWLINE]);
    PrefixedOfValid(Lines(init + [NEWLINE]));
  }

  lemma ParsedHasPrefix(l: bytes)
    requires ParseLine(l).Some?
    ensures HasPrefix(l, PREFIX)
  {
  }

  lemma MergedSection(raw: bytes)
    requires WellFramed(raw) && BlankLine(TextOf(raw)).None?
    ensures NoteLines(raw) == SectionLines(SectionOf(raw)) && ValidText(SectionOf(raw))
  {
    hide ValidText, SectionLines;
    OneBlankLine(raw);
    ValidAfterBlank(raw, BlankLine(raw).value);
  }

  lemma EndedSection(raw: bytes)
    requires WellFramed(raw)
    ensures var section := SectionOf(raw);
      section == section[..|section| - 1] + [NEWLINE] && SignatureLines(raw) == Lines(section[..|section| - 1])
  {
    hide ValidText, Lines, LastBlankLine;
  }

  /** When the text has no blank line, every signature line is merged. */
  lemma SignatureLinesAreMerged(raw: bytes, l: bytes)
    requires WellFramed(raw) && BlankLine(TextOf(raw)).None? && l in SignatureLines(raw) && ParseLine(l).Some?
    ensures l in NoteLines(raw)
  {
    hide ValidText, Lines, SectionLines, BlankLine, TextOf, SectionOf, HasPrefix, ParseLine, NoteLines, SignatureLines;
    MergedSection(raw);
    EndedSection(raw);
    ParsedHasPrefix(l);
    LinesKept(SectionOf(raw)[..|SectionOf(raw)| - 1], l);
  }

  lemma {:induction false} LinesInAll(notes: seq<bytes>, i: nat)
    requires i < |notes|
    ensures forall l :: l in NoteLines(notes[i]) ==> l in AllLines(notes)
    decreases |notes|
  {
    hide NoteLines;
    if i < |notes| - 1 {
      LinesInAll(notes[..|notes| - 1], i);
    }
  }

  lemma {:induction false} AllLinesAreNoteLines(notes: seq<bytes>)
    requires forall i :: 0 <= i < |notes| ==> ValidText(notes[i])
    ensures forall l :: l in AllLines(notes) ==> NoteLine(l)
    decreases |notes|
  {
    hide NoteLines, NoteLine, ValidText;
    if notes != [] {
      AllLinesAreNoteLines(notes[..|notes| - 1]);
      MergedLinesAreNoteLines(notes[|notes| - 1]);
    }
  }

  lemma FramedNoteLines(notes: seq<bytes>)
    requires forall j :: 0 <= j < |notes| ==> WellFramed(notes[j])
    ensures forall l :: l in AllLines(notes) ==> NoteLine(l)
  {
    hide ValidText, SectionOf, NoteLine, AllLines;
    AllLinesAreNoteLines(notes);
  }

  /** The merged note reads as the text with the lines of all the notes. */
  lemma MergedReads(ed: Ed25519, text: bytes, operator: NoteKey, notes: seq<bytes>)
    requires Correct(ed) && CleanName(operator.name) && NoteText(text)
    requires forall j :: 0 <= j < |notes| ==> WellFramed(notes[j])
    ensures Merged(NoteBy(ed, text, [operator]), notes).Ok?
    ensures var m := Merged(NoteBy(ed, text, [operator]), notes).value;
      && WellFramed(m) && TextOf(m) == text
      && SignatureLines(m) == FirstOccurrences(LinesBy(ed, text, [operator]) + AllLines(notes))
    ensures LinesBy(ed, text, [operator])[0] in FirstOccurrences(LinesBy(ed, text, [operator]) + AllLines(notes))
  {
    hide NoteLines, ValidText, NoteLine, LineOf, Reassembled, CleanName, FirstOccurrences, SignatureLines, TextOf, SectionOf,
      WellFramed, NoteText, AllLines, Correct;
    var own := LinesBy(ed, text, [operator]);
    NoteLinesBy(ed, text, [operator]);
    LinesByAreLines(ed, text, [operator]);
    FramedNoteLines(notes);
    var lines := own + AllLines(notes);
    FirstOccurrencesOf(lines);
    assert own[0] in lines && own[0] in FirstOccurrences(lines);
    OpenReassembled(text, FirstOccurrences(lines));
  }

  /** Merging loses no signature: what vouches for the text in one of the notes vouches for it in
      the merged note. */
  lemma MergeKeepsVouching(ed: Ed25519, text: bytes, operator: NoteKey, notes: seq<bytes>, i: nat, k: NoteKey)
    requires Correct(ed) && CleanName(operator.name) && NoteText(text)
    requires i < |notes| && forall j :: 0 <= j < |notes| ==> WellFramed(notes[j])
    requires TextOf(notes[i]) == text && Vouches(ed, notes[i], k)
    ensures Merged(NoteBy(ed, text, [operator]), notes).Ok?
    ensures Vouches(ed, Merged(NoteBy(ed, text, [operator]), notes).value, k)
  {
    hide NoteLines, ValidText, ParseLine, NoteBy, SignatureBytes, CleanName, FirstOccurrences, SignatureLines, TextOf, SectionOf, Merged;
    MergedReads(ed, text, operator, notes);
    var lines := LinesBy(ed, text, [operator]) + AllLines(notes);
    FirstOccurrencesOf(lines);
    var l :| l in SignatureLines(notes[i]) && VouchingLine(ed, text, l, k);
    SignatureLinesAreMerged(notes[i], l);
    LinesInAll(notes, i);
    assert l in lines && l in FirstOccurrences(lines);
  }

  // ---- the served note ----

  lemma BodyIsNoteText(site: Site, c: Checkpoint, root: bytes)
    requires CleanName(site.origin) && root != []
    ensures NoteText(BodyWith(site, c, root))
  {
    hide ValidText, Decimal.Digits, Base64.Encode;
    var size := c.treeSize % TWO64;
    var d, e := Decimal.Digits(size), Base64.Encode(root);
    NameOk(site.origin);
    FormatHasNoBlankLine(site.origin, size, root);
    Base64.EncodeSymbols(root);
    assert forall i :: 0 <= i < |d| ==> Decimal.IsDigit(d[i]);
    assert forall i :: 0 <= i < |e| ==> Base64.IsSymbol(e[i]);
    var rest := [NEWLINE] + (d + [NEWLINE] + (e + [NEWLINE]));
    PlainIsValid(rest);
    ValidAppend(site.origin, rest);
    assert BodyWith(site, c, root) == site.origin + rest;
  }

  lemma {:induction false} NotesForOne(cs: seq<Cosignature>, i: nat) returns (m: nat)
    requires i < |cs|
    ensures m < |NotesFor(cs, cs[i].rootHex)| && NotesFor(cs, cs[i].rootHex)[m] == cs[i].noteText
    decreases |cs|
  {
    var n := |cs| - 1;
    if i == n {
      m := |NotesFor(cs[..n], cs[i].rootHex)|;
    } else {
      m := NotesForOne(cs[..n], i);
    }
  }

  /** What a reachable ledger with a checkpoint serves. */
  lemma ServedIs(site: Site, st: State, b: nat, body: bytes)
    requires Kept(site.env, st, b) && st.tables.checkpoints != [] && CleanName(site.origin)
    requires IsBodyOf(site, Latest(st.tables).value, body)
    ensures NoteText(body) && ServedNote(site, st.tables) == Ok(NoteBy(site.env.ed, body, [Operator(site)]))
    ensures Hex.Encode(Hex.Decode(Latest(st.tables).value.rootHex).value) == Latest(st.tables).value.rootHex
  {
    hide Kept, CleanName, NoteText, RowEntries, EntriesRoot, BodyWith, Sign, NoteBy, Hex.Encode, Hex.Decode;
    var c := Latest(st.tables).value;
    KeptRows(site.env, st, b, |st.tables.checkpoints| - 1);
    BodyIsNoteText(site, c, Hex.Decode(c.rootHex).value);
    SignedAlone(site.env.ed, body, Operator(site));
  }

  lemma OriginIsClean(site: Site, c: Checkpoint, raw: bytes)
    requires SubmissionVerdict(site, raw).None? && IsBodyOf(site, c, TextOf(raw))
    ensures CleanName(site.origin)
  {
    hide ValidText, Open, ParseCheckpoint, SubmissionVerdict, Base64.Encode, Decimal.Digits, TextOf, SectionOf;
    TakenNote(site, raw);
    var rest := TextOf(raw)[|site.origin| + 1..];
    assert TextOf(raw) == site.origin + [NEWLINE] + rest;
    assert raw == site.origin + [NEWLINE] + (rest + ([NEWLINE] + SectionOf(raw)));
    ValidSplit(site.origin, rest + ([NEWLINE] + SectionOf(raw)));
  }

  lemma StoredAreWellFramed(site: Site, t: Tables, rootHex: string)
    requires AllTaken(site, t)
    ensures forall j :: 0 <= j < |NotesFor(t.cosignatures, rootHex)| ==> WellFramed(NotesFor(t.cosignatures, rootHex)[j])
  {
    hide WellFramed, SubmissionVerdict, NotesFor;
    var notes := NotesFor(t.cosignatures, rootHex);
    NotesForAreStored(t.cosignatures, rootHex);
    forall j | 0 <= j < |notes| ensures WellFramed(notes[j]) {
      assert notes[j] in notes;
      var i :| 0 <= i < |t.cosignatures| && t.cosignatures[i] == Cosignature(rootHex, notes[j]);
      assert Taken(site, t.cosignatures[i]);
      TakenNote(site, notes[j]);
    }
  }

  /** No cosignature is lost: in every reachable state, a key that vouches for a note stored under
      the root of the latest checkpoint vouches for the served note; otherwise there is a forged
      signature or a hash collision to show. */
  lemma CosignaturesAccumulate(site: Site, hs: seq<Happening>, i: nat, k: NoteKey) returns (j: nat)
    requires Correct(site.env.ed)
    requires var t := History(site, hs).ledger.tables;
      && t.checkpoints != [] && i < |t.cosignatures| && t.cosignatures[i].rootHex == Latest(t).value.rootHex
      && Vouches(site.env.ed, t.cosignatures[i].noteText, k)
    ensures var w := History(site, hs);
      var t := w.ledger.tables;
      || Forged(site, w, t.cosignatures[i].noteText)
      || RowsCollide(site.env, t, j, |t.checkpoints| - 1)
      || (CosignedCheckpoint(site, t).Ok? && Vouches(site.env.ed, CosignedCheckpoint(site, t).value, k))
  {
    hide Kept, Forged, RowsCollide, Vouches, SubmissionVerdict, IsBodyOf, NotesFor, ServedNote, Merged, NoteBy, NoteText, CleanName,
      WellFramed, TextOf, Operator, Hex.Encode, Hex.Decode;
    var b := HistoryKeeps(site, hs);
    var st := History(site, hs).ledger;
    var t := st.tables;
    var raw := t.cosignatures[i].noteText;
    var last := |t.checkpoints| - 1;
    j := NotesUnderOneRootAgree(site, hs, i, last);
    if IsBodyOf(site, t.checkpoints[last], TextOf(raw)) {
      assert Taken(site, t.cosignatures[i]);
      OriginIsClean(site, t.checkpoints[last], raw);
      ServedIs(site, st, b, TextOf(raw));
      var rootHex := Latest(t).value.rootHex;
      var m := NotesForOne(t.cosignatures, i);
      StoredAreWellFramed(site, t, rootHex);
      OperatorName(site);
      MergeKeepsVouching(site.env.ed, TextOf(raw), Operator(site), NotesFor(t.cosignatures, rootHex), m, k);
    }
  }

  lemma OperatorName(site: Site)
    ensures Operator(site).name == site.origin
  {
  }
}
