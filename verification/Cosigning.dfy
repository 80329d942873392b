/** From the operator's note to the merged one: witnesses cosign what the operator serves
    (internal/witness/client.go), the ledger merges what they send, and a reader checks the result. */
module Cosigning {
  import opened ByteStrings
  import opened TextLines
  import opened Utf8
  import opened Signing
  import opened Cosignatures
  import opened Notes
  import opened Thresholds
  import Base64

  datatype CosignFailure = OperatorInvalid(openError: OpenError) | NotSigned(signError: SignError)

  /** `VerifyAndCosign`: check the operator's signature, then add the witness's. */
  function VerifyAndCosign(ed: Ed25519, raw: bytes, operator: NoteKey, cosigner: NoteKey): Result<bytes, CosignFailure> {
    match Open(ed, raw, [operator])
    case Err(e) => Err(OperatorInvalid(e))
    case Ok(n) =>
      match Sign(ed, n, cosigner)
      case Err(e) => Err(NotSigned(e))
      case Ok(cosigned) => Ok(cosigned)
  }

  /** A name that can stand in a note. */
  predicate CleanName(name: bytes) {
    ValidName(name) && ValidText(name)
  }

  function LinesBy(ed: Ed25519, text: bytes, keys: seq<NoteKey>): (lines: seq<bytes>)
    ensures |lines| == |keys|
    ensures forall i :: 0 <= i < |keys| ==> lines[i] == LineOf(SignatureBy(ed, text, keys[i]))
  {
    if keys == [] then [] else LinesBy(ed, text, keys[..|keys| - 1]) + [LineOf(SignatureBy(ed, text, keys[|keys| - 1]))]
  }

  /** The text with one signature by each key, in order. */
  function NoteBy(ed: Ed25519, text: bytes, keys: seq<NoteKey>): bytes {
    Reassembled(text, LinesBy(ed, text, keys))
  }

  ghost predicate Clean(keys: seq<NoteKey>) {
    forall i :: 0 <= i < |keys| ==> CleanName(keys[i].name)
  }

  lemma LinesByAreLines(ed: Ed25519, text: bytes, keys: seq<NoteKey>)
    requires Correct(ed) && Clean(keys)
    ensures forall l :: l in LinesBy(ed, text, keys) ==> NoteLine(l)
  {
    hide NoteLine, LineOf, SignatureBy, CleanName;
    var lines := LinesBy(ed, text, keys);
    forall i | 0 <= i < |lines| ensures NoteLine(lines[i]) {
      CleanLine(ed, text, keys[i]);
    }
  }

  lemma CleanLine(ed: Ed25519, text: bytes, k: NoteKey)
    requires Correct(ed) && CleanName(k.name)
    ensures NoteLine(LineOf(SignatureBy(ed, text, k)))
    ensures ParseLine(LineOf(SignatureBy(ed, text, k))) == Some(SignatureBy(ed, text, k))
    ensures SignatureBytes(SignatureBy(ed, text, k)) == ed.sign(k.key, text)
  {
    SignedLine(ed, text, k);
    SignatureByIsWellFormed(ed, text, k);
  }

  // ---- opening such a note ----

  /** A signer with the name and hash of a known key is that key. */
  ghost predicate KnownAsThemselves(known: seq<NoteKey>, keys: seq<NoteKey>) {
    forall k, q :: k in keys && q in known && k.name == q.name && k.hash == q.hash ==> k == q
  }

  lemma HonestSignatureCounts(ed: Ed25519, known: seq<NoteKey>, n: Note, k: NoteKey)
    requires Correct(ed) && DistinctNames(known) && KnownAsThemselves(known, [k]) && CleanName(k.name)
    ensures WithSignature(ed, known, n, SignatureBy(ed, n.text, k)).Ok?
    ensures WithSignature(ed, known, n, SignatureBy(ed, n.text, k)).value.text == n.text
  {
    hide SignatureBytes, CleanName;
    CleanLine(ed, n.text, k);
    var s := SignatureBy(ed, n.text, k);
    MatchingAreKnown(known, s);
    var keys := Matching(known, s);
    if keys != [] {
      assert keys[0] in keys && k in [k];
      MatchingIsUnique(known, s, keys[0]);
    }
  }

  ghost predicate OpensWhenShort(ed: Ed25519, known: seq<NoteKey>, text: bytes, lines: seq<bytes>) {
    var n := OpenLines(ed, known, text, lines);
    if |lines| <= MAX_SIGNATURES then n.Ok? && n.value.text == text else n == Err(Malformed)
  }

  lemma HonestLine(ed: Ed25519, known: seq<NoteKey>, text: bytes, lines: seq<bytes>, k: NoteKey)
    requires Correct(ed) && DistinctNames(known) && KnownAsThemselves(known, [k]) && CleanName(k.name)
    requires OpensWhenShort(ed, known, text, lines)
    ensures OpensWhenShort(ed, known, text, lines + [LineOf(SignatureBy(ed, text, k))])
  {
    hide WithSignature, ParseLine, LineOf, SignatureBy, CleanName, OpenLines, Correct, DistinctNames, KnownAsThemselves;
    CleanLine(ed, text, k);
    OpenLinesSnoc(ed, known, text, lines, LineOf(SignatureBy(ed, text, k)));
    if |lines| < MAX_SIGNATURES {
      HonestSignatureCounts(ed, known, OpenLines(ed, known, text, lines).value, k);
    }
  }

  lemma LinesBySnoc(ed: Ed25519, text: bytes, keys: seq<NoteKey>, k: NoteKey)
    ensures LinesBy(ed, text, keys + [k]) == LinesBy(ed, text, keys) + [LineOf(SignatureBy(ed, text, k))]
  {
    hide LineOf, SignatureBy;
    assert (keys + [k])[..|keys|] == keys;
  }

  /** At most a hundred honest lines open, with more the note is malformed. */
  lemma {:induction false} HonestLinesOpen(ed: Ed25519, known: seq<NoteKey>, text: bytes, keys: seq<NoteKey>)
    requires Correct(ed) && DistinctNames(known) && KnownAsThemselves(known, keys) && Clean(keys)
    ensures OpensWhenShort(ed, known, text, LinesBy(ed, text, keys))
    decreases |keys|
  {
    hide LineOf, SignatureBy, CleanName, OpenLines, Correct, DistinctNames;
    if keys == [] {
      NoLinesOpen(ed, known, text);
    } else {
      var init, last := keys[..|keys| - 1], keys[|keys| - 1];
      assert keys == init + [last] && last in keys && forall k :: k in init ==> k in keys;
      HonestLinesOpen(ed, known, text, init);
      LinesBySnoc(ed, text, init, last);
      HonestLine(ed, known, text, LinesBy(ed, text, init), last);
    }
  }

  lemma NoLinesOpen(ed: Ed25519, known: seq<NoteKey>, text: bytes)
    ensures OpenLines(ed, known, text, []) == Ok(Note(text, [], []))
  {
  }

  lemma HonestNoteOpens(ed: Ed25519, known: seq<NoteKey>, text: bytes, keys: seq<NoteKey>)
    requires Correct(ed) && DistinctNames(known) && KnownAsThemselves(known, keys) && Clean(keys)
    requires NoteText(text) && keys != []
    ensures WellFramed(NoteBy(ed, text, keys)) && TextOf(NoteBy(ed, text, keys)) == text
    ensures SignatureLines(NoteBy(ed, text, keys)) == LinesBy(ed, text, keys)
    ensures NoteOf(Open(ed, NoteBy(ed, text, keys), known)).Some? <==> |keys| <= 100
  {
    hide NoteLine, WellFramed, NoteText, CleanName, Reassembled, OpenLines, LinesBy;
    LinesByAreLines(ed, text, keys);
    OpenReassembled(text, LinesBy(ed, text, keys));
    HonestLinesOpen(ed, known, text, keys);
  }

  /** A known key vouches for an honest note exactly when it is one of the signers. */
  lemma HonestVouching(ed: Ed25519, known: seq<NoteKey>, text: bytes, keys: seq<NoteKey>, k: NoteKey)
    requires Correct(ed) && DistinctNames(known) && KnownAsThemselves(known, keys) && Clean(keys)
    requires NoteText(text) && keys != [] && k in known
    ensures Vouches(ed, NoteBy(ed, text, keys), k) <==> k in keys
  {
    hide ParseLine, LineOf, CleanName, SignatureBytes, NoteBy, NoteText;
    HonestNoteOpens(ed, known, text, keys);
    var lines := LinesBy(ed, text, keys);
    forall i | 0 <= i < |keys| ensures VouchingLine(ed, text, lines[i], k) <==> keys[i] == k {
      assert keys[i] in keys;
      CleanLine(ed, text, keys[i]);
    }
    if k in keys {
      var i :| 0 <= i < |keys| && keys[i] == k;
      assert lines[i] in lines && VouchingLine(ed, text, lines[i], k);
    }
  }

  // ---- what a witness sends ----

  lemma FirstSignature(ed: Ed25519, text: bytes, k: NoteKey)
    requires Correct(ed) && CleanName(k.name)
    ensures WithSignature(ed, [k], Note(text, [], []), SignatureBy(ed, text, k)) == Ok(Note(text, [SignatureBy(ed, text, k)], []))
  {
    hide CleanName, SignatureBytes, ParseLine, LineOf, Matching, Base64.Encode;
    CleanLine(ed, text, k);
    MatchingIsUnique([k], SignatureBy(ed, text, k), k);
    var s := SignatureBy(ed, text, k);
    assert ed.verify(k.key, text, SignatureBytes(s)) && [] + [s] == [s];
  }

  lemma OperatorOnly(ed: Ed25519, text: bytes, operator: NoteKey)
    requires Correct(ed) && CleanName(operator.name) && NoteText(text)
    ensures Open(ed, NoteBy(ed, text, [operator]), [operator]) == Ok(Note(text, [SignatureBy(ed, text, operator)], []))
  {
    hide ParseLine, LineOf, CleanName, NoteBy, NoteText, WellFramed, SignatureLines, SignatureBy, OpenLines, WithSignature, TextOf;
    var line := LineOf(SignatureBy(ed, text, operator));
    HonestNoteOpens(ed, [operator], text, [operator]);
    CleanLine(ed, text, operator);
    assert LinesBy(ed, text, [operator]) == [] + [line];
    NoLinesOpen(ed, [operator], text);
    OpenLinesSnoc(ed, [operator], text, [], line);
    FirstSignature(ed, text, operator);
  }

  /** Cosigning what the operator serves adds one line after the operator's. */
  lemma CosignedNote(ed: Ed25519, text: bytes, operator: NoteKey, cosigner: NoteKey)
    requires Correct(ed) && CleanName(operator.name) && CleanName(cosigner.name) && operator.name != cosigner.name
    requires NoteText(text)
    ensures VerifyAndCosign(ed, NoteBy(ed, text, [operator]), operator, cosigner) == Ok(NoteBy(ed, text, [operator, cosigner]))
  {
    hide Open, NoteBy, Reassembled, ValidText, LineOf;
    OperatorOnly(ed, text, operator);
    var s, n := SignatureBy(ed, text, operator), Note(text, [SignatureBy(ed, text, operator)], []);
    SignatureByIsWellFormed(ed, text, operator);
    assert n.sigs[..0] == [] && Others(n.sigs, cosigner) + Others(n.unverified, cosigner) == [s];
    SignedTwice(ed, text, operator, cosigner);
    assert Carried(s);
  }

  /** A witness cosigns exactly what the operator's key vouches for, whatever it is sent; what it
      signs is the text that was verified. */
  lemma CosignsIff(ed: Ed25519, raw: bytes, operator: NoteKey, cosigner: NoteKey)
    ensures var r := VerifyAndCosign(ed, raw, operator, cosigner);
      && (r.Ok? <==> (&& ValidName(cosigner.name) && WellFramed(raw) && Vouches(ed, raw, operator)
                      && Readable(ed, [operator], TextOf(raw), SignatureLines(raw))))
      && (r.Ok? ==> AddsLine(r.value, TextOf(raw), LineOf(SignatureBy(ed, TextOf(raw), cosigner))))
  {
    hide Open, Readable, WellFramed, Vouches, Sign, SignatureBy, LineOf;
    OpensIff(ed, raw, [operator]);
    var n := Open(ed, raw, [operator]);
    assert [operator][0] == operator;
    if n.Ok? {
      OpenedIsSigned(ed, raw, operator, cosigner, n.value);
    }
  }

  /** The text, a blank line, some lines, and the given one as the last. */
  ghost predicate AddsLine(signed: bytes, text: bytes, line: bytes) {
    exists before: bytes :: AddsLineAfter(signed, text, before, line)
  }

  predicate AddsLineAfter(signed: bytes, text: bytes, before: bytes, line: bytes) {
    signed == text + [NEWLINE] + before + line + [NEWLINE]
  }

  lemma OpenedIsSigned(ed: Ed25519, raw: bytes, operator: NoteKey, cosigner: NoteKey, n: Note)
    requires Open(ed, raw, [operator]) == Ok(n)
    ensures var r := Sign(ed, n, cosigner);
      && (r.Ok? <==> ValidName(cosigner.name))
      && (r.Ok? ==> AddsLine(r.value, TextOf(raw), LineOf(SignatureBy(ed, TextOf(raw), cosigner))))
  {
    hide Open, LineOf, ValidName, SignatureBy, Carried, Reassembled, AddsLine, Sane, Sign;
    TextEnds(ed, raw, operator, n);
    var kept := Others(n.sigs, cosigner) + Others(n.unverified, cosigner);
    KeptAreCarried(ed, [operator], n, cosigner, kept);
    WrittenLast(n.text, kept, SignatureBy(ed, n.text, cosigner));
    SignsWhenCarried(ed, n, cosigner, kept);
  }

  lemma SignsWhenCarried(ed: Ed25519, n: Note, k: NoteKey, kept: seq<Signature>)
    requires n.text != [] && n.text[|n.text| - 1] == NEWLINE
    requires kept == Others(n.sigs, k) + Others(n.unverified, k) && forall i :: 0 <= i < |kept| ==> Carried(kept[i])
    ensures Sign(ed, n, k).Ok? <==> ValidName(k.name)
    ensures ValidName(k.name) ==> Sign(ed, n, k) == Ok(Reassembled(n.text, LinesOf(kept + [SignatureBy(ed, n.text, k)])))
  {
    hide Others, Carried, ValidName, Reassembled, LinesOf, SignatureBy;
  }

  lemma KeptAreCarried(ed: Ed25519, known: seq<NoteKey>, n: Note, cosigner: NoteKey, kept: seq<Signature>)
    requires Sane(ed, known, n.text, n) && kept == Others(n.sigs, cosigner) + Others(n.unverified, cosigner)
    ensures forall i :: 0 <= i < |kept| ==> Carried(kept[i])
  {
    hide WellFormed, Carried, VerifiedBy, Others;
    OthersAre(n.sigs, cosigner);
    OthersAre(n.unverified, cosigner);
    forall i | 0 <= i < |kept| ensures Carried(kept[i]) {
      assert kept[i] in kept;
      WellFormedIsCarried(kept[i]);
    }
  }

  lemma WellFormedIsCarried(s: Signature)
    requires WellFormed(s)
    ensures Carried(s)
  {
    hide ValidName, Base64.Decode;
  }

  lemma WrittenLast(text: bytes, kept: seq<Signature>, mine: Signature)
    ensures AddsLine(Reassembled(text, LinesOf(kept + [mine])), text, LineOf(mine))
  {
    hide LineOf, Joined;
    var lines, line := LinesOf(kept), LineOf(mine);
    assert LinesOf(kept + [mine]) == lines + [line];
    JoinedSnoc(lines, line);
    assert text + [NEWLINE] + (Joined(lines) + line + [NEWLINE]) == text + [NEWLINE] + Joined(lines) + line + [NEWLINE];
    assert AddsLineAfter(Reassembled(text, lines + [line]), text, Joined(lines), line);
  }

  lemma TextEnds(ed: Ed25519, raw: bytes, operator: NoteKey, n: Note)
    requires Open(ed, raw, [operator]) == Ok(n)
    ensures Sane(ed, [operator], n.text, n) && n.text == TextOf(raw)
    ensures n.text != [] && n.text[|n.text| - 1] == NEWLINE
  {
    hide ValidText, OpenLines, WellFormed, VerifiedBy;
    OpenIsSane(ed, raw, [operator]);
  }

  lemma SignedTwice(ed: Ed25519, text: bytes, operator: NoteKey, cosigner: NoteKey)
    ensures Reassembled(text, LinesOf([SignatureBy(ed, text, operator)] + [SignatureBy(ed, text, cosigner)]))
         == NoteBy(ed, text, [operator, cosigner])
  {
    hide LineOf, SignatureBy;
    var a := LinesOf([SignatureBy(ed, text, operator)] + [SignatureBy(ed, text, cosigner)]);
    var b := LinesBy(ed, text, [operator, cosigner]);
    assert |a| == |b| == 2 && a[0] == b[0] && a[1] == b[1];
    assert a == b;
  }

  /** What the operator serves is the text with its own line. */
  lemma SignedAlone(ed: Ed25519, text: bytes, operator: NoteKey)
    requires CleanName(operator.name) && NoteText(text)
    ensures Sign(ed, Note(text, [], []), operator) == Ok(NoteBy(ed, text, [operator]))
  {
    hide LineOf, SignatureBy, ValidText;
    var s := SignatureBy(ed, text, operator);
    var none: seq<Signature> := [];
    assert Others(none, operator) + Others(none, operator) == none && none + [s] == [s];
    var a, b := LinesOf([s]), LinesBy(ed, text, [operator]);
    assert |a| == |b| == 1 && a[0] == b[0] == LineOf(s);
    assert a == b;
  }

  // ---- the merged note ----

  function CosignedNotes(ed: Ed25519, text: bytes, operator: NoteKey, ws: seq<NoteKey>): (notes: seq<bytes>)
    ensures |notes| == |ws|
    ensures forall i :: 0 <= i < |ws| ==> notes[i] == NoteBy(ed, text, [operator, ws[i]])
  {
    if ws == [] then [] else
      CosignedNotes(ed, text, operator, ws[..|ws| - 1]) + [NoteBy(ed, text, [operator, ws[|ws| - 1]])]
  }

  lemma NoteLinesBy(ed: Ed25519, text: bytes, keys: seq<NoteKey>)
    requires Correct(ed) && Clean(keys) && NoteText(text)
    ensures NoteLines(NoteBy(ed, text, keys)) == LinesBy(ed, text, keys)
    ensures BlankLine(NoteBy(ed, text, keys)) == Some(|text| - 1)
    ensures NoteBy(ed, text, keys)[..|text|] == text
  {
    hide CleanName, ValidText, NoteLines, LinesBy, BlankLine;
    LinesByAreLines(ed, text, keys);
    NoBlank(text);
    ReassembledSplits(text, LinesBy(ed, text, keys));
  }

  lemma NoBlank(text: bytes)
    requires NoteText(text)
    ensures forall j :: !BlankAt(text, j)
  {
  }

  /** Lines of keys with different names differ. */
  lemma LinesDiffer(ed: Ed25519, text: bytes, a: NoteKey, b: NoteKey)
    requires Correct(ed) && CleanName(a.name) && CleanName(b.name) && a.name != b.name
    ensures LineOf(SignatureBy(ed, text, a)) != LineOf(SignatureBy(ed, text, b))
  {
    hide ParseLine, LineOf;
    CleanLine(ed, text, a);
    CleanLine(ed, text, b);
  }

  /** The operator's line comes once, then each witness's. */
  lemma {:induction false} MergedLines(ed: Ed25519, text: bytes, operator: NoteKey, ws: seq<NoteKey>)
    requires Correct(ed) && Clean([operator] + ws) && DistinctNames([operator] + ws) && NoteText(text)
    ensures FirstOccurrences(LinesBy(ed, text, [operator]) + AllLines(CosignedNotes(ed, text, operator, ws)))
         == LinesBy(ed, text, [operator] + ws)
    decreases |ws|
  {
    hide CleanName, NoteText, AllLines, CosignedNotes, LinesBy, FirstOccurrences, Correct;
    if ws == [] {
      NoWitnessYet(ed, text, operator);
    } else {
      var init, w := ws[..|ws| - 1], ws[|ws| - 1];
      InitStays(operator, ws);
      MergedLines(ed, text, operator, init);
      assert ws == init + [w] && [operator] + ws == [operator] + init + [w];
      NextWitness(ed, text, operator, init, w);
    }
  }

  lemma NoWitnessYet(ed: Ed25519, text: bytes, operator: NoteKey)
    ensures FirstOccurrences(LinesBy(ed, text, [operator]) + AllLines(CosignedNotes(ed, text, operator, [])))
         == LinesBy(ed, text, [operator] + [])
  {
    hide LineOf, SignatureBy;
    var mine := LinesBy(ed, text, [operator]);
    assert [operator] + [] == [operator] && mine + [] == mine && |mine| == 1;
    OnceIsFixed(mine);
  }

  lemma InitStays(operator: NoteKey, ws: seq<NoteKey>)
    requires ws != [] && Clean([operator] + ws) && DistinctNames([operator] + ws)
    ensures Clean([operator] + ws[..|ws| - 1]) && DistinctNames([operator] + ws[..|ws| - 1])
  {
    var keys, short := [operator] + ws, [operator] + ws[..|ws| - 1];
    assert forall i :: 0 <= i < |short| ==> short[i] == keys[i];
  }

  /** A known line and a new one after the others. */
  lemma KnownThenNew(mine: seq<bytes>, all: seq<bytes>, known: bytes, added: bytes)
    requires known in mine && added !in FirstOccurrences(mine + all)
    ensures FirstOccurrences(mine + (all + [known, added])) == FirstOccurrences(mine + all) + [added]
  {
    var before := mine + all;
    assert mine + (all + [known, added]) == before + [known] + [added];
    FirstOccurrencesOf(before);
    assert known in before;
    FirstOccurrencesSnoc(before, known);
    FirstOccurrencesSnoc(before + [known], added);
  }

  lemma NextWitness(ed: Ed25519, text: bytes, operator: NoteKey, init: seq<NoteKey>, w: NoteKey)
    requires Correct(ed) && Clean([operator] + init + [w]) && DistinctNames([operator] + init + [w]) && NoteText(text)
    requires FirstOccurrences(LinesBy(ed, text, [operator]) + AllLines(CosignedNotes(ed, text, operator, init)))
          == LinesBy(ed, text, [operator] + init)
    ensures FirstOccurrences(LinesBy(ed, text, [operator]) + AllLines(CosignedNotes(ed, text, operator, init + [w])))
         == LinesBy(ed, text, [operator] + init + [w])
  {
    hide CleanName, NoteLines, NoteBy, LineOf, SignatureBy, NoteText, AllLines, CosignedNotes, FirstOccurrences, LinesBy, Correct;
    var keys := [operator] + init + [w];
    assert keys[0] == operator && keys[|keys| - 1] == w;
    var lo, lw := LineOf(SignatureBy(ed, text, operator)), LineOf(SignatureBy(ed, text, w));
    NoteLinesBy(ed, text, [operator, w]);
    assert LinesBy(ed, text, [operator, w]) == [lo, lw];
    NextNoteLines(ed, text, operator, init, w);
    assert LinesBy(ed, text, [operator])[0] == lo;
    NewLine(ed, text, [operator] + init, w);
    KnownThenNew(LinesBy(ed, text, [operator]), AllLines(CosignedNotes(ed, text, operator, init)), lo, lw);
    LinesBySnoc(ed, text, [operator] + init, w);
  }

  lemma NextNoteLines(ed: Ed25519, text: bytes, operator: NoteKey, init: seq<NoteKey>, w: NoteKey)
    ensures AllLines(CosignedNotes(ed, text, operator, init + [w]))
         == AllLines(CosignedNotes(ed, text, operator, init)) + NoteLines(NoteBy(ed, text, [operator, w]))
  {
    hide NoteLines, NoteBy;
    assert (init + [w])[..|init|] == init;
    var notes := CosignedNotes(ed, text, operator, init + [w]);
    assert notes[..|init|] == CosignedNotes(ed, text, operator, init);
  }

  lemma NewLine(ed: Ed25519, text: bytes, keys: seq<NoteKey>, w: NoteKey)
    requires Correct(ed) && Clean(keys + [w]) && DistinctNames(keys + [w])
    ensures LineOf(SignatureBy(ed, text, w)) !in LinesBy(ed, text, keys)
  {
    hide CleanName, LineOf, SignatureBy;
    var all := keys + [w];
    forall i | 0 <= i < |keys| ensures LinesBy(ed, text, keys)[i] != LineOf(SignatureBy(ed, text, w)) {
      assert all[i] == keys[i] && all[|keys|] == w;
      LinesDiffer(ed, text, keys[i], w);
    }
  }

  /** Merging what the witnesses send into what the operator serves gives the text with the
      operator's line and one line of each witness. */
  lemma MergedNote(ed: Ed25519, text: bytes, operator: NoteKey, ws: seq<NoteKey>)
    requires Correct(ed) && Clean([operator] + ws) && DistinctNames([operator] + ws) && NoteText(text)
    ensures Merged(NoteBy(ed, text, [operator]), CosignedNotes(ed, text, operator, ws)) == Ok(NoteBy(ed, text, [operator] + ws))
  {
    hide CleanName, NoteLines, LinesBy, AllLines, FirstOccurrences, BlankLine, NoteText;
    assert ([operator] + ws)[0] == operator;
    NoteLinesBy(ed, text, [operator]);
    MergedLines(ed, text, operator, ws);
  }

  lemma {:induction false} CountNames(keys: seq<NoteKey>)
    requires DistinctNames(keys)
    ensures |NamesOf(keys)| == |keys|
    decreases |keys|
  {
    if keys != [] {
      var init, last := keys[..|keys| - 1], keys[|keys| - 1];
      CountNames(init);
      assert keys == init + [last];
      assert NamesOf(keys) == NamesOf(init) + {last.name} && last.name !in NamesOf(init);
    } else {
      assert NamesOf(keys) == {};
    }
  }

  /** After witnesses with distinct names each cosigned what the operator serves, the merged note
      passes threshold k exactly when k of them did and the lines are at most a hundred. */
  lemma MergedNotePasses(ed: Ed25519, text: bytes, operator: NoteKey, required: seq<NoteKey>, ws: seq<NoteKey>, threshold: int)
    requires Correct(ed) && NoteText(text)
    requires DistinctNames([operator] + required) && DistinctNames([operator] + ws) && Clean([operator] + ws)
    requires forall w :: w in ws ==> w in required
    ensures var served := Sign(ed, Note(text, [], []), operator);
      && served.Ok?
      && (forall i :: 0 <= i < |ws| ==>
            VerifyAndCosign(ed, served.value, operator, ws[i]) == Ok(CosignedNotes(ed, text, operator, ws)[i]))
      && Merged(served.value, CosignedNotes(ed, text, operator, ws)).Ok?
      && (CosignedVerdict(ed, Merged(served.value, CosignedNotes(ed, text, operator, ws)).value, operator, required, threshold) == None
          <==> 0 <= threshold <= |ws| && |ws| < 100)
  {
    hide CleanName, NoteBy, CosignedVerdict, Merged, NoteText, Sign, VerifyAndCosign, Open, Vouches;
    var keys, known := [operator] + ws, [operator] + required;
    assert keys[0] == operator && known[0] == operator;
    SignedAlone(ed, text, operator);
    forall i | 0 <= i < |ws|
      ensures VerifyAndCosign(ed, NoteBy(ed, text, [operator]), operator, ws[i]) == Ok(CosignedNotes(ed, text, operator, ws)[i])
    {
      assert keys[i + 1] == ws[i];
      CosignedNote(ed, text, operator, ws[i]);
    }
    MergedNote(ed, text, operator, ws);
    ThresholdOfMerged(ed, text, operator, required, ws, threshold);
  }

  lemma ThresholdOfMerged(ed: Ed25519, text: bytes, operator: NoteKey, required: seq<NoteKey>, ws: seq<NoteKey>, threshold: int)
    requires Correct(ed) && NoteText(text)
    requires DistinctNames([operator] + required) && DistinctNames([operator] + ws) && Clean([operator] + ws)
    requires forall w :: w in ws ==> w in required
    ensures CosignedVerdict(ed, NoteBy(ed, text, [operator] + ws), operator, required, threshold) == None
       <==> 0 <= threshold <= |ws| && |ws| < 100
  {
    hide CleanName, NoteBy, CosignedVerdict, NoteText, Open, Vouches;
    var keys, known := [operator] + ws, [operator] + required;
    var raw := NoteBy(ed, text, keys);
    assert known[0] == operator && forall k :: k in keys ==> k == operator || k in ws;
    assert forall k :: k in keys ==> k in known;
    KnownKeysAreThemselves(known, keys);
    HonestNoteOpens(ed, known, text, keys);
    forall k | k in known ensures Vouches(ed, raw, k) <==> k in keys {
      HonestVouching(ed, known, text, keys, k);
    }
    VouchersAreSigners(ed, raw, operator, required, ws);
    WitnessesDistinct(operator, ws);
    CountNames(ws);
    assert keys[0] == operator;
    AcceptedIffVouched(ed, raw, operator, required, threshold);
  }

  lemma KnownKeysAreThemselves(known: seq<NoteKey>, keys: seq<NoteKey>)
    requires DistinctNames(known) && forall k :: k in keys ==> k in known
    ensures KnownAsThemselves(known, keys)
  {
    forall k, q | k in keys && q in known && k.name == q.name ensures k == q {
      assert k in known;
    }
  }

  lemma WitnessesDistinct(operator: NoteKey, ws: seq<NoteKey>)
    requires DistinctNames([operator] + ws)
    ensures DistinctNames(ws) && forall w :: w in ws ==> w.name != operator.name
  {
    var keys := [operator] + ws;
    assert forall i :: 0 <= i < |ws| ==> keys[i + 1] == ws[i];
    assert keys[0] == operator;
  }

  lemma VouchersAreSigners(ed: Ed25519, raw: bytes, operator: NoteKey, required: seq<NoteKey>, ws: seq<NoteKey>)
    requires DistinctNames([operator] + required) && forall w :: w in ws ==> w in required
    requires forall k :: k in [operator] + required ==> (Vouches(ed, raw, k) <==> k in [operator] + ws)
    ensures VouchingNames(ed, raw, required) == NamesOf(ws)
  {
    hide Vouches;
    WitnessesDistinct(operator, required);
    forall name ensures name in VouchingNames(ed, raw, required) <==> name in NamesOf(ws) {
      if name in NamesOf(ws) {
        var w :| w in ws && w.name == name;
        assert w in required && w in [operator] + required && w in [operator] + ws;
      }
      if name in VouchingNames(ed, raw, required) {
        var k :| k in required && Vouches(ed, raw, k) && k.name == name;
        assert k in [operator] + required && k != operator;
        assert k in ws;
      }
    }
  }
}
