/** When the served note passes the k-of-n check: in every reachable state, and after witnesses have
    cosigned while the ledger goes on. */
module ServedThreshold {
  import opened ByteStrings
  import opened MerkleTree
  import opened Signing
  import opened Ledger
  import opened InterleavedBuilds
  import opened RootChain
  import opened TextLines
  import opened Utf8
  import opened CheckpointText
  import opened Cosignatures
  import opened Notes
  import opened Thresholds
  import opened Cosigning
  import opened WitnessEndpoints
  import opened CosignAgreement
  import opened CosignAccumulation
  import Hex

  // ---- in every reachable state ----

  /** What is served passes the check that a reader runs. */
  predicate Passes(site: Site, t: Tables, required: seq<NoteKey>, threshold: int) {
    && CosignedCheckpoint(site, t).Ok?
    && CosignedVerdict(site.env.ed, CosignedCheckpoint(site, t).value, Operator(site), required, threshold) == None
  }

  /** The operator's line and those of the notes stored under the latest root, each once. */
  function ServedLines(site: Site, t: Tables, body: bytes): seq<bytes>
    requires t.checkpoints != []
  {
    FirstOccurrences(LinesBy(site.env.ed, body, [Operator(site)]) + AllLines(NotesFor(t.cosignatures, Latest(t).value.rootHex)))
  }

  lemma ServedReads(site: Site, st: State, b: nat, body: bytes)
    requires Correct(site.env.ed) && Kept(site.env, st, b) && AllTaken(site, st.tables)
    requires st.tables.checkpoints != [] && CleanName(site.origin) && IsBodyOf(site, Latest(st.tables).value, body)
    ensures CosignedCheckpoint(site, st.tables).Ok?
    ensures var m := CosignedCheckpoint(site, st.tables).value;
      && WellFramed(m) && TextOf(m) == body && SignatureLines(m) == ServedLines(site, st.tables, body)
      && Vouches(site.env.ed, m, Operator(site))
  {
    hide Kept, Taken, Merged, Sign, NoteText, CleanName, WellFramed, TextOf, SignatureLines, NotesFor, AllLines, FirstOccurrences, IsBodyOf,
      ServedNote, Hex.Encode, Hex.Decode, VouchingLine, LinesBy, NoteBy;
    var t, ed, operator := st.tables, site.env.ed, Operator(site);
    var notes := NotesFor(t.cosignatures, Latest(t).value.rootHex);
    OperatorName(site);
    ServedIs(site, st, b, body);
    StoredAreWellFramed(site, t, Latest(t).value.rootHex);
    MergedReads(ed, body, operator, notes);
    OwnLineVouches(ed, body, operator);
  }

  lemma OwnLineVouches(ed: Ed25519, text: bytes, k: NoteKey)
    requires Correct(ed) && CleanName(k.name)
    ensures VouchingLine(ed, text, LinesBy(ed, text, [k])[0], k)
  {
    hide CleanName, ParseLine, LineOf, SignatureBytes;
    CleanLine(ed, text, k);
  }

  lemma FramedOpens(ed: Ed25519, raw: bytes, known: seq<NoteKey>)
    requires WellFramed(raw)
    ensures NoteOf(Open(ed, raw, known)).Some? <==> Readable(ed, known, TextOf(raw), SignatureLines(raw))
  {
    hide OpenLines, WellFramed, Readable;
    OpensIffReadable(ed, known, TextOf(raw), SignatureLines(raw));
  }

  /** In every reachable state, whatever has been submitted: the served note passes threshold k
      exactly when its lines are readable with the known keys and at least k pairs of a name and a
      hash vouch under names of required witnesses. */
  lemma ServedPassesIff(site: Site, hs: seq<Happening>, required: seq<NoteKey>, threshold: int)
    requires Correct(site.env.ed) && CleanName(site.origin) && History(site, hs).ledger.tables.checkpoints != []
    ensures var t := History(site, hs).ledger.tables;
      && ServedBody(site, t).Ok? && CosignedCheckpoint(site, t).Ok?
      && (Passes(site, t, required, threshold)
          <==> (&& Readable(site.env.ed, [Operator(site)] + required, ServedBody(site, t).value, ServedLines(site, t, ServedBody(site, t).value))
                && 0 <= threshold <= |VouchingIds(site.env.ed, CosignedCheckpoint(site, t).value, [Operator(site)] + required, NamesOf(required))|))
  {
    hide Kept, CosignedVerdict, CosignedCheckpoint, Readable, ServedLines, History, Hex.Decode, Open, Vouches, BodyWith, WellFramed, TextOf,
      SignatureLines, AllTaken, CleanName, SignedAreBodies;
    var b := HistoryKeeps(site, hs);
    var st := History(site, hs).ledger;
    var t, known := st.tables, [Operator(site)] + required;
    LatestDecodes(site, st, b);
    var body := ServedBody(site, t).value;
    ServedReads(site, st, b, body);
    var raw := CosignedCheckpoint(site, t).value;
    FramedOpens(site.env.ed, raw, known);
    AcceptedIff(site.env.ed, raw, Operator(site), required, threshold);
    OperatorAmong(site.env.ed, raw, Operator(site), known);
  }

  lemma LatestDecodes(site: Site, st: State, b: nat)
    requires Kept(site.env, st, b) && st.tables.checkpoints != []
    ensures ServedBody(site, st.tables).Ok? && IsBodyOf(site, Latest(st.tables).value, ServedBody(site, st.tables).value)
  {
    hide Kept, RowEntries, EntriesRoot, BodyWith, Hex.Encode, Hex.Decode;
    KeptRows(site.env, st, b, |st.tables.checkpoints| - 1);
  }

  lemma OperatorAmong(ed: Ed25519, raw: bytes, operator: NoteKey, known: seq<NoteKey>)
    requires known != [] && known[0] == operator && Vouches(ed, raw, operator)
    ensures VouchingIds(ed, raw, known, {operator.name}) != {}
  {
    hide Vouches;
    assert (operator.name, operator.hash) in VouchingIds(ed, raw, known, {operator.name});
  }

  // ---- witnesses reach their threshold ----

  lemma CosignedOpens(ed: Ed25519, text: bytes, operator: NoteKey, k: NoteKey)
    requires Correct(ed) && CleanName(operator.name) && CleanName(k.name) && k.name != operator.name && NoteText(text)
    ensures var n := Open(ed, NoteBy(ed, text, [operator, k]), [operator]); n.Ok? && n.value.text == text
  {
    hide CleanName, NoteText, WellFramed, TextOf, Vouches, NoteBy, Open, Sane, SignatureLines;
    var raw := NoteBy(ed, text, [operator, k]);
    HonestNoteOpens(ed, [operator], text, [operator, k]);
    HonestVouching(ed, [operator], text, [operator, k], operator);
    OperatorCounts(ed, raw, operator);
    OpenIsSane(ed, raw, [operator]);
    SaneText(ed, [operator], TextOf(raw), Open(ed, raw, [operator]).value);
  }

  lemma SaneText(ed: Ed25519, known: seq<NoteKey>, text: bytes, n: Note)
    requires Sane(ed, known, text, n)
    ensures n.text == text
  {
  }

  /** A cosigned note of the served body is taken, under the root of the checkpoint. */
  lemma CosignedIsTaken(site: Site, c: Checkpoint, root: bytes, body: bytes, k: NoteKey)
    requires Correct(site.env.ed) && CleanName(site.origin) && CleanName(k.name) && k.name != site.origin
    requires root != [] && Hex.Decode(c.rootHex) == Some(root) && body == BodyWith(site, c, root)
    ensures var raw := NoteBy(site.env.ed, body, [Operator(site), k]);
      SubmissionVerdict(site, raw).None? && ParseCheckpoint(raw).Ok? && ParseCheckpoint(raw).value.rootHash == root
  {
    hide ParseCheckpoint, ValidText, ValidName, NoteText, FormatCheckpoint, Open, LinesBy, Joined;
    var ed, operator := site.env.ed, Operator(site);
    BodyIsNoteText(site, c, root);
    CosignedOpens(ed, body, operator, k);
    NameOk(site.origin);
    var tail := [NEWLINE] + Joined(LinesBy(ed, body, [operator, k]));
    assert NoteBy(ed, body, [operator, k]) == body + tail && body == body + [];
    ParseFormat(site.origin, c.treeSize % TWO64, root, tail);
    ParseFormat(site.origin, c.treeSize % TWO64, root, []);
  }

  lemma OperatorCounts(ed: Ed25519, raw: bytes, operator: NoteKey)
    requires NoteOf(Open(ed, raw, [operator])).Some? && Vouches(ed, raw, operator)
    ensures Open(ed, raw, [operator]).Ok?
  {
    hide OpenLines, Vouches, WellFramed;
    var n := NoteOf(Open(ed, raw, [operator])).value;
    VouchingNamesAreSigned(ed, raw, [operator], n, []);
  }

  lemma NotesDiffer(ed: Ed25519, text: bytes, operator: NoteKey, a: NoteKey, b: NoteKey)
    requires Correct(ed) && NoteText(text) && Clean([operator, a]) && Clean([operator, b]) && a.name != b.name
    ensures NoteBy(ed, text, [operator, a]) != NoteBy(ed, text, [operator, b])
  {
    hide NoteBy, CleanName, NoteText, NoteLines, LineOf, SignatureBy;
    NoteLinesBy(ed, text, [operator, a]);
    NoteLinesBy(ed, text, [operator, b]);
    assert CleanName([operator, a][1].name) && CleanName([operator, b][1].name);
    LinesDiffer(ed, text, a, b);
    assert LinesBy(ed, text, [operator, a])[1] != LinesBy(ed, text, [operator, b])[1];
  }

  lemma OneMoreStored(site: Site, t: Tables, root: bytes, raw: bytes)
    requires SubmissionVerdict(site, raw).None? && ParseCheckpoint(raw).Ok? && ParseCheckpoint(raw).value.rootHash == root
    requires raw !in NotesFor(t.cosignatures, Hex.Encode(root))
    ensures var u := Submitted(site, t, raw);
      NotesFor(u.cosignatures, Hex.Encode(root)) == NotesFor(t.cosignatures, Hex.Encode(root)) + [raw] && u.checkpoints == t.checkpoints
  {
    hide SubmissionVerdict, ParseCheckpoint, NotesFor, Hex.Encode;
    NotesForAreStored(t.cosignatures, Hex.Encode(root));
    NotesForStep(t.cosignatures, Cosignature(Hex.Encode(root), raw), Hex.Encode(root));
  }

  /** What was submitted, in order. */
  function SubmissionsOf(hs: seq<Happening>): seq<bytes> {
    if hs == [] then [] else
      var init, last := SubmissionsOf(hs[..|hs| - 1]), hs[|hs| - 1];
      if last.Submit? then init + [last.raw] else init
  }

  predicate IsSave(h: Happening) {
    h.Step? && h.event.Save?
  }

  /** Each witness fetches what is served, cosigns it and sends the result. */
  ghost predicate EachSends(site: Site, t: Tables, ws: seq<NoteKey>, notes: seq<bytes>) {
    && ServedNote(site, t).Ok? && |notes| == |ws|
    && forall i :: 0 <= i < |ws| ==> VerifyAndCosign(site.env.ed, ServedNote(site, t).value, Operator(site), ws[i]) == Ok(notes[i])
  }

  /** The latest checkpoint is the same but for its log index. */
  ghost predicate SameLatest(t: Tables, u: Tables) {
    t.checkpoints != [] && u.checkpoints != [] && SameButAnchor(Latest(t).value, Latest(u).value)
  }

  lemma OtherHappenings(site: Site, w: World, h: Happening)
    requires !h.Submit? && !IsSave(h)
    ensures var t, u := w.ledger.tables, Happens(site, w, h).ledger.tables;
      u.cosignatures == t.cosignatures && |u.checkpoints| == |t.checkpoints| && (t.checkpoints != [] ==> SameLatest(t, u))
  {
    hide Next, Payload, ServedBody, SavePayload;
    if h.Step? && !h.event.StoreCosignature? {
      EventKeepsCosignatures(site.env, w.ledger, h.event);
      OthersKeepLinks(site.env, w.ledger, h.event);
      NextExtends(site.env, w.ledger, h.event);
      var t, u := w.ledger.tables, Next(site.env, w.ledger, h.event).tables;
      assert t.checkpoints != [] ==> SameButAnchor(t.checkpoints[|t.checkpoints| - 1], u.checkpoints[|t.checkpoints| - 1]);
    }
  }

  lemma HistorySnoc(site: Site, hs: seq<Happening>, h: Happening)
    ensures History(site, hs + [h]) == Happens(site, History(site, hs), h)
  {
    hide Happens;
    assert (hs + [h])[..|hs|] == hs;
  }

  /** Whatever else happens short of a save, accepted submissions under one root are what is stored
      under it. */
  lemma {:induction false} SubmissionsAreStored(site: Site, hs: seq<Happening>, more: seq<Happening>, root: bytes)
    requires History(site, hs).ledger.tables.checkpoints != []
    requires NotesFor(History(site, hs).ledger.tables.cosignatures, Hex.Encode(root)) == []
    requires forall i :: 0 <= i < |more| ==> !IsSave(more[i])
    requires Distinct(SubmissionsOf(more)) && forall n :: n in SubmissionsOf(more) ==> TakenUnder(site, root, n)
    ensures var t, u := History(site, hs).ledger.tables, History(site, hs + more).ledger.tables;
      NotesFor(u.cosignatures, Hex.Encode(root)) == SubmissionsOf(more) && SameLatest(t, u)
    decreases |more|
  {
    hide Happens, NotesFor, TakenUnder, History, Hex.Encode;
    if more == [] {
      assert hs + more == hs;
    } else {
      var init, last := more[..|more| - 1], more[|more| - 1];
      assert more == init + [last] && hs + more == hs + init + [last];
      SubmissionsInit(init, last);
      if last.Submit? {
        DistinctInit(SubmissionsOf(init), last.raw);
      }
      SubmissionsAreStored(site, hs, init, root);
      HistorySnoc(site, hs + init, last);
      var w := History(site, hs + init);
      if last.Submit? {
        NewSubmission(site, w, root, last.raw, SubmissionsOf(init));
      } else {
        OtherHappenings(site, w, last);
      }
    }
  }

  lemma DistinctInit<T(!new)>(xs: seq<T>, x: T)
    requires Distinct(xs + [x])
    ensures Distinct(xs)
  {
    var all := xs + [x];
    assert forall i :: 0 <= i < |xs| ==> all[i] == xs[i];
  }

  lemma SubmissionsInit(init: seq<Happening>, last: Happening)
    ensures SubmissionsOf(init + [last]) == if last.Submit? then SubmissionsOf(init) + [last.raw] else SubmissionsOf(init)
  {
    assert (init + [last])[..|init|] == init;
  }

  /** A note is taken and stored under a root. */
  predicate TakenUnder(site: Site, root: bytes, raw: bytes) {
    SubmissionVerdict(site, raw).None? && ParseCheckpoint(raw).Ok? && ParseCheckpoint(raw).value.rootHash == root
  }

  lemma NewSubmission(site: Site, w: World, root: bytes, raw: bytes, before: seq<bytes>)
    requires TakenUnder(site, root, raw) && Distinct(before + [raw])
    requires NotesFor(w.ledger.tables.cosignatures, Hex.Encode(root)) == before
    ensures var u := Happens(site, w, Submit(raw)).ledger.tables;
      NotesFor(u.cosignatures, Hex.Encode(root)) == before + [raw] && u.checkpoints == w.ledger.tables.checkpoints
  {
    hide SubmissionVerdict, ParseCheckpoint, NotesFor, Hex.Encode, Submitted;
    var all := before + [raw];
    assert all[|before|] == raw && forall i :: 0 <= i < |before| ==> all[i] == before[i];
    OneMoreStored(site, w.ledger.tables, root, raw);
  }

  lemma TwoWitnesses(operator: NoteKey, ws: seq<NoteKey>, i: nat, j: nat)
    requires Clean([operator] + ws) && DistinctNames([operator] + ws) && i < j < |ws|
    ensures Clean([operator, ws[i]]) && Clean([operator, ws[j]]) && ws[i].name != ws[j].name
  {
    hide CleanName;
    var keys := [operator] + ws;
    assert keys[0] == operator && keys[i + 1] == ws[i] && keys[j + 1] == ws[j];
  }

  lemma CosignedNotesDiffer(ed: Ed25519, body: bytes, operator: NoteKey, ws: seq<NoteKey>)
    requires Correct(ed) && NoteText(body) && Clean([operator] + ws) && DistinctNames([operator] + ws)
    ensures Distinct(CosignedNotes(ed, body, operator, ws))
  {
    hide NoteBy, Clean, DistinctNames, Correct, NoteText;
    var notes := CosignedNotes(ed, body, operator, ws);
    forall i, j | 0 <= i < j < |notes| ensures notes[i] != notes[j] {
      TwoWitnesses(operator, ws, i, j);
      NotesDiffer(ed, body, operator, ws[i], ws[j]);
    }
  }

  lemma CosignedNotesTaken(site: Site, c: Checkpoint, root: bytes, body: bytes, ws: seq<NoteKey>)
    requires Correct(site.env.ed) && Clean([Operator(site)] + ws) && DistinctNames([Operator(site)] + ws)
    requires root != [] && Hex.Decode(c.rootHex) == Some(root) && body == BodyWith(site, c, root)
    ensures forall n :: n in CosignedNotes(site.env.ed, body, Operator(site), ws) ==> TakenUnder(site, root, n)
  {
    hide NoteBy, CleanName, SubmissionVerdict, ParseCheckpoint, BodyWith, Hex.Decode, Operator;
    var keys, notes := [Operator(site)] + ws, CosignedNotes(site.env.ed, body, Operator(site), ws);
    OperatorName(site);
    forall i | 0 <= i < |ws| ensures TakenUnder(site, root, notes[i]) {
      assert keys[0] == Operator(site) && keys[i + 1] == ws[i];
      CosignedIsTaken(site, c, root, body, ws[i]);
    }
  }

  /** The served note after the submissions is the merge of the stored ones into what was served. */
  lemma ServedAfter(site: Site, t: Tables, u: Tables, notes: seq<bytes>)
    requires SameLatest(t, u) && ServedNote(site, t).Ok?
    requires NotesFor(u.cosignatures, Hex.Encode(Hex.Decode(Latest(t).value.rootHex).value)) == notes
    requires Merged(ServedNote(site, t).value, notes).Ok?
    ensures CosignedCheckpoint(site, u) == Ok(Merged(ServedNote(site, t).value, notes).value)
  {
    hide Merged, Sign, NotesFor, Hex.Encode, Hex.Decode, FormatCheckpoint;
  }

  /** What the witnesses send is what they sign. */
  lemma SentNotes(site: Site, t: Tables, ws: seq<NoteKey>, sent: seq<bytes>, notes: seq<bytes>)
    requires EachSends(site, t, ws, sent) && EachSends(site, t, ws, notes)
    ensures sent == notes
  {
    hide VerifyAndCosign, ServedNote;
    forall i | 0 <= i < |ws| ensures sent[i] == notes[i] {
      assert VerifyAndCosign(site.env.ed, ServedNote(site, t).value, Operator(site), ws[i]).value == sent[i];
    }
  }

  /** From every reachable state with nothing stored under the latest root: when witnesses with
      distinct names have cosigned what is served and submitted it, while appends, fetches, reads,
      marks and whatever else but a save went on, the served note passes threshold k exactly when
      there are at least k of them and fewer than a hundred. */
  lemma WitnessesReachThreshold(site: Site, hs: seq<Happening>, more: seq<Happening>, required: seq<NoteKey>, ws: seq<NoteKey>, threshold: int)
    requires Correct(site.env.ed)
    requires DistinctNames([Operator(site)] + required) && DistinctNames([Operator(site)] + ws) && Clean([Operator(site)] + ws)
    requires forall w :: w in ws ==> w in required
    requires var t := History(site, hs).ledger.tables;
      t.checkpoints != [] && NotesFor(t.cosignatures, Latest(t).value.rootHex) == []
    requires EachSends(site, History(site, hs).ledger.tables, ws, SubmissionsOf(more))
    requires forall i :: 0 <= i < |more| ==> !IsSave(more[i])
    ensures Passes(site, History(site, hs + more).ledger.tables, required, threshold) <==> 0 <= threshold <= |ws| && |ws| < 100
  {
    hide Kept, History, Merged, Sign, VerifyAndCosign, CosignedVerdict, NotesFor, NoteText, CleanName, RowEntries, EntriesRoot, Hex.Encode,
      Hex.Decode, BodyWith, ServedNote, CosignedCheckpoint, NoteBy, CosignedNotes, DistinctNames, Correct, TakenUnder, EachSends, SignedAreBodies,
      AllTaken, Distinct, SubmissionsOf;
    var b := HistoryKeeps(site, hs);
    var st := History(site, hs).ledger;
    var t, operator := st.tables, Operator(site);
    KeptRows(site.env, st, b, |t.checkpoints| - 1);
    var c := Latest(t).value;
    var root := Hex.Decode(c.rootHex).value;
    var body := BodyWith(site, c, root);
    assert ([operator] + ws)[0] == operator;
    OperatorName(site);
    ServedIs(site, st, b, body);
    MergedNotePasses(site.env.ed, body, operator, required, ws, threshold);
    SignedAlone(site.env.ed, body, operator);
    var notes := CosignedNotes(site.env.ed, body, operator, ws);
    NotesAreSent(site, t, ws, notes);
    SentNotes(site, t, ws, SubmissionsOf(more), notes);
    CosignedNotesDiffer(site.env.ed, body, operator, ws);
    CosignedNotesTaken(site, c, root, body, ws);
    SubmissionsAreStored(site, hs, more, root);
    ServedAfter(site, t, History(site, hs + more).ledger.tables, notes);
  }

  lemma NotesAreSent(site: Site, t: Tables, ws: seq<NoteKey>, notes: seq<bytes>)
    requires ServedNote(site, t).Ok? && |notes| == |ws|
    requires forall i :: 0 <= i < |ws| ==> VerifyAndCosign(site.env.ed, ServedNote(site, t).value, Operator(site), ws[i]) == Ok(notes[i])
    ensures EachSends(site, t, ws, notes)
  {
  }
}
