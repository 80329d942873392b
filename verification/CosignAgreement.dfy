/** What the stored cosignatures agree on, over every run of the ledger with its witness endpoints:
    builds and appends interleaved as before, the operator's key signing receipts, checkpoints and
    notes, and anyone submitting any bytes. */
module CosignAgreement {
  import opened ByteStrings
  import opened MerkleTree
  import opened Json
  import opened Receipts
  import opened Signing
  import opened Ledger
  import opened InterleavedBuilds
  import opened TextLines
  import opened Utf8
  import opened CheckpointText
  import opened Notes
  import opened Thresholds
  import opened WitnessEndpoints
  import Hex

  /** The ledger, and every message that the operator's key has signed. */
  datatype World = World(ledger: State, signed: set<bytes>)

  const BEGINNING := World(INITIAL, {})

  datatype Happening =
    | Step(event: Event)
    | SignAReceipt(receipt: Receipt)
    | Serve
    | Submit(raw: bytes)

  /** The payload that a save step signs. */
  function SavePayload(site: Site, st: State, e: Event): set<bytes> {
    if e.Save? && e.run in st.builds && st.builds[e.run].Linked? && st.builds[e.run].ids != [] then
      var b := st.builds[e.run];
      {Payload(site.env, UnsignedCheckpoint(site.env, b.ids, b.receipts, b.previousRootHex, e.now))}
    else {}
  }

  /** Cosignatures are stored by submissions only. */
  function Happens(site: Site, w: World, h: Happening): World {
    match h
    case Step(StoreCosignature(_, _)) => w
    case Step(e) => World(Next(site.env, w.ledger, e), w.signed + SavePayload(site, w.ledger, e))
    case SignAReceipt(r) => w.(signed := w.signed + {CanonicalBytes(site.env.enc, ToSign(r))})
    case Serve =>
      var body := ServedBody(site, w.ledger.tables);
      if body.Ok? then w.(signed := w.signed + {body.value}) else w
    case Submit(raw) => w.(ledger := w.ledger.(tables := Submitted(site, w.ledger.tables, raw)))
  }

  function History(site: Site, hs: seq<Happening>): World
    decreases |hs|
  {
    if hs == [] then BEGINNING else Happens(site, History(site, hs[..|hs| - 1]), hs[|hs| - 1])
  }

  // ---- the invariant ----

  predicate EndsLine(m: bytes) {
    m != [] && m[|m| - 1] == NEWLINE
  }

  predicate IsBodyOf(site: Site, c: Checkpoint, text: bytes) {
    Hex.Decode(c.rootHex).Some? && text == BodyWith(site, c, Hex.Decode(c.rootHex).value)
  }

  ghost predicate BodyOfSome(site: Site, t: Tables, text: bytes) {
    exists i :: 0 <= i < |t.checkpoints| && IsBodyOf(site, t.checkpoints[i], text)
  }

  /** Only bodies of saved checkpoints were signed as note text; other messages do not end a line. */
  ghost predicate SignedAreBodies(site: Site, w: World) {
    forall m :: m in w.signed && EndsLine(m) ==> BodyOfSome(site, w.ledger.tables, m)
  }

  predicate Taken(site: Site, c: Cosignature) {
    && SubmissionVerdict(site, c.noteText).None?
    && c.rootHex == Hex.Encode(ParseCheckpoint(c.noteText).value.rootHash)
  }

  ghost predicate AllTaken(site: Site, t: Tables) {
    forall i :: 0 <= i < |t.cosignatures| ==> Taken(site, t.cosignatures[i])
  }

  ghost predicate WorldKept(site: Site, w: World, b: nat) {
    && Kept(site.env, w.ledger, b)
    && SignedAreBodies(site, w)
    && AllTaken(site, w.ledger.tables)
  }

  lemma {:induction false} MembersLast(enc: Encoder, fs: seq<Field>, first: bool)
    requires Named(fs)
    ensures var m := Members(enc, fs, first); m != [] && m[|m| - 1] == CLOSE
    decreases |fs|
  {
    if fs != [] {
      MembersLast(enc, fs[1..], if Present(fs[0]) then false else first);
    }
  }

  lemma PayloadEndsNoLine(env: Env, c: Checkpoint)
    ensures !EndsLine(Payload(env, c))
  {
    hide PayloadFields, Members;
    MembersLast(env.enc, PayloadFields(env, c), true);
  }

  lemma ReceiptEndsNoLine(enc: Encoder, r: Receipt)
    ensures !EndsLine(CanonicalBytes(enc, r))
  {
    hide CanonicalFields, Members;
    CanonicalWellNamed(enc, r);
    MembersLast(enc, CanonicalFields(enc, r), true);
  }

  lemma BodiesStay(site: Site, t: Tables, u: Tables, text: bytes)
    requires BodyOfSome(site, t, text) && Extends(t, u)
    ensures BodyOfSome(site, u, text)
  {
    hide FormatCheckpoint, Hex.Decode;
    var i :| 0 <= i < |t.checkpoints| && IsBodyOf(site, t.checkpoints[i], text);
    assert SameButAnchor(t.checkpoints[i], u.checkpoints[i]);
    assert IsBodyOf(site, u.checkpoints[i], text);
  }

  lemma EventKeepsCosignatures(env: Env, st: State, e: Event)
    requires !e.StoreCosignature?
    ensures Next(env, st, e).tables.cosignatures == st.tables.cosignatures
  {
    hide NewCheckpoint, FetchedBuild;
  }

  lemma SubmittedKept(site: Site, st: State, raw: bytes, b: nat)
    requires Kept(site.env, st, b) && AllTaken(site, st.tables)
    ensures var u := Submitted(site, st.tables, raw);
      Kept(site.env, st.(tables := u), b) && AllTaken(site, u) && Extends(st.tables, u)
  {
    hide SubmissionVerdict, ParseCheckpoint, Hex.Encode, SpeaksForRows, HoldsRows;
    var u := Submitted(site, st.tables, raw);
    assert forall i :: 0 <= i < |st.tables.cosignatures| ==> u.cosignatures[i] == st.tables.cosignatures[i];
    assert Extends(st.tables, u);
    TablesStay(site.env, st, u, b);
  }

  lemma HappeningKeeps(site: Site, w: World, h: Happening, b: nat) returns (b': nat)
    requires Correct(site.env.ed) && WorldKept(site, w, b)
    ensures WorldKept(site, Happens(site, w, h), b')
  {
    hide Kept, Next, IsBodyOf, Taken, Payload, CanonicalBytes, Submitted, BodyWith;
    b' := b;
    var v, t := Happens(site, w, h), w.ledger.tables;
    assert Extends(t, v.ledger.tables) by {
      if h.Step? && !h.event.StoreCosignature? {
        NextExtends(site.env, w.ledger, h.event);
      } else if h.Submit? {
        SubmittedKept(site, w.ledger, h.raw, b);
      }
    }
    forall m | m in w.signed && EndsLine(m) ensures BodyOfSome(site, v.ledger.tables, m) {
      BodiesStay(site, t, v.ledger.tables, m);
    }
    match h
    case Step(e) =>
      if !e.StoreCosignature? {
        b' := StepKeeps(site.env, w.ledger, e, b);
        EventKeepsCosignatures(site.env, w.ledger, e);
        SavePayloadsEndNoLine(site, w.ledger, e);
      }
    case SignAReceipt(r) => ReceiptEndsNoLine(site.env.enc, ToSign(r));
    case Serve =>
      if ServedBody(site, t).Ok? {
        ServedIsBody(site, t);
      }
    case Submit(raw) => SubmittedKept(site, w.ledger, raw, b);
  }

  lemma SavePayloadsEndNoLine(site: Site, st: State, e: Event)
    ensures forall m :: m in SavePayload(site, st, e) ==> !EndsLine(m)
  {
    hide Payload, UnsignedCheckpoint;
    forall m | m in SavePayload(site, st, e) ensures !EndsLine(m) {
      var b := st.builds[e.run];
      PayloadEndsNoLine(site.env, UnsignedCheckpoint(site.env, b.ids, b.receipts, b.previousRootHex, e.now));
    }
  }

  lemma ServedIsBody(site: Site, t: Tables)
    requires ServedBody(site, t).Ok?
    ensures BodyOfSome(site, t, ServedBody(site, t).value)
  {
    hide BodyWith, Hex.Decode;
    assert IsBodyOf(site, t.checkpoints[|t.checkpoints| - 1], ServedBody(site, t).value);
  }

  lemma {:induction false} HistoryKeeps(site: Site, hs: seq<Happening>) returns (b: nat)
    requires Correct(site.env.ed)
    ensures WorldKept(site, History(site, hs), b)
    decreases |hs|
  {
    hide Kept, Happens;
    if hs == [] {
      b := 0;
      assert Kept(site.env, INITIAL, 0) by { InitialKept(site.env); }
    } else {
      var before := HistoryKeeps(site, hs[..|hs| - 1]);
      b := HappeningKeeps(site, History(site, hs[..|hs| - 1]), hs[|hs| - 1], before);
    }
  }

  lemma InitialKept(env: Env)
    ensures Kept(env, INITIAL, 0)
  {
  }

  // ---- agreement ----

  /** A note whose text the operator's key never signed, with a signature that verifies all the same. */
  ghost predicate Forged(site: Site, w: World, raw: bytes) {
    TextOf(raw) !in w.signed && Vouches(site.env.ed, raw, Operator(site))
  }

  function RowEntries(env: Env, t: Tables, i: nat): seq<bytes>
    requires i < |t.checkpoints|
  {
    Entries(env, Range(t, t.checkpoints[i].batchStart, t.checkpoints[i].batchEnd))
  }

  /** The rows of two checkpoints yield a hash collision. */
  predicate RowsCollide(env: Env, t: Tables, i: nat, j: nat) {
    && i < |t.checkpoints| && j < |t.checkpoints| && RowEntries(env, t, i) != [] && RowEntries(env, t, j) != []
    && var c := RootCollision(env.sha, RowEntries(env, t, i), RowEntries(env, t, j));
    c.Some? && Collides(env.sha, c.value)
  }

  lemma KeptRows(env: Env, st: State, b: nat, i: nat)
    requires Kept(env, st, b) && i < |st.tables.checkpoints|
    ensures var c := st.tables.checkpoints[i];
      && RowEntries(env, st.tables, i) != [] && c.treeSize == |RowEntries(env, st.tables, i)|
      && c.rootHex == Hex.Encode(EntriesRoot(env.sha, RowEntries(env, st.tables, i)))
      && Hex.Decode(c.rootHex) == Some(EntriesRoot(env.sha, RowEntries(env, st.tables, i)))
  {
    hide Entries, EntriesRoot, OperatorVerdict, HoldsRows;
    var t := st.tables;
    var c := t.checkpoints[i];
    assert SpeaksForRows(env, t, c);
    assert Range(t, c.batchStart, c.batchEnd) == t.receipts[c.batchStart - 1..c.batchEnd];
    Hex.DecodeEncode(EntriesRoot(env.sha, RowEntries(env, t, i)));
  }

  lemma OpenedIsVouched(ed: Ed25519, raw: bytes, operator: NoteKey)
    requires Open(ed, raw, [operator]).Ok?
    ensures WellFramed(raw) && Vouches(ed, raw, operator)
  {
    hide OpenLines, ValidText, VouchingLine, SignatureLines, TextOf, SectionOf, WellFormed;
    var n := Open(ed, raw, [operator]).value;
    OpenIsSane(ed, raw, [operator]);
    assert VerifiedBy(ed, [operator], TextOf(raw), n.sigs[0]) && SameKey(n.sigs[0], operator);
    SignedByIffVouched(ed, [operator], TextOf(raw), SignatureLines(raw), operator);
  }

  lemma FramedParts(raw: bytes)
    requires WellFramed(raw)
    ensures EndsLine(TextOf(raw)) && raw == TextOf(raw) + ([NEWLINE] + SectionOf(raw))
  {
    hide ValidText;
    var i := LastBlankLine(raw).value;
    assert raw == raw[..i + 1] + ([raw[i + 1]] + raw[i + 2..]);
  }

  lemma TakenNote(site: Site, raw: bytes)
    requires SubmissionVerdict(site, raw).None?
    ensures ValidName(site.origin) && WellFramed(raw) && Vouches(site.env.ed, raw, Operator(site))
    ensures EndsLine(TextOf(raw)) && raw == TextOf(raw) + ([NEWLINE] + SectionOf(raw))
    ensures Open(site.env.ed, raw, [Operator(site)]).Ok?
  {
    hide ParseCheckpoint, Open, ValidName, Vouches, WellFramed, TextOf, SectionOf;
    OpenedIsVouched(site.env.ed, raw, Operator(site));
    FramedParts(raw);
  }

  /** A submitted note with the body of a checkpoint is stored under the root of that checkpoint. */
  lemma BodyParses(site: Site, c: Checkpoint, root: bytes, raw: bytes)
    requires Hex.Decode(c.rootHex) == Some(root) && root != [] && IsBodyOf(site, c, TextOf(raw))
    requires SubmissionVerdict(site, raw).None?
    ensures ParseCheckpoint(raw) == Ok(C2SPCheckpoint(site.origin, c.treeSize % TWO64, root))
  {
    hide ParseCheckpoint, FormatCheckpoint, Open, SubmissionVerdict, TextOf, SectionOf;
    TakenNote(site, raw);
    NameOk(site.origin);
    ParseFormat(site.origin, c.treeSize % TWO64, root, [NEWLINE] + SectionOf(raw));
  }

  /** A root fixes the rows and so the tree size, or gives a collision. */
  lemma SameRootSameBody(site: Site, st: State, b: nat, k: nat, j: nat, text: bytes)
    requires Kept(site.env, st, b) && k < |st.tables.checkpoints| && j < |st.tables.checkpoints|
    requires st.tables.checkpoints[k].rootHex == st.tables.checkpoints[j].rootHex
    requires IsBodyOf(site, st.tables.checkpoints[k], text)
    ensures IsBodyOf(site, st.tables.checkpoints[j], text) || RowsCollide(site.env, st.tables, k, j)
  {
    hide Kept, FormatCheckpoint, EntriesRoot, RowEntries, RootCollision, Collides;
    var env := site.env;
    KeptRows(env, st, b, k);
    KeptRows(env, st, b, j);
    RootBinding(env.sha, RowEntries(env, st.tables, k), RowEntries(env, st.tables, j));
  }

  /** In every reachable state, a note stored under the root of a checkpoint has the body of that
      checkpoint, whichever of the checkpoints with that root it is; otherwise there is a forged
      signature or a hash collision to show. */
  lemma NotesUnderOneRootAgree(site: Site, hs: seq<Happening>, i: nat, j: nat) returns (k: nat)
    requires Correct(site.env.ed)
    requires var t := History(site, hs).ledger.tables;
      i < |t.cosignatures| && j < |t.checkpoints| && t.cosignatures[i].rootHex == t.checkpoints[j].rootHex
    ensures var w := History(site, hs);
      var t, raw := w.ledger.tables, w.ledger.tables.cosignatures[i].noteText;
      IsBodyOf(site, t.checkpoints[j], TextOf(raw)) || Forged(site, w, raw) || RowsCollide(site.env, t, k, j)
  {
    hide Kept, SubmissionVerdict, ParseCheckpoint, IsBodyOf, RowsCollide, EntriesRoot, RowEntries, Vouches, EndsLine, TextOf, Operator;
    var b := HistoryKeeps(site, hs);
    var w := History(site, hs);
    var t := w.ledger.tables;
    var raw := t.cosignatures[i].noteText;
    k := 0;
    assert Taken(site, t.cosignatures[i]);
    TakenNote(site, raw);
    if TextOf(raw) in w.signed {
      k :| 0 <= k < |t.checkpoints| && IsBodyOf(site, t.checkpoints[k], TextOf(raw));
      KeptRows(site.env, w.ledger, b, k);
      BodyParses(site, t.checkpoints[k], EntriesRoot(site.env.sha, RowEntries(site.env, t, k)), raw);
      SameRootSameBody(site, w.ledger, b, k, j, TextOf(raw));
    }
  }
}
