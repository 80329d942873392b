/** The endpoints that witnesses talk to (internal/api/witness.go). */
module WitnessEndpoints {
  import opened ByteStrings
  import opened Ledger
  import opened SqliteStore
  import opened CheckpointText
  import opened Utf8
  import opened Cosignatures
  import opened Decimal
  import opened TextLines
  import opened Signing
  import opened Notes
  import opened Thresholds
  import Base64
  import Hex

  /** A deployment with the log's origin and the hash of the operator's note key. */
  datatype Site = Site(env: Env, origin: bytes, keyHash: KeyHash)

  /** The operator signs notes with the key that signs receipts and checkpoints. */
  function Operator(site: Site): NoteKey {
    NoteKey(site.origin, site.keyHash, site.env.key)
  }

  datatype Failure =
    | NoCheckpoint
    | UndecodableRoot
    | NotSignable(signError: SignError)
    | NotMerged
    | Unparsable(parseError: ParseError)
    | BadOrigin
    | OperatorInvalid(openError: OpenError)
    | UnparsableText(textError: ParseError)

  /** The body for a checkpoint; the tree size is converted to 64 bits without sign. */
  function BodyWith(site: Site, c: Checkpoint, root: bytes): bytes {
    FormatCheckpoint(site.origin, c.treeSize % TWO64, root)
  }

  function ServedBody(site: Site, t: Tables): Result<bytes, Failure> {
    match Latest(t)
    case None => Err(NoCheckpoint)
    case Some(c) =>
      match Hex.Decode(c.rootHex)
      case None => Err(UndecodableRoot)
      case Some(root) => Ok(BodyWith(site, c, root))
  }

  function ServedNote(site: Site, t: Tables): Result<bytes, Failure> {
    match ServedBody(site, t)
    case Err(e) => Err(e)
    case Ok(body) =>
      match Sign(site.env.ed, Note(body, [], []), Operator(site))
      case Err(e) => Err(NotSignable(e))
      case Ok(signed) => Ok(signed)
  }

  /** The latest checkpoint with every signature line stored under its root. */
  function CosignedCheckpoint(site: Site, t: Tables): Result<bytes, Failure> {
    match ServedNote(site, t)
    case Err(e) => Err(e)
    case Ok(signed) =>
      var rootHex := Hex.Encode(Hex.Decode(Latest(t).value.rootHex).value);
      match Merged(signed, NotesFor(t.cosignatures, rootHex))
      case Err(_) => Err(NotMerged)
      case Ok(m) => Ok(m)
  }

  /** Whether a submitted note is taken; None is acceptance. */
  function SubmissionVerdict(site: Site, raw: bytes): Option<Failure> {
    match ParseCheckpoint(raw)
    case Err(e) => Some(Unparsable(e))
    case Ok(_) =>
      if !ValidName(site.origin) then Some(BadOrigin) else
        match Open(site.env.ed, raw, [Operator(site)])
        case Err(e) => Some(OperatorInvalid(e))
        case Ok(n) =>
          match ParseCheckpoint(n.text)
          case Err(e) => Some(UnparsableText(e))
          case Ok(_) => None
  }

  /** A note that is taken is stored under the root that it names. */
  function Submitted(site: Site, t: Tables, raw: bytes): Tables {
    if SubmissionVerdict(site, raw).Some? then t
    else WithCosignature(t, Hex.Encode(ParseCheckpoint(raw).value.rootHash), raw)
  }

  /** A submission is taken exactly when it parses, the log's origin can be a key name, it is well
      framed and readable for the operator's key, that key vouches for it, and the text that is
      vouched for parses by itself. */
  lemma TakenIff(site: Site, raw: bytes)
    ensures SubmissionVerdict(site, raw).None? <==>
      && ParseCheckpoint(raw).Ok? && ParseCheckpoint(TextOf(raw)).Ok? && ValidName(site.origin)
      && WellFramed(raw) && Readable(site.env.ed, [Operator(site)], TextOf(raw), SignatureLines(raw))
      && Vouches(site.env.ed, raw, Operator(site))
  {
    hide ParseCheckpoint, ValidName, Open, WellFramed, Readable, Vouches;
    var known := [Operator(site)];
    OpensIff(site.env.ed, raw, known);
    assert known[0] == Operator(site);
    if Open(site.env.ed, raw, known).Ok? {
      OpenIsSane(site.env.ed, raw, known);
    }
  }

  /** What is served: the latest checkpoint's body, a blank line, and one line signed by the operator. */
  lemma ServedNoteIs(site: Site, t: Tables, c: Checkpoint, root: bytes)
    requires t.checkpoints != [] && c == t.checkpoints[|t.checkpoints| - 1] && Hex.Spells(c.rootHex, root) && ValidName(site.origin)
    ensures var body := site.origin + [0x0A] + (Digits(c.treeSize % 0x1_0000_0000_0000_0000) + [0x0A] + (Base64.Encode(root) + [0x0A]));
      var line := [0xE2, 0x80, 0x94, 0x20] + site.origin + [0x20] + Base64.Encode(site.keyHash + site.env.ed.sign(site.env.key, body));
      ServedNote(site, t) == Ok(body + [0x0A] + (line + [0x0A]))
  {
    hide Hex.Decode, Hex.Spells, ValidName, Digits, Base64.Encode, LineOf;
    Hex.DecodesSpelled(c.rootHex, root);
    var body := BodyWith(site, c, root);
    SignsFresh(site.env.ed, body, Operator(site));
    LineOfIs(SignatureBy(site.env.ed, body, Operator(site)));
  }

  lemma SignsFresh(ed: Ed25519, body: bytes, k: NoteKey)
    requires body != [] && body[|body| - 1] == NEWLINE && ValidName(k.name)
    ensures Sign(ed, Note(body, [], []), k) == Ok(body + [NEWLINE] + (LineOf(SignatureBy(ed, body, k)) + [NEWLINE]))
  {
    hide ValidName, LineOf, SignatureBy, Joined;
    var none: seq<Signature> := [];
    var s := SignatureBy(ed, body, k);
    assert Others(none, k) + Others(none, k) == none && none + [s] == [s];
    assert LinesOf([s]) == [LineOf(s)] && [] + [LineOf(s)] == [LineOf(s)];
    JoinedSnoc([], LineOf(s));
    NothingJoined();
    assert [] + LineOf(s) + [NEWLINE] == LineOf(s) + [NEWLINE];
  }

  /** The failures, in order: no checkpoint, a root that is not hex, an origin that cannot be a name. */
  lemma ServedNoteFails(site: Site, t: Tables, c: Checkpoint)
    requires t.checkpoints == [] || c == t.checkpoints[|t.checkpoints| - 1]
    ensures ServedNote(site, t) == Err(NoCheckpoint) <==> t.checkpoints == []
    ensures ServedNote(site, t) == Err(UndecodableRoot) <==> t.checkpoints != [] && forall root :: !Hex.Spells(c.rootHex, root)
    ensures ServedNote(site, t).Ok? <==> t.checkpoints != [] && (exists root :: Hex.Spells(c.rootHex, root)) && ValidName(site.origin)
  {
    hide Hex.Decode, Hex.Spells, ValidName, Digits, Base64.Encode;
    if t.checkpoints != [] {
      SpelledBytes(c.rootHex);
      if Hex.Decode(c.rootHex).Some? && ValidName(site.origin) {
        ServedNoteIs(site, t, c, Hex.Decode(c.rootHex).value);
      }
    }
  }

  /** Whoever reads what is served gets the origin, the size and the root of the latest checkpoint. */
  lemma ServedParses(site: Site, t: Tables, c: Checkpoint, root: bytes)
    requires t.checkpoints != [] && c == t.checkpoints[|t.checkpoints| - 1] && Hex.Spells(c.rootHex, root) && ValidName(site.origin)
    requires root != []
    ensures ServedNote(site, t).Ok? && ParseCheckpoint(ServedNote(site, t).value) == Ok(C2SPCheckpoint(site.origin, c.treeSize % 0x1_0000_0000_0000_0000, root))
  {
    hide Hex.Spells, ValidName, Digits, Base64.Encode, ParseCheckpoint, ServedNote;
    ServedNoteIs(site, t, c, root);
    NameOk(site.origin);
    var size := c.treeSize % 0x1_0000_0000_0000_0000;
    var body := FormatCheckpoint(site.origin, size, root);
    var line := [0xE2, 0x80, 0x94, 0x20] + site.origin + [0x20] + Base64.Encode(site.keyHash + site.env.ed.sign(site.env.key, body));
    ParseFormat(site.origin, size, root, [NEWLINE] + (line + [NEWLINE]));
    assert body + [0x0A] + (line + [0x0A]) == body + ([NEWLINE] + (line + [NEWLINE]));
  }

  /** The cosigned note is what is served merged with the notes under its root, and it fails only
      when nothing is served. */
  lemma CosignedCheckpointIs(site: Site, t: Tables)
    ensures ServedNote(site, t).Err? ==> CosignedCheckpoint(site, t) == ServedNote(site, t)
    ensures ServedNote(site, t).Ok? ==>
      && t.checkpoints != [] && Hex.Decode(t.checkpoints[|t.checkpoints| - 1].rootHex).Some?
      && var rootHex := Hex.Encode(Hex.Decode(t.checkpoints[|t.checkpoints| - 1].rootHex).value);
      && CosignedCheckpoint(site, t).Ok?
      && Merged(ServedNote(site, t).value, NotesFor(t.cosignatures, rootHex)) == Result.Ok(CosignedCheckpoint(site, t).value)
  {
    hide Hex.Decode, Hex.Encode, ValidName, FormatCheckpoint, NotesFor, Reassembled, FirstOccurrences, NoteLines;
    if ServedNote(site, t).Ok? {
      ServedHasBlank(site, t);
    }
  }

  lemma ServedHasBlank(site: Site, t: Tables)
    requires ServedNote(site, t).Ok?
    ensures BlankLine(ServedNote(site, t).value).Some?
  {
    hide Hex.Decode, ValidName, FormatCheckpoint, LinesOf, BlankLine, Joined, Others, SignatureBy, Carried;
    var body, m := ServedBody(site, t).value, ServedNote(site, t).value;
    assert m[..|body|] == body && m[|body|] == NEWLINE;
    assert BlankAt(m, |body| - 1);
  }

  class WitnessServer {
    const site: Site
    const store: SQLiteStore

    constructor (site: Site, store: SQLiteStore)
      ensures this.site == site && this.store == store
    {
      this.site, this.store := site, store;
    }

    method HandleC2SPCheckpoint() returns (r: Result<bytes, Failure>)
      ensures r == ServedNote(site, store.View())
    {
      var cp := store.LatestCheckpoint();
      if cp.None? {
        return Err(NoCheckpoint);
      }
      var root := Hex.Decode(cp.value.rootHex);
      if root.None? {
        return Err(UndecodableRoot);
      }
      var signed := Sign(site.env.ed, Note(BodyWith(site, cp.value, root.value), [], []), Operator(site));
      r := if signed.Ok? then Ok(signed.value) else Err(NotSignable(signed.error));
    }

    method HandleC2SPCosign(raw: bytes) returns (refusal: Option<Failure>)
      modifies store
      ensures refusal == SubmissionVerdict(site, raw)
      ensures store.View() == Submitted(site, old(store.View()), raw)
      ensures refusal.Some? ==> store.View() == old(store.View())
      ensures refusal.None? ==>
        && ParseCheckpoint(raw).Ok?
        && Cosignature(Hex.Encode(ParseCheckpoint(raw).value.rootHash), raw) in store.cosignatures
    {
      hide Open, ParseCheckpoint;
      var cp := ParseCheckpoint(raw);
      if cp.Err? {
        return Some(Unparsable(cp.error));
      }
      if !ValidName(site.origin) {
        return Some(BadOrigin);
      }
      var n := Open(site.env.ed, raw, [Operator(site)]);
      if n.Err? {
        return Some(OperatorInvalid(n.error));
      }
      var inner := ParseCheckpoint(n.value.text);
      if inner.Err? {
        return Some(UnparsableText(inner.error));
      }
      store.StoreCosignature(Hex.Encode(cp.value.rootHash), raw);
      refusal := None;
    }

    method HandleC2SPCosignedCheckpoint() returns (r: Result<bytes, Failure>)
      ensures r == CosignedCheckpoint(site, store.View())
    {
      hide Sign, Merged, NotesFor;
      var cp := store.LatestCheckpoint();
      if cp.None? {
        return Err(NoCheckpoint);
      }
      var root := Hex.Decode(cp.value.rootHex);
      if root.None? {
        return Err(UndecodableRoot);
      }
      var signed := Sign(site.env.ed, Note(BodyWith(site, cp.value, root.value), [], []), Operator(site));
      if signed.Err? {
        return Err(NotSignable(signed.error));
      }
      var cosigs := store.GetCosignatures(Hex.Encode(root.value));
      var combined := MergeCosignatures(signed.value, cosigs);
      r := if combined.Ok? then Ok(combined.value) else Err(NotMerged);
    }
  }
}
