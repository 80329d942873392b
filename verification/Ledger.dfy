/** The tables of the SQLite store and the statements that read and change them
    (internal/store/sqlite.go), checkpoints and their checks (internal/checkpoint). Each statement
    is atomic, row ids count from 1 without gaps, and nothing is deleted. */
module Ledger {
  import opened ByteStrings
  import opened MerkleTree
  import opened Json
  import opened Receipts
  import opened Signing
  import Hex

  /** The hash, the JSON encoder, the signature scheme and the operator's key of one deployment. */
  datatype Env = Env(sha: Sha, enc: Encoder, ed: Ed25519, key: bytes)

  datatype Checkpoint = Checkpoint(
    batchStart: int,
    batchEnd: int,
    treeSize: int,
    rootHex: string,
    previousRootHex: string,
    issuedAt: int,
    operatorSigHex: string,
    rekorLogIndex: int)

  datatype Cosignature = Cosignature(rootHex: string, noteText: bytes)

  /** Row i + 1 holds receipts[i]; `batched` holds the ids whose flag is set; checkpoint id i + 1
      is checkpoints[i]. */
  datatype Tables = Tables(
    receipts: seq<Receipt>,
    batched: set<int>,
    checkpoints: seq<Checkpoint>,
    witnessSigs: map<(int, string), string>,
    cosignatures: seq<Cosignature>)

  const EMPTY_TABLES := Tables([], {}, [], map[], [])

  // ---- statements ----

  function Inserted(t: Tables, rs: seq<Receipt>): Tables {
    t.(receipts := t.receipts + rs)
  }

  /** Ids with the flag clear, ascending from `id`, at most `limit` of them; a negative limit is none. */
  function UnbatchedFrom(t: Tables, id: nat, limit: int): seq<int>
    decreases |t.receipts| + 1 - id
  {
    if id > |t.receipts| || limit == 0 then []
    else if id in t.batched then UnbatchedFrom(t, id + 1, limit)
    else [id] + UnbatchedFrom(t, id + 1, limit - 1)
  }

  function Marked(t: Tables, ids: seq<int>): Tables {
    t.(batched := t.batched + set id | id in ids && 1 <= id <= |t.receipts|)
  }

  /** Rows with lo <= id <= hi in id order. */
  function Range(t: Tables, lo: int, hi: int): seq<Receipt> {
    var first, last := if lo < 1 then 1 else lo, if hi > |t.receipts| then |t.receipts| else hi;
    if first > last then [] else t.receipts[first - 1..last]
  }

  lemma RangeLength(t: Tables, lo: int, hi: int)
    ensures |Range(t, lo, hi)| <= |t.receipts|
  {
  }

  const SECOND := 1_000_000_000

  /** `time.Truncate(time.Second)`. */
  function Truncated(t: int): int {
    t - t % SECOND
  }

  /** What comes back after the instant was stored as Unix seconds. */
  function ThroughUnix(t: int): int {
    (t / SECOND) * SECOND
  }

  /** The row as it is read back; the Rekor index starts at -1. */
  function AsStored(c: Checkpoint): Checkpoint {
    c.(issuedAt := ThroughUnix(c.issuedAt), rekorLogIndex := -1)
  }

  function Saved(t: Tables, c: Checkpoint): Tables {
    t.(checkpoints := t.checkpoints + [AsStored(c)])
  }

  function Latest(t: Tables): Option<Checkpoint> {
    if t.checkpoints == [] then None else Some(t.checkpoints[|t.checkpoints| - 1])
  }

  function Anchored(t: Tables, id: int, logIndex: int): Tables {
    if 1 <= id <= |t.checkpoints| then
      t.(checkpoints := t.checkpoints[id - 1 := t.checkpoints[id - 1].(rekorLogIndex := logIndex)])
    else t
  }

  function WithWitnessSig(t: Tables, id: int, witnessID: string, sigHex: string): Tables {
    t.(witnessSigs := t.witnessSigs[(id, witnessID) := sigHex])
  }

  /** INSERT OR IGNORE on a table with a unique pair of columns. */
  function WithCosignature(t: Tables, rootHex: string, noteText: bytes): Tables {
    if Cosignature(rootHex, noteText) in t.cosignatures then t
    else t.(cosignatures := t.cosignatures + [Cosignature(rootHex, noteText)])
  }

  /** The notes stored under a root, in insertion order. */
  function NotesFor(cosignatures: seq<Cosignature>, rootHex: string): seq<bytes> {
    if cosignatures == [] then [] else
      var rest, last := NotesFor(cosignatures[..|cosignatures| - 1], rootHex), cosignatures[|cosignatures| - 1];
      if last.rootHex == rootHex then rest + [last.noteText] else rest
  }

  /** In insertion order. */
  lemma NotesForStep(cs: seq<Cosignature>, c: Cosignature, rootHex: string)
    ensures NotesFor([], rootHex) == []
    ensures NotesFor(cs + [c], rootHex) == NotesFor(cs, rootHex) + if c.rootHex == rootHex then [c.noteText] else []
  {
    assert (cs + [c])[..|cs|] == cs;
  }

  lemma {:induction false} NotesForAreStored(cs: seq<Cosignature>, rootHex: string)
    ensures forall n :: n in NotesFor(cs, rootHex) <==> Cosignature(rootHex, n) in cs
    decreases |cs|
  {
    if cs != [] {
      NotesForAreStored(cs[..|cs| - 1], rootHex);
      assert cs == cs[..|cs| - 1] + [cs[|cs| - 1]];
    }
  }

  // ---- checkpoints ----

  function Entries(env: Env, rs: seq<Receipt>): (es: seq<bytes>)
    ensures |es| == |rs|
    ensures forall i :: 0 <= i < |rs| ==> es[i] == CanonicalBytes(env.enc, rs[i])
  {
    if rs == [] then [] else Entries(env, rs[..|rs| - 1]) + [CanonicalBytes(env.enc, rs[|rs| - 1])]
  }

  lemma EntriesSlice(env: Env, rs: seq<Receipt>, lo: nat, hi: nat)
    requires lo <= hi <= |rs|
    ensures Entries(env, rs)[lo..hi] == Entries(env, rs[lo..hi])
  {
    hide Entries, CanonicalBytes;
    var part, whole := Entries(env, rs[lo..hi]), Entries(env, rs);
    forall i | 0 <= i < hi - lo ensures whole[lo..hi][i] == part[i] {
      assert whole[lo..hi][i] == whole[lo + i];
    }
  }

  function PayloadFields(env: Env, c: Checkpoint): (fields: seq<Field>)
    ensures Named(fields)
  {
    [ Field("batch_start", false, Int(c.batchStart)),
      Field("batch_end", false, Int(c.batchEnd)),
      Field("tree_size", false, Int(c.treeSize)),
      Field("root_hex", false, Str(c.rootHex)),
      Field("previous_root_hex", false, Str(c.previousRootHex)),
      Field("issued_at", false, Str(env.enc.time(c.issuedAt))) ]
  }

  function Payload(env: Env, c: Checkpoint): bytes {
    Marshal(env.enc, PayloadFields(env, c))
  }

  function OperatorVerdict(env: Env, c: Checkpoint): Verdict {
    if c.operatorSigHex == "" then NoSignature
    else if Hex.Decode(c.operatorSigHex).None? then BadHex
    else if env.ed.verify(env.key, Payload(env, c), Hex.Decode(c.operatorSigHex).value) then Accepted
    else Mismatch
  }

  /** `VerifyChainConsistency`. */
  predicate ChainOk(prev: Checkpoint, curr: Checkpoint) {
    (curr.previousRootHex == "" && prev.rootHex == "") || curr.previousRootHex == prev.rootHex
  }

  function RootHexOf(env: Env, rs: seq<Receipt>): string {
    Hex.Encode(EntriesRoot(env.sha, Entries(env, rs)))
  }

  function UnsignedCheckpoint(env: Env, ids: seq<int>, rs: seq<Receipt>, previousRootHex: string, now: int): Checkpoint
    requires ids != []
  {
    Checkpoint(ids[0], ids[|ids| - 1], |rs|, RootHexOf(env, rs), previousRootHex, Truncated(now), "", 0)
  }

  function SignedCheckpoint(env: Env, c: Checkpoint): Checkpoint {
    c.(operatorSigHex := Hex.Encode(env.ed.sign(env.key, Payload(env, c))))
  }

  /** The checkpoint that a build makes of what it fetched. */
  function NewCheckpoint(env: Env, ids: seq<int>, rs: seq<Receipt>, previousRootHex: string, now: int): Checkpoint
    requires ids != []
  {
    SignedCheckpoint(env, UnsignedCheckpoint(env, ids, rs, previousRootHex, now))
  }

  /** A checkpoint speaks for the rows it names: their number, the root of exactly these rows, and
      an operator signature that still verifies after the round trip through the table. */
  ghost predicate SpeaksForRows(env: Env, t: Tables, c: Checkpoint) {
    && 1 <= c.batchStart <= c.batchEnd <= |t.receipts|
    && c.treeSize == c.batchEnd - c.batchStart + 1
    && c.rootHex == RootHexOf(env, t.receipts[c.batchStart - 1..c.batchEnd])
    && OperatorVerdict(env, c) == Accepted
  }

  lemma SameContentSamePayload(env: Env, c: Checkpoint, d: Checkpoint)
    requires c == d.(operatorSigHex := c.operatorSigHex, rekorLogIndex := c.rekorLogIndex)
    ensures Payload(env, c) == Payload(env, d)
  {
    assert PayloadFields(env, c) == PayloadFields(env, d);
  }

  /** The signature verifies on the row read back, although the instant went through Unix seconds. */
  lemma StoredSignatureVerifies(env: Env, c: Checkpoint, now: int)
    requires Correct(env.ed) && c.issuedAt == Truncated(now)
    ensures OperatorVerdict(env, AsStored(SignedCheckpoint(env, c))) == Accepted
  {
    hide Payload;
    var stored := AsStored(SignedCheckpoint(env, c));
    assert stored.issuedAt == c.issuedAt by {
      assert Truncated(now) == (now / SECOND) * SECOND;
    }
    SameContentSamePayload(env, stored, c);
    var sig := env.ed.sign(env.key, Payload(env, c));
    Hex.DecodeEncode(sig);
    assert |sig| == 64 && env.ed.verify(env.key, Payload(env, c), sig);
    assert |stored.operatorSigHex| == 128;
  }

  lemma SavedCheckpointSpeaks(env: Env, t: Tables, ids: seq<int>, rs: seq<Receipt>, previousRootHex: string, now: int)
    requires Correct(env.ed) && ids != []
    requires 1 <= ids[0] <= ids[|ids| - 1] <= |t.receipts| && rs == t.receipts[ids[0] - 1..ids[|ids| - 1]]
    ensures SpeaksForRows(env, t, AsStored(NewCheckpoint(env, ids, rs, previousRootHex, now)))
  {
    StoredSignatureVerifies(env, UnsignedCheckpoint(env, ids, rs, previousRootHex, now), now);
  }

  // ---- what the operator signs ----

  /** The payload in bytes: the six fields under their names. */
  lemma PayloadText(env: Env, c: Checkpoint)
    ensures Payload(env, c) == [123] + Separated([
      [34] + NameText("batch_start") + [34, 58] + IntText(c.batchStart),
      [34] + NameText("batch_end") + [34, 58] + IntText(c.batchEnd),
      [34] + NameText("tree_size") + [34, 58] + IntText(c.treeSize),
      [34] + NameText("root_hex") + [34, 58] + env.enc.str(c.rootHex),
      [34] + NameText("previous_root_hex") + [34, 58] + env.enc.str(c.previousRootHex),
      [34] + NameText("issued_at") + [34, 58] + env.enc.str(env.enc.time(c.issuedAt))]) + [125]
  {
    hide NameText, IntText, Separated, Marshal, Plain, MemberTexts;
    var fs := PayloadFields(env, c);
    MarshalText(env.enc, fs);
    AllWritten(env.enc, fs);
    var texts := MemberTexts(env.enc, fs);
    assert texts == [texts[0], texts[1], texts[2], texts[3], texts[4], texts[5]];
  }

  lemma {:induction false} AllWritten(enc: Encoder, fs: seq<Field>)
    requires Named(fs) && forall i :: 0 <= i < |fs| ==> !fs[i].omitEmpty
    ensures |MemberTexts(enc, fs)| == |fs|
    ensures forall i :: 0 <= i < |fs| ==> MemberTexts(enc, fs)[i] == MemberText(enc, fs[i].name, fs[i].value)
    decreases |fs|
  {
    hide MemberText, Plain, IsEmpty;
    if fs != [] {
      AllWritten(enc, fs[1..]);
    }
  }

  /** The fields that the operator signs. */
  predicate SameSigned(c: Checkpoint, d: Checkpoint) {
    && c.batchStart == d.batchStart && c.batchEnd == d.batchEnd && c.treeSize == d.treeSize
    && c.rootHex == d.rootHex && c.previousRootHex == d.previousRootHex && c.issuedAt == d.issuedAt
  }

  /** The payload determines exactly these six fields. */
  lemma PayloadDetermines(env: Env, c: Checkpoint, d: Checkpoint)
    requires Sound(env.enc)
    ensures Payload(env, c) == Payload(env, d) <==> SameSigned(c, d)
  {
    hide Plain, Marshal;
    var fs, gs := PayloadFields(env, c), PayloadFields(env, d);
    if Payload(env, c) == Payload(env, d) {
      MarshalReadBack(env.enc, fs, gs);
      assert fs[0] == gs[0] && fs[1] == gs[1] && fs[2] == gs[2] && fs[3] == gs[3] && fs[4] == gs[4] && fs[5] == gs[5];
    }
    if SameSigned(c, d) {
      assert fs == gs;
    }
  }

  /** A checkpoint that carries another's operator signature is accepted exactly when no signed field
      differs, or the signature is a forgery for its payload. */
  lemma OperatorAccepts(env: Env, c: Checkpoint, presented: Checkpoint)
    requires Sound(env.enc) && Correct(env.ed)
    requires presented.operatorSigHex == SignedCheckpoint(env, c).operatorSigHex
    ensures OperatorVerdict(env, presented) == Accepted
       <==> SameSigned(c, presented) || Forgery(env.ed, env.key, Payload(env, c), Payload(env, presented))
  {
    hide Payload;
    HexOfSignature(env.ed, env.key, Payload(env, c));
    PayloadDetermines(env, c, presented);
  }

  /** For every checkpoint: no signature when the text is empty, bad hex when it spells no bytes,
      and acceptance exactly when the bytes it spells verify for the payload. */
  lemma OperatorVerdictIs(env: Env, c: Checkpoint)
    ensures OperatorVerdict(env, c) == NoSignature <==> c.operatorSigHex == ""
    ensures OperatorVerdict(env, c) == BadHex <==> c.operatorSigHex != "" && forall sig :: !Hex.Spells(c.operatorSigHex, sig)
    ensures OperatorVerdict(env, c) == Accepted
       <==> c.operatorSigHex != "" && exists sig :: Hex.Spells(c.operatorSigHex, sig) && env.ed.verify(env.key, Payload(env, c), sig)
  {
    hide Payload, Hex.Decode, Hex.Spells;
    SpelledBytes(c.operatorSigHex);
  }

  /** The chain check is equality of the roots; the case of two empty ones adds nothing. */
  lemma ChainOkIs(prev: Checkpoint, curr: Checkpoint)
    ensures ChainOk(prev, curr) <==> curr.previousRootHex == prev.rootHex
  {
  }

  // ---- instants ----

  /** The signed instant is the whole second that the clock is in, and it is what is read back. */
  lemma IssuedAtWholeSecond(env: Env, ids: seq<int>, rs: seq<Receipt>, previousRootHex: string, now: int)
    requires ids != []
    ensures var c := NewCheckpoint(env, ids, rs, previousRootHex, now);
      && c.issuedAt % 1_000_000_000 == 0 && c.issuedAt <= now < c.issuedAt + 1_000_000_000
      && AsStored(c).issuedAt == c.issuedAt
  {
    hide Payload, RootHexOf;
    WholeSecond(now);
  }

  lemma WholeSecond(now: int)
    ensures Truncated(now) % 1_000_000_000 == 0 && Truncated(now) <= now < Truncated(now) + 1_000_000_000
    ensures ThroughUnix(Truncated(now)) == Truncated(now)
  {
    assert now == now / 1_000_000_000 * 1_000_000_000 + now % 1_000_000_000;
    assert Truncated(now) == now / 1_000_000_000 * 1_000_000_000;
  }
}
