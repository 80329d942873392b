/** The proof endpoints (internal/api/proof.go). Digests travel as hex text. */
module ProofHandlers {
  import opened ByteStrings
  import opened MerkleTree
  import opened Inclusion
  import opened Consistency
  import opened Receipts
  import opened Signing
  import opened Ledger
  import opened InterleavedBuilds
  import opened SqliteStore
  import Hex

  datatype InclusionResponse = InclusionResponse(receiptID: string, checkpointID: int, leafIndex: int, treeSize: int, rootHex: string, proof: seq<string>)

  datatype ConsistencyResponse = ConsistencyResponse(
    oldCheckpointID: int, newCheckpointID: int, oldSize: int, newSize: int, oldRootHex: string, newRootHex: string, proof: seq<string>)

  datatype Refusal = ReceiptNotFound | NotBatched | NotInRange | BadIndex | NewNotFound | OldNotFound | NotSmaller | NoProof

  // ---- hex text of digests ----

  /** `ParseRoot`: 32 bytes of hex. */
  function ParseRoot(s: string): Option<Digest> {
    var d := Hex.Decode(s);
    if d.Some? && |d.value| == 32 then Some(d.value) else None
  }

  function HexAll(hashes: seq<Digest>): seq<string> {
    if hashes == [] then [] else HexAll(hashes[..|hashes| - 1]) + [Hex.Encode(hashes[|hashes| - 1])]
  }

  function ParseAll(texts: seq<string>): Option<seq<Digest>> {
    if texts == [] then Some([]) else
      var init, last := ParseAll(texts[..|texts| - 1]), ParseRoot(texts[|texts| - 1]);
      if init.None? || last.None? then None else Some(init.value + [last.value])
  }

  lemma {:induction false} ParseHexAll(hashes: seq<Digest>)
    ensures ParseAll(HexAll(hashes)) == Some(hashes)
    decreases |hashes|
  {
    if hashes != [] {
      var texts := HexAll(hashes);
      ParseHexAll(hashes[..|hashes| - 1]);
      assert texts[..|texts| - 1] == HexAll(hashes[..|hashes| - 1]);
      Hex.DecodeEncode(hashes[|hashes| - 1]);
      assert hashes == hashes[..|hashes| - 1] + [hashes[|hashes| - 1]];
    }
  }

  // ---- what a client checks ----

  /** The client parses the response and runs the inclusion verifier on the receipt it holds. */
  predicate InclusionVerifies(env: Env, r: Receipt, resp: InclusionResponse) {
    var root, proof := ParseRoot(resp.rootHex), ParseAll(resp.proof);
    && root.Some? && proof.Some?
    && AcceptsInclusion(env.sha, HashLeaf(env.sha, CanonicalBytes(env.enc, r)), root.value, resp.leafIndex, resp.treeSize, proof.value)
  }

  predicate ConsistencyVerifies(env: Env, resp: ConsistencyResponse) {
    var oldRoot, newRoot, proof := ParseRoot(resp.oldRootHex), ParseRoot(resp.newRootHex), ParseAll(resp.proof);
    && oldRoot.Some? && newRoot.Some? && proof.Some?
    && AcceptsConsistency(env.sha, oldRoot.value, newRoot.value, resp.oldSize, resp.newSize, proof.value)
  }

  lemma RootParses(env: Env, rs: seq<Receipt>)
    ensures ParseRoot(RootHexOf(env, rs)) == Some(EntriesRoot(env.sha, Entries(env, rs)))
  {
    Hex.DecodeEncode(EntriesRoot(env.sha, Entries(env, rs)));
  }

  lemma InclusionResponseVerifies(env: Env, rs: seq<Receipt>, index: nat, resp: InclusionResponse)
    requires index < |rs| && resp.leafIndex == index && resp.treeSize == |rs| && resp.rootHex == RootHexOf(env, rs)
    requires resp.proof == HexAll(AuditPath(env.sha, LeafHashes(env.sha, Entries(env, rs)), index))
    ensures InclusionVerifies(env, rs[index], resp)
  {
    hide Hex.Decode, Hex.Encode, CanonicalBytes;
    var leaves := LeafHashes(env.sha, Entries(env, rs));
    RootParses(env, rs);
    ParseHexAll(AuditPath(env.sha, leaves, index));
    InclusionComplete(env.sha, leaves, index);
  }

  lemma ConsistencyResponseVerifies(env: Env, rs: seq<Receipt>, oldSize: nat, resp: ConsistencyResponse)
    requires 1 <= oldSize < |rs| && resp.oldSize == oldSize && resp.newSize == |rs|
    requires resp.oldRootHex == RootHexOf(env, rs[..oldSize]) && resp.newRootHex == RootHexOf(env, rs)
    requires resp.proof == HexAll(SubProof(env.sha, oldSize, LeafHashes(env.sha, Entries(env, rs)), true))
    ensures ConsistencyVerifies(env, resp)
  {
    hide Hex.Decode, Hex.Encode, CanonicalBytes;
    var entries := Entries(env, rs);
    var leaves := LeafHashes(env.sha, entries);
    RootParses(env, rs);
    RootParses(env, rs[..oldSize]);
    EntriesSlice(env, rs, 0, oldSize);
    LeafHashesSlice(env.sha, entries, 0, oldSize);
    ParseHexAll(SubProof(env.sha, oldSize, leaves, true));
    ConsistencyComplete(env.sha, leaves, oldSize, |rs|);
    assert leaves[..|rs|] == leaves && leaves[0..oldSize] == leaves[..oldSize] && rs[0..oldSize] == rs[..oldSize];
  }

  // ---- the handlers ----

  ghost predicate ReachableTables(env: Env, t: Tables) {
    exists b :: TablesKept(env, t, b)
  }

  /** The tables of every run of every interleaving. */
  lemma RunIsReachable(env: Env, events: seq<Event>)
    requires Correct(env.ed)
    ensures ReachableTables(env, Run(env, INITIAL, events).tables)
  {
    hide Run, TablesKept;
    var b := EveryInterleavingKeeps(env, events);
    assert TablesKept(env, Run(env, INITIAL, events).tables, b);
  }

  /** What the reads of one request see: builds and appends go on between them. */
  ghost predicate LaterReads(env: Env, t: Tables, u: Tables, v: Tables) {
    ReachableTables(env, t) && ReachableTables(env, u) && ReachableTables(env, v) && Extends(t, u) && Extends(u, v)
  }

  /** The tables at three moments of a run are such. */
  lemma RunsAreLater(env: Env, events: seq<Event>, more: seq<Event>, evenMore: seq<Event>)
    requires Correct(env.ed)
    ensures LaterReads(env, Run(env, INITIAL, events).tables, Run(env, INITIAL, events + more).tables,
                       Run(env, INITIAL, events + more + evenMore).tables)
  {
    hide Run, ReachableTables, Extends;
    RunIsReachable(env, events);
    RunIsReachable(env, events + more);
    RunIsReachable(env, events + more + evenMore);
    RunAppend(env, INITIAL, events, more);
    RunAppend(env, INITIAL, events + more, evenMore);
    RunExtends(env, Run(env, INITIAL, events), more);
    RunExtends(env, Run(env, INITIAL, events + more), evenMore);
  }

  /** The refusal for ends that do not increase, or a response for the cumulative trees that verifies. */
  predicate ConsistencyAnswered(env: Env, t: Tables, newID: int, oldID: int, r: Result<ConsistencyResponse, Refusal>)
    requires 1 <= newID <= |t.checkpoints| && 1 <= oldID <= |t.checkpoints|
  {
    var m, n := t.checkpoints[oldID - 1].batchEnd, t.checkpoints[newID - 1].batchEnd;
    if m >= n then r == Err(NotSmaller) else
      && r.Ok? && ConsistencyVerifies(env, r.value)
      && r.value.oldCheckpointID == oldID && r.value.newCheckpointID == newID
      && r.value.oldSize == m && r.value.newSize == n
      && r.value.oldRootHex == CumulativeRoot(env, t, oldID) && r.value.newRootHex == CumulativeRoot(env, t, newID)
  }

  /** Row k is batched at first, and no other row comes to have its receipt id. */
  predicate UniqueBatched(first: Tables, last: Tables, k: nat, id: string) {
    && k < |last.receipts| && last.receipts[k].id == id && k + 1 in first.batched
    && forall j :: 0 <= j < |last.receipts| && last.receipts[j].id == id ==> j == k
  }

  lemma CheckpointRows(env: Env, t: Tables, id: int)
    requires ReachableTables(env, t) && 1 <= id <= |t.checkpoints|
    ensures var c := t.checkpoints[id - 1];
      && 1 <= c.batchStart <= c.batchEnd <= |t.receipts|
      && Range(t, c.batchStart, c.batchEnd) == t.receipts[c.batchStart - 1..c.batchEnd]
      && c.treeSize == c.batchEnd - c.batchStart + 1
      && c.rootHex == RootHexOf(env, t.receipts[c.batchStart - 1..c.batchEnd])
  {
    hide RootHexOf, OperatorVerdict;
    var b :| TablesKept(env, t, b);
    assert SpeaksForRows(env, t, t.checkpoints[id - 1]);
  }

  lemma BatchedIsCovered(env: Env, t: Tables)
    requires ReachableTables(env, t)
    ensures forall row :: row in t.batched ==> Covered(t, row, row)
  {
    hide RootHexOf, OperatorVerdict;
    var b :| TablesKept(env, t, b);
  }

  /** The response is for the id that was asked for. It names a checkpoint of the second read that
      covers a row with this id, and repeats its size and root. */
  ghost predicate NamesCheckpoint(t: Tables, u: Tables, id: string, resp: InclusionResponse) {
    && resp.receiptID == id
    && 1 <= resp.checkpointID <= |u.checkpoints|
    && var c := u.checkpoints[resp.checkpointID - 1];
    && resp.treeSize == c.treeSize && resp.rootHex == c.rootHex
    && exists row :: RowWithID(t, row, id) && c.batchStart <= row <= c.batchEnd
  }

  predicate RowWithID(t: Tables, row: int, id: string) {
    1 <= row <= |t.receipts| && t.receipts[row - 1].id == id
  }

  /** The leaf is the row that many after the start of the checkpoint; it has the id, and the
      response verifies for its receipt. */
  ghost predicate VerifiesForLeaf(env: Env, u: Tables, v: Tables, id: string, resp: InclusionResponse) {
    && 1 <= resp.checkpointID <= |u.checkpoints|
    && var row := u.checkpoints[resp.checkpointID - 1].batchStart + resp.leafIndex;
    && RowWithID(v, row, id) && InclusionVerifies(env, v.receipts[row - 1], resp)
  }

  ghost predicate SomeRowUncovered(t: Tables, u: Tables, id: string) {
    exists row :: RowWithID(t, row, id) && !Covered(u, row, row)
  }

  /** Whatever happens between the three reads and whichever covering checkpoint the store picks: a
      response names what it is about and verifies for its leaf, and a receipt that was batched when
      the request came and whose id is unique gets a response that verifies for it. An id that no
      receipt has is refused as such, and only that; the one other refusal is for a row with the id
      that no checkpoint covered at the second read. */
  ghost predicate InclusionAnswered(env: Env, t: Tables, u: Tables, v: Tables, id: string, r: Result<InclusionResponse, Refusal>) {
    && ((forall k :: 0 <= k < |t.receipts| ==> t.receipts[k].id != id) <==> r == Err(ReceiptNotFound))
    && (r == Err(NotBatched) ==> SomeRowUncovered(t, u, id))
    && (r.Ok? ==> NamesCheckpoint(t, u, id, r.value))
    && (LaterReads(env, t, u, v) && r.Ok? ==> VerifiesForLeaf(env, u, v, id, r.value))
    && (LaterReads(env, t, u, v) && r.Err? ==> r.error == ReceiptNotFound || r.error == NotBatched)
    && (LaterReads(env, t, u, v) ==> forall k: nat | UniqueBatched(t, v, k, id) :: r.Ok? && InclusionVerifies(env, v.receipts[k], r.value))
  }

  lemma NotFoundAnswers(env: Env, t: Tables, u: Tables, v: Tables, id: string)
    requires forall k :: 0 <= k < |t.receipts| ==> t.receipts[k].id != id
    ensures InclusionAnswered(env, t, u, v, id, Err(ReceiptNotFound))
  {
    hide ReachableTables, InclusionVerifies;
    if LaterReads(env, t, u, v) {
      forall k: nat ensures !UniqueBatched(t, v, k, id) {
        if k + 1 in t.batched {
          BatchedIsRow(env, t, k + 1);
          assert v.receipts[k] == t.receipts[k];
        }
      }
    }
  }

  lemma BatchedIsRow(env: Env, t: Tables, id: int)
    requires ReachableTables(env, t) && id in t.batched
    ensures 1 <= id <= |t.receipts|
  {
    hide SpeaksForRows, Covered;
    var b :| TablesKept(env, t, b);
  }

  lemma UncoveredAnswers(env: Env, t: Tables, u: Tables, v: Tables, id: string, row: StoredReceipt)
    requires IsRow(t, row) && row.receipt.id == id && !Covered(u, row.rowID, row.rowID)
    ensures InclusionAnswered(env, t, u, v, id, Err(NotBatched))
  {
    hide ReachableTables, InclusionVerifies, Covered;
    assert RowWithID(t, row.rowID, id);
    if LaterReads(env, t, u, v) {
      BatchedIsCovered(env, t);
      if Covered(t, row.rowID, row.rowID) {
        CoveredStays(t, u, row.rowID, row.rowID);
      }
      assert row.rowID !in t.batched;
      forall k: nat ensures !UniqueBatched(t, v, k, id) {
        assert v.receipts[row.rowID - 1] == t.receipts[row.rowID - 1];
      }
    }
  }

  /** The row itself is in the range of a checkpoint that covers it, so this refusal is never given. */
  lemma AbsentAnswers(env: Env, t: Tables, u: Tables, v: Tables, id: string, row: StoredReceipt, cp: int)
    requires IsRow(t, row) && row.receipt.id == id
    requires 1 <= cp <= |u.checkpoints| && CoveredBy(u.checkpoints[cp - 1], row.rowID, row.rowID)
    requires var c := u.checkpoints[cp - 1]; forall r :: r in Range(v, c.batchStart, c.batchEnd) ==> r.id != id
    ensures InclusionAnswered(env, t, u, v, id, Err(NotInRange))
  {
    hide ReachableTables, InclusionVerifies;
    var c := u.checkpoints[cp - 1];
    if LaterReads(env, t, u, v) {
      RowIsInRange(t, v, c, row);
      assert false;
    }
  }

  lemma RowIsInRange(t: Tables, v: Tables, c: Checkpoint, row: StoredReceipt)
    requires IsRow(t, row) && t.receipts <= v.receipts && CoveredBy(c, row.rowID, row.rowID)
    ensures row.receipt in Range(v, c.batchStart, c.batchEnd)
  {
    var first := if c.batchStart < 1 then 1 else c.batchStart;
    assert Range(v, c.batchStart, c.batchEnd)[row.rowID - first] == row.receipt;
  }

  /** What the handler answers from, when there is something to answer. */
  ghost predicate AnswersFrom(env: Env, u: Tables, v: Tables, id: string, cp: int, resp: InclusionResponse)
    requires 1 <= cp <= |u.checkpoints|
  {
    var c := u.checkpoints[cp - 1];
    var receipts := Range(v, c.batchStart, c.batchEnd);
    && 0 <= resp.leafIndex < |receipts| && receipts[resp.leafIndex].id == id
    && resp.receiptID == id && resp.checkpointID == cp
    && resp.treeSize == c.treeSize && resp.rootHex == c.rootHex
    && resp.proof == HexAll(AuditPath(env.sha, LeafHashes(env.sha, Entries(env, receipts)), resp.leafIndex))
  }

  lemma AnswerVerifies(env: Env, u: Tables, v: Tables, id: string, cp: int, resp: InclusionResponse)
    requires 1 <= cp <= |u.checkpoints| && AnswersFrom(env, u, v, id, cp, resp)
    requires ReachableTables(env, u) && Extends(u, v)
    ensures VerifiesForLeaf(env, u, v, id, resp)
  {
    hide ReachableTables, InclusionVerifies, HexAll, AuditPath, LeafHashes, Entries, RootHexOf, Range, Extends;
    LaterRows(env, u, v, cp);
    var c := u.checkpoints[cp - 1];
    var receipts := Range(v, c.batchStart, c.batchEnd);
    InclusionResponseVerifies(env, receipts, resp.leafIndex, resp);
    assert v.receipts[c.batchStart - 1 + resp.leafIndex] == receipts[resp.leafIndex];
  }

  lemma AnswerNames(env: Env, t: Tables, u: Tables, v: Tables, id: string, row: StoredReceipt, cp: int, resp: InclusionResponse)
    requires IsRow(t, row) && row.receipt.id == id && 1 <= cp <= |u.checkpoints| && AnswersFrom(env, u, v, id, cp, resp)
    requires CoveredBy(u.checkpoints[cp - 1], row.rowID, row.rowID)
    ensures NamesCheckpoint(t, u, id, resp)
  {
    hide HexAll, AuditPath, LeafHashes, Entries, Range;
    assert RowWithID(t, row.rowID, id);
  }

  lemma RespondingAnswers(env: Env, t: Tables, u: Tables, v: Tables, id: string, row: StoredReceipt, cp: int, resp: InclusionResponse)
    requires IsRow(t, row) && row.receipt.id == id && 1 <= cp <= |u.checkpoints| && AnswersFrom(env, u, v, id, cp, resp)
    requires CoveredBy(u.checkpoints[cp - 1], row.rowID, row.rowID)
    ensures InclusionAnswered(env, t, u, v, id, Ok(resp))
  {
    hide ReachableTables, InclusionVerifies, AnswersFrom, NamesCheckpoint, CoveredBy;
    AnswerNames(env, t, u, v, id, row, cp, resp);
    if LaterReads(env, t, u, v) {
      AnswerVerifies(env, u, v, id, cp, resp);
    }
  }

  /** A checkpoint found earlier still speaks for the rows that a later read returns. */
  lemma LaterRows(env: Env, u: Tables, v: Tables, cp: int)
    requires ReachableTables(env, u) && Extends(u, v) && 1 <= cp <= |u.checkpoints|
    ensures var c := u.checkpoints[cp - 1];
      && 1 <= c.batchStart <= c.batchEnd <= |v.receipts|
      && Range(v, c.batchStart, c.batchEnd) == v.receipts[c.batchStart - 1..c.batchEnd]
      && c.treeSize == c.batchEnd - c.batchStart + 1
      && c.rootHex == RootHexOf(env, v.receipts[c.batchStart - 1..c.batchEnd])
  {
    hide RootHexOf, ReachableTables;
    CheckpointRows(env, u, cp);
    var c := u.checkpoints[cp - 1];
    assert v.receipts[c.batchStart - 1..c.batchEnd] == u.receipts[c.batchStart - 1..c.batchEnd];
  }

  class Server {
    const env: Env

    constructor (env: Env)
      ensures this.env == env
    {
      this.env := env;
    }

    method LeavesFromReceipts(receipts: seq<Receipt>) returns (leaves: array<Digest>)
      ensures fresh(leaves) && leaves[..] == LeafHashes(env.sha, Entries(env, receipts))
    {
      hide CanonicalBytes, HashLeaf;
      leaves := new Digest[|receipts|](_ => ZERO_DIGEST);
      ghost var entries := Entries(env, receipts);
      for i := 0 to |receipts|
        invariant forall k :: 0 <= k < i ==> leaves[k] == HashLeaf(env.sha, entries[k])
      {
        leaves[i] := HashLeaf(env.sha, CanonicalBytes(env.enc, receipts[i]));
      }
    }

    /** The index is that of the last receipt with the id, -1 when there is none. */
    method BuildLeavesAndIndex(receipts: seq<Receipt>, targetID: string) returns (leaves: array<Digest>, index: int)
      ensures fresh(leaves) && leaves[..] == LeafHashes(env.sha, Entries(env, receipts))
      ensures -1 <= index < |receipts| && (index >= 0 ==> receipts[index].id == targetID)
      ensures forall k :: index < k < |receipts| ==> receipts[k].id != targetID
    {
      hide CanonicalBytes, HashLeaf;
      leaves := new Digest[|receipts|](_ => ZERO_DIGEST);
      index := -1;
      ghost var entries := Entries(env, receipts);
      for i := 0 to |receipts|
        invariant forall k :: 0 <= k < i ==> leaves[k] == HashLeaf(env.sha, entries[k])
        invariant -1 <= index < i && (index >= 0 ==> receipts[index].id == targetID)
        invariant forall k :: index < k < i ==> receipts[k].id != targetID
      {
        leaves[i] := HashLeaf(env.sha, CanonicalBytes(env.enc, receipts[i]));
        if receipts[i].id == targetID {
          index := i;
        }
      }
    }

    method HexSlice(hashes: seq<Digest>) returns (out: array<string>)
      ensures fresh(out) && out[..] == HexAll(hashes)
    {
      HexAllElements(hashes);
      out := new string[|hashes|];
      for i := 0 to |hashes|
        invariant forall k :: 0 <= k < i ==> out[k] == Hex.Encode(hashes[k])
      {
        out[i] := Hex.Encode(hashes[i]);
      }
    }

    /** The parameters are the store as each of the three reads finds it. */
    method HandleInclusionProof(first: SQLiteStore, second: SQLiteStore, third: SQLiteStore, id: string)
      returns (r: Result<InclusionResponse, Refusal>)
      requires |third.receipts| <= TWO62
      ensures InclusionAnswered(env, first.View(), second.View(), third.View(), id, r)
    {
      hide InclusionAnswered, Hex.Encode, CanonicalBytes, LeafHashes, Entries, AuditPath, HexAll, ReachableTables, Range, Covered;
      ghost var t, u, v := first.View(), second.View(), third.View();
      var row := first.GetReceiptByID(id);
      if row.None? {
        NotFoundAnswers(env, t, u, v, id);
        return Err(ReceiptNotFound);
      }
      var cp := second.GetCheckpointForRow(row.value.rowID);
      if cp.None? {
        UncoveredAnswers(env, t, u, v, id, row.value);
        return Err(NotBatched);
      }
      var c := second.GetCheckpoint(cp.value);
      var receipts := third.GetReceiptsByRange(c.value.batchStart, c.value.batchEnd);
      RangeLength(v, c.value.batchStart, c.value.batchEnd);
      var leaves, index := BuildLeavesAndIndex(receipts, id);
      if index < 0 {
        AbsentAnswers(env, t, u, v, id, row.value, cp.value);
        return Err(NotInRange);
      }
      var path := InclusionProof(env.sha, leaves[..], index);
      if path.Err? {
        return Err(BadIndex);
      }
      var proof := HexSlice(path.value);
      var resp := InclusionResponse(id, cp.value, index, c.value.treeSize, c.value.rootHex, proof[..]);
      RespondingAnswers(env, t, u, v, id, row.value, cp.value, resp);
      r := Ok(resp);
    }

    /** Over cumulative sizes: any two checkpoints whose ends increase get a proof that verifies,
        whatever happens between the four reads. The parameters are the store as each finds it. */
    method HandleConsistencyProof(first: SQLiteStore, second: SQLiteStore, third: SQLiteStore, fourth: SQLiteStore, newID: int, oldID: int)
      returns (r: Result<ConsistencyResponse, Refusal>)
      requires |fourth.receipts| <= TWO62
      ensures !(1 <= newID <= |first.checkpoints|) ==> r == Err(NewNotFound)
      ensures 1 <= newID <= |first.checkpoints| && !(1 <= oldID <= |second.checkpoints|) ==> r == Err(OldNotFound)
      ensures LaterReads(env, first.View(), second.View(), third.View()) && Extends(third.View(), fourth.View())
        && 1 <= newID <= |first.checkpoints| && 1 <= oldID <= |second.checkpoints|
        ==> ConsistencyAnswered(env, second.View(), newID, oldID, r)
    {
      hide Hex.Encode, CanonicalBytes, LeafHashes, Entries, BuildRoot, SubProof, HexAll, ReachableTables, Range, ConsistencyVerifies;
      ghost var t, u, v, w := first.View(), second.View(), third.View(), fourth.View();
      ghost var later := LaterReads(env, t, u, v) && Extends(v, w);
      var newCP := first.GetCheckpoint(newID);
      if newCP.None? {
        return Err(NewNotFound);
      }
      var oldCP := second.GetCheckpoint(oldID);
      if oldCP.None? {
        return Err(OldNotFound);
      }
      var oldReceipts := third.GetReceiptsByRange(1, oldCP.value.batchEnd);
      var newReceipts := fourth.GetReceiptsByRange(1, newCP.value.batchEnd);
      RangeLength(w, 1, newCP.value.batchEnd);
      if later {
        ExtendsTwice(u, v, w);
        CumulativeRows(env, u, v, oldID);
        CumulativeRows(env, u, w, newID);
        CumulativeRows(env, u, u, oldID);
        CumulativeRows(env, u, u, newID);
        assert SameButAnchor(t.checkpoints[newID - 1], u.checkpoints[newID - 1]);
      }
      var oldSize, newSize := |oldReceipts|, |newReceipts|;
      if oldSize >= newSize {
        return Err(NotSmaller);
      }
      var leaves := LeavesFromReceipts(newReceipts);
      var proof := ConsistencyProof(env.sha, oldSize, newSize, leaves[..]);
      if proof.Err? {
        return Err(NoProof);
      }
      var oldLeaves := LeavesFromReceipts(oldReceipts);
      var oldRoot := BuildRoot(env.sha, oldLeaves[..]);
      var newRoot := BuildRoot(env.sha, leaves[..]);
      var texts := HexSlice(proof.value);
      var resp := ConsistencyResponse(oldID, newID, oldSize, newSize, Hex.Encode(oldRoot), Hex.Encode(newRoot), texts[..]);
      if later {
        assert leaves[..][..newSize] == leaves[..];
        assert oldReceipts == newReceipts[..oldSize];
        ConsistencyResponseVerifies(env, newReceipts, oldSize, resp);
      }
      r := Ok(resp);
    }
  }

  lemma ExtendsTwice(t: Tables, u: Tables, v: Tables)
    requires Extends(t, u) && Extends(u, v)
    ensures Extends(t, v)
  {
    forall i | 0 <= i < |t.checkpoints| ensures SameButAnchor(t.checkpoints[i], v.checkpoints[i]) {
      assert SameButAnchor(t.checkpoints[i], u.checkpoints[i]) && SameButAnchor(u.checkpoints[i], v.checkpoints[i]);
    }
  }

  /** The rows up to a checkpoint's end are the same in every later table. */
  lemma CumulativeRows(env: Env, t: Tables, u: Tables, id: int)
    requires ReachableTables(env, t) && t.receipts <= u.receipts && 1 <= id <= |t.checkpoints|
    ensures var end := t.checkpoints[id - 1].batchEnd;
      1 <= end <= |t.receipts| && Range(u, 1, end) == t.receipts[..end]
  {
    CheckpointRows(env, t, id);
  }

  lemma {:induction false} HexAllElements(hashes: seq<Digest>)
    ensures |HexAll(hashes)| == |hashes| && forall k :: 0 <= k < |hashes| ==> HexAll(hashes)[k] == Hex.Encode(hashes[k])
    decreases |hashes|
  {
    if hashes != [] {
      HexAllElements(hashes[..|hashes| - 1]);
    }
  }

  /** The root over the first rows up to a checkpoint's end, as the consistency endpoint reports it. */
  function CumulativeRoot(env: Env, t: Tables, id: int): string
    requires 1 <= id <= |t.checkpoints|
  {
    RootHexOf(env, Range(t, 1, t.checkpoints[id - 1].batchEnd))
  }

  /** It is the same at every later state of the run. */
  lemma CumulativeRootIsStable(env: Env, earlier: seq<Event>, later: seq<Event>, id: int)
    requires Correct(env.ed)
    requires var t := Run(env, INITIAL, earlier).tables; 1 <= id <= |t.checkpoints|
    ensures var t, u := Run(env, INITIAL, earlier).tables, Run(env, Run(env, INITIAL, earlier), later).tables;
      id <= |u.checkpoints| && CumulativeRoot(env, t, id) == CumulativeRoot(env, u, id)
  {
    hide RootHexOf, OperatorVerdict, Next, Run;
    var st := Run(env, INITIAL, earlier);
    var b := EveryInterleavingKeeps(env, earlier);
    RunExtends(env, st, later);
    var t, u := st.tables, Run(env, st, later).tables;
    assert SpeaksForRows(env, t, t.checkpoints[id - 1]);
    assert SameButAnchor(t.checkpoints[id - 1], u.checkpoints[id - 1]);
    var end := t.checkpoints[id - 1].batchEnd;
    assert Range(t, 1, end) == t.receipts[..end] == u.receipts[..end] == Range(u, 1, end);
  }
}
