/** The store object (internal/store/sqlite.go): each method changes or reads the tables as the
    statement functions of the ledger say. */
module SqliteStore {
  import opened ByteStrings
  import opened Receipts
  import opened Ledger
  import opened InterleavedBuilds

  datatype StoredReceipt = StoredReceipt(rowID: int, receipt: Receipt)

  datatype Stats = Stats(totalReceipts: int, totalCheckpoints: int, pendingBatch: int, totalWitnessSigs: int)

  predicate IsRow(t: Tables, s: StoredReceipt) {
    1 <= s.rowID <= |t.receipts| && s.receipt == t.receipts[s.rowID - 1]
  }

  /** COUNT(*) of the rows with the flag clear, from an id on. */
  function PendingFrom(t: Tables, id: nat): nat
    decreases |t.receipts| + 1 - id
  {
    if id > |t.receipts| then 0 else (if id in t.batched then 0 else 1) + PendingFrom(t, id + 1)
  }

  lemma {:induction false} PendingCounts(t: Tables, id: nat)
    ensures PendingFrom(t, id) == |set k | id <= k <= |t.receipts| && k !in t.batched|
    decreases |t.receipts| + 1 - id
  {
    var all := set k | id <= k <= |t.receipts| && k !in t.batched;
    if id > |t.receipts| {
      assert all == {};
    } else {
      PendingCounts(t, id + 1);
      var rest := set k | id + 1 <= k <= |t.receipts| && k !in t.batched;
      assert all == if id in t.batched then rest else rest + {id};
    }
  }

  /** The rows are unflagged, in ascending order, and the first such: what is not among them comes
      after them, and then they are as many as the limit. A negative limit is none. */
  ghost predicate Unflagged(t: Tables, limit: int, out: seq<StoredReceipt>) {
    && (forall k :: 0 <= k < |out| ==> IsRow(t, out[k]) && out[k].rowID !in t.batched)
    && (forall j, k :: 0 <= j < k < |out| ==> out[j].rowID < out[k].rowID)
    && (limit >= 0 ==> |out| <= limit)
    && (forall id :: 1 <= id <= |t.receipts| && id !in t.batched ==> Among(out, id) || (|out| == limit && AllBelow(out, id)))
  }

  ghost predicate Among(out: seq<StoredReceipt>, id: int) {
    exists k :: 0 <= k < |out| && out[k].rowID == id
  }

  ghost predicate AllBelow(out: seq<StoredReceipt>, id: int) {
    forall k :: 0 <= k < |out| ==> out[k].rowID < id
  }

  /** Ascending ids of unflagged rows from some id on. */
  ghost predicate AscendingFrom(t: Tables, id: nat, ids: seq<int>) {
    && (forall k :: 0 <= k < |ids| ==> id <= ids[k] <= |t.receipts| && ids[k] !in t.batched)
    && (forall j, k :: 0 <= j < k < |ids| ==> ids[j] < ids[k])
  }

  lemma {:induction false} UnbatchedAscend(t: Tables, id: nat, limit: int)
    requires id >= 1
    ensures AscendingFrom(t, id, UnbatchedFrom(t, id, limit))
    ensures limit >= 0 ==> |UnbatchedFrom(t, id, limit)| <= limit
    decreases |t.receipts| + 1 - id
  {
    if id <= |t.receipts| && limit != 0 {
      var left := if id in t.batched then limit else limit - 1;
      UnbatchedAscend(t, id + 1, left);
      var rest := UnbatchedFrom(t, id + 1, left);
      var ids := if id in t.batched then rest else [id] + rest;
      assert UnbatchedFrom(t, id, limit) == ids;
      assert AscendingFrom(t, id, ids);
    }
  }

  lemma {:induction false} UnbatchedAreFirst(t: Tables, id: nat, limit: int, row: int)
    requires id >= 1 && id <= row <= |t.receipts| && row !in t.batched
    ensures var ids := UnbatchedFrom(t, id, limit);
      row in ids || (|ids| == limit && forall k :: 0 <= k < |ids| ==> ids[k] < row)
    decreases |t.receipts| + 1 - id
  {
    if limit != 0 && id < row {
      UnbatchedAreFirst(t, id + 1, if id in t.batched then limit else limit - 1, row);
    }
  }

  lemma FetchedUnflagged(t: Tables, limit: int, out: seq<StoredReceipt>)
    requires var ids := UnbatchedFrom(t, 1, limit);
      |out| == |ids| && forall k :: 0 <= k < |ids| ==>
        1 <= ids[k] <= |t.receipts| && out[k] == StoredReceipt(ids[k], t.receipts[ids[k] - 1])
    ensures Unflagged(t, limit, out)
  {
    hide UnbatchedFrom;
    var ids := UnbatchedFrom(t, 1, limit);
    UnbatchedAscend(t, 1, limit);
    forall row | 1 <= row <= |t.receipts| && row !in t.batched ensures Among(out, row) || (|out| == limit && AllBelow(out, row)) {
      UnbatchedAreFirst(t, 1, limit, row);
      if row in ids {
        var k :| 0 <= k < |ids| && ids[k] == row;
        assert out[k].rowID == row;
      }
    }
  }

  /** Exactly the given rows that exist have been flagged in addition, and nothing else has changed. */
  ghost predicate Flagged(t: Tables, u: Tables, ids: seq<int>) {
    && (forall id :: id in u.batched <==> id in t.batched || (id in ids && 1 <= id <= |t.receipts|))
    && u == t.(batched := u.batched)
  }

  /** One checkpoint has been added, with its instant cut to whole seconds and no log index. */
  ghost predicate CheckpointAdded(t: Tables, u: Tables, c: Checkpoint) {
    && u.checkpoints == t.checkpoints + [c.(issuedAt := c.issuedAt / 1_000_000_000 * 1_000_000_000, rekorLogIndex := 0 - 1)]
    && u == t.(checkpoints := u.checkpoints)
  }

  class SQLiteStore {
    var receipts: seq<Receipt>
    var batched: set<int>
    var checkpoints: seq<Checkpoint>
    var witnessSigs: map<(int, string), string>
    var cosignatures: seq<Cosignature>

    function View(): Tables
      reads this
    {
      Tables(receipts, batched, checkpoints, witnessSigs, cosignatures)
    }

    constructor ()
      ensures View() == EMPTY_TABLES
    {
      receipts, batched, checkpoints, witnessSigs, cosignatures := [], {}, [], map[], [];
    }

    method AppendReceipt(r: Receipt) returns (id: int)
      modifies this
      ensures View() == Inserted(old(View()), [r])
      ensures receipts == old(receipts) + [r] && id == |receipts|
    {
      receipts := receipts + [r];
      id := |receipts|;
    }

    method AppendReceiptsBatch(rs: seq<Receipt>) returns (ids: seq<int>)
      modifies this
      ensures View() == Inserted(old(View()), rs) && receipts == old(receipts) + rs
      ensures |ids| == |rs| && forall k :: 0 <= k < |rs| ==> ids[k] == |old(receipts)| + k + 1
    {
      ids := [];
      for i := 0 to |rs|
        invariant View() == Inserted(old(View()), rs[..i])
        invariant |ids| == i && forall k :: 0 <= k < i ==> ids[k] == |old(receipts)| + k + 1
      {
        receipts := receipts + [rs[i]];
        ids := ids + [|receipts|];
        assert rs[..i + 1] == rs[..i] + [rs[i]];
      }
      assert rs[..|rs|] == rs;
    }

    method FetchUnbatched(limit: int) returns (out: seq<StoredReceipt>)
      ensures var ids := UnbatchedFrom(View(), 1, limit);
        |out| == |ids| && forall k :: 0 <= k < |ids| ==>
          1 <= ids[k] <= |receipts| && out[k] == StoredReceipt(ids[k], receipts[ids[k] - 1])
      ensures Unflagged(View(), limit, out)
    {
      hide Unflagged;
      out := [];
      var id, left := 1, limit;
      ghost var ids := UnbatchedFrom(View(), 1, limit);
      UnbatchedInRange(View(), 1, limit);
      while id <= |receipts| && left != 0
        invariant 1 <= id <= |receipts| + 1
        invariant |out| <= |ids| && ids[|out|..] == UnbatchedFrom(View(), id, left)
        invariant forall k :: 0 <= k < |out| ==> 1 <= ids[k] <= |receipts| && out[k] == StoredReceipt(ids[k], receipts[ids[k] - 1])
        decreases |receipts| + 1 - id
      {
        if id !in batched {
          assert ids[|out|] == ids[|out|..][0] && ids[|out| + 1..] == ids[|out|..][1..];
          out := out + [StoredReceipt(id, receipts[id - 1])];
          left := left - 1;
        }
        id := id + 1;
      }
      FetchedUnflagged(View(), limit, out);
    }

    method MarkBatched(ids: seq<int>)
      modifies this
      ensures View() == Marked(old(View()), ids)
      ensures Flagged(old(View()), View(), ids)
    {
      if ids == [] {
        return;
      }
      batched := batched + set id | id in ids && 1 <= id <= |receipts|;
    }

    method GetReceiptsByRange(startID: int, endID: int) returns (rs: seq<Receipt>)
      ensures rs == Range(View(), startID, endID)
      ensures var first, last := if startID < 1 then 1 else startID, if endID > |receipts| then |receipts| else endID;
        && |rs| == (if first > last then 0 else last - first + 1)
        && forall k :: 0 <= k < |rs| ==> rs[k] == receipts[first - 1 + k]
    {
      rs := [];
      var first := if startID < 1 then 1 else startID;
      var id := first;
      while id <= endID && id <= |receipts|
        invariant id == first || (id - 1 <= endID && id - 1 <= |receipts|)
        invariant first <= id && |rs| == id - first
        invariant forall k :: 0 <= k < |rs| ==> rs[k] == receipts[first - 1 + k]
        decreases endID - id
      {
        rs := rs + [receipts[id - 1]];
        id := id + 1;
      }
      assert |rs| == |Range(View(), startID, endID)|;
    }

    /** LIMIT 1 without an order: any row with that receipt id. */
    method GetReceiptByID(id: string) returns (found: Option<StoredReceipt>)
      ensures found.None? <==> forall k :: 0 <= k < |receipts| ==> receipts[k].id != id
      ensures found.Some? ==> IsRow(View(), found.value) && found.value.receipt.id == id
    {
      found := None;
      for k := 0 to |receipts|
        invariant found.None? <==> forall i :: 0 <= i < k ==> receipts[i].id != id
        invariant found.Some? ==> IsRow(View(), found.value) && found.value.receipt.id == id
      {
        if receipts[k].id == id && found.None? {
          found := Some(StoredReceipt(k + 1, receipts[k]));
        }
      }
    }

    method SaveCheckpoint(c: Checkpoint) returns (id: int)
      modifies this
      ensures View() == Saved(old(View()), c)
      ensures CheckpointAdded(old(View()), View(), c) && id == |checkpoints|
    {
      checkpoints := checkpoints + [AsStored(c)];
      id := |checkpoints|;
    }

    method GetCheckpoint(id: int) returns (c: Option<Checkpoint>)
      ensures c == if 1 <= id <= |checkpoints| then Some(checkpoints[id - 1]) else None
    {
      c := if 1 <= id <= |checkpoints| then Some(checkpoints[id - 1]) else None;
    }

    /** LIMIT 1 without an order: the id of any checkpoint whose range covers the row. */
    method GetCheckpointForRow(rowID: int) returns (id: Option<int>)
      ensures id.None? <==> !Covered(View(), rowID, rowID)
      ensures id.Some? ==> 1 <= id.value <= |checkpoints| && CoveredBy(checkpoints[id.value - 1], rowID, rowID)
    {
      id := None;
      for i := 0 to |checkpoints|
        invariant id.None? ==> forall k :: 0 <= k < i ==> !CoveredBy(checkpoints[k], rowID, rowID)
        invariant id.Some? ==> 1 <= id.value <= |checkpoints| && CoveredBy(checkpoints[id.value - 1], rowID, rowID)
      {
        if checkpoints[i].batchStart <= rowID && checkpoints[i].batchEnd >= rowID {
          id := Some(i + 1);
        }
      }
    }

    method LatestCheckpoint() returns (c: Option<Checkpoint>)
      ensures c == Latest(View())
      ensures c == if checkpoints == [] then None else Some(checkpoints[|checkpoints| - 1])
    {
      c := if checkpoints == [] then None else Some(checkpoints[|checkpoints| - 1]);
    }

    /** One checkpoint gets the index, if it exists; it keeps its other fields, and the other
        checkpoints and tables stay as they were. */
    method UpdateCheckpointRekorIndex(id: int, logIndex: int)
      modifies this
      ensures View() == Anchored(old(View()), id, logIndex)
      ensures |checkpoints| == |old(checkpoints)|
      ensures 1 <= id <= |checkpoints| ==> checkpoints[id - 1].rekorLogIndex == logIndex
      ensures forall k :: 0 <= k < |checkpoints| ==> SameButAnchor(old(checkpoints)[k], checkpoints[k])
      ensures forall k :: 0 <= k < |checkpoints| && k != id - 1 ==> checkpoints[k] == old(checkpoints)[k]
      ensures receipts == old(receipts) && batched == old(batched)
      ensures witnessSigs == old(witnessSigs) && cosignatures == old(cosignatures)
    {
      if 1 <= id <= |checkpoints| {
        checkpoints := checkpoints[id - 1 := checkpoints[id - 1].(rekorLogIndex := logIndex)];
      }
    }

    /** The signature of the witness is the one given, those of others are kept, and so are the other
        tables. */
    method AddWitnessSignature(id: int, witnessID: string, sigHex: string)
      modifies this
      ensures View() == WithWitnessSig(old(View()), id, witnessID, sigHex)
      ensures (id, witnessID) in witnessSigs && witnessSigs[(id, witnessID)] == sigHex
      ensures forall k :: k != (id, witnessID) ==> (k in witnessSigs <==> k in old(witnessSigs))
      ensures forall k :: k != (id, witnessID) && k in witnessSigs ==> witnessSigs[k] == old(witnessSigs)[k]
      ensures receipts == old(receipts) && batched == old(batched)
      ensures checkpoints == old(checkpoints) && cosignatures == old(cosignatures)
    {
      witnessSigs := witnessSigs[(id, witnessID) := sigHex];
    }

    /** The signatures of one checkpoint by witness. */
    method WitnessSignatures(id: int) returns (sigs: map<string, string>)
      ensures forall w :: w in sigs <==> (id, w) in witnessSigs
      ensures forall w :: w in sigs ==> sigs[w] == witnessSigs[(id, w)]
    {
      sigs := map[];
      var rows := witnessSigs.Keys;
      while rows != {}
        invariant rows <= witnessSigs.Keys
        invariant forall w :: w in sigs <==> (id, w) in witnessSigs && (id, w) !in rows
        invariant forall w :: w in sigs ==> sigs[w] == witnessSigs[(id, w)]
        decreases |rows|
      {
        var row :| row in rows;
        rows := rows - {row};
        if row.0 == id {
          sigs := sigs[row.1 := witnessSigs[row]];
        }
      }
    }

    method StoreCosignature(rootHex: string, noteText: bytes)
      modifies this
      ensures View() == WithCosignature(old(View()), rootHex, noteText)
      ensures cosignatures == old(cosignatures) + if Cosignature(rootHex, noteText) in old(cosignatures) then [] else [Cosignature(rootHex, noteText)]
      ensures receipts == old(receipts) && batched == old(batched)
      ensures checkpoints == old(checkpoints) && witnessSigs == old(witnessSigs)
    {
      if Cosignature(rootHex, noteText) !in cosignatures {
        cosignatures := cosignatures + [Cosignature(rootHex, noteText)];
      }
    }

    method GetCosignatures(rootHex: string) returns (out: seq<bytes>)
      ensures out == NotesFor(cosignatures, rootHex)
      ensures forall n :: n in out <==> Cosignature(rootHex, n) in cosignatures
    {
      NotesForAreStored(cosignatures, rootHex);
      out := [];
      for i := 0 to |cosignatures|
        invariant out == NotesFor(cosignatures[..i], rootHex)
      {
        assert cosignatures[..i + 1][..i] == cosignatures[..i];
        if cosignatures[i].rootHex == rootHex {
          out := out + [cosignatures[i].noteText];
        }
      }
      assert cosignatures[..|cosignatures|] == cosignatures;
    }

    method GetStats() returns (s: Stats)
      ensures s == Stats(|receipts|, |checkpoints|, PendingFrom(View(), 1), |witnessSigs|)
      ensures s.pendingBatch == |set id | 1 <= id <= |receipts| && id !in batched|
    {
      PendingCounts(View(), 1);
      var pending, id := 0, 1;
      while id <= |receipts|
        invariant 1 <= id <= |receipts| + 1
        invariant pending + PendingFrom(View(), id) == PendingFrom(View(), 1)
      {
        if id !in batched {
          pending := pending + 1;
        }
        id := id + 1;
      }
      s := Stats(|receipts|, |checkpoints|, pending, |witnessSigs|);
    }
  }
}
