/** The copy loop of the migrate command (cmd/siqlah/migrate.go) into a store with a log
    (internal/store/tessera_store.go). Row ids and the batch size are signed 64-bit integers. */
module Migration {
  import opened ByteStrings
  import opened Receipts
  import opened Ledger
  import opened SqliteStore
  import opened MerkleTree

  /** A store that also appends the canonical bytes of every receipt to a log. */
  class TesseraStore {
    const env: Env
    const rows: SQLiteStore
    var log: seq<bytes>

    constructor (env: Env)
      ensures this.env == env && log == [] && fresh(rows) && rows.View() == EMPTY_TABLES
    {
      this.env := env;
      rows := new SQLiteStore();
      log := [];
    }

    method AppendReceipt(r: Receipt) returns (id: int)
      modifies this`log, rows
      ensures rows.View() == Inserted(old(rows.View()), [r])
      ensures log == old(log) + [CanonicalBytes(env.enc, r)]
      ensures id == |rows.receipts| && rows.receipts == old(rows.receipts) + [r]
    {
      id := rows.AppendReceipt(r);
      log := log + [CanonicalBytes(env.enc, r)];
    }
  }

  /** Addition on 64-bit ints. */
  function Add64(a: int, b: int): int {
    var s := (a + b) % TWO64;
    if s >= TWO63 then s - TWO64 else s
  }

  /** The sum is a 64-bit int, off by at most one multiple of 2^64. */
  lemma Add64Is(a: int, b: int)
    requires -0x8000_0000_0000_0000 <= a < 0x8000_0000_0000_0000 && -0x8000_0000_0000_0000 <= b < 0x8000_0000_0000_0000
    ensures var d := Add64(a, b) - (a + b);
      && -0x8000_0000_0000_0000 <= Add64(a, b) < 0x8000_0000_0000_0000
      && (d == 0 || d == 0x1_0000_0000_0000_0000 || d == -0x1_0000_0000_0000_0000)
  {
  }

  /** The destination after some receipts were copied. */
  ghost predicate Copied(env: Env, before: Tables, logBefore: seq<bytes>, after: Tables, logAfter: seq<bytes>, rs: seq<Receipt>) {
    after == Inserted(before, rs) && logAfter == logBefore + Entries(env, rs)
  }

  lemma EntriesSnoc(env: Env, rs: seq<Receipt>, r: Receipt)
    ensures Entries(env, rs + [r]) == Entries(env, rs) + [CanonicalBytes(env.enc, r)]
  {
    assert (rs + [r])[..|rs|] == rs;
  }

  lemma {:induction false} EntriesAppend(env: Env, rs: seq<Receipt>, more: seq<Receipt>)
    ensures Entries(env, rs + more) == Entries(env, rs) + Entries(env, more)
    decreases |more|
  {
    hide CanonicalBytes, Entries;
    var n := |more|;
    if n == 0 {
      assert rs + more == rs && Entries(env, rs) + [] == Entries(env, rs);
    } else {
      EntriesAppend(env, rs, more[..n - 1]);
      EntriesSnoc(env, rs + more[..n - 1], more[n - 1]);
      EntriesSnoc(env, more[..n - 1], more[n - 1]);
      ConcatAssociates(Entries(env, rs), Entries(env, more[..n - 1]), [CanonicalBytes(env.enc, more[n - 1])]);
      assert more == more[..n - 1] + [more[n - 1]];
      assert rs + more == rs + more[..n - 1] + [more[n - 1]];
    }
  }

  lemma CopiedTwice(env: Env, t: Tables, log: seq<bytes>, u: Tables, logU: seq<bytes>, v: Tables, logV: seq<bytes>, rs: seq<Receipt>, more: seq<Receipt>)
    requires Copied(env, t, log, u, logU, rs) && Copied(env, u, logU, v, logV, more)
    ensures Copied(env, t, log, v, logV, rs + more)
  {
    hide Entries;
    EntriesAppend(env, rs, more);
    ConcatAssociates(t.receipts, rs, more);
    ConcatAssociates(log, Entries(env, rs), Entries(env, more));
  }

  method CopyBatch(batch: seq<Receipt>, dst: TesseraStore)
    modifies dst`log, dst.rows
    ensures Copied(dst.env, old(dst.rows.View()), old(dst.log), dst.rows.View(), dst.log, batch)
  {
    hide Entries, CanonicalBytes;
    EntriesOfNone(dst.env, dst.rows.View(), dst.log);
    for i := 0 to |batch|
      invariant Copied(dst.env, old(dst.rows.View()), old(dst.log), dst.rows.View(), dst.log, batch[..i])
    {
      ghost var u, logU := dst.rows.View(), dst.log;
      var id := dst.AppendReceipt(batch[i]);
      EntriesOfOne(dst.env, batch[i]);
      CopiedTwice(dst.env, old(dst.rows.View()), old(dst.log), u, logU, dst.rows.View(), dst.log, batch[..i], [batch[i]]);
      assert batch[..i + 1] == batch[..i] + [batch[i]];
    }
    assert batch[..|batch|] == batch;
  }

  lemma EntriesOfNone(env: Env, t: Tables, log: seq<bytes>)
    ensures Copied(env, t, log, t, log, [])
  {
  }

  lemma EntriesOfOne(env: Env, r: Receipt)
    ensures Entries(env, [r]) == [CanonicalBytes(env.enc, r)]
  {
    assert [r][..0] == [];
  }

  /** What the loop copies: everything for a positive batch size, nothing otherwise. */
  function MigratedRows(t: Tables, batchSize: int): seq<Receipt> {
    if batchSize >= 1 then t.receipts else []
  }

  /** Where the loop stands: the next id follows the copied rows, or lies past the last row, or has
      wrapped around to the least integer. */
  ghost predicate Standing(n: nat, batchSize: int, migrated: int, startID: int) {
    && 0 <= migrated <= n
    && (batchSize <= 0 ==> migrated == 0)
    && (migrated < n ==> startID == migrated + 1 && (migrated > 0 ==> batchSize <= migrated))
    && (migrated == n ==> n < startID < TWO63 || (startID == -TWO63 && batchSize >= 1))
  }

  function EndOf(startID: int, batchSize: int): int {
    Add64(Add64(startID, batchSize), -1)
  }

  lemma WrapsTo(sum: int, a: int, b: int)
    requires sum == a + b && -TWO63 <= sum < TWO63
    ensures Add64(a, b) == sum
  {
  }

  lemma NextRange(t: Tables, batchSize: int, migrated: int, startID: int)
    requires |t.receipts| <= TWO62 && -TWO63 <= batchSize < TWO63
    requires Standing(|t.receipts|, batchSize, migrated, startID)
    ensures var batch := Range(t, startID, EndOf(startID, batchSize));
      && migrated + |batch| <= |t.receipts|
      && batch == t.receipts[migrated..migrated + |batch|]
      && (batch == [] <==> batchSize <= 0 || migrated == |t.receipts|)
      && (batch != [] ==> Standing(|t.receipts|, batchSize, migrated + |batch|, Add64(EndOf(startID, batchSize), 1)))
  {
    var n, end := |t.receipts|, EndOf(startID, batchSize);
    if migrated < n {
      if batchSize < TWO63 - migrated - 1 {
        WrapsTo(startID + batchSize, startID, batchSize);
        WrapsTo(migrated + batchSize, startID + batchSize, -1);
      }
      assert end == migrated + batchSize;
      if batchSize >= 1 {
        if end < TWO63 - 1 {
          WrapsTo(end + 1, end, 1);
        }
      }
    } else if startID == -TWO63 {
      WrapsTo(startID + batchSize, startID, batchSize);
      if batchSize >= 1 {
        WrapsTo(startID + batchSize - 1, startID + batchSize, -1);
      }
    }
  }

  /** The source is copied in order, each row once; the loop ends although the last range may wrap
      around. A batch size that is not positive makes the first range empty, so nothing is copied. The
      roots of all prefixes are those of the source. */
  method Migrate(src: SQLiteStore, dst: TesseraStore, batchSize: int) returns (migrated: int)
    requires dst.rows != src
    requires -TWO63 <= batchSize < TWO63 && |src.receipts| <= TWO62
    modifies dst`log, dst.rows
    ensures Copied(dst.env, old(dst.rows.View()), old(dst.log), dst.rows.View(), dst.log, MigratedRows(src.View(), batchSize))
    ensures migrated == |MigratedRows(src.View(), batchSize)|
    ensures |old(dst.log)| <= |dst.log| && PrefixRootsMatch(dst.env, MigratedRows(src.View(), batchSize), dst.log[|old(dst.log)|..])
  {
    hide Entries, CanonicalBytes, Add64, Range, PrefixRootsMatch;
    ghost var t := src.View();
    var startID := 1;
    migrated := 0;
    EntriesOfNone(dst.env, dst.rows.View(), dst.log);
    assert t.receipts[..0] == [];
    while true
      invariant src.View() == t
      invariant Standing(|t.receipts|, batchSize, migrated, startID)
      invariant Copied(dst.env, old(dst.rows.View()), old(dst.log), dst.rows.View(), dst.log, t.receipts[..migrated])
      decreases |t.receipts| - migrated
    {
      NextRange(t, batchSize, migrated, startID);
      var endID := Add64(Add64(startID, batchSize), -1);
      var batch := src.GetReceiptsByRange(startID, endID);
      if |batch| == 0 {
        break;
      }
      ghost var u, logU := dst.rows.View(), dst.log;
      CopyBatch(batch, dst);
      CopiedTwice(dst.env, old(dst.rows.View()), old(dst.log), u, logU, dst.rows.View(), dst.log, t.receipts[..migrated], batch);
      assert t.receipts[..migrated] + batch == t.receipts[..migrated + |batch|];
      migrated := migrated + |batch|;
      startID := Add64(endID, 1);
    }
    assert t.receipts[..|t.receipts|] == t.receipts;
    PrefixRootsPreserved(dst.env, old(dst.rows.View()), old(dst.log), dst.rows.View(), dst.log, MigratedRows(t, batchSize));
  }

  /** Every prefix of the log that was appended has the root of the same prefix of the receipts. */
  ghost predicate PrefixRootsMatch(env: Env, rs: seq<Receipt>, log: seq<bytes>) {
    && |log| == |rs|
    && forall size :: 0 <= size <= |rs| ==> EntriesRoot(env.sha, log[..size]) == EntriesRoot(env.sha, Entries(env, rs[..size]))
  }

  lemma PrefixRootsPreserved(env: Env, before: Tables, logBefore: seq<bytes>, after: Tables, logAfter: seq<bytes>, rs: seq<Receipt>)
    requires Copied(env, before, logBefore, after, logAfter, rs)
    ensures |logBefore| <= |logAfter| && PrefixRootsMatch(env, rs, logAfter[|logBefore|..])
  {
    hide EntriesRoot, CanonicalBytes, Entries;
    var log := logAfter[|logBefore|..];
    assert log == Entries(env, rs);
    forall size | 0 <= size <= |rs| ensures EntriesRoot(env.sha, log[..size]) == EntriesRoot(env.sha, Entries(env, rs[..size])) {
      EntriesSlice(env, rs, 0, size);
      assert log[..size] == log[0..size] && rs[0..size] == rs[..size];
    }
  }
}
