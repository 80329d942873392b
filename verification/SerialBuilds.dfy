/** The builder object, and what builds add when each one completes before the next starts
    (internal/checkpoint/builder.go). */
module SerialBuilds {
  import opened ByteStrings
  import opened MerkleTree
  import opened Receipts
  import opened Signing
  import opened Ledger
  import opened InterleavedBuilds
  import opened SqliteStore
  import Hex

  /** A build that runs to its end: fetch, read latest, save, mark. */
  function CompleteBuild(env: Env, limit: int, now: int, t: Tables): Tables {
    var b := FetchedBuild(t, limit);
    if b.ids == [] then t
    else Marked(Saved(t, NewCheckpoint(env, b.ids, b.receipts, PreviousRoot(t), now)), b.ids)
  }

  /** It is the interleaving in which its four calls are consecutive. */
  lemma CompleteBuildIsRun(env: Env, maxBatch: int, now: int, st: State, run: nat)
    requires run !in st.builds
    ensures Run(env, st, [Fetch(run, maxBatch)] + [ReadLatest(run)] + [Save(run, now)] + [Mark(run)])
         == st.(tables := CompleteBuild(env, BatchLimit(maxBatch), now, st.tables))
  {
    hide NewCheckpoint;
    var e := [Fetch(run, maxBatch)];
    assert e[..0] == [] && Run(env, st, e) == Next(env, st, Fetch(run, maxBatch));
    RunSnoc(env, st, e, ReadLatest(run));
    RunSnoc(env, st, e + [ReadLatest(run)], Save(run, now));
    RunSnoc(env, st, e + [ReadLatest(run)] + [Save(run, now)], Mark(run));
    var b := FetchedBuild(st.tables, BatchLimit(maxBatch));
    if b.ids != [] {
      var linked := Linked(b.ids, b.receipts, PreviousRoot(st.tables));
      assert Run(env, st, e + [ReadLatest(run)]) == st.(builds := st.builds[run := linked]);
      assert st.builds[run := Written(b.ids)] - {run} == st.builds;
    }
  }

  lemma NewCheckpointSigns(env: Env, ids: seq<int>, rs: seq<Receipt>, previousRootHex: string, now: int)
    requires ids != []
    ensures NewCheckpoint(env, ids, rs, previousRootHex, now)
         == SignedCheckpoint(env, UnsignedCheckpoint(env, ids, rs, previousRootHex, now))
  {
  }

  /** A checkpoint was saved last, under the next id, and was issued in the whole second of the clock;
      the saved row has the same instant. */
  ghost predicate IssuedNow(t: Tables, u: Tables, c: Checkpoint, id: int, now: int) {
    && |u.checkpoints| == |t.checkpoints| + 1 && id == |u.checkpoints|
    && c.issuedAt % 1_000_000_000 == 0 && c.issuedAt <= now < c.issuedAt + 1_000_000_000
    && u.checkpoints[id - 1] == c.(rekorLogIndex := 0 - 1)
  }

  lemma BuildIsIssuedNow(env: Env, limit: int, now: int, t: Tables)
    requires FetchedBuild(t, limit).ids != []
    ensures var b := FetchedBuild(t, limit);
      var u := CompleteBuild(env, limit, now, t);
      b.Fetched? && IssuedNow(t, u, NewCheckpoint(env, b.ids, b.receipts, PreviousRoot(t), now), |u.checkpoints|, now)
  {
    hide Payload, RootHexOf, NewCheckpoint, UnbatchedFrom, ReceiptsAt, PreviousRoot;
    var b := FetchedBuild(t, limit);
    IssuedAtWholeSecond(env, b.ids, b.receipts, PreviousRoot(t), now);
  }

  class Builder {
    const env: Env
    const store: SQLiteStore
    const maxBatch: int

    constructor (env: Env, store: SQLiteStore, maxBatch: int)
      ensures this.env == env && this.store == store
      ensures this.maxBatch == BatchLimit(maxBatch) == if maxBatch > 0 then maxBatch else 1000
    {
      this.env, this.store := env, store;
      this.maxBatch := if maxBatch <= 0 then 1000 else maxBatch;
    }

    /** The first loop of the build. */
    method LeavesOf(stored: seq<StoredReceipt>, ghost rs: seq<Receipt>) returns (leaves: array<Digest>)
      requires |rs| == |stored| && forall k :: 0 <= k < |rs| ==> stored[k].receipt == rs[k]
      ensures fresh(leaves) && leaves[..] == LeafHashes(env.sha, Entries(env, rs))
    {
      hide CanonicalBytes, HashLeaf;
      leaves := new Digest[|stored|](_ => ZERO_DIGEST);
      ghost var entries := Entries(env, rs);
      for i := 0 to |stored|
        invariant forall k :: 0 <= k < i ==> leaves[k] == HashLeaf(env.sha, entries[k])
      {
        var cb := CanonicalBytes(env.enc, stored[i].receipt);
        leaves[i] := HashLeaf(env.sha, cb);
      }
    }

    /** The second loop. */
    method RowIDsOf(stored: seq<StoredReceipt>, ghost ids: seq<int>) returns (rowIDs: array<int>)
      requires |ids| == |stored| && forall k :: 0 <= k < |ids| ==> stored[k].rowID == ids[k]
      ensures fresh(rowIDs) && rowIDs[..] == ids
    {
      rowIDs := new int[|stored|];
      for i := 0 to |stored|
        invariant forall k :: 0 <= k < i ==> rowIDs[k] == ids[k]
      {
        rowIDs[i] := stored[i].rowID;
      }
    }

    /** The new checkpoint and its id; it was issued in the whole second of the clock, and so was the
        saved row. */
    method BuildAndSign(now: int) returns (built: Option<Checkpoint>, id: int)
      modifies store
      ensures store.View() == CompleteBuild(env, maxBatch, now, old(store.View()))
      ensures var b := FetchedBuild(old(store.View()), maxBatch);
        built == if b.ids == [] then None
                 else Some(NewCheckpoint(env, b.ids, b.receipts, PreviousRoot(old(store.View())), now))
      ensures built.Some? ==> IssuedNow(old(store.View()), store.View(), built.value, id, now)
    {
      hide Payload, BuildRoot, LeafHashes, Hex.Encode, Entries, UnbatchedFrom, ReceiptsAt, NewCheckpoint, Saved, Marked, Truncated, FetchedBuild,
        Unflagged, Flagged, CheckpointAdded, IssuedNow;
      var stored := store.FetchUnbatched(maxBatch);
      ghost var t := store.View();
      ghost var b := FetchedBuild(t, maxBatch);
      FetchedElements(t, maxBatch);
      if stored == [] {
        return None, 0;
      }
      var leaves := LeavesOf(stored, b.receipts);
      var root := BuildRoot(env.sha, leaves[..]);
      var rootHex := Hex.Encode(root);
      var rowIDs := RowIDsOf(stored, b.ids);
      assert rowIDs[0] == rowIDs[..][0] && rowIDs[rowIDs.Length - 1] == rowIDs[..][rowIDs.Length - 1];
      var batchStart, batchEnd := rowIDs[0], rowIDs[rowIDs.Length - 1];

      var previousRootHex := "";
      var prev := store.LatestCheckpoint();
      if prev.Some? {
        previousRootHex := prev.value.rootHex;
      }

      var c := Checkpoint(batchStart, batchEnd, leaves.Length, rootHex, previousRootHex, Truncated(now), "", 0);
      assert c == UnsignedCheckpoint(env, b.ids, b.receipts, previousRootHex, now);
      NewCheckpointSigns(env, b.ids, b.receipts, previousRootHex, now);
      var sig := env.ed.sign(env.key, Payload(env, c));
      c := c.(operatorSigHex := Hex.Encode(sig));
      BuildIsIssuedNow(env, maxBatch, now, t);
      id := store.SaveCheckpoint(c);
      store.MarkBatched(rowIDs[..]);
      built := Some(c);
    }
  }

  lemma FetchedElements(t: Tables, limit: int)
    ensures var ids, b := UnbatchedFrom(t, 1, limit), FetchedBuild(t, limit);
      && b.Fetched? && b.ids == ids && |b.receipts| == |ids|
      && forall k :: 0 <= k < |ids| ==> 1 <= ids[k] <= |t.receipts| && b.receipts[k] == t.receipts[ids[k] - 1]
  {
    var ids := UnbatchedFrom(t, 1, limit);
    UnbatchedInRange(t, 1, limit);
    forall k | 0 <= k < |ids| ensures 1 <= ids[k] <= |t.receipts| { assert ids[k] in ids; }
    ReceiptsAtElements(t, ids);
  }

  lemma {:induction false} ReceiptsAtElements(t: Tables, ids: seq<int>)
    requires forall k :: 0 <= k < |ids| ==> 1 <= ids[k] <= |t.receipts|
    ensures |ReceiptsAt(t, ids)| == |ids|
    ensures forall k :: 0 <= k < |ids| ==> ReceiptsAt(t, ids)[k] == t.receipts[ids[k] - 1]
    decreases |ids|
  {
    if ids != [] {
      ReceiptsAtElements(t, ids[..|ids| - 1]);
    }
  }

  // ---- serial histories ----

  datatype Operation = Ingest(receipts: seq<Receipt>) | Build(now: int)

  function Perform(env: Env, limit: int, t: Tables, op: Operation): Tables {
    match op
    case Ingest(rs) => Inserted(t, rs)
    case Build(now) => CompleteBuild(env, limit, now, t)
  }

  function History(env: Env, limit: int, ops: seq<Operation>): Tables
    decreases |ops|
  {
    if ops == [] then EMPTY_TABLES else Perform(env, limit, History(env, limit, ops[..|ops| - 1]), ops[|ops| - 1])
  }

  function SumOfTreeSizes(cs: seq<Checkpoint>): int {
    if cs == [] then 0 else SumOfTreeSizes(cs[..|cs| - 1]) + cs[|cs| - 1].treeSize
  }

  /** The ranges partition the batched prefix in order, each checkpoint names its predecessor's
      root, and the tree sizes add up to the batched rows. */
  ghost predicate Chained(t: Tables, b: nat) {
    var cs := t.checkpoints;
    && BatchedUpTo(t, b)
    && (cs == [] ==> b == 0)
    && (cs != [] ==> cs[0].batchStart == 1 && cs[0].previousRootHex == "" && cs[|cs| - 1].batchEnd == b)
    && (forall i :: 0 <= i < |cs| ==> cs[i].batchStart <= cs[i].batchEnd)
    && (forall i :: 0 < i < |cs| ==> cs[i].batchStart == cs[i - 1].batchEnd + 1 && ChainOk(cs[i - 1], cs[i]))
    && SumOfTreeSizes(cs) == b
  }

  /** The number of rows one build takes. */
  function Taken(t: Tables, b: nat, limit: int): nat
    requires limit > 0
  {
    if |t.receipts| <= b then 0 else if |t.receipts| - b <= limit then |t.receipts| - b else limit
  }

  lemma FetchTakes(t: Tables, b: nat, limit: int)
    requires BatchedUpTo(t, b) && limit > 0
    ensures var f := FetchedBuild(t, limit);
      && |f.ids| == |f.receipts| == Taken(t, b, limit)
      && (f.ids != [] ==> f.ids[0] == b + 1 && f.ids[|f.ids| - 1] == b + |f.ids|)
      && forall k :: 0 <= k < |f.ids| ==> f.ids[k] == b + 1 + k
  {
    UnbatchedIsConsecutive(t, b, 1, limit);
    FetchedElements(t, limit);
  }

  lemma LatestLinks(t: Tables, c: Checkpoint)
    requires c.previousRootHex == PreviousRoot(t)
    ensures t.checkpoints != [] ==> ChainOk(t.checkpoints[|t.checkpoints| - 1], c)
    ensures t.checkpoints == [] ==> c.previousRootHex == ""
  {
  }

  /** A checkpoint over the rows right after the batched ones extends the chain. */
  lemma ChainGrows(t: Tables, u: Tables, b: nat, n: nat, c: Checkpoint)
    requires Chained(t, b) && n > 0 && b + n <= |t.receipts|
    requires u.receipts == t.receipts && u.checkpoints == t.checkpoints + [c]
    requires forall id :: id in u.batched <==> 1 <= id <= b + n
    requires c.batchStart == b + 1 && c.batchEnd == b + n && c.treeSize == n && c.previousRootHex == PreviousRoot(t)
    ensures Chained(u, b + n)
  {
    hide ChainOk;
    var k := |t.checkpoints|;
    assert u.checkpoints[..k] == t.checkpoints && u.checkpoints[k] == c;
    assert SumOfTreeSizes(u.checkpoints) == SumOfTreeSizes(t.checkpoints) + n;
    LatestLinks(t, c);
  }

  lemma MarkedUpTo(t: Tables, u: Tables, b: nat, ids: seq<int>)
    requires BatchedUpTo(t, b) && b + |ids| <= |t.receipts| && u.receipts == t.receipts && u.batched == t.batched
    requires forall k :: 0 <= k < |ids| ==> ids[k] == b + 1 + k
    ensures forall id :: id in Marked(u, ids).batched <==> 1 <= id <= b + |ids|
  {
    forall id ensures id in Marked(u, ids).batched <==> 1 <= id <= b + |ids| {
      if b < id <= b + |ids| {
        assert ids[id - b - 1] == id;
      }
    }
  }

  /** One build moves the batched prefix on by what it takes and keeps the chain. */
  lemma BuildKeepsChain(env: Env, limit: int, now: int, t: Tables, b: nat)
    requires Chained(t, b) && limit > 0
    ensures Chained(CompleteBuild(env, limit, now, t), b + Taken(t, b, limit))
    ensures b + Taken(t, b, limit) <= |t.receipts|
  {
    hide NewCheckpoint, UnbatchedFrom, ReceiptsAt, SumOfTreeSizes;
    FetchTakes(t, b, limit);
    var f := FetchedBuild(t, limit);
    if f.ids != [] {
      var c := NewCheckpoint(env, f.ids, f.receipts, PreviousRoot(t), now);
      NewCheckpointFields(env, f.ids, f.receipts, PreviousRoot(t), now);
      MarkedUpTo(t, Saved(t, c), b, f.ids);
      ChainGrows(t, CompleteBuild(env, limit, now, t), b, |f.ids|, AsStored(c));
    }
  }

  lemma NewCheckpointFields(env: Env, ids: seq<int>, rs: seq<Receipt>, previousRootHex: string, now: int)
    requires ids != []
    ensures var c := AsStored(NewCheckpoint(env, ids, rs, previousRootHex, now));
      && c.batchStart == ids[0] && c.batchEnd == ids[|ids| - 1] && c.treeSize == |rs|
      && c.previousRootHex == previousRootHex
  {
  }

  /** Builds that do not overlap leave an unbroken chain that accounts for every batched row. */
  lemma {:induction false} SerialHistoryIsChained(env: Env, limit: int, ops: seq<Operation>) returns (b: nat)
    requires limit > 0
    ensures Chained(History(env, limit, ops), b)
    decreases |ops|
  {
    hide CompleteBuild, Chained, Taken;
    if ops == [] {
      b := 0;
      EmptyIsChained();
    } else {
      var t := History(env, limit, ops[..|ops| - 1]);
      b := SerialHistoryIsChained(env, limit, ops[..|ops| - 1]);
      match ops[|ops| - 1]
      case Ingest(rs) => IngestKeepsChain(t, rs, b);
      case Build(now) =>
        BuildKeepsChain(env, limit, now, t, b);
        b := b + Taken(t, b, limit);
    }
  }

  lemma EmptyIsChained()
    ensures Chained(EMPTY_TABLES, 0)
  {
  }

  lemma IngestKeepsChain(t: Tables, rs: seq<Receipt>, b: nat)
    requires Chained(t, b)
    ensures Chained(Inserted(t, rs), b)
  {
  }

  lemma {:induction false} PendingIsRest(t: Tables, b: nat, id: nat)
    requires BatchedUpTo(t, b) && 1 <= id <= |t.receipts| + 1
    ensures PendingFrom(t, id) == |t.receipts| - if id <= b then b else id - 1
    decreases |t.receipts| + 1 - id
  {
    if id <= |t.receipts| {
      PendingIsRest(t, b, id + 1);
    }
  }

  /** The statistics of a serial history add up: every receipt is in exactly one tree or pending. */
  lemma SerialConservation(env: Env, limit: int, ops: seq<Operation>)
    requires limit > 0
    ensures var t := History(env, limit, ops);
      |t.receipts| == SumOfTreeSizes(t.checkpoints) + PendingFrom(t, 1)
  {
    var b := SerialHistoryIsChained(env, limit, ops);
    PendingIsRest(History(env, limit, ops), b, 1);
  }

  /** The tables after one build for each of some times. */
  function AfterBuilds(env: Env, limit: int, times: seq<int>, t: Tables): Tables
    decreases |times|
  {
    if times == [] then t else AfterBuilds(env, limit, times[1..], CompleteBuild(env, limit, times[0], t))
  }

  /** After n builds all but n times the limit of the pending rows are batched. So P pending rows
      drain in exactly ceil(P / limit) builds: then nothing is pending, before that something is, and
      each of these builds saves a checkpoint. */
  lemma {:induction false} DrainsInCeiling(env: Env, limit: int, times: seq<int>, t: Tables, b: nat)
    requires Chained(t, b) && limit > 0
    ensures var p, n, u := PendingFrom(t, 1), |times|, AfterBuilds(env, limit, times, t);
      && PendingFrom(u, 1) == (if p <= n * limit then 0 else p - n * limit)
      && ((n - 1) * limit < p ==> |u.checkpoints| == |t.checkpoints| + n)
    decreases |times|
  {
    hide CompleteBuild, Chained, PendingFrom;
    if times != [] {
      var u, b' := CompleteBuild(env, limit, times[0], t), b + Taken(t, b, limit);
      BuildKeepsChain(env, limit, times[0], t, b);
      DrainsInCeiling(env, limit, times[1..], u, b');
      OneBuildDrains(env, limit, times[0], t, b);
      OneBuildLess(limit, |times|);
      if |times| >= 2 {
        OneBuildLess(limit, |times| - 1);
      }
    }
  }

  lemma OneBuildLess(limit: int, n: nat)
    requires n > 0 && limit > 0
    ensures n * limit == (n - 1) * limit + limit && (n - 1) * limit >= 0
  {
  }

  lemma OneBuildDrains(env: Env, limit: int, now: int, t: Tables, b: nat)
    requires Chained(t, b) && limit > 0
    ensures var p, u := PendingFrom(t, 1), CompleteBuild(env, limit, now, t);
      && PendingFrom(u, 1) == (if p <= limit then 0 else p - limit)
      && |u.checkpoints| == |t.checkpoints| + if p == 0 then 0 else 1
  {
    hide NewCheckpoint, AsStored, FetchedBuild;
    FetchTakes(t, b, limit);
    BuildKeepsChain(env, limit, now, t, b);
    var u := CompleteBuild(env, limit, now, t);
    PendingIsRest(t, b, 1);
    PendingIsRest(u, b + Taken(t, b, limit), 1);
  }

  // ---- serial histories among the interleavings ----

  /** A serial history is the run in which the calls of each build follow each other. */
  lemma {:induction false} SerialHistoryIsRun(env: Env, limit: int, ops: seq<Operation>) returns (events: seq<Event>)
    requires limit > 0
    ensures Run(env, INITIAL, events) == State(History(env, limit, ops), map[])
    decreases |ops|
  {
    hide Run, Next, CompleteBuild;
    if ops == [] {
      events := [];
      RunNothing(env, INITIAL);
    } else {
      var before := SerialHistoryIsRun(env, limit, ops[..|ops| - 1]);
      match ops[|ops| - 1]
      case Ingest(rs) =>
        events := before + [Append(rs)];
        RunSnoc(env, INITIAL, before, Append(rs));
        AppendIsInsert(env, State(History(env, limit, ops[..|ops| - 1]), map[]), rs);
      case Build(now) =>
        var calls := [Fetch(0, limit)] + [ReadLatest(0)] + [Save(0, now)] + [Mark(0)];
        events := before + calls;
        RunAppend(env, INITIAL, before, calls);
        CompleteBuildIsRun(env, limit, now, State(History(env, limit, ops[..|ops| - 1]), map[]), 0);
    }
  }

  lemma AppendIsInsert(env: Env, st: State, rs: seq<Receipt>)
    ensures Next(env, st, Append(rs)) == st.(tables := Inserted(st.tables, rs))
  {
  }

  /** So its checkpoints have valid signatures and the roots of exactly their rows. */
  lemma SerialCheckpointsSpeak(env: Env, limit: int, ops: seq<Operation>)
    requires Correct(env.ed) && limit > 0
    ensures var t := History(env, limit, ops);
      forall i :: 0 <= i < |t.checkpoints| ==> SpeaksForRows(env, t, t.checkpoints[i])
  {
    hide Run, SpeaksForRows, History;
    var events := SerialHistoryIsRun(env, limit, ops);
    var b := EveryInterleavingKeeps(env, events);
  }
}
