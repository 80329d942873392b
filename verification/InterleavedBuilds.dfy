/** Any number of `BuildAndSign` runs, each of them four separate store calls
    (internal/checkpoint/builder.go), interleaved with each other and with appends. The ticker and
    the HTTP handler start runs without a lock, and a run may stop between two calls. */
module InterleavedBuilds {
  import opened ByteStrings
  import opened Receipts
  import opened Signing
  import opened Ledger

  /** Where a run is, with what it holds. */
  datatype Build =
    | Fetched(ids: seq<int>, receipts: seq<Receipt>)
    | Linked(ids: seq<int>, receipts: seq<Receipt>, previousRootHex: string)
    | Written(ids: seq<int>)

  datatype State = State(tables: Tables, builds: map<nat, Build>)

  const INITIAL := State(EMPTY_TABLES, map[])

  datatype Event =
    | Append(receipts: seq<Receipt>)
    | Fetch(run: nat, maxBatch: int)
    | ReadLatest(run: nat)
    | Save(run: nat, now: int)
    | Mark(run: nat)
    | Stop(run: nat)
    | Anchor(id: int, logIndex: int)
    | AddWitnessSig(id: int, witnessID: string, sigHex: string)
    | StoreCosignature(rootHex: string, noteText: bytes)

  /** `NewBuilder` replaces a batch size that is not positive. */
  function BatchLimit(maxBatch: int): (n: int)
    ensures n > 0
  {
    if maxBatch <= 0 then 1000 else maxBatch
  }

  function ReceiptsAt(t: Tables, ids: seq<int>): seq<Receipt>
    requires forall k :: 0 <= k < |ids| ==> 1 <= ids[k] <= |t.receipts|
  {
    if ids == [] then [] else ReceiptsAt(t, ids[..|ids| - 1]) + [t.receipts[ids[|ids| - 1] - 1]]
  }

  lemma {:induction false} UnbatchedInRange(t: Tables, id: nat, limit: int)
    requires id >= 1
    ensures forall i :: i in UnbatchedFrom(t, id, limit) ==> id <= i <= |t.receipts| && i !in t.batched
    decreases |t.receipts| + 1 - id
  {
    if id <= |t.receipts| && limit != 0 {
      UnbatchedInRange(t, id + 1, if id in t.batched then limit else limit - 1);
    }
  }

  /** The fetched ids and their receipts. */
  function FetchedBuild(t: Tables, limit: int): Build {
    var ids := UnbatchedFrom(t, 1, limit);
    UnbatchedInRange(t, 1, limit);
    assert forall k :: 0 <= k < |ids| ==> ids[k] in ids;
    Fetched(ids, ReceiptsAt(t, ids))
  }

  function PreviousRoot(t: Tables): string {
    if Latest(t).Some? then Latest(t).value.rootHex else ""
  }

  /** An event that a run is not ready for changes nothing. */
  function Next(env: Env, st: State, e: Event): State {
    var t := st.tables;
    match e
    case Append(rs) => st.(tables := Inserted(t, rs))
    case Fetch(run, maxBatch) =>
      var b := FetchedBuild(t, BatchLimit(maxBatch));
      if run in st.builds || b.ids == [] then st else st.(builds := st.builds[run := b])
    case ReadLatest(run) =>
      if run in st.builds && st.builds[run].Fetched? then
        var b := st.builds[run];
        st.(builds := st.builds[run := Linked(b.ids, b.receipts, PreviousRoot(t))])
      else st
    case Save(run, now) =>
      if run in st.builds && st.builds[run].Linked? && st.builds[run].ids != [] then
        var b := st.builds[run];
        State(Saved(t, NewCheckpoint(env, b.ids, b.receipts, b.previousRootHex, now)), st.builds[run := Written(b.ids)])
      else st
    case Mark(run) =>
      if run in st.builds && st.builds[run].Written? then
        State(Marked(t, st.builds[run].ids), st.builds - {run})
      else st
    case Stop(run) => st.(builds := st.builds - {run})
    case Anchor(id, logIndex) => st.(tables := Anchored(t, id, logIndex))
    case AddWitnessSig(id, witnessID, sigHex) => st.(tables := WithWitnessSig(t, id, witnessID, sigHex))
    case StoreCosignature(rootHex, noteText) => st.(tables := WithCosignature(t, rootHex, noteText))
  }

  function Run(env: Env, st: State, events: seq<Event>): State
    decreases |events|
  {
    if events == [] then st else Next(env, Run(env, st, events[..|events| - 1]), events[|events| - 1])
  }

  // ---- what every interleaving keeps ----

  /** The batched rows are the first b. */
  ghost predicate BatchedUpTo(t: Tables, b: nat) {
    b <= |t.receipts| && forall id :: id in t.batched <==> 1 <= id <= b
  }

  ghost predicate CoveredBy(c: Checkpoint, lo: int, hi: int) {
    c.batchStart <= lo && hi <= c.batchEnd
  }

  ghost predicate Covered(t: Tables, lo: int, hi: int) {
    exists i :: 0 <= i < |t.checkpoints| && CoveredBy(t.checkpoints[i], lo, hi)
  }

  /** A run holds consecutive rows that start inside or right after the batched ones. */
  ghost predicate HoldsRows(t: Tables, b: nat, build: Build) {
    && build.ids != []
    && (forall k :: 0 <= k < |build.ids| ==> build.ids[k] == build.ids[0] + k)
    && 1 <= build.ids[0] <= b + 1
    && build.ids[0] + |build.ids| - 1 <= |t.receipts|
    && (build.Written? ==> Covered(t, build.ids[0], build.ids[|build.ids| - 1]))
    && (!build.Written? ==> build.receipts == t.receipts[build.ids[0] - 1..build.ids[|build.ids| - 1]])
  }

  ghost predicate TablesKept(env: Env, t: Tables, b: nat) {
    && BatchedUpTo(t, b)
    && (forall i :: 0 <= i < |t.checkpoints| ==> SpeaksForRows(env, t, t.checkpoints[i]))
    && (forall id :: 1 <= id <= b ==> Covered(t, id, id))
  }

  ghost predicate Kept(env: Env, st: State, b: nat) {
    && TablesKept(env, st.tables, b)
    && forall run :: run in st.builds ==> HoldsRows(st.tables, b, st.builds[run])
  }

  /** Rows are only added, and a saved checkpoint keeps everything but its Rekor index. */
  ghost predicate Extends(t: Tables, u: Tables) {
    && t.receipts <= u.receipts
    && |t.checkpoints| <= |u.checkpoints|
    && forall i :: 0 <= i < |t.checkpoints| ==> SameButAnchor(t.checkpoints[i], u.checkpoints[i])
  }

  ghost predicate SameButAnchor(c: Checkpoint, d: Checkpoint) {
    c == d.(rekorLogIndex := c.rekorLogIndex)
  }

  lemma CoveredStays(t: Tables, u: Tables, lo: int, hi: int)
    requires Covered(t, lo, hi) && Extends(t, u)
    ensures Covered(u, lo, hi)
  {
    var i :| 0 <= i < |t.checkpoints| && CoveredBy(t.checkpoints[i], lo, hi);
    assert SameButAnchor(t.checkpoints[i], u.checkpoints[i]);
    assert CoveredBy(u.checkpoints[i], lo, hi);
  }

  lemma SpeaksStays(env: Env, t: Tables, u: Tables, c: Checkpoint, d: Checkpoint)
    requires SpeaksForRows(env, t, c) && t.receipts <= u.receipts && SameButAnchor(c, d)
    ensures SpeaksForRows(env, u, d)
  {
    hide Payload, RootHexOf;
    assert u.receipts[d.batchStart - 1..d.batchEnd] == t.receipts[c.batchStart - 1..c.batchEnd];
    SameContentSamePayload(env, d, c);
  }

  lemma BuildStays(t: Tables, u: Tables, b: nat, b': nat, build: Build)
    requires HoldsRows(t, b, build) && Extends(t, u) && b <= b'
    ensures HoldsRows(u, b', build)
  {
    var lo, hi := build.ids[0], build.ids[|build.ids| - 1];
    if build.Written? {
      CoveredStays(t, u, lo, hi);
    } else {
      assert u.receipts[lo - 1..hi] == t.receipts[lo - 1..hi];
    }
  }

  /** Steps that neither add a checkpoint nor mark a row. */
  lemma TablesStay(env: Env, st: State, u: Tables, b: nat)
    requires Kept(env, st, b) && Extends(st.tables, u)
    requires u.batched == st.tables.batched && |u.checkpoints| == |st.tables.checkpoints|
    ensures Kept(env, st.(tables := u), b)
  {
    var t := st.tables;
    forall i | 0 <= i < |u.checkpoints| ensures SpeaksForRows(env, u, u.checkpoints[i]) {
      SpeaksStays(env, t, u, t.checkpoints[i], u.checkpoints[i]);
    }
    forall id | 1 <= id <= b ensures Covered(u, id, id) {
      CoveredStays(t, u, id, id);
    }
    forall run | run in st.builds ensures HoldsRows(u, b, st.builds[run]) {
      BuildStays(t, u, b, b, st.builds[run]);
    }
  }

  // ---- the steps ----

  /** With the batched rows a prefix, what is fetched follows it without gaps. */
  lemma {:induction false} UnbatchedIsConsecutive(t: Tables, b: nat, id: nat, limit: int)
    requires BatchedUpTo(t, b) && id >= 1
    ensures var ids, first := UnbatchedFrom(t, id, limit), if id <= b then b + 1 else id;
      && (forall k :: 0 <= k < |ids| ==> ids[k] == first + k)
      && (ids != [] ==> first + |ids| - 1 <= |t.receipts|)
      && (limit > 0 ==> |ids| == if first > |t.receipts| then 0 else if |t.receipts| + 1 - first <= limit then |t.receipts| + 1 - first else limit)
    decreases |t.receipts| + 1 - id
  {
    if id <= |t.receipts| && limit != 0 {
      UnbatchedIsConsecutive(t, b, id + 1, if id in t.batched then limit else limit - 1);
    }
  }

  lemma {:induction false} ReceiptsAtConsecutive(t: Tables, ids: seq<int>)
    requires forall k :: 0 <= k < |ids| ==> 1 <= ids[k] <= |t.receipts|
    requires ids != [] && forall k :: 0 <= k < |ids| ==> ids[k] == ids[0] + k
    ensures ReceiptsAt(t, ids) == t.receipts[ids[0] - 1..ids[|ids| - 1]]
    decreases |ids|
  {
    var n := |ids|;
    if n > 1 {
      ReceiptsAtConsecutive(t, ids[..n - 1]);
      SliceSnoc(t.receipts, ids[0] - 1, ids[n - 1] - 1);
    } else {
      assert ids[..0] == [];
    }
  }

  lemma FetchHolds(t: Tables, b: nat, limit: int)
    requires BatchedUpTo(t, b) && limit > 0 && FetchedBuild(t, limit).ids != []
    ensures HoldsRows(t, b, FetchedBuild(t, limit))
  {
    hide UnbatchedFrom, ReceiptsAt, BatchedUpTo;
    var ids := UnbatchedFrom(t, 1, limit);
    UnbatchedInRange(t, 1, limit);
    UnbatchedIsConsecutive(t, b, 1, limit);
    forall k | 0 <= k < |ids| ensures 1 <= ids[k] <= |t.receipts| && ids[k] == ids[0] + k {
      assert ids[k] in ids;
    }
    ReceiptsAtConsecutive(t, ids);
  }

  lemma NewCheckpointCovers(env: Env, ids: seq<int>, rs: seq<Receipt>, previousRootHex: string, now: int)
    requires ids != []
    ensures CoveredBy(AsStored(NewCheckpoint(env, ids, rs, previousRootHex, now)), ids[0], ids[|ids| - 1])
  {
    hide Payload, RootHexOf;
  }

  lemma SavedTablesKept(env: Env, t: Tables, b: nat, build: Build, now: int)
    requires Correct(env.ed) && TablesKept(env, t, b) && build.Linked? && HoldsRows(t, b, build)
    ensures var u := Saved(t, NewCheckpoint(env, build.ids, build.receipts, build.previousRootHex, now));
      TablesKept(env, u, b) && Extends(t, u) && Covered(u, build.ids[0], build.ids[|build.ids| - 1])
  {
    hide OperatorVerdict, RootHexOf, NewCheckpoint, AsStored, Payload;
    var c := NewCheckpoint(env, build.ids, build.receipts, build.previousRootHex, now);
    var u := Saved(t, c);
    SavedCheckpointSpeaks(env, t, build.ids, build.receipts, build.previousRootHex, now);
    forall i | 0 <= i < |u.checkpoints| ensures SpeaksForRows(env, u, u.checkpoints[i]) {
      if i < |t.checkpoints| {
        SpeaksStays(env, t, u, t.checkpoints[i], u.checkpoints[i]);
      } else {
        SpeaksStays(env, t, u, AsStored(c), u.checkpoints[i]);
      }
    }
    assert Extends(t, u);
    forall id | 1 <= id <= b ensures Covered(u, id, id) {
      CoveredStays(t, u, id, id);
    }
    NewCheckpointCovers(env, build.ids, build.receipts, build.previousRootHex, now);
    assert u.checkpoints[|t.checkpoints|] == AsStored(c);
  }

  lemma SaveKeeps(env: Env, st: State, run: nat, now: int, b: nat)
    requires Correct(env.ed) && Kept(env, st, b)
    requires run in st.builds && st.builds[run].Linked?
    ensures Kept(env, Next(env, st, Save(run, now)), b)
  {
    hide OperatorVerdict, RootHexOf, NewCheckpoint, AsStored;
    SavedTablesKept(env, st.tables, b, st.builds[run], now);
    var next := Next(env, st, Save(run, now));
    forall other | other in next.builds ensures HoldsRows(next.tables, b, next.builds[other]) {
      if other != run {
        BuildStays(st.tables, next.tables, b, b, st.builds[other]);
      }
    }
  }

  lemma MarkedTablesKept(env: Env, t: Tables, b: nat, build: Build) returns (b': nat)
    requires TablesKept(env, t, b) && build.Written? && HoldsRows(t, b, build)
    ensures b' >= b && TablesKept(env, Marked(t, build.ids), b') && Extends(t, Marked(t, build.ids))
  {
    hide OperatorVerdict, RootHexOf;
    var lo, hi, u := build.ids[0], build.ids[|build.ids| - 1], Marked(t, build.ids);
    b' := if hi > b then hi else b;
    forall id ensures id in u.batched <==> 1 <= id <= b' {
      if lo <= id <= hi {
        assert build.ids[id - lo] == id;
      }
    }
    forall id | 1 <= id <= b' ensures Covered(u, id, id) {
      if id <= b {
        CoveredStays(t, u, id, id);
      } else {
        var i :| 0 <= i < |t.checkpoints| && CoveredBy(t.checkpoints[i], lo, hi);
        assert CoveredBy(u.checkpoints[i], id, id);
      }
    }
    forall i | 0 <= i < |u.checkpoints| ensures SpeaksForRows(env, u, u.checkpoints[i]) {
      SpeaksStays(env, t, u, t.checkpoints[i], u.checkpoints[i]);
    }
  }

  lemma MarkKeeps(env: Env, st: State, run: nat, b: nat) returns (b': nat)
    requires Kept(env, st, b)
    requires run in st.builds && st.builds[run].Written?
    ensures b' >= b && Kept(env, Next(env, st, Mark(run)), b')
  {
    hide OperatorVerdict, RootHexOf;
    b' := MarkedTablesKept(env, st.tables, b, st.builds[run]);
    var u := Marked(st.tables, st.builds[run].ids);
    forall other | other in st.builds && other != run ensures HoldsRows(u, b', st.builds[other]) {
      BuildStays(st.tables, u, b, b', st.builds[other]);
    }
  }

  lemma FetchKeeps(env: Env, st: State, run: nat, maxBatch: int, b: nat)
    requires Kept(env, st, b)
    ensures Kept(env, Next(env, st, Fetch(run, maxBatch)), b)
  {
    if FetchedBuild(st.tables, BatchLimit(maxBatch)).ids != [] {
      FetchHolds(st.tables, b, BatchLimit(maxBatch));
    }
  }

  lemma ReadLatestKeeps(env: Env, st: State, run: nat, b: nat)
    requires Kept(env, st, b)
    ensures Kept(env, Next(env, st, ReadLatest(run)), b)
  {
    hide OperatorVerdict, RootHexOf;
  }

  /** Every event keeps the invariant, with the batched prefix at least as long. */
  lemma StepKeeps(env: Env, st: State, e: Event, b: nat) returns (b': nat)
    requires Correct(env.ed) && Kept(env, st, b)
    ensures b' >= b && Kept(env, Next(env, st, e), b')
  {
    hide OperatorVerdict, RootHexOf;
    b' := b;
    match e
    case Append(rs) => TablesStay(env, st, Inserted(st.tables, rs), b);
    case Fetch(run, maxBatch) => FetchKeeps(env, st, run, maxBatch, b);
    case ReadLatest(run) => ReadLatestKeeps(env, st, run, b);
    case Save(run, now) =>
      if run in st.builds && st.builds[run].Linked? {
        SaveKeeps(env, st, run, now, b);
      }
    case Mark(run) =>
      if run in st.builds && st.builds[run].Written? {
        b' := MarkKeeps(env, st, run, b);
      }
    case Stop(run) =>
    case Anchor(id, logIndex) => TablesStay(env, st, Anchored(st.tables, id, logIndex), b);
    case AddWitnessSig(id, witnessID, sigHex) => TablesStay(env, st, WithWitnessSig(st.tables, id, witnessID, sigHex), b);
    case StoreCosignature(rootHex, noteText) => TablesStay(env, st, WithCosignature(st.tables, rootHex, noteText), b);
  }

  /** Over every run of every interleaving: the batched rows are a prefix of the ids, every saved
      checkpoint speaks for exactly its rows, every batched row is covered. */
  lemma {:induction false} EveryInterleavingKeeps(env: Env, events: seq<Event>) returns (b: nat)
    requires Correct(env.ed)
    ensures Kept(env, Run(env, INITIAL, events), b)
    decreases |events|
  {
    if events == [] {
      b := 0;
    } else {
      var before := EveryInterleavingKeeps(env, events[..|events| - 1]);
      b := StepKeeps(env, Run(env, INITIAL, events[..|events| - 1]), events[|events| - 1], before);
    }
  }

  // ---- the log only grows ----

  lemma {:induction false} RunExtends(env: Env, st: State, events: seq<Event>)
    ensures Extends(st.tables, Run(env, st, events).tables)
    decreases |events|
  {
    if events != [] {
      RunExtends(env, st, events[..|events| - 1]);
      NextExtends(env, Run(env, st, events[..|events| - 1]), events[|events| - 1]);
    }
  }

  lemma NextExtends(env: Env, st: State, e: Event)
    ensures Extends(st.tables, Next(env, st, e).tables)
  {
    hide NewCheckpoint, AsStored;
  }

  // ---- what they do not keep ----

  function OneRow(r: Receipt): Tables {
    Inserted(EMPTY_TABLES, [r])
  }

  lemma FetchOneRow(r: Receipt)
    ensures FetchedBuild(OneRow(r), 1) == Fetched([1], [r])
  {
    var t := OneRow(r);
    assert UnbatchedFrom(t, 2, 0) == [] && UnbatchedFrom(t, 1, 1) == [1];
    assert [1][..0] == [] && ReceiptsAt(t, [1]) == [r];
  }

  lemma BothFetch(env: Env, r: Receipt) returns (events: seq<Event>)
    ensures events == [Append([r])] + [Fetch(0, 1)] + [Fetch(1, 1)]
    ensures Run(env, INITIAL, events) == State(OneRow(r), map[0 := Fetched([1], [r]), 1 := Fetched([1], [r])])
  {
    hide FetchedBuild, Run, NewCheckpoint;
    FetchOneRow(r);
    RunNothing(env, INITIAL);
    var first: seq<Event> := [Append([r])];
    RunSnoc(env, INITIAL, [], Append([r]));
    assert [] + first == first && Run(env, INITIAL, first) == State(OneRow(r), map[]);
    RunSnoc(env, INITIAL, first, Fetch(0, 1));
    RunSnoc(env, INITIAL, first + [Fetch(0, 1)], Fetch(1, 1));
    events := first + [Fetch(0, 1)] + [Fetch(1, 1)];
  }

  lemma RunNothing(env: Env, st: State)
    ensures Run(env, st, []) == st
  {
  }

  lemma BothSave(env: Env, r: Receipt, now: int, before: seq<Event>)
    requires Run(env, INITIAL, before) == State(OneRow(r), map[0 := Fetched([1], [r]), 1 := Fetched([1], [r])])
    ensures var c := AsStored(NewCheckpoint(env, [1], [r], "", now));
      Run(env, INITIAL, before + [ReadLatest(0)] + [ReadLatest(1)] + [Save(0, now)] + [Save(1, now)]).tables.checkpoints == [c, c]
  {
    hide NewCheckpoint;
    var linked := Linked([1], [r], "");
    RunSnoc(env, INITIAL, before, ReadLatest(0));
    RunSnoc(env, INITIAL, before + [ReadLatest(0)], ReadLatest(1));
    var read := before + [ReadLatest(0)] + [ReadLatest(1)];
    assert Run(env, INITIAL, read) == State(OneRow(r), map[0 := linked, 1 := linked]);
    RunSnoc(env, INITIAL, read, Save(0, now));
    RunSnoc(env, INITIAL, read + [Save(0, now)], Save(1, now));
  }

  /** Without a lock the chain of previous roots can break: two runs that both read the latest
      checkpoint before either saves. */
  lemma ChainBreaks(env: Env, r: Receipt, now: int) returns (events: seq<Event>)
    ensures var cs := Run(env, INITIAL, events).tables.checkpoints; |cs| == 2 && !ChainOk(cs[0], cs[1])
  {
    hide SignedCheckpoint;
    var fetched := BothFetch(env, r);
    BothSave(env, r, now, fetched);
    events := fetched + [ReadLatest(0)] + [ReadLatest(1)] + [Save(0, now)] + [Save(1, now)];
    RootsNotEmpty(env, [1], [r], "", now);
  }

  lemma RootsNotEmpty(env: Env, ids: seq<int>, rs: seq<Receipt>, previousRootHex: string, now: int)
    requires ids != []
    ensures var c := AsStored(NewCheckpoint(env, ids, rs, previousRootHex, now));
      |c.rootHex| == 64 && c.previousRootHex == previousRootHex
  {
  }

  lemma RunSnoc(env: Env, st: State, events: seq<Event>, e: Event)
    ensures Run(env, st, events + [e]) == Next(env, Run(env, st, events), e)
  {
    assert (events + [e])[..|events|] == events;
  }

  lemma {:induction false} RunAppend(env: Env, st: State, events: seq<Event>, more: seq<Event>)
    ensures Run(env, st, events + more) == Run(env, Run(env, st, events), more)
    decreases |more|
  {
    hide Next, Run;
    if more == [] {
      assert events + more == events;
      RunNothing(env, Run(env, st, events));
    } else {
      var init, last := more[..|more| - 1], more[|more| - 1];
      RunAppend(env, st, events, init);
      assert events + more == (events + init) + [last] && more == init + [last];
      RunSnoc(env, st, events + init, last);
      RunSnoc(env, Run(env, st, events), init, last);
    }
  }
}
