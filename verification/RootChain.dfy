/** When the chain of previous roots holds although builds interleave (internal/checkpoint/builder.go,
    internal/checkpoint/verify.go): exactly when every save still finds the root that its run read. */
module RootChain {
  import opened Receipts
  import opened Ledger
  import opened InterleavedBuilds

  /** Consecutive checkpoints pass the chain check. */
  ghost predicate ChainLinked(t: Tables) {
    forall i :: 0 < i < |t.checkpoints| ==> ChainOk(t.checkpoints[i - 1], t.checkpoints[i])
  }

  /** A save that takes effect. */
  predicate Saves(st: State, e: Event) {
    e.Save? && e.run in st.builds && st.builds[e.run].Linked? && st.builds[e.run].ids != []
  }

  /** A read of the latest checkpoint that takes effect for a run. */
  predicate Reads(st: State, e: Event, run: nat) {
    e == ReadLatest(run) && run in st.builds && st.builds[run].Fetched?
  }

  function Before(env: Env, events: seq<Event>, i: nat): State
    requires i <= |events|
  {
    Run(env, INITIAL, events[..i])
  }

  function LatestRoot(env: Env, events: seq<Event>, i: nat): string
    requires i <= |events|
  {
    PreviousRoot(Before(env, events, i).tables)
  }

  /** Where a run last read the latest checkpoint. */
  function ReadPosition(env: Env, events: seq<Event>, run: nat): (j: nat)
    ensures j <= |events|
    decreases |events|
  {
    if events == [] then 0 else
      var init := events[..|events| - 1];
      if Reads(Run(env, INITIAL, init), events[|events| - 1], run) then |events| - 1 else ReadPosition(env, init, run)
  }

  /** If the event at i saves a checkpoint, the latest root is the one that the run read. */
  ghost predicate FindsWhatItRead(env: Env, events: seq<Event>, i: nat)
    requires i < |events|
  {
    Saves(Before(env, events, i), events[i]) ==>
      LatestRoot(env, events, ReadPosition(env, events[..i], events[i].run)) == LatestRoot(env, events, i)
  }

  // ---- what a run holds ----

  lemma BeforeInit(env: Env, events: seq<Event>, i: nat)
    requires events != [] && i < |events|
    ensures Before(env, events, i) == Before(env, events[..|events| - 1], i)
    ensures Run(env, INITIAL, events) == Next(env, Before(env, events, |events| - 1), events[|events| - 1])
  {
    assert events[..|events| - 1][..i] == events[..i];
  }

  /** What an event leaves to a run that is linked after it. */
  lemma LinkedAfter(env: Env, st: State, e: Event, run: nat)
    requires var v := Next(env, st, e); run in v.builds && v.builds[run].Linked?
    ensures var v := Next(env, st, e);
      if Reads(st, e, run) then v.builds[run].previousRootHex == PreviousRoot(st.tables)
      else run in st.builds && st.builds[run] == v.builds[run] && !(Saves(st, e) && e.run == run)
  {
    hide NewCheckpoint, FetchedBuild, PreviousRoot;
    FetchedIsFetched(st.tables, e);
  }

  lemma FetchedIsFetched(t: Tables, e: Event)
    ensures e.Fetch? ==> FetchedBuild(t, BatchLimit(e.maxBatch)).Fetched?
  {
    hide UnbatchedFrom, ReceiptsAt;
  }

  /** A linked run holds the root that was the latest when it read, and has not saved since. */
  lemma {:induction false} HeldRoot(env: Env, events: seq<Event>, run: nat)
    requires var st := Run(env, INITIAL, events); run in st.builds && st.builds[run].Linked?
    ensures var j := ReadPosition(env, events, run);
      && j < |events|
      && Run(env, INITIAL, events).builds[run].previousRootHex == LatestRoot(env, events, j)
      && !Saves(Before(env, events, j), events[j])
      && forall m :: j < m < |events| ==> !(Saves(Before(env, events, m), events[m]) && events[m].run == run)
    decreases |events|
  {
    hide Next, PreviousRoot, Run;
    if events == [] {
      RunNothing(env, INITIAL);
    } else {
      var n := |events| - 1;
      BeforeInit(env, events, n);
      LinkedAfter(env, Before(env, events, n), events[n], run);
      if !Reads(Before(env, events, n), events[n], run) {
        HeldRoot(env, events[..n], run);
        var j := ReadPosition(env, events[..n], run);
        BeforeInit(env, events, j);
        forall m | j < m < |events| ensures !(Saves(Before(env, events, m), events[m]) && events[m].run == run) {
          BeforeInit(env, events, m);
        }
      }
    }
  }

  // ---- the chain, step by step ----

  /** The save is the first one or links to the latest checkpoint. */
  predicate FirstOrLinks(st: State, run: nat)
    requires run in st.builds && st.builds[run].Linked?
  {
    st.tables.checkpoints != [] ==> st.builds[run].previousRootHex == PreviousRoot(st.tables)
  }

  lemma ChainSnoc(t: Tables, u: Tables, c: Checkpoint)
    requires u.checkpoints == t.checkpoints + [c]
    ensures ChainLinked(u) <==> ChainLinked(t) && (t.checkpoints != [] ==> c.previousRootHex == PreviousRoot(t))
  {
    var k := |t.checkpoints|;
    assert forall i :: 0 <= i < k ==> u.checkpoints[i] == t.checkpoints[i];
    if ChainLinked(u) {
      forall i | 0 < i < k ensures ChainOk(t.checkpoints[i - 1], t.checkpoints[i]) {
        assert ChainOk(u.checkpoints[i - 1], u.checkpoints[i]);
      }
      assert k > 0 ==> ChainOk(u.checkpoints[k - 1], u.checkpoints[k]);
    }
  }

  lemma SaveLinks(env: Env, st: State, e: Event)
    requires Saves(st, e)
    ensures ChainLinked(Next(env, st, e).tables) <==> ChainLinked(st.tables) && FirstOrLinks(st, e.run)
  {
    hide NewCheckpoint, AsStored, ChainLinked;
    var b := st.builds[e.run];
    PreviousRootOfNew(env, b.ids, b.receipts, b.previousRootHex, e.now);
    ChainSnoc(st.tables, Next(env, st, e).tables, AsStored(NewCheckpoint(env, b.ids, b.receipts, b.previousRootHex, e.now)));
  }

  lemma PreviousRootOfNew(env: Env, ids: seq<int>, rs: seq<Receipt>, previousRootHex: string, now: int)
    requires ids != []
    ensures AsStored(NewCheckpoint(env, ids, rs, previousRootHex, now)).previousRootHex == previousRootHex
    ensures AsStored(NewCheckpoint(env, ids, rs, previousRootHex, now)).rootHex == RootHexOf(env, rs)
  {
    hide Payload, RootHexOf;
  }

  lemma OthersKeepLinks(env: Env, st: State, e: Event)
    requires !Saves(st, e)
    ensures ChainLinked(Next(env, st, e).tables) <==> ChainLinked(st.tables)
    ensures PreviousRoot(Next(env, st, e).tables) == PreviousRoot(st.tables)
    ensures |Next(env, st, e).tables.checkpoints| == |st.tables.checkpoints|
  {
    hide NewCheckpoint, FetchedBuild;
    var t, u := st.tables, Next(env, st, e).tables;
    NextExtends(env, st, e);
    forall i | 0 <= i < |t.checkpoints|
      ensures u.checkpoints[i].rootHex == t.checkpoints[i].rootHex && u.checkpoints[i].previousRootHex == t.checkpoints[i].previousRootHex
    {
      assert SameButAnchor(t.checkpoints[i], u.checkpoints[i]);
    }
    assert |u.checkpoints| == |t.checkpoints|;
    SameLinks(t, u);
  }

  lemma SameLinks(t: Tables, u: Tables)
    requires |u.checkpoints| == |t.checkpoints|
    requires forall i :: 0 <= i < |t.checkpoints| ==>
      u.checkpoints[i].rootHex == t.checkpoints[i].rootHex && u.checkpoints[i].previousRootHex == t.checkpoints[i].previousRootHex
    ensures ChainLinked(u) <==> ChainLinked(t)
  {
    forall i | 0 < i < |t.checkpoints|
      ensures ChainOk(u.checkpoints[i - 1], u.checkpoints[i]) <==> ChainOk(t.checkpoints[i - 1], t.checkpoints[i])
    {
    }
    if ChainLinked(u) {
      forall i | 0 < i < |t.checkpoints| ensures ChainOk(t.checkpoints[i - 1], t.checkpoints[i]) {
        assert ChainOk(u.checkpoints[i - 1], u.checkpoints[i]);
      }
    }
    if ChainLinked(t) {
      forall i | 0 < i < |u.checkpoints| ensures ChainOk(u.checkpoints[i - 1], u.checkpoints[i]) {
        assert ChainOk(t.checkpoints[i - 1], t.checkpoints[i]);
      }
    }
  }

  /** Without a checkpoint there was none before. */
  lemma {:induction false} NoneBefore(env: Env, events: seq<Event>, j: nat)
    requires j <= |events| && Run(env, INITIAL, events).tables.checkpoints == []
    ensures Before(env, events, j).tables.checkpoints == []
    decreases |events|
  {
    hide Next, Run;
    if j == |events| {
      assert events[..j] == events;
    } else {
      BeforeInit(env, events, j);
      NextExtends(env, Before(env, events, |events| - 1), events[|events| - 1]);
      NoneBefore(env, events[..|events| - 1], j);
    }
  }

  /** The save of a run links exactly when it finds what it read. */
  lemma SaveFinds(env: Env, events: seq<Event>)
    requires events != [] && Saves(Before(env, events, |events| - 1), events[|events| - 1])
    ensures FindsWhatItRead(env, events, |events| - 1)
       <==> FirstOrLinks(Before(env, events, |events| - 1), events[|events| - 1].run)
  {
    hide Run;
    var n := |events| - 1;
    var run := events[n].run;
    var j := ReadPosition(env, events[..n], run);
    HeldRoot(env, events[..n], run);
    BeforeInit(env, events, j);
    if Before(env, events, n).tables.checkpoints == [] {
      NoneBefore(env, events[..n], j);
    }
  }

  /** Over every run of every interleaving the chain of previous roots holds exactly when each save
      finds the latest root as its run read it. */
  lemma {:induction false} ChainHoldsIff(env: Env, events: seq<Event>)
    ensures ChainLinked(Run(env, INITIAL, events).tables) <==> forall i :: 0 <= i < |events| ==> FindsWhatItRead(env, events, i)
    decreases |events|
  {
    hide Run, Next, FindsWhatItRead, Saves;
    if events == [] {
      RunNothing(env, INITIAL);
    } else {
      var n := |events| - 1;
      ChainHoldsIff(env, events[..n]);
      forall i | 0 <= i < n ensures FindsWhatItRead(env, events, i) <==> FindsWhatItRead(env, events[..n], i) {
        SameFinding(env, events, i);
      }
      BeforeInit(env, events, n);
      LastEvent(env, events);
      assert (forall i :: 0 <= i < |events| ==> FindsWhatItRead(env, events, i))
        <==> (forall i :: 0 <= i < n ==> FindsWhatItRead(env, events, i)) && FindsWhatItRead(env, events, n);
    }
  }

  lemma SameFinding(env: Env, events: seq<Event>, i: nat)
    requires i < |events| - 1
    ensures FindsWhatItRead(env, events, i) <==> FindsWhatItRead(env, events[..|events| - 1], i)
  {
    hide Run;
    var init := events[..|events| - 1];
    assert init[..i] == events[..i] && init[i] == events[i];
    BeforeInit(env, events, i);
    if Saves(Before(env, events, i), events[i]) {
      BeforeInit(env, events, ReadPosition(env, events[..i], events[i].run));
    }
  }

  lemma LastEvent(env: Env, events: seq<Event>)
    requires events != []
    ensures ChainLinked(Run(env, INITIAL, events).tables)
       <==> ChainLinked(Before(env, events, |events| - 1).tables) && FindsWhatItRead(env, events, |events| - 1)
  {
    hide Run, Next, Saves;
    var n := |events| - 1;
    BeforeInit(env, events, n);
    if Saves(Before(env, events, n), events[n]) {
      SaveLinks(env, Before(env, events, n), events[n]);
      SaveFinds(env, events);
    } else {
      OthersKeepLinks(env, Before(env, events, n), events[n]);
    }
  }

  // ---- in terms of the saves between ----

  /** The event at m saves a checkpoint with another root than the latest. */
  predicate ChangesRoot(env: Env, events: seq<Event>, m: nat)
    requires m < |events|
  {
    Saves(Before(env, events, m), events[m]) && LatestRoot(env, events, m) != LatestRoot(env, events, m + 1)
  }

  /** If the event at i saves a checkpoint, no other run changed the latest root since it read. */
  ghost predicate Undisturbed(env: Env, events: seq<Event>, i: nat)
    requires i < |events|
  {
    Saves(Before(env, events, i), events[i]) ==>
      forall m :: ReadPosition(env, events[..i], events[i].run) < m < i && events[m].Save? && events[m].run != events[i].run
        ==> !ChangesRoot(env, events, m)
  }

  lemma NextLatestRoot(env: Env, events: seq<Event>, m: nat)
    requires m < |events|
    ensures !Saves(Before(env, events, m), events[m]) ==> LatestRoot(env, events, m + 1) == LatestRoot(env, events, m)
    ensures Before(env, events, m + 1) == Next(env, Before(env, events, m), events[m])
  {
    hide Run, Next, PreviousRoot, Saves;
    assert events[..m + 1][..m] == events[..m];
    BeforeInit(env, events[..m + 1], m);
    if !Saves(Before(env, events, m), events[m]) {
      OthersKeepLinks(env, Before(env, events, m), events[m]);
    }
  }

  lemma {:induction false} RootStays(env: Env, events: seq<Event>, j: nat, i: nat)
    requires j <= i <= |events|
    requires forall m :: j <= m < i ==> !ChangesRoot(env, events, m)
    ensures LatestRoot(env, events, j) == LatestRoot(env, events, i)
    decreases i
  {
    hide Run, LatestRoot, Saves;
    if j < i {
      RootStays(env, events, j, i - 1);
      assert !ChangesRoot(env, events, i - 1);
      NextLatestRoot(env, events, i - 1);
    }
  }

  lemma UndisturbedFinds(env: Env, events: seq<Event>, i: nat)
    requires i < |events| && Undisturbed(env, events, i)
    ensures FindsWhatItRead(env, events, i)
  {
    hide Run, LatestRoot;
    if Saves(Before(env, events, i), events[i]) {
      var j := ReadPosition(env, events[..i], events[i].run);
      HeldRoot(env, events[..i], events[i].run);
      forall m | j <= m < i ensures !ChangesRoot(env, events, m) {
        assert events[..i][..m] == events[..m];
      }
      RootStays(env, events, j, i);
    }
  }

  /** The chain holds when no other run changes the latest root between the read and the save of a
      run, however builds overlap otherwise. */
  lemma UndisturbedKeepsChain(env: Env, events: seq<Event>)
    requires forall i :: 0 <= i < |events| ==> Undisturbed(env, events, i)
    ensures ChainLinked(Run(env, INITIAL, events).tables)
  {
    hide Run, Undisturbed, FindsWhatItRead;
    forall i | 0 <= i < |events| ensures FindsWhatItRead(env, events, i) {
      UndisturbedFinds(env, events, i);
    }
    ChainHoldsIff(env, events);
  }

  /** Between the read and the save of a run no other run calls save. */
  ghost predicate Locked(env: Env, events: seq<Event>, i: nat)
    requires i < |events|
  {
    events[i].Save? ==>
      forall m :: ReadPosition(env, events[..i], events[i].run) < m < i ==> !(events[m].Save? && events[m].run != events[i].run)
  }

  /** So a lock around reading the latest checkpoint and saving is enough: builds may fetch, mark and
      stop as they like. */
  lemma LockKeepsChain(env: Env, events: seq<Event>)
    requires forall i :: 0 <= i < |events| ==> Locked(env, events, i)
    ensures ChainLinked(Run(env, INITIAL, events).tables)
  {
    hide Run, ChangesRoot;
    forall i | 0 <= i < |events| ensures Undisturbed(env, events, i) {
      assert Locked(env, events, i);
    }
    UndisturbedKeepsChain(env, events);
  }

  // ---- the converse, unless a root comes back ----

  /** Checkpoints with the same root stand next to each other. */
  ghost predicate NoRootReturns(t: Tables) {
    forall a, b, c :: 0 <= a <= b <= c < |t.checkpoints| && t.checkpoints[a].rootHex == t.checkpoints[c].rootHex
      ==> t.checkpoints[b].rootHex == t.checkpoints[a].rootHex
  }

  /** The roots up to a moment are the first ones of every later moment. */
  lemma {:induction false} RootsAreKept(env: Env, events: seq<Event>, j: nat, i: nat)
    requires j <= i <= |events|
    ensures var t, u := Before(env, events, j).tables, Before(env, events, i).tables;
      |t.checkpoints| <= |u.checkpoints| && forall k :: 0 <= k < |t.checkpoints| ==> t.checkpoints[k].rootHex == u.checkpoints[k].rootHex
    decreases i
  {
    hide Run, Next;
    if j < i {
      RootsAreKept(env, events, j, i - 1);
      NextLatestRoot(env, events, i - 1);
      NextExtends(env, Before(env, events, i - 1), events[i - 1]);
      var u, v := Before(env, events, i - 1).tables, Before(env, events, i).tables;
      forall k | 0 <= k < |u.checkpoints| ensures u.checkpoints[k].rootHex == v.checkpoints[k].rootHex {
        assert SameButAnchor(u.checkpoints[k], v.checkpoints[k]);
      }
    }
  }

  lemma SaveAddsOne(env: Env, events: seq<Event>, m: nat)
    requires m < |events| && Saves(Before(env, events, m), events[m])
    ensures |Before(env, events, m + 1).tables.checkpoints| == |Before(env, events, m).tables.checkpoints| + 1
    ensures LatestRoot(env, events, m + 1) != ""
  {
    hide Run, NewCheckpoint, AsStored;
    NextLatestRoot(env, events, m);
    var b := Before(env, events, m).builds[events[m].run];
    PreviousRootOfNew(env, b.ids, b.receipts, b.previousRootHex, events[m].now);
    assert |RootHexOf(env, b.receipts)| == 64;
  }

  lemma SameBetween(t: Tables, a: nat, b: nat, c: nat)
    requires NoRootReturns(t) && a <= b <= c < |t.checkpoints|
    ensures t.checkpoints[a].rootHex == t.checkpoints[c].rootHex ==> t.checkpoints[b].rootHex == t.checkpoints[a].rootHex
  {
  }

  /** A changed root does not come back. */
  lemma ChangeShows(env: Env, events: seq<Event>, j: nat, m: nat, i: nat)
    requires j <= m < i <= |events| && ChangesRoot(env, events, m)
    requires NoRootReturns(Before(env, events, i).tables)
    ensures LatestRoot(env, events, j) != LatestRoot(env, events, i)
  {
    hide Run, Saves;
    SaveAddsOne(env, events, m);
    RootsAreKept(env, events, j, m);
    RootsAreKept(env, events, m, m + 1);
    RootsAreKept(env, events, m + 1, i);
    var cs := Before(env, events, i).tables.checkpoints;
    var p, q := |Before(env, events, j).tables.checkpoints|, |Before(env, events, m).tables.checkpoints|;
    assert LatestRoot(env, events, m + 1) == cs[q].rootHex;
    assert q > 0 ==> LatestRoot(env, events, m) == cs[q - 1].rootHex;
    assert p > 0 ==> LatestRoot(env, events, j) == cs[p - 1].rootHex;
    if p == 0 {
      RootIsNotEmpty(env, events, i);
    } else {
      SameBetween(Before(env, events, i).tables, p - 1, q - 1, |cs| - 1);
      SameBetween(Before(env, events, i).tables, p - 1, q, |cs| - 1);
    }
  }

  lemma {:induction false} RootIsNotEmpty(env: Env, events: seq<Event>, i: nat)
    requires i <= |events| && Before(env, events, i).tables.checkpoints != []
    ensures LatestRoot(env, events, i) != ""
    decreases i
  {
    hide Run, Saves;
    if i == 0 {
      RunNothing(env, INITIAL);
      assert false;
    } else {
      NextLatestRoot(env, events, i - 1);
      if Saves(Before(env, events, i - 1), events[i - 1]) {
        SaveAddsOne(env, events, i - 1);
      } else {
        OthersKeepLinks(env, Before(env, events, i - 1), events[i - 1]);
        RootIsNotEmpty(env, events, i - 1);
      }
    }
  }

  lemma FindsIsUndisturbed(env: Env, events: seq<Event>, i: nat)
    requires i < |events| && FindsWhatItRead(env, events, i) && NoRootReturns(Before(env, events, i).tables)
    ensures Undisturbed(env, events, i)
  {
    hide Run, LatestRoot, ChangesRoot, NoRootReturns;
    if Saves(Before(env, events, i), events[i]) {
      var j := ReadPosition(env, events[..i], events[i].run);
      forall m | j < m < i && events[m].Save? && events[m].run != events[i].run ensures !ChangesRoot(env, events, m) {
        if ChangesRoot(env, events, m) {
          ChangeShows(env, events, j, m, i);
          assert false;
        }
      }
    }
  }

  /** Unless a root comes back after another one, the chain holds exactly when no other run changes
      the latest root between the read and the save of a run. */
  lemma ChainHoldsIffUndisturbed(env: Env, events: seq<Event>)
    requires NoRootReturns(Run(env, INITIAL, events).tables)
    ensures ChainLinked(Run(env, INITIAL, events).tables) <==> forall i :: 0 <= i < |events| ==> Undisturbed(env, events, i)
  {
    hide Run, Undisturbed, FindsWhatItRead, NoRootReturns;
    ChainHoldsIff(env, events);
    forall i | 0 <= i < |events| ensures FindsWhatItRead(env, events, i) <==> Undisturbed(env, events, i) {
      NoReturnEarlier(env, events, i);
      if Undisturbed(env, events, i) {
        UndisturbedFinds(env, events, i);
      }
      if FindsWhatItRead(env, events, i) {
        FindsIsUndisturbed(env, events, i);
      }
    }
  }

  lemma NoReturnEarlier(env: Env, events: seq<Event>, i: nat)
    requires i <= |events| && NoRootReturns(Run(env, INITIAL, events).tables)
    ensures NoRootReturns(Before(env, events, i).tables)
  {
    hide Run;
    assert events[..|events|] == events;
    RootsAreKept(env, events, i, |events|);
  }

  // ---- a root that comes back ----

  function Snoc2(events: seq<Event>, e: Event, f: Event): seq<Event> {
    events + [e] + [f]
  }

  lemma RunSnoc2(env: Env, events: seq<Event>, e: Event, f: Event)
    ensures Run(env, INITIAL, Snoc2(events, e, f)) == Next(env, Next(env, Run(env, INITIAL, events), e), f)
  {
    hide Run, Next;
    RunSnoc(env, INITIAL, events, e);
    RunSnoc(env, INITIAL, events + [e], f);
  }

  function Made(env: Env, ids: seq<int>, rs: seq<Receipt>, previousRootHex: string, now: int): Checkpoint
    requires ids != []
  {
    AsStored(NewCheckpoint(env, ids, rs, previousRootHex, now))
  }

  function TwoRows(r: Receipt, s: Receipt, cs: seq<Checkpoint>): Tables {
    Tables([r, s], {}, cs, map[], [])
  }

  lemma UnbatchedTwoRows(r: Receipt, s: Receipt, cs: seq<Checkpoint>)
    ensures UnbatchedFrom(TwoRows(r, s, cs), 1, 1) == [1] && UnbatchedFrom(TwoRows(r, s, cs), 1, 2) == [1, 2]
  {
    var t := TwoRows(r, s, cs);
    assert UnbatchedFrom(t, 2, 0) == [] && UnbatchedFrom(t, 3, 0) == [];
    assert UnbatchedFrom(t, 2, 1) == [2];
    assert UnbatchedFrom(t, 1, 2) == [1] + [2];
  }

  lemma FetchTwoRows(r: Receipt, s: Receipt, cs: seq<Checkpoint>)
    ensures FetchedBuild(TwoRows(r, s, cs), 1) == Fetched([1], [r])
    ensures FetchedBuild(TwoRows(r, s, cs), 2) == Fetched([1, 2], [r, s])
  {
    hide UnbatchedFrom;
    var t := TwoRows(r, s, cs);
    UnbatchedTwoRows(r, s, cs);
    assert [1][..0] == [] && ReceiptsAt(t, [1]) == [r];
    assert [1, 2][..1] == [1] && ReceiptsAt(t, [1, 2]) == [r] + [s];
  }

  lemma FirstSaved(env: Env, r: Receipt, s: Receipt, now: int, before: seq<Event>)
    requires Run(env, INITIAL, before) == State(OneRow(r), map[0 := Fetched([1], [r]), 1 := Fetched([1], [r])])
    ensures Run(env, INITIAL, Snoc2(before, ReadLatest(0), Save(0, now)) + [Append([s])])
         == State(TwoRows(r, s, [Made(env, [1], [r], "", now)]), map[0 := Written([1]), 1 := Fetched([1], [r])])
  {
    hide Run, NewCheckpoint, AsStored;
    RunSnoc2(env, before, ReadLatest(0), Save(0, now));
    RunSnoc(env, INITIAL, Snoc2(before, ReadLatest(0), Save(0, now)), Append([s]));
    assert [] + [Made(env, [1], [r], "", now)] == [Made(env, [1], [r], "", now)] && [r] + [s] == [r, s];
  }

  lemma BothRead(env: Env, r: Receipt, s: Receipt, a: Checkpoint, before: seq<Event>)
    requires Run(env, INITIAL, before) == State(TwoRows(r, s, [a]), map[0 := Written([1]), 1 := Fetched([1], [r])])
    ensures Run(env, INITIAL, Snoc2(Snoc2(before, Fetch(2, 2), Fetch(3, 1)), ReadLatest(2), ReadLatest(3)))
         == State(TwoRows(r, s, [a]), map[0 := Written([1]), 1 := Fetched([1], [r]),
                                          2 := Linked([1, 2], [r, s], a.rootHex), 3 := Linked([1], [r], a.rootHex)])
    ensures var st := Run(env, INITIAL, Snoc2(before, Fetch(2, 2), Fetch(3, 1)) + [ReadLatest(2)]);
      3 in st.builds && st.builds[3].Fetched?
  {
    hide Run, FetchedBuild;
    FetchTwoRows(r, s, [a]);
    RunSnoc2(env, before, Fetch(2, 2), Fetch(3, 1));
    var fetched := Snoc2(before, Fetch(2, 2), Fetch(3, 1));
    RunSnoc(env, INITIAL, fetched, ReadLatest(2));
    RunSnoc2(env, fetched, ReadLatest(2), ReadLatest(3));
  }

  /** The save by run 2 changes the root, the one by run 1 brings the first root back. */
  lemma RootReturns(env: Env, r: Receipt, s: Receipt, a: Checkpoint, now: int, before: seq<Event>)
    requires Run(env, INITIAL, before)
          == State(TwoRows(r, s, [a]), map[0 := Written([1]), 1 := Fetched([1], [r]),
                                           2 := Linked([1, 2], [r, s], a.rootHex), 3 := Linked([1], [r], a.rootHex)])
    ensures var b := Made(env, [1, 2], [r, s], a.rootHex, now);
      var c := Made(env, [1], [r], b.rootHex, now);
      && Run(env, INITIAL, before + [Save(2, now)]).tables == TwoRows(r, s, [a, b])
      && (var st := Run(env, INITIAL, Snoc2(before + [Save(2, now)], ReadLatest(1), Save(1, now)));
          && st.tables == TwoRows(r, s, [a, b, c]) && 3 in st.builds && st.builds[3] == Linked([1], [r], a.rootHex))
  {
    hide Run, NewCheckpoint, AsStored;
    var b := Made(env, [1, 2], [r, s], a.rootHex, now);
    var c := Made(env, [1], [r], b.rootHex, now);
    RunSnoc(env, INITIAL, before, Save(2, now));
    RunSnoc2(env, before + [Save(2, now)], ReadLatest(1), Save(1, now));
    assert [a] + [b] == [a, b] && [a, b] + [c] == [a, b, c];
  }

  lemma ReadPositionSnoc(env: Env, events: seq<Event>, e: Event, run: nat)
    ensures ReadPosition(env, events + [e], run) == if Reads(Run(env, INITIAL, events), e, run) then |events| else ReadPosition(env, events, run)
  {
    hide Run;
    assert (events + [e])[..|events|] == events;
  }

  lemma BeforeSnoc(env: Env, events: seq<Event>, more: seq<Event>)
    ensures Before(env, events + more, |events|) == Run(env, INITIAL, events)
  {
    hide Run;
    assert (events + more)[..|events|] == events;
  }

  lemma FourLinked(t: Tables)
    requires |t.checkpoints| == 4
    requires ChainOk(t.checkpoints[0], t.checkpoints[1]) && ChainOk(t.checkpoints[1], t.checkpoints[2]) && ChainOk(t.checkpoints[2], t.checkpoints[3])
    ensures ChainLinked(t)
  {
  }

  /** The chain can hold although other runs changed the root in between: two builds of the same row
      save the same root before and after a build of more rows. */
  lemma DisturbedChainMayHold(env: Env, r: Receipt, s: Receipt, now: int) returns (events: seq<Event>)
    requires RootHexOf(env, [r]) != RootHexOf(env, [r, s])
    ensures events != [] && ChainLinked(Run(env, INITIAL, events).tables) && !Undisturbed(env, events, |events| - 1)
  {
    hide Run, RootHexOf, Made, Next;
    var fetched := BothFetch(env, r);
    FirstSaved(env, r, s, now, fetched);
    var a := Made(env, [1], [r], "", now);
    var first := Snoc2(fetched, ReadLatest(0), Save(0, now)) + [Append([s])];
    BothRead(env, r, s, a, first);
    var read := Snoc2(Snoc2(first, Fetch(2, 2), Fetch(3, 1)), ReadLatest(2), ReadLatest(3));
    RootReturns(env, r, s, a, now, read);
    var changed := read + [Save(2, now)];
    var back := Snoc2(changed, ReadLatest(1), Save(1, now));
    events := back + [Save(3, now)];
    ReturnedChain(env, r, s, a, now, back);
    var m, n := |read|, |back|;
    assert events == read + [Save(2, now), ReadLatest(1), Save(1, now), Save(3, now)] && n == m + 3;
    assert events == changed + [ReadLatest(1), Save(1, now), Save(3, now)];
    BeforeSnoc(env, read, [Save(2, now), ReadLatest(1), Save(1, now), Save(3, now)]);
    BeforeSnoc(env, changed, [ReadLatest(1), Save(1, now), Save(3, now)]);
    BeforeSnoc(env, back, [Save(3, now)]);
    MadeRoots(env, r, s, a, now);
    assert ChangesRoot(env, events, m);
    ReadPositionSnoc(env, Snoc2(first, Fetch(2, 2), Fetch(3, 1)) + [ReadLatest(2)], ReadLatest(3), 3);
    ReadPositionSnoc(env, read, Save(2, now), 3);
    ReadPositionSnoc(env, changed, ReadLatest(1), 3);
    ReadPositionSnoc(env, changed + [ReadLatest(1)], Save(1, now), 3);
    assert ReadPosition(env, back, 3) == m - 1 && events[..n] == back;
  }

  lemma MadeRoots(env: Env, r: Receipt, s: Receipt, a: Checkpoint, now: int)
    ensures Made(env, [1, 2], [r, s], a.rootHex, now).rootHex == RootHexOf(env, [r, s])
    ensures Made(env, [1], [r], "", now).rootHex == RootHexOf(env, [r])
  {
    hide RootHexOf;
    PreviousRootOfNew(env, [1, 2], [r, s], a.rootHex, now);
    PreviousRootOfNew(env, [1], [r], "", now);
  }

  lemma ReturnedChain(env: Env, r: Receipt, s: Receipt, a: Checkpoint, now: int, before: seq<Event>)
    requires a == Made(env, [1], [r], "", now)
    requires var b := Made(env, [1, 2], [r, s], a.rootHex, now);
      var st := Run(env, INITIAL, before);
      && st.tables == TwoRows(r, s, [a, b, Made(env, [1], [r], b.rootHex, now)])
      && 3 in st.builds && st.builds[3] == Linked([1], [r], a.rootHex)
    ensures ChainLinked(Run(env, INITIAL, before + [Save(3, now)]).tables)
  {
    hide Run, NewCheckpoint, AsStored, RootHexOf, ChainLinked;
    var b := Made(env, [1, 2], [r, s], a.rootHex, now);
    var c := Made(env, [1], [r], b.rootHex, now);
    RunSnoc(env, INITIAL, before, Save(3, now));
    var d := Made(env, [1], [r], a.rootHex, now);
    var t := Run(env, INITIAL, before + [Save(3, now)]).tables;
    assert t.checkpoints == [a, b, c] + [d];
    PreviousRootOfNew(env, [1], [r], "", now);
    PreviousRootOfNew(env, [1, 2], [r, s], a.rootHex, now);
    PreviousRootOfNew(env, [1], [r], b.rootHex, now);
    PreviousRootOfNew(env, [1], [r], a.rootHex, now);
    FourLinked(t);
  }
}
