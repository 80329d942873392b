/** The verifiers of RFC 9162 sections 2.1.3.2 and 2.1.4.2, which climb the tree bit by bit from the
    leaf, and their agreement with the repository's top-down ones. */
module ReferenceVerifiers {
  import opened ByteStrings
  import opened Splitting
  import opened MerkleTree
  import opened Inclusion
  import opened Consistency

  // ---- the climb both verifiers share ----

  /** What a node on the left or on the right does to the value carried up. */
  datatype Hashing<!S> = Hashing(withLeft: (Digest, S) -> S, withRight: (S, Digest) -> S)

  /** Shift until the lowest bit is set or nothing is left. Both numbers are equal where the RFC
      shifts like this, so one stands for both. */
  function ShiftToOdd(fn: nat): nat {
    if fn % 2 == 1 || fn == 0 then fn else ShiftToOdd(fn / 2)
  }

  /** None stands for the failures: a path that is too long or too short. */
  function Climb<S>(h: Hashing<S>, fn: nat, sn: nat, r: S, path: seq<Digest>): Option<S>
    requires fn <= sn
    decreases |path|
  {
    if path == [] then
      if sn == 0 then Some(r) else None
    else if sn == 0 then
      None
    else if fn == sn then
      var top := ShiftToOdd(fn);
      Climb(h, top / 2, top / 2, h.withLeft(path[0], r), path[1..])
    else if fn % 2 == 1 then
      Climb(h, fn / 2, sn / 2, h.withLeft(path[0], r), path[1..])
    else
      Climb(h, fn / 2, sn / 2, h.withRight(r, path[0]), path[1..])
  }

  function ThenRight<S>(h: Hashing<S>, r: Option<S>, node: Digest): Option<S> {
    if r.None? then None else Some(h.withRight(r.value, node))
  }

  function ThenLeft<S>(h: Hashing<S>, node: Digest, r: Option<S>): Option<S> {
    if r.None? then None else Some(h.withLeft(node, r.value))
  }

  function OneStep<S>(h: Hashing<S>, fn: nat, r: S, node: Digest): S {
    if fn % 2 == 1 then h.withLeft(node, r) else h.withRight(r, node)
  }

  /** A step that shifts once. */
  lemma ClimbStep<S>(h: Hashing<S>, fn: nat, sn: nat, r: S, path: seq<Digest>)
    requires fn <= sn && sn > 0 && path != [] && (fn < sn || fn % 2 == 1)
    ensures Climb(h, fn, sn, r, path) == Climb(h, fn / 2, sn / 2, OneStep(h, fn, r, path[0]), path[1..])
  {
  }

  lemma InnerPath(path: seq<Digest>)
    requires |path| >= 2
    ensures path[..|path| - 1][0] == path[0] && path[..|path| - 1][1..] == path[1..][..|path| - 2]
    ensures path[1..][|path| - 2] == path[|path| - 1]
  {
  }

  /** In a complete left subtree of 2^j leaves the climb is that subtree's, then one node on the right. */
  lemma {:induction false} ClimbLeft<S>(h: Hashing<S>, j: nat, fn: nat, sn: nat, r: S, path: seq<Digest>)
    requires fn < Pow2(j) <= sn < 2 * Pow2(j) && path != []
    ensures Climb(h, fn, sn, r, path)
         == ThenRight(h, Climb(h, fn, Pow2(j) - 1, r, path[..|path| - 1]), path[|path| - 1])
    decreases j
  {
    hide Pow2;
    if j == 0 {
      PowerZero();
    } else if |path| > 1 {
      Pow2Step(j);
      InnerPath(path);
      ClimbStep(h, fn, sn, r, path);
      HalfBelow(Pow2(j - 1));
      ClimbStep(h, fn, Pow2(j) - 1, r, path[..|path| - 1]);
      ClimbLeft(h, j - 1, fn / 2, sn / 2, OneStep(h, fn, r, path[0]), path[1..]);
    }
  }

  /** Only the odd part of equal numbers matters. */
  lemma ClimbDoubled<S>(h: Hashing<S>, e: nat, r: S, path: seq<Digest>)
    requires e > 0
    ensures Climb(h, 2 * e, 2 * e, r, path) == Climb(h, e, e, r, path)
  {
  }

  lemma {:induction false} ShiftPow2(j: nat)
    ensures ShiftToOdd(Pow2(j)) == 1
  {
    if j > 0 {
      ShiftPow2(j - 1);
    }
  }

  ghost predicate ClimbsRight<S>(h: Hashing<S>, p: nat, fn: nat, sn: nat, r: S, path: seq<Digest>)
    requires fn <= sn && path != []
  {
    Climb(h, fn + p, sn + p, r, path) == ThenLeft(h, path[|path| - 1], Climb(h, fn, sn, r, path[..|path| - 1]))
  }

  lemma ClimbRightOfOne<S>(h: Hashing<S>, j: nat, r: S, path: seq<Digest>)
    requires path != []
    ensures ClimbsRight(h, Pow2(j), 0, 0, r, path)
  {
    ShiftPow2(j);
  }

  /** To the right of 2^j leaves the climb is that of the right subtree, then one node on the left. */
  lemma {:induction false} ClimbRight<S>(h: Hashing<S>, j: nat, fn: nat, sn: nat, r: S, path: seq<Digest>)
    requires fn <= sn < Pow2(j) && path != []
    ensures ClimbsRight(h, Pow2(j), fn, sn, r, path)
    decreases j
  {
    hide Pow2;
    if sn == 0 {
      ClimbRightOfOne(h, j, r, path);
    } else if fn == sn && fn % 2 == 0 {
      PowerIsEven(j, sn);
      ClimbDoubled(h, fn / 2 + Pow2(j - 1), r, path);
      ClimbDoubled(h, fn / 2, r, path[..|path| - 1]);
      ClimbRight(h, j - 1, fn / 2, fn / 2, r, path);
    } else {
      PowerIsEven(j, sn);
      if |path| > 1 {
        ClimbRight(h, j - 1, fn / 2, sn / 2, OneStep(h, fn, r, path[0]), path[1..]);
      }
      ClimbRightStep(h, Pow2(j - 1), fn, sn, r, path);
    }
  }

  lemma ClimbRightStep<S>(h: Hashing<S>, half: nat, fn: nat, sn: nat, r: S, path: seq<Digest>)
    requires fn <= sn && sn > 0 && path != [] && half > 0 && (fn < sn || fn % 2 == 1)
    requires |path| > 1 ==> ClimbsRight(h, half, fn / 2, sn / 2, OneStep(h, fn, r, path[0]), path[1..])
    ensures ClimbsRight(h, 2 * half, fn, sn, r, path)
  {
    HalfOfSum(fn, half);
    HalfOfSum(sn, half);
    ClimbStep(h, fn + 2 * half, sn + 2 * half, r, path);
    if |path| > 1 {
      InnerPath(path);
      ClimbStep(h, fn, sn, r, path[..|path| - 1]);
    }
  }

  // ---- inclusion ----

  function LeafHashing(sha: Sha): Hashing<Digest> {
    Hashing((node, r) => HashInternal(sha, node, r), (r, node) => HashInternal(sha, r, node))
  }

  predicate ReferenceInclusion(sha: Sha, hash: Digest, root: Digest, leafIndex: nat, treeSize: nat, path: seq<Digest>) {
    leafIndex < treeSize && Climb(LeafHashing(sha), leafIndex, treeSize - 1, hash, path) == Some(root)
  }

  /** The climb succeeds exactly on paths of the tree's depth at that leaf, and there it computes
      what the top-down recursion does. */
  lemma {:induction false} ClimbIsRootFromPath(sha: Sha, hash: Digest, index: nat, size: nat, path: seq<Digest>)
    requires index < size
    ensures ClimbsToRoot(sha, hash, index, size, path)
    decreases size
  {
    if size > 1 && path != [] {
      var k, inner := Split(size), path[..|path| - 1];
      if index < k {
        ClimbIsRootFromPath(sha, hash, index, k, inner);
        RootThroughLeft(sha, hash, index, size, path);
      } else {
        ClimbIsRootFromPath(sha, hash, index - k, size - k, inner);
        RootThroughRight(sha, hash, index, size, path);
      }
    }
  }

  ghost predicate ClimbsToRoot(sha: Sha, hash: Digest, index: nat, size: nat, path: seq<Digest>)
    requires index < size
  {
    Climb(LeafHashing(sha), index, size - 1, hash, path)
      == if |path| == PathLength(index, size) then Some(RootFromPath(sha, hash, index, size, path)) else None
  }

  lemma RootThroughLeft(sha: Sha, hash: Digest, index: nat, size: nat, path: seq<Digest>)
    requires path != [] && size >= 2 && index < Split(size)
    requires ClimbsToRoot(sha, hash, index, Split(size), path[..|path| - 1])
    ensures ClimbsToRoot(sha, hash, index, size, path)
  {
    hide HashInternal, Split, Pow2, Climb;
    SplitIsLargestPower(size);
    var j: nat :| Split(size) == Pow2(j);
    ClimbLeft(LeafHashing(sha), j, index, size - 1, hash, path);
  }

  lemma RootThroughRight(sha: Sha, hash: Digest, index: nat, size: nat, path: seq<Digest>)
    requires path != [] && size >= 2 && Split(size) <= index < size
    requires ClimbsToRoot(sha, hash, index - Split(size), size - Split(size), path[..|path| - 1])
    ensures ClimbsToRoot(sha, hash, index, size, path)
  {
    hide HashInternal, Split, Pow2, Climb;
    SplitIsLargestPower(size);
    var j: nat :| Split(size) == Pow2(j);
    ClimbRight(LeafHashing(sha), j, index - Split(size), size - Split(size) - 1, hash, path);
  }

  /** The repository's verifier accepts what the reference accepts; what it accepts besides are
      paths of another length. */
  lemma InclusionAgreesWithReference(sha: Sha, hash: Digest, root: Digest, index: nat, treeSize: nat, path: seq<Digest>)
    ensures ReferenceInclusion(sha, hash, root, index, treeSize, path)
       <==> AcceptsInclusion(sha, hash, root, index, treeSize, path) && |path| == PathLength(index, treeSize)
  {
    if index < treeSize {
      ClimbIsRootFromPath(sha, hash, index, treeSize, path);
    }
  }

  // ---- consistency ----

  function RootsHashing(sha: Sha): Hashing<Roots> {
    Hashing((node, r: Roots) => Roots(HashInternal(sha, node, r.oldRoot), HashInternal(sha, node, r.newRoot)),
            (r: Roots, node) => Roots(r.oldRoot, HashInternal(sha, r.newRoot, node)))
  }

  /** Shift both while the lowest bit of fn is set. */
  function TrimOnes(fn: nat, sn: nat): (r: (nat, nat))
    requires fn <= sn
    ensures r.0 <= r.1
  {
    if fn % 2 == 1 then TrimOnes(fn / 2, sn / 2) else (fn, sn)
  }

  function ClimbTrimmed(sha: Sha, m: nat, n: nat, seed: Digest, rest: seq<Digest>): Option<Roots>
    requires 1 <= m <= n
  {
    var t := TrimOnes(m - 1, n - 1);
    Climb(RootsHashing(sha), t.0, t.1, Roots(seed, seed), rest)
  }

  /** For sizes 0 < first < second, as section 2.1.4.2 assumes. */
  ghost predicate ReferenceConsistency(sha: Sha, first: nat, second: nat, firstHash: Digest, secondHash: Digest, path: seq<Digest>)
    requires 0 < first < second
  {
    && path != []
    && var full := if IsPow2(first) then [firstHash] + path else path;
       ClimbTrimmed(sha, first, second, full[0], full[1..]) == Some(Roots(firstHash, secondHash))
  }

  /** The part of the proof above the subtree that both trees share, and what it computes. */
  function Above(m: nat, n: nat): nat
    requires 1 <= m <= n
    decreases n
  {
    if m == n then 0 else
      var k := Split(n);
      1 + if m <= k then Above(m, k) else Above(m - k, n - k)
  }

  function RebuiltFrom(sha: Sha, m: nat, n: nat, seed: Digest, rest: seq<Digest>): Roots
    requires 1 <= m <= n && |rest| == Above(m, n)
    decreases n
  {
    if m == n then Roots(seed, seed) else
      var k, inner := Split(n), rest[..|rest| - 1];
      Combine(sha, m, n,
              if m <= k then RebuiltFrom(sha, m, k, seed, inner) else RebuiltFrom(sha, m - k, n - k, seed, inner),
              rest[|rest| - 1])
  }

  lemma TrimStep(fn: nat, sn: nat)
    requires fn <= sn
    ensures TrimOnes(fn, sn) == if fn % 2 == 1 then TrimOnes(fn / 2, sn / 2) else (fn, sn)
  {
  }

  lemma {:induction false} TrimLeft(j: nat, fn: nat, sn: nat) returns (i: nat)
    requires fn < Pow2(j) <= sn < 2 * Pow2(j)
    ensures TrimOnes(fn, sn).0 < Pow2(i) <= TrimOnes(fn, sn).1 < 2 * Pow2(i)
    ensures TrimOnes(fn, Pow2(j) - 1) == (TrimOnes(fn, sn).0, Pow2(i) - 1)
    decreases j
  {
    hide Pow2, TrimOnes;
    TrimStep(fn, sn);
    TrimStep(fn, Pow2(j) - 1);
    if fn % 2 == 1 {
      OddBelowPower(j, fn);
      HalfBelow(Pow2(j - 1));
      i := TrimLeft(j - 1, fn / 2, sn / 2);
    } else {
      i := j;
    }
  }

  lemma OddBelowPower(j: nat, fn: nat)
    requires fn < Pow2(j) && fn % 2 == 1
    ensures j > 0 && Pow2(j) == 2 * Pow2(j - 1)
  {
  }

  lemma {:induction false} TrimRight(j: nat, fn: nat, sn: nat) returns (i: nat)
    requires fn < sn < Pow2(j)
    ensures TrimOnes(fn, sn).0 < TrimOnes(fn, sn).1 < Pow2(i)
    ensures TrimOnes(fn + Pow2(j), sn + Pow2(j)) == (TrimOnes(fn, sn).0 + Pow2(i), TrimOnes(fn, sn).1 + Pow2(i))
    decreases j
  {
    hide Pow2, TrimOnes;
    TrimStep(fn, sn);
    TrimStep(fn + Pow2(j), sn + Pow2(j));
    PowerIsEven(j, sn);
    HalfOfSum(fn, Pow2(j - 1));
    HalfOfSum(sn, Pow2(j - 1));
    if fn % 2 == 1 {
      i := TrimRight(j - 1, fn / 2, sn / 2);
    } else {
      i := j;
    }
  }

  lemma PowerIsEven(j: nat, sn: nat)
    requires 0 < sn < Pow2(j)
    ensures j > 0 && Pow2(j) == 2 * Pow2(j - 1)
  {
  }

  lemma {:induction false} TrimAllOnes(j: nat)
    ensures TrimOnes(Pow2(j) - 1, Pow2(j) - 1) == (0, 0)
  {
    hide Pow2;
    if j == 0 {
      PowerZero();
    } else {
      Pow2Step(j);
      HalfBelow(Pow2(j - 1));
      TrimAllOnes(j - 1);
    }
  }

  /** The reference climb from the shared subtree is the recursion's way back up. */
  ghost predicate ClimbsToRebuilt(sha: Sha, m: nat, n: nat, seed: Digest, rest: seq<Digest>)
    requires 1 <= m <= n
  {
    ClimbTrimmed(sha, m, n, seed, rest)
      == if |rest| == Above(m, n) then Some(RebuiltFrom(sha, m, n, seed, rest)) else None
  }

  lemma RebuiltThroughLeft(sha: Sha, m: nat, n: nat, seed: Digest, rest: seq<Digest>)
    requires 1 <= m < n && m <= Split(n)
    requires rest != [] ==> ClimbsToRebuilt(sha, m, Split(n), seed, rest[..|rest| - 1])
    ensures ClimbsToRebuilt(sha, m, n, seed, rest)
  {
    hide TrimOnes, ShiftToOdd;
    SplitIsLargestPower(n);
    var j: nat :| Split(n) == Pow2(j);
    var i := TrimLeft(j, m - 1, n - 1);
    if rest != [] {
      var t := TrimOnes(m - 1, n - 1);
      ClimbLeft(RootsHashing(sha), i, t.0, t.1, Roots(seed, seed), rest);
    }
  }

  lemma RebuiltThroughRight(sha: Sha, m: nat, n: nat, seed: Digest, rest: seq<Digest>)
    requires 1 <= m < n && m > Split(n)
    requires rest != [] ==> ClimbsToRebuilt(sha, m - Split(n), n - Split(n), seed, rest[..|rest| - 1])
    ensures ClimbsToRebuilt(sha, m, n, seed, rest)
  {
    hide TrimOnes, ShiftToOdd;
    SplitIsLargestPower(n);
    var k := Split(n);
    var j: nat :| k == Pow2(j);
    var i := TrimRight(j, m - k - 1, n - k - 1);
    if rest != [] {
      var t := TrimOnes(m - k - 1, n - k - 1);
      ClimbRight(RootsHashing(sha), i, t.0, t.1, Roots(seed, seed), rest);
    }
  }

  lemma {:induction false} ClimbIsRebuilt(sha: Sha, m: nat, n: nat, seed: Digest, rest: seq<Digest>)
    requires 1 <= m <= n && (m == n ==> IsPow2(n))
    ensures ClimbsToRebuilt(sha, m, n, seed, rest)
    decreases n
  {
    if m == n {
      var j: nat :| n == Pow2(j);
      TrimAllOnes(j);
    } else {
      SplitIsLargestPower(n);
      var k := Split(n);
      if m <= k {
        if rest != [] {
          ClimbIsRebuilt(sha, m, k, seed, rest[..|rest| - 1]);
        }
        RebuiltThroughLeft(sha, m, n, seed, rest);
      } else {
        if rest != [] {
          ClimbIsRebuilt(sha, m - k, n - k, seed, rest[..|rest| - 1]);
        }
        RebuiltThroughRight(sha, m, n, seed, rest);
      }
    }
  }

  /** The known root stands in for the shared subtree exactly when the old size is a power of two. */
  lemma {:induction false} RebuiltIsSeeded(sha: Sha, m: nat, n: nat, b: bool, knownRoot: Digest, proof: seq<Digest>)
    requires 1 <= m <= n && (m == n ==> IsPow2(n))
    ensures ProofLength(m, n, b) == Above(m, n) + if b && IsPow2(m) then 0 else 1
    ensures |proof| == ProofLength(m, n, b) ==>
      Rebuilt(sha, m, n, b, knownRoot, proof) ==
      if b && IsPow2(m) then RebuiltFrom(sha, m, n, knownRoot, proof) else RebuiltFrom(sha, m, n, proof[0], proof[1..])
    decreases n
  {
    if m < n {
      SplitIsLargestPower(n);
      var k := Split(n);
      if m > k {
        PowerAtMostSplit(m, n);
      }
      var inner := if proof == [] then [] else proof[..|proof| - 1];
      if m <= k {
        RebuiltIsSeeded(sha, m, k, b, knownRoot, inner);
      } else {
        RebuiltIsSeeded(sha, m - k, n - k, false, ZERO_DIGEST, inner);
      }
      if |proof| == ProofLength(m, n, b) && |inner| > 0 {
        assert inner[0] == proof[0] && inner[1..] == proof[1..][..|inner| - 1];
      }
    }
  }

  lemma PowerAtMostSplit(m: nat, n: nat)
    requires Split(n) < m < n
    ensures !IsPow2(m)
  {
    SplitIsLargestPower(n);
    if IsPow2(m) {
      SplitUnique(m, n);
    }
  }

  /** For every pair of sizes the repository's cursor-driven verifier and the reference accept the
      same proofs. */
  lemma ConsistencyAgreesWithReference(sha: Sha, first: nat, second: nat, firstHash: Digest, secondHash: Digest, path: seq<Digest>)
    requires 0 < first < second
    ensures ReferenceConsistency(sha, first, second, firstHash, secondHash, path)
       <==> AcceptsConsistency(sha, firstHash, secondHash, first, second, path)
  {
    RebuiltIsSeeded(sha, first, second, true, firstHash, path);
    if path != [] {
      var full := if IsPow2(first) then [firstHash] + path else path;
      ClimbIsRebuilt(sha, first, second, full[0], full[1..]);
      if IsPow2(first) {
        assert full[1..] == path;
      }
    }
  }
}
