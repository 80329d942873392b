/** Consistency proofs of RFC 6962 section 2.1.2 (internal/merkle/consistency.go). */
module Consistency {
  import opened ByteStrings
  import opened Splitting
  import opened MerkleTree
  import opened Inclusion

  // ---- generation ----

  /** SUBPROOF(m, D[n], b), ordered from the leaves to the root. */
  function SubProof(sha: Sha, m: nat, leaves: seq<Digest>, b: bool): seq<Digest>
    requires 1 <= m <= |leaves|
    decreases |leaves|
  {
    if m == |leaves| then
      if b then [] else [BuildSubtree(sha, leaves)]
    else
      var k := Split(|leaves|);
      if m <= k then
        SubProof(sha, m, leaves[..k], b) + [BuildSubtree(sha, leaves[k..])]
      else
        SubProof(sha, m - k, leaves[k..], false) + [BuildSubtree(sha, leaves[..k])]
  }

  /** One step of SUBPROOF on the first n of some leaves, in the slices the source takes. */
  lemma SubProofStep(sha: Sha, m: nat, n: nat, leaves: seq<Digest>, b: bool)
    requires 1 <= m < n <= |leaves|
    ensures var k := Split(n);
      SubProof(sha, m, leaves[..n], b) ==
      if m <= k then SubProof(sha, m, leaves[..k][..k], b) + [BuildSubtree(sha, leaves[k..n])]
      else SubProof(sha, m - k, leaves[k..n][..n - k], false) + [BuildSubtree(sha, leaves[..k])]
  {
    var k := Split(n);
    assert leaves[..n][..k] == leaves[..k] == leaves[..k][..k];
    assert leaves[..n][k..] == leaves[k..n] == leaves[k..n][..n - k];
  }

  lemma SubProofWhole(sha: Sha, n: nat, leaves: seq<Digest>, b: bool)
    requires 1 <= n <= |leaves|
    ensures SubProof(sha, n, leaves[..n], b) == if b then [] else [BuildSubtree(sha, leaves[..n])]
  {
  }

  method CollectConsistency(sha: Sha, m: nat, n: nat, leaves: seq<Digest>, b: bool, proof: HashList)
    requires 1 <= m <= n <= |leaves| && n <= TWO62
    modifies proof
    ensures proof.items == old(proof.items) + SubProof(sha, m, leaves[..n], b)
    decreases n
  {
    hide BuildSubtree, SubProof, Split;
    if m == n {
      SubProofWhole(sha, n, leaves, b);
      if !b {
        proof.items := proof.items + [BuildSubtree(sha, leaves[..n])];
      }
      return;
    }
    SubProofStep(sha, m, n, leaves, b);
    ghost var before := proof.items;
    var k := SplitPoint(n);
    if m <= k {
      CollectConsistency(sha, m, k, leaves[..k], b, proof);
      AppendAssociates(before, SubProof(sha, m, leaves[..k][..k], b), BuildSubtree(sha, leaves[k..n]));
      proof.items := proof.items + [BuildSubtree(sha, leaves[k..n])];
    } else {
      CollectConsistency(sha, m - k, n - k, leaves[k..n], false, proof);
      AppendAssociates(before, SubProof(sha, m - k, leaves[k..n][..n - k], false), BuildSubtree(sha, leaves[..k]));
      proof.items := proof.items + [BuildSubtree(sha, leaves[..k])];
    }
  }

  datatype SizeError = NotPositive | OldAboveNew | NewAboveLeaves

  method ConsistencyProof(sha: Sha, oldSize: int, newSize: int, leaves: seq<Digest>) returns (r: Result<seq<Digest>, SizeError>)
    requires |leaves| <= TWO62
    ensures oldSize <= 0 || newSize <= 0 ==> r == Err(NotPositive)
    ensures oldSize > newSize > 0 ==> r == Err(OldAboveNew)
    ensures 0 < oldSize <= newSize && newSize > |leaves| ==> r == Err(NewAboveLeaves)
    ensures 0 < oldSize <= newSize <= |leaves| ==> r == Ok(SubProof(sha, oldSize, leaves[..newSize], true))
  {
    if oldSize <= 0 || newSize <= 0 {
      return Err(NotPositive);
    }
    if oldSize > newSize {
      return Err(OldAboveNew);
    }
    if newSize > |leaves| {
      return Err(NewAboveLeaves);
    }
    if oldSize == newSize {
      return Ok([]);
    }
    var proof := new HashList();
    CollectConsistency(sha, oldSize, newSize, leaves, true, proof);
    assert proof.items == SubProof(sha, oldSize, leaves[..newSize], true);
    r := Ok(proof.items);
  }

  // ---- verification ----

  /** The number of proof elements the verifier consumes. */
  function ProofLength(m: nat, n: nat, b: bool): nat
    requires 1 <= m <= n
    decreases n
  {
    if m == n then
      if b then 0 else 1
    else
      var k := Split(n);
      1 + if m <= k then ProofLength(m, k, b) else ProofLength(m - k, n - k, false)
  }

  datatype Roots = Roots(oldRoot: Digest, newRoot: Digest)

  /** The old and the new root that a proof of the right length determines. */
  function Rebuilt(sha: Sha, m: nat, n: nat, b: bool, knownRoot: Digest, proof: seq<Digest>): Roots
    requires 1 <= m <= n && |proof| == ProofLength(m, n, b)
    decreases n
  {
    if m == n then
      if b then Roots(knownRoot, knownRoot) else Roots(proof[0], proof[0])
    else
      var k, last, inner := Split(n), proof[|proof| - 1], proof[..|proof| - 1];
      if m <= k then
        var r := Rebuilt(sha, m, k, b, knownRoot, inner);
        Roots(r.oldRoot, HashInternal(sha, r.newRoot, last))
      else
        var r := Rebuilt(sha, m - k, n - k, false, ZERO_DIGEST, inner);
        Roots(HashInternal(sha, last, r.oldRoot), HashInternal(sha, last, r.newRoot))
  }

  /** The `*pos` that the recursion advances. */
  class Cursor {
    var pos: nat

    constructor ()
      ensures pos == 0
    {
      pos := 0;
    }
  }

  /** One step of the reconstruction: the children's roots and the next proof element. */
  function Combine(sha: Sha, m: nat, n: nat, below: Roots, node: Digest): Roots {
    if m <= Split(n) then
      Roots(below.oldRoot, HashInternal(sha, below.newRoot, node))
    else
      Roots(HashInternal(sha, node, below.oldRoot), HashInternal(sha, node, below.newRoot))
  }

  lemma RebuiltStep(sha: Sha, m: nat, n: nat, b: bool, knownRoot: Digest, inner: seq<Digest>, node: Digest)
    requires 1 <= m < n
    requires |inner| + 1 == ProofLength(m, n, b)
    ensures Rebuilt(sha, m, n, b, knownRoot, inner + [node]) == Combine(sha, m, n,
      if m <= Split(n) then Rebuilt(sha, m, Split(n), b, knownRoot, inner)
      else Rebuilt(sha, m - Split(n), n - Split(n), false, ZERO_DIGEST, inner), node)
  {
    assert (inner + [node])[..|inner|] == inner;
  }

  lemma ProofLengthStep(m: nat, n: nat, b: bool)
    requires 1 <= m < n
    ensures ProofLength(m, n, b) == 1 + if m <= Split(n) then ProofLength(m, Split(n), b) else ProofLength(m - Split(n), n - Split(n), false)
  {
  }

  lemma RebuiltWhole(sha: Sha, n: nat, b: bool, knownRoot: Digest)
    requires n >= 1
    ensures ProofLength(n, n, b) == if b then 0 else 1
    ensures b ==> Rebuilt(sha, n, n, b, knownRoot, []) == Roots(knownRoot, knownRoot)
    ensures !b ==> forall h: Digest :: Rebuilt(sha, n, n, b, knownRoot, [h]) == Roots(h, h)
  {
  }

  method VerifySubproof(sha: Sha, m: nat, n: nat, b: bool, knownRoot: Digest, proof: seq<Digest>, cursor: Cursor)
    returns (oldRoot: Digest, newRoot: Digest, ok: bool)
    requires 1 <= m <= n <= TWO62 && cursor.pos <= |proof|
    modifies cursor
    ensures old(cursor.pos) <= cursor.pos <= |proof|
    ensures ok <==> old(cursor.pos) + ProofLength(m, n, b) <= |proof|
    ensures ok ==> cursor.pos == old(cursor.pos) + ProofLength(m, n, b)
    ensures ok ==> Roots(oldRoot, newRoot) == Rebuilt(sha, m, n, b, knownRoot, proof[old(cursor.pos)..cursor.pos])
    ensures !ok ==> oldRoot == newRoot == ZERO_DIGEST
    decreases n
  {
    hide Rebuilt, ProofLength, HashInternal, Split;
    RebuiltWhole(sha, n, b, knownRoot);
    if m == n {
      if b {
        assert proof[cursor.pos..cursor.pos] == [];
        return knownRoot, knownRoot, true;
      }
      if cursor.pos >= |proof| {
        return ZERO_DIGEST, ZERO_DIGEST, false;
      }
      var h := proof[cursor.pos];
      assert proof[cursor.pos..cursor.pos + 1] == [h];
      cursor.pos := cursor.pos + 1;
      return h, h, true;
    }
    ghost var start := cursor.pos;
    var k := SplitPoint(n);
    ProofLengthStep(m, n, b);
    if m <= k {
      var leftOld, leftNew, leftOk := VerifySubproof(sha, m, k, b, knownRoot, proof, cursor);
      if !leftOk {
        return ZERO_DIGEST, ZERO_DIGEST, false;
      }
      if cursor.pos >= |proof| {
        return ZERO_DIGEST, ZERO_DIGEST, false;
      }
      var rightHash := proof[cursor.pos];
      RebuiltStep(sha, m, n, b, knownRoot, proof[start..cursor.pos], rightHash);
      SliceSnoc(proof, start, cursor.pos);
      cursor.pos := cursor.pos + 1;
      return leftOld, HashInternal(sha, leftNew, rightHash), true;
    }
    var rightOld, rightNew, rightOk := VerifySubproof(sha, m - k, n - k, false, ZERO_DIGEST, proof, cursor);
    if !rightOk {
      return ZERO_DIGEST, ZERO_DIGEST, false;
    }
    if cursor.pos >= |proof| {
      return ZERO_DIGEST, ZERO_DIGEST, false;
    }
    var leftHash := proof[cursor.pos];
    RebuiltStep(sha, m, n, b, knownRoot, proof[start..cursor.pos], leftHash);
    SliceSnoc(proof, start, cursor.pos);
    cursor.pos := cursor.pos + 1;
    return HashInternal(sha, leftHash, rightOld), HashInternal(sha, leftHash, rightNew), true;
  }

  /** Acceptance as a function of the inputs. Sizes for which the source does not return are not
      accepted. */
  predicate AcceptsConsistency(sha: Sha, oldRoot: Digest, newRoot: Digest, oldSize: int, newSize: int, proof: seq<Digest>) {
    if oldSize == newSize then
      oldRoot == newRoot && proof == []
    else
      && 0 < oldSize < newSize
      && |proof| == ProofLength(oldSize, newSize, true)
      && Rebuilt(sha, oldSize, newSize, true, oldRoot, proof) == Roots(oldRoot, newRoot)
  }

  /** The guards let a pair of sizes through to the recursion. */
  predicate Recurses(oldSize: int, newSize: int) {
    oldSize != newSize && oldSize != 0 && newSize != 0 && oldSize < newSize
  }

  method VerifyConsistency(sha: Sha, oldRoot: Digest, newRoot: Digest, oldSize: int, newSize: int, proof: seq<Digest>)
    returns (accepted: bool)
    requires Recurses(oldSize, newSize) ==> Returns(oldSize, newSize)
    ensures accepted <==> AcceptsConsistency(sha, oldRoot, newRoot, oldSize, newSize, proof)
  {
    if oldSize == newSize {
      return oldRoot == newRoot && |proof| == 0;
    }
    if oldSize == 0 || newSize == 0 || oldSize > newSize {
      return false;
    }
    ReturnsIffInRange(oldSize, newSize);
    var cursor := new Cursor();
    var gotOld, gotNew, ok := VerifySubproof(sha, oldSize, newSize, true, oldRoot, proof, cursor);
    assert proof[0..|proof|] == proof;
    accepted := ok && cursor.pos == |proof| && gotOld == oldRoot && gotNew == newRoot;
  }

  /** Within some depth the recursion of `verifySubproof` comes to equal sizes, and the split of
      every tree size on the way is computed by a loop that ends. */
  ghost predicate ReachesBase(m: int, n: int, steps: nat)
    decreases steps
  {
    m == n || (steps > 0 && LoopEnds(n) && StepReachesBase(m, n, steps))
  }

  ghost predicate StepReachesBase(m: int, n: int, steps: nat)
    requires steps > 0
    decreases steps, 0
  {
    var k := Split(n);
    if m <= k then ReachesBase(m, k, steps - 1) else ReachesBase(m - k, n - k, steps - 1)
  }

  ghost predicate Returns(m: int, n: int) {
    exists steps: nat :: ReachesBase(m, n, steps)
  }

  lemma {:induction false} NegativeNeverReaches(m: int, n: int, steps: nat)
    requires m < 0 && m < n
    ensures !ReachesBase(m, n, steps)
    decreases steps
  {
    if steps > 0 {
      NegativeNeverReaches(m, Split(n), steps - 1);
    }
  }

  lemma {:induction false} PositiveReaches(m: nat, n: nat)
    requires 1 <= m <= n <= TWO62
    ensures ReachesBase(m, n, n)
    decreases n
  {
    if m < n {
      LoopEndsIffWithinRange(n);
      var k := Split(n);
      if m <= k {
        PositiveReaches(m, k);
        ReachesLater(m, k, k, n - 1);
      } else {
        PositiveReaches(m - k, n - k);
        ReachesLater(m - k, n - k, n - k, n - 1);
      }
    }
  }

  lemma {:induction false} ReachesLater(m: int, n: int, steps: nat, more: nat)
    requires ReachesBase(m, n, steps) && steps <= more
    ensures ReachesBase(m, n, more)
    decreases steps
  {
    if m != n {
      var k := Split(n);
      if m <= k {
        ReachesLater(m, k, steps - 1, more - 1);
      } else {
        ReachesLater(m - k, n - k, steps - 1, more - 1);
      }
    }
  }

  /** Past the guards, the source returns exactly for positive old sizes and new sizes up to 2^62.
      The guards exclude old size 0 and let negative ones through, whose recursion never ends; above
      2^62 the first loop of `splitPoint` does not. */
  lemma ReturnsIffInRange(oldSize: int, newSize: int)
    requires Recurses(oldSize, newSize)
    ensures Returns(oldSize, newSize) <==> 0 < oldSize && newSize <= TWO62
  {
    LoopEndsIffWithinRange(newSize);
    if 0 < oldSize && newSize <= TWO62 {
      PositiveReaches(oldSize, newSize);
    } else {
      forall steps: nat ensures !ReachesBase(oldSize, newSize, steps) {
        if oldSize < 0 {
          NegativeNeverReaches(oldSize, newSize, steps);
        }
      }
    }
  }

  // ---- completeness ----

  lemma {:induction false} SubProofLength(sha: Sha, m: nat, leaves: seq<Digest>, b: bool)
    requires 1 <= m <= |leaves|
    ensures |SubProof(sha, m, leaves, b)| == ProofLength(m, |leaves|, b)
    decreases |leaves|
  {
    if m < |leaves| {
      var k := Split(|leaves|);
      if m <= k {
        SubProofLength(sha, m, leaves[..k], b);
      } else {
        SubProofLength(sha, m - k, leaves[k..], false);
      }
    }
  }

  /** A prefix that reaches past the split shares the left subtree of the whole. */
  lemma PrefixRoot(sha: Sha, leaves: seq<Digest>, m: nat)
    requires 2 <= |leaves| && Split(|leaves|) < m <= |leaves|
    ensures var k := Split(|leaves|);
      BuildSubtree(sha, leaves[..m]) == HashInternal(sha, BuildSubtree(sha, leaves[..k]), BuildSubtree(sha, leaves[k..][..m - k]))
  {
    var k := Split(|leaves|);
    SplitStable(m, |leaves|);
    assert leaves[..m][..k] == leaves[..k] && leaves[..m][k..] == leaves[k..][..m - k];
  }

  lemma SubProofOfNode(sha: Sha, m: nat, leaves: seq<Digest>, b: bool)
    requires 1 <= m < |leaves|
    ensures var k := Split(|leaves|);
      SubProof(sha, m, leaves, b) ==
      if m <= k then SubProof(sha, m, leaves[..k], b) + [BuildSubtree(sha, leaves[k..])]
      else SubProof(sha, m - k, leaves[k..], false) + [BuildSubtree(sha, leaves[..k])]
  {
  }

  lemma {:induction false} RebuiltFromSubProof(sha: Sha, m: nat, leaves: seq<Digest>, b: bool, knownRoot: Digest)
    requires 1 <= m <= |leaves|
    requires b ==> knownRoot == BuildSubtree(sha, leaves[..m])
    requires |SubProof(sha, m, leaves, b)| == ProofLength(m, |leaves|, b)
    ensures Rebuilt(sha, m, |leaves|, b, knownRoot, SubProof(sha, m, leaves, b))
         == Roots(BuildSubtree(sha, leaves[..m]), BuildSubtree(sha, leaves))
    decreases |leaves|
  {
    hide Rebuilt, HashInternal, BuildSubtree, SubProof, ProofLength, Split;
    var n := |leaves|;
    if m == n {
      assert leaves[..m] == leaves;
      SubProofWhole(sha, n, leaves, b);
      RebuiltWhole(sha, n, b, knownRoot);
    } else {
      var k := Split(n);
      SubProofOfNode(sha, m, leaves, b);
      ProofLengthStep(m, n, b);
      SubtreeOfNode(sha, leaves);
      if m <= k {
        assert leaves[..k][..m] == leaves[..m];
        RebuiltFromSubProof(sha, m, leaves[..k], b, knownRoot);
        RebuiltStep(sha, m, n, b, knownRoot, SubProof(sha, m, leaves[..k], b), BuildSubtree(sha, leaves[k..]));
      } else {
        PrefixRoot(sha, leaves, m);
        RebuiltFromSubProof(sha, m - k, leaves[k..], false, ZERO_DIGEST);
        RebuiltStep(sha, m, n, b, knownRoot, SubProof(sha, m - k, leaves[k..], false), BuildSubtree(sha, leaves[..k]));
      }
    }
  }

  /** Every generated proof is accepted for the roots of the two prefixes, and consumed exactly. */
  lemma ConsistencyComplete(sha: Sha, leaves: seq<Digest>, oldSize: nat, newSize: nat)
    requires 1 <= oldSize <= newSize <= |leaves|
    ensures AcceptsConsistency(sha, BuildRoot(sha, leaves[..oldSize]), BuildRoot(sha, leaves[..newSize]), oldSize, newSize,
                               SubProof(sha, oldSize, leaves[..newSize], true))
  {
    var tree := leaves[..newSize];
    assert tree[..oldSize] == leaves[..oldSize];
    SubProofLength(sha, oldSize, tree, true);
    if oldSize < newSize {
      RebuiltFromSubProof(sha, oldSize, tree, true, BuildRoot(sha, leaves[..oldSize]));
    }
  }

  // ---- soundness ----

  /** What the verifier hashes to get its new root, from the new root below and the last element. */
  function NewRootInput(m: nat, n: nat, below: Digest, node: Digest): bytes {
    if m <= Split(n) then NodeInput(below, node) else NodeInput(node, below)
  }

  function RebuiltHalf(sha: Sha, m: nat, leaves: seq<Digest>, b: bool, knownRoot: Digest, inner: seq<Digest>): Roots
    requires 1 <= m < |leaves| && |inner| + 1 == ProofLength(m, |leaves|, b)
  {
    if m <= Split(|leaves|) then Rebuilt(sha, m, Split(|leaves|), b, knownRoot, inner)
    else Rebuilt(sha, m - Split(|leaves|), |leaves| - Split(|leaves|), false, ZERO_DIGEST, inner)
  }

  /** Follows the proof down the true tree of the new size and returns the first pair of hashed
      strings that differ. */
  function ConsistencyCollision(sha: Sha, leaves: seq<Digest>, m: nat, b: bool, knownRoot: Digest, proof: seq<Digest>): Option<Collision>
    requires 1 <= m <= |leaves| && |proof| == ProofLength(m, |leaves|, b)
    decreases |leaves|
  {
    if m == |leaves| then None else
      var n, k, last, inner := |leaves|, Split(|leaves|), proof[|proof| - 1], proof[..|proof| - 1];
      var claimed := NewRootInput(m, n, RebuiltHalf(sha, m, leaves, b, knownRoot, inner).newRoot, last);
      var actual := NodeInput(BuildSubtree(sha, leaves[..k]), BuildSubtree(sha, leaves[k..]));
      if claimed != actual then
        Some(Collision(claimed, actual))
      else if m <= k then
        ConsistencyCollision(sha, leaves[..k], m, b, knownRoot, inner)
      else
        ConsistencyCollision(sha, leaves[k..], m - k, false, ZERO_DIGEST, inner)
  }

  ghost predicate Genuine(sha: Sha, leaves: seq<Digest>, m: nat, b: bool, knownRoot: Digest, proof: seq<Digest>)
    requires 1 <= m <= |leaves| && |proof| == ProofLength(m, |leaves|, b)
  {
    && proof == SubProof(sha, m, leaves, b)
    && Rebuilt(sha, m, |leaves|, b, knownRoot, proof).oldRoot == BuildSubtree(sha, leaves[..m])
  }

  /** A collision, or a proof that is the generated one and yields the true old root. */
  ghost predicate GenuineOrCollision(sha: Sha, leaves: seq<Digest>, m: nat, b: bool, knownRoot: Digest, proof: seq<Digest>)
    requires 1 <= m <= |leaves| && |proof| == ProofLength(m, |leaves|, b)
  {
    var c := ConsistencyCollision(sha, leaves, m, b, knownRoot, proof);
    if c.Some? then Collides(sha, c.value) else Genuine(sha, leaves, m, b, knownRoot, proof)
  }

  /** Where the two strings agree the descent goes into the left half. */
  lemma CollisionInLeft(sha: Sha, leaves: seq<Digest>, m: nat, b: bool, knownRoot: Digest, inner: seq<Digest>)
    requires 1 <= m < |leaves| && m <= Split(|leaves|) && |inner| + 1 == ProofLength(m, |leaves|, b)
    requires Rebuilt(sha, m, Split(|leaves|), b, knownRoot, inner).newRoot == BuildSubtree(sha, leaves[..Split(|leaves|)])
    ensures ConsistencyCollision(sha, leaves, m, b, knownRoot, inner + [BuildSubtree(sha, leaves[Split(|leaves|)..])])
         == ConsistencyCollision(sha, leaves[..Split(|leaves|)], m, b, knownRoot, inner)
  {
    hide BuildSubtree, Rebuilt;
    var proof := inner + [BuildSubtree(sha, leaves[Split(|leaves|)..])];
    assert proof[..|proof| - 1] == inner;
  }

  lemma CollisionInRight(sha: Sha, leaves: seq<Digest>, m: nat, b: bool, knownRoot: Digest, inner: seq<Digest>)
    requires 1 <= m < |leaves| && m > Split(|leaves|) && |inner| + 1 == ProofLength(m, |leaves|, b)
    requires Rebuilt(sha, m - Split(|leaves|), |leaves| - Split(|leaves|), false, ZERO_DIGEST, inner).newRoot
          == BuildSubtree(sha, leaves[Split(|leaves|)..])
    ensures ConsistencyCollision(sha, leaves, m, b, knownRoot, inner + [BuildSubtree(sha, leaves[..Split(|leaves|)])])
         == ConsistencyCollision(sha, leaves[Split(|leaves|)..], m - Split(|leaves|), false, ZERO_DIGEST, inner)
  {
    hide BuildSubtree, Rebuilt;
    var proof := inner + [BuildSubtree(sha, leaves[..Split(|leaves|)])];
    assert proof[..|proof| - 1] == inner;
  }

  /** A genuine proof for the half and the other half's root make a genuine proof. */
  lemma GenuineFromLeft(sha: Sha, leaves: seq<Digest>, m: nat, b: bool, knownRoot: Digest, inner: seq<Digest>)
    requires 1 <= m < |leaves| && m <= Split(|leaves|) && |inner| + 1 == ProofLength(m, |leaves|, b)
    requires Genuine(sha, leaves[..Split(|leaves|)], m, b, knownRoot, inner)
    ensures Genuine(sha, leaves, m, b, knownRoot, inner + [BuildSubtree(sha, leaves[Split(|leaves|)..])])
  {
    hide BuildSubtree, Rebuilt;
    var k := Split(|leaves|);
    assert leaves[..k][..m] == leaves[..m];
    RebuiltStep(sha, m, |leaves|, b, knownRoot, inner, BuildSubtree(sha, leaves[k..]));
  }

  lemma GenuineFromRight(sha: Sha, leaves: seq<Digest>, m: nat, b: bool, knownRoot: Digest, inner: seq<Digest>)
    requires 1 <= m < |leaves| && m > Split(|leaves|) && |inner| + 1 == ProofLength(m, |leaves|, b)
    requires Genuine(sha, leaves[Split(|leaves|)..], m - Split(|leaves|), false, ZERO_DIGEST, inner)
    ensures Genuine(sha, leaves, m, b, knownRoot, inner + [BuildSubtree(sha, leaves[..Split(|leaves|)])])
  {
    hide BuildSubtree, Rebuilt;
    var k := Split(|leaves|);
    PrefixRoot(sha, leaves, m);
    RebuiltStep(sha, m, |leaves|, b, knownRoot, inner, BuildSubtree(sha, leaves[..k]));
  }

  lemma GenuineWhole(sha: Sha, leaves: seq<Digest>, b: bool, knownRoot: Digest, proof: seq<Digest>)
    requires leaves != [] && |proof| == ProofLength(|leaves|, |leaves|, b)
    requires Rebuilt(sha, |leaves|, |leaves|, b, knownRoot, proof).newRoot == BuildSubtree(sha, leaves)
    ensures Genuine(sha, leaves, |leaves|, b, knownRoot, proof)
  {
    assert leaves[..|leaves|] == leaves;
  }

  /** A proof whose new root is the true one either is the generated proof and yields the true old
      root, or the descent returns a collision. */
  lemma {:induction false} RebuiltSound(sha: Sha, leaves: seq<Digest>, m: nat, b: bool, knownRoot: Digest, proof: seq<Digest>)
    requires 1 <= m <= |leaves| && |proof| == ProofLength(m, |leaves|, b)
    requires Rebuilt(sha, m, |leaves|, b, knownRoot, proof).newRoot == BuildSubtree(sha, leaves)
    ensures GenuineOrCollision(sha, leaves, m, b, knownRoot, proof)
    decreases |leaves|
  {
    hide BuildSubtree, Genuine;
    if m == |leaves| {
      GenuineWhole(sha, leaves, b, knownRoot, proof);
    } else {
      var k, last, inner := Split(|leaves|), proof[|proof| - 1], proof[..|proof| - 1];
      var left, right := BuildSubtree(sha, leaves[..k]), BuildSubtree(sha, leaves[k..]);
      var below := RebuiltHalf(sha, m, leaves, b, knownRoot, inner).newRoot;
      assert proof == inner + [last];
      RebuiltStep(sha, m, |leaves|, b, knownRoot, inner, last);
      SubtreeOfNode(sha, leaves);
      if NewRootInput(m, |leaves|, below, last) == NodeInput(left, right) {
        if m <= k {
          NodeInputInjective(below, last, left, right);
          RebuiltSound(sha, leaves[..k], m, b, knownRoot, inner);
          CollisionInLeft(sha, leaves, m, b, knownRoot, inner);
          if Genuine(sha, leaves[..k], m, b, knownRoot, inner) {
            GenuineFromLeft(sha, leaves, m, b, knownRoot, inner);
          }
        } else {
          NodeInputInjective(last, below, left, right);
          RebuiltSound(sha, leaves[k..], m - k, false, ZERO_DIGEST, inner);
          CollisionInRight(sha, leaves, m, b, knownRoot, inner);
          if Genuine(sha, leaves[k..], m - k, false, ZERO_DIGEST, inner) {
            GenuineFromRight(sha, leaves, m, b, knownRoot, inner);
          }
        }
      }
    }
  }

  /** The collision that an accepted proof against the root of `leaves` may contain. */
  function ProofCollision(sha: Sha, leaves: seq<Digest>, oldRoot: Digest, oldSize: int, proof: seq<Digest>): Option<Collision> {
    if 0 < oldSize < |leaves| && |proof| == ProofLength(oldSize, |leaves|, true) then
      ConsistencyCollision(sha, leaves, oldSize, true, oldRoot, proof)
    else
      None
  }

  /** Soundness: an accepted proof to the true root is the generated one and its old root is the
      root of the prefix, or a collision comes out of it. */
  lemma ConsistencySound(sha: Sha, leaves: seq<Digest>, oldRoot: Digest, oldSize: int, proof: seq<Digest>)
    requires leaves != [] && AcceptsConsistency(sha, oldRoot, BuildRoot(sha, leaves), oldSize, |leaves|, proof)
    ensures 0 < oldSize <= |leaves|
    ensures var c := ProofCollision(sha, leaves, oldRoot, oldSize, proof);
      if c.Some? then Collides(sha, c.value)
      else oldRoot == BuildRoot(sha, leaves[..oldSize]) && proof == SubProof(sha, oldSize, leaves, true)
  {
    if oldSize == |leaves| {
      assert leaves[..oldSize] == leaves;
    } else {
      RebuiltSound(sha, leaves, oldSize, true, oldRoot, proof);
    }
  }

  // ---- append-only history ----

  datatype Head = Head(size: int, root: Digest)

  /** Consecutive heads are linked by accepted proofs. */
  ghost predicate Linked(sha: Sha, heads: seq<Head>, proofs: seq<seq<Digest>>)
    requires |heads| == |proofs| + 1
  {
    forall i :: 0 <= i < |proofs| ==>
      AcceptsConsistency(sha, heads[i].root, heads[i + 1].root, heads[i].size, heads[i + 1].size, proofs[i])
  }

  /** Walks a history back from its last head, whose tree is `leaves`. */
  function HistoryCollision(sha: Sha, leaves: seq<Digest>, heads: seq<Head>, proofs: seq<seq<Digest>>): Option<Collision>
    requires |heads| == |proofs| + 1
    decreases |proofs|
  {
    if proofs == [] then None else
      var j := |proofs| - 1;
      var c := ProofCollision(sha, leaves, heads[j].root, heads[j].size, proofs[j]);
      if c.Some? || !(0 < heads[j].size <= |leaves|) then c
      else HistoryCollision(sha, leaves[..heads[j].size], heads[..j + 1], proofs[..j])
  }

  /** The head of a prefix of the leaves. */
  ghost predicate IsPrefixHead(sha: Sha, leaves: seq<Digest>, head: Head) {
    0 < head.size <= |leaves| && head.root == BuildRoot(sha, leaves[..head.size])
  }

  lemma PrefixOfPrefix(sha: Sha, leaves: seq<Digest>, size: nat, head: Head)
    requires size <= |leaves| && IsPrefixHead(sha, leaves[..size], head)
    ensures IsPrefixHead(sha, leaves, head)
  {
    assert leaves[..size][..head.size] == leaves[..head.size];
  }

  /** A witness that checks each step to the next head has seen only prefixes of the last tree, or
      a collision comes out of the proofs it saw. */
  lemma {:induction false} HistoryIsAppendOnly(sha: Sha, leaves: seq<Digest>, heads: seq<Head>, proofs: seq<seq<Digest>>)
    requires |heads| == |proofs| + 1 && Linked(sha, heads, proofs)
    requires leaves != [] && heads[|proofs|] == Head(|leaves|, BuildRoot(sha, leaves))
    ensures var c := HistoryCollision(sha, leaves, heads, proofs);
      (c.Some? && Collides(sha, c.value)) ||
      (c.None? && forall i :: 0 <= i < |heads| ==> IsPrefixHead(sha, leaves, heads[i]))
    decreases |proofs|
  {
    hide BuildRoot, ProofCollision, Collides, AcceptsConsistency;
    assert leaves[..|leaves|] == leaves;
    if proofs != [] {
      var j := |proofs| - 1;
      var size := heads[j].size;
      ConsistencySound(sha, leaves, heads[j].root, size, proofs[j]);
      if ProofCollision(sha, leaves, heads[j].root, size, proofs[j]).None? {
        assert Linked(sha, heads[..j + 1], proofs[..j]);
        HistoryIsAppendOnly(sha, leaves[..size], heads[..j + 1], proofs[..j]);
        if HistoryCollision(sha, leaves[..size], heads[..j + 1], proofs[..j]).None? {
          forall i | 0 <= i < |heads| ensures IsPrefixHead(sha, leaves, heads[i]) {
            if i <= j {
              assert heads[..j + 1][i] == heads[i];
              PrefixOfPrefix(sha, leaves, size, heads[i]);
            }
          }
        }
      }
    }
  }

  /** RFC 6962 section 2.1.2: at most ceil(log2(n)) + 1 nodes. */
  lemma {:induction false} ProofLengthBound(m: nat, n: nat, b: bool, height: nat)
    requires 1 <= m <= n <= Pow2(height)
    ensures ProofLength(m, n, b) <= height + 1
    decreases n
  {
    if m < n {
      SplitHalves(n, height);
      var k := Split(n);
      if m <= k {
        ProofLengthBound(m, k, b, height - 1);
      } else {
        ProofLengthBound(m - k, n - k, false, height - 1);
      }
    }
  }
}
