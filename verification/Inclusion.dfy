/** Audit paths of RFC 6962 section 2.1.1: generation and verification (internal/merkle/proof.go). */
module Inclusion {
  import opened ByteStrings
  import opened Splitting
  import opened MerkleTree

  // ---- generation ----

  /** The audit path, ordered from the leaf to the root. */
  function AuditPath(sha: Sha, nodes: seq<Digest>, index: nat): seq<Digest>
    requires index < |nodes|
    decreases |nodes|
  {
    if |nodes| == 1 then [] else
      var k := Split(|nodes|);
      if index < k then
        AuditPath(sha, nodes[..k], index) + [BuildSubtree(sha, nodes[k..])]
      else
        AuditPath(sha, nodes[k..], index - k) + [BuildSubtree(sha, nodes[..k])]
  }

  /** The slice that the recursive collectors append to through a pointer. */
  class HashList {
    var items: seq<Digest>

    constructor ()
      ensures items == []
    {
      items := [];
    }
  }

  method CollectPath(sha: Sha, nodes: seq<Digest>, index: nat, path: HashList)
    requires index < |nodes| <= TWO62
    modifies path
    ensures path.items == old(path.items) + AuditPath(sha, nodes, index)
    decreases |nodes|
  {
    if |nodes| == 1 {
      return;
    }
    var k := SplitPoint(|nodes|);
    if index < k {
      CollectPath(sha, nodes[..k], index, path);
      path.items := path.items + [BuildSubtree(sha, nodes[k..])];
    } else {
      CollectPath(sha, nodes[k..], index - k, path);
      path.items := path.items + [BuildSubtree(sha, nodes[..k])];
    }
  }

  datatype PathError = EmptyTree | IndexOutOfRange

  method InclusionProof(sha: Sha, leaves: seq<Digest>, index: int) returns (r: Result<seq<Digest>, PathError>)
    requires |leaves| <= TWO62
    ensures leaves == [] ==> r == Err(EmptyTree)
    ensures leaves != [] && !(0 <= index < |leaves|) ==> r == Err(IndexOutOfRange)
    ensures 0 <= index < |leaves| ==> r == Ok(AuditPath(sha, leaves, index))
  {
    if leaves == [] {
      return Err(EmptyTree);
    }
    if index < 0 || index >= |leaves| {
      return Err(IndexOutOfRange);
    }
    var path := new HashList();
    CollectPath(sha, leaves, index, path);
    assert path.items == AuditPath(sha, leaves, index);
    r := Ok(path.items);
  }

  // ---- verification ----

  /** The root that a leaf hash at `index` of `size` leaves and a path determine. A path that is
      longer than the tree is deep keeps hashing on the left. */
  function RootFromPath(sha: Sha, hash: Digest, index: nat, size: nat, path: seq<Digest>): Digest
    requires index < size
    decreases |path|
  {
    if path == [] then hash else
      var k, last, inner := Split(size), path[|path| - 1], path[..|path| - 1];
      if index < k then
        HashInternal(sha, RootFromPath(sha, hash, index, k, inner), last)
      else
        HashInternal(sha, last, RootFromPath(sha, hash, index - k, size - k, inner))
  }

  /** True where the leaf lies in the right subtree, from the root down. */
  function Directions(index: nat, size: nat, count: nat): (goRight: seq<bool>)
    requires index < size
    ensures |goRight| == count
    decreases count
  {
    if count == 0 then [] else
      var k := Split(size);
      if index < k then [false] + Directions(index, k, count - 1)
      else [true] + Directions(index - k, size - k, count - 1)
  }

  /** Applies directions that are listed from the root down to a path listed from the leaf up. */
  function FoldUp(sha: Sha, hash: Digest, goRight: seq<bool>, path: seq<Digest>): Digest
    requires |goRight| == |path|
    decreases |path|
  {
    if path == [] then hash else
      var last, below := path[|path| - 1], FoldUp(sha, hash, goRight[1..], path[..|path| - 1]);
      if goRight[0] then HashInternal(sha, last, below) else HashInternal(sha, below, last)
  }

  /** The two loops of the verifier compute the recursive root. */
  lemma {:induction false} FoldUpIsRootFromPath(sha: Sha, hash: Digest, index: nat, size: nat, path: seq<Digest>)
    requires index < size
    ensures FoldUp(sha, hash, Directions(index, size, |path|), path) == RootFromPath(sha, hash, index, size, path)
    decreases |path|
  {
    hide HashInternal, Split;
    if path != [] {
      var k, inner := Split(size), path[..|path| - 1];
      var dirs := Directions(index, size, |path|);
      if index < k {
        assert dirs[1..] == Directions(index, k, |inner|);
        FoldUpIsRootFromPath(sha, hash, index, k, inner);
      } else {
        assert dirs[1..] == Directions(index - k, size - k, |inner|);
        FoldUpIsRootFromPath(sha, hash, index - k, size - k, inner);
      }
    }
  }

  /** Acceptance as a function of the inputs; the path length is never looked at. */
  predicate AcceptsInclusion(sha: Sha, leafHash: Digest, root: Digest, index: int, treeSize: int, proof: seq<Digest>) {
    0 <= index < treeSize && RootFromPath(sha, leafHash, index, treeSize, proof) == root
  }

  /** The precondition is where the source ends: `splitPoint` is reached only by an index in range
      and a non-empty proof, and its loop does not end above 2^62. */
  method VerifyInclusion(sha: Sha, leafHash: Digest, root: Digest, index: int, treeSize: int, proof: seq<Digest>)
    returns (ok: bool)
    requires treeSize <= TWO62 || proof == [] || !(0 <= index < treeSize)
    ensures ok <==> AcceptsInclusion(sha, leafHash, root, index, treeSize, proof)
  {
    hide HashInternal, RootFromPath, Directions, FoldUp, Split;
    if treeSize == 0 || index < 0 || index >= treeSize {
      return false;
    }
    var goRight := new bool[|proof|];
    ghost var dirs := Directions(index, treeSize, |proof|);
    var n, i := treeSize, index;
    for j := 0 to |proof|
      invariant 0 <= i < n <= treeSize
      invariant goRight[..j] == dirs[..j]
      invariant dirs[j..] == Directions(i, n, |proof| - j)
    {
      DirectionsStep(dirs, i, n, j);
      var k := SplitPoint(n);
      if i < k {
        goRight[j] := false;
        n := k;
      } else {
        goRight[j] := true;
        i := i - k;
        n := n - k;
      }
      assert goRight[..j + 1] == goRight[..j] + [goRight[j]];
    }
    assert goRight[..] == dirs;

    var hash := leafHash;
    FoldStart(sha, leafHash, dirs, proof);
    for j := 0 to |proof|
      invariant goRight[..] == dirs
      invariant hash == FoldUp(sha, leafHash, dirs[|proof| - j..], proof[..j])
    {
      FoldStep(sha, leafHash, dirs, proof, j);
      if goRight[|proof| - 1 - j] {
        hash := HashInternal(sha, proof[j], hash);
      } else {
        hash := HashInternal(sha, hash, proof[j]);
      }
    }
    assert dirs[0..] == dirs && proof[..|proof|] == proof;
    FoldUpIsRootFromPath(sha, leafHash, index, treeSize, proof);
    ok := hash == root;
  }

  lemma DirectionsStep(dirs: seq<bool>, i: nat, n: nat, j: nat)
    requires i < n && j < |dirs| && dirs[j..] == Directions(i, n, |dirs| - j)
    ensures var k := Split(n);
      if i < k then k <= n && !dirs[j] && dirs[j + 1..] == Directions(i, k, |dirs| - (j + 1))
      else k <= i && dirs[j] && dirs[j + 1..] == Directions(i - k, n - k, |dirs| - (j + 1))
  {
    assert dirs[j] == dirs[j..][0] && dirs[j + 1..] == dirs[j..][1..];
  }

  lemma FoldStart(sha: Sha, hash: Digest, dirs: seq<bool>, path: seq<Digest>)
    requires |dirs| == |path|
    ensures FoldUp(sha, hash, dirs[|path|..], path[..0]) == hash
  {
  }

  lemma FoldStep(sha: Sha, hash: Digest, dirs: seq<bool>, path: seq<Digest>, j: nat)
    requires |dirs| == |path| && j < |path|
    ensures var below := FoldUp(sha, hash, dirs[|path| - j..], path[..j]);
      FoldUp(sha, hash, dirs[|path| - (j + 1)..], path[..j + 1])
        == if dirs[|path| - 1 - j] then HashInternal(sha, path[j], below) else HashInternal(sha, below, path[j])
  {
    hide HashInternal;
    var above := dirs[|path| - (j + 1)..];
    assert above[0] == dirs[|path| - 1 - j] && above[1..] == dirs[|path| - j..];
    assert path[..j + 1][..j] == path[..j];
  }

  lemma AuditPathOfNode(sha: Sha, nodes: seq<Digest>, index: nat)
    requires index < |nodes| && |nodes| >= 2
    ensures var k := Split(|nodes|);
      AuditPath(sha, nodes, index) ==
      if index < k then AuditPath(sha, nodes[..k], index) + [BuildSubtree(sha, nodes[k..])]
      else AuditPath(sha, nodes[k..], index - k) + [BuildSubtree(sha, nodes[..k])]
  {
  }

  lemma RootFromPathStep(sha: Sha, hash: Digest, index: nat, size: nat, inner: seq<Digest>, last: Digest)
    requires index < size
    ensures var k := Split(size);
      RootFromPath(sha, hash, index, size, inner + [last]) ==
      if index < k then HashInternal(sha, RootFromPath(sha, hash, index, k, inner), last)
      else HashInternal(sha, last, RootFromPath(sha, hash, index - k, size - k, inner))
  {
    hide HashInternal;
    assert (inner + [last])[..|inner|] == inner;
  }

  /** Every generated path verifies, at every index of every tree. */
  lemma {:induction false} InclusionComplete(sha: Sha, leaves: seq<Digest>, index: nat)
    requires index < |leaves|
    ensures AcceptsInclusion(sha, leaves[index], BuildRoot(sha, leaves), index, |leaves|, AuditPath(sha, leaves, index))
    decreases |leaves|
  {
    if |leaves| == 1 {
      SingleLeaf(sha, leaves);
    } else {
      hide HashInternal, AuditPath, RootFromPath, BuildSubtree;
      var k := Split(|leaves|);
      AuditPathOfNode(sha, leaves, index);
      SubtreeOfNode(sha, leaves);
      if index < k {
        InclusionComplete(sha, leaves[..k], index);
        RootFromPathStep(sha, leaves[index], index, |leaves|, AuditPath(sha, leaves[..k], index), BuildSubtree(sha, leaves[k..]));
      } else {
        InclusionComplete(sha, leaves[k..], index - k);
        RootFromPathStep(sha, leaves[index], index, |leaves|, AuditPath(sha, leaves[k..], index - k), BuildSubtree(sha, leaves[..k]));
      }
    }
  }

  lemma SingleLeaf(sha: Sha, leaves: seq<Digest>)
    requires |leaves| == 1
    ensures AcceptsInclusion(sha, leaves[0], BuildRoot(sha, leaves), 0, 1, AuditPath(sha, leaves, 0))
  {
  }

  // ---- soundness ----

  /** The string whose hash a claim amounts to. */
  function ClaimInput(sha: Sha, data: bytes, index: nat, size: nat, path: seq<Digest>): (input: bytes)
    requires index < size
    ensures sha(input) == RootFromPath(sha, HashLeaf(sha, data), index, size, path)
    ensures |input| >= 1 && input[0] == if path == [] then LEAF_PREFIX else INTERNAL_PREFIX
  {
    if path == [] then LeafInput(data) else
      var k, last, inner := Split(size), path[|path| - 1], path[..|path| - 1];
      if index < k then
        NodeInput(RootFromPath(sha, HashLeaf(sha, data), index, k, inner), last)
      else
        NodeInput(last, RootFromPath(sha, HashLeaf(sha, data), index - k, size - k, inner))
  }

  /** Follows the claim down the true tree and returns the first pair of hashed strings that
      differ. The claimed size need not be that of the tree. */
  function InclusionCollision(sha: Sha, entries: seq<bytes>, data: bytes, index: nat, size: nat, path: seq<Digest>)
    : Option<Collision>
    requires entries != [] && index < size
    decreases |path|
  {
    if RootInput(sha, entries) != ClaimInput(sha, data, index, size, path) then
      Some(Collision(RootInput(sha, entries), ClaimInput(sha, data, index, size, path)))
    else if path == [] || |entries| == 1 then
      None
    else
      var k, mid, inner := Split(size), Split(|entries|), path[..|path| - 1];
      if index < k then
        InclusionCollision(sha, entries[..mid], data, index, k, inner)
      else
        InclusionCollision(sha, entries[mid..], data, index - k, size - k, inner)
  }

  /** What equality of the two strings says at an internal node. */
  lemma NodeStep(sha: Sha, entries: seq<bytes>, data: bytes, index: nat, size: nat, path: seq<Digest>)
    requires entries != [] && index < size && path != []
    requires RootInput(sha, entries) == ClaimInput(sha, data, index, size, path)
    ensures |entries| >= 2
    ensures var k, mid, last, inner := Split(size), Split(|entries|), path[|path| - 1], path[..|path| - 1];
      if index < k then
        && RootFromPath(sha, HashLeaf(sha, data), index, k, inner) == EntriesRoot(sha, entries[..mid])
        && last == EntriesRoot(sha, entries[mid..])
      else
        && RootFromPath(sha, HashLeaf(sha, data), index - k, size - k, inner) == EntriesRoot(sha, entries[mid..])
        && last == EntriesRoot(sha, entries[..mid])
  {
    var k, mid, last, inner := Split(size), Split(|entries|), path[|path| - 1], path[..|path| - 1];
    var left, right := EntriesRoot(sha, entries[..mid]), EntriesRoot(sha, entries[mid..]);
    if index < k {
      NodeInputInjective(left, right, RootFromPath(sha, HashLeaf(sha, data), index, k, inner), last);
    } else {
      NodeInputInjective(left, right, last, RootFromPath(sha, HashLeaf(sha, data), index - k, size - k, inner));
    }
  }

  /** A path of any length, for any claimed index and size: the data is an entry of the tree. */
  lemma {:induction false} InclusionSound(sha: Sha, entries: seq<bytes>, data: bytes, index: nat, size: nat, path: seq<Digest>)
    requires entries != []
    requires AcceptsInclusion(sha, HashLeaf(sha, data), EntriesRoot(sha, entries), index, size, path)
    ensures var c := InclusionCollision(sha, entries, data, index, size, path);
      if c.Some? then Collides(sha, c.value) else data in entries
    decreases |path|
  {
    if RootInput(sha, entries) == ClaimInput(sha, data, index, size, path) {
      if path == [] {
        LeafInputInjective(data, entries[0]);
      } else {
        NodeStep(sha, entries, data, index, size, path);
        var k, mid, inner := Split(size), Split(|entries|), path[..|path| - 1];
        if index < k {
          InclusionSound(sha, entries[..mid], data, index, k, inner);
        } else {
          InclusionSound(sha, entries[mid..], data, index - k, size - k, inner);
        }
      }
    }
  }

  ghost predicate Honest(sha: Sha, entries: seq<bytes>, data: bytes, index: nat, path: seq<Digest>)
    requires index < |entries|
  {
    data == entries[index] && path == AuditPath(sha, LeafHashes(sha, entries), index)
  }

  lemma AuditPathStep(sha: Sha, entries: seq<bytes>, index: nat)
    requires index < |entries| && |entries| >= 2
    ensures var mid := Split(|entries|);
      AuditPath(sha, LeafHashes(sha, entries), index) ==
      if index < mid then AuditPath(sha, LeafHashes(sha, entries[..mid]), index) + [EntriesRoot(sha, entries[mid..])]
      else AuditPath(sha, LeafHashes(sha, entries[mid..]), index - mid) + [EntriesRoot(sha, entries[..mid])]
  {
    var mid := Split(|entries|);
    LeafHashesSlice(sha, entries, 0, mid);
    LeafHashesSlice(sha, entries, mid, |entries|);
    var leaves := LeafHashes(sha, entries);
    assert leaves[..mid] == LeafHashes(sha, entries[..mid]) && leaves[mid..] == LeafHashes(sha, entries[mid..]);
  }

  lemma HonestStep(sha: Sha, entries: seq<bytes>, data: bytes, index: nat, path: seq<Digest>)
    requires index < |entries| && |entries| >= 2 && path != []
    ensures var mid, last, inner := Split(|entries|), path[|path| - 1], path[..|path| - 1];
      Honest(sha, entries, data, index, path) <==>
      if index < mid then last == EntriesRoot(sha, entries[mid..]) && Honest(sha, entries[..mid], data, index, inner)
      else last == EntriesRoot(sha, entries[..mid]) && Honest(sha, entries[mid..], data, index - mid, inner)
  {
    var mid := Split(|entries|);
    AuditPathStep(sha, entries, index);
    if index < mid {
      SameEnds(path, AuditPath(sha, LeafHashes(sha, entries[..mid]), index), EntriesRoot(sha, entries[mid..]));
    } else {
      SameEnds(path, AuditPath(sha, LeafHashes(sha, entries[mid..]), index - mid), EntriesRoot(sha, entries[..mid]));
    }
  }

  /** At the tree's own size an accepted claim is exactly the honest one, or the descent returns a
      collision; on an honest claim it returns none. */
  lemma {:induction false} InclusionBinding(sha: Sha, entries: seq<bytes>, data: bytes, index: nat, path: seq<Digest>)
    requires AcceptsInclusion(sha, HashLeaf(sha, data), EntriesRoot(sha, entries), index, |entries|, path)
    ensures InclusionCollision(sha, entries, data, index, |entries|, path).None?
       <==> Honest(sha, entries, data, index, path)
    decreases |path|, 1
  {
    if RootInput(sha, entries) != ClaimInput(sha, data, index, |entries|, path) {
      HonestInputsEqual(sha, entries, data, index, path);
    } else if path == [] {
      LeafInputInjective(data, entries[0]);
    } else {
      InclusionBindingNode(sha, entries, data, index, path);
    }
  }

  lemma {:induction false} InclusionBindingNode(sha: Sha, entries: seq<bytes>, data: bytes, index: nat, path: seq<Digest>)
    requires index < |entries| && path != []
    requires RootInput(sha, entries) == ClaimInput(sha, data, index, |entries|, path)
    ensures InclusionCollision(sha, entries, data, index, |entries|, path).None?
       <==> Honest(sha, entries, data, index, path)
    decreases |path|, 0
  {
    hide HashLeaf, RootInput, ClaimInput, Honest, EntriesRoot, Split, RootFromPath;
    var mid, inner := Split(|entries|), path[..|path| - 1];
    assert |entries| >= 2 by { NodeStep(sha, entries, data, index, |entries|, path); }
    var half, at := if index < mid then entries[..mid] else entries[mid..], if index < mid then index else index - mid;
    assert Honest(sha, entries, data, index, path) <==> Honest(sha, half, data, at, inner) by {
      NodeStep(sha, entries, data, index, |entries|, path);
      HonestStep(sha, entries, data, index, path);
    }
    assert AcceptsInclusion(sha, HashLeaf(sha, data), EntriesRoot(sha, half), at, |half|, inner) by {
      NodeStep(sha, entries, data, index, |entries|, path);
    }
    InclusionBinding(sha, half, data, at, inner);
  }

  lemma HonestOfOne(sha: Sha, entries: seq<bytes>, data: bytes, path: seq<Digest>)
    requires |entries| == 1
    ensures Honest(sha, entries, data, 0, path) ==> RootInput(sha, entries) == ClaimInput(sha, data, 0, 1, path)
  {
  }

  lemma HonestPathNotEmpty(sha: Sha, entries: seq<bytes>, data: bytes, index: nat, path: seq<Digest>)
    requires index < |entries| && |entries| >= 2 && Honest(sha, entries, data, index, path)
    ensures path != []
  {
    hide LeafHashes;
    AuditPathStep(sha, entries, index);
  }

  lemma HonestRoot(sha: Sha, entries: seq<bytes>, data: bytes, index: nat, path: seq<Digest>)
    requires index < |entries| && Honest(sha, entries, data, index, path)
    ensures RootFromPath(sha, HashLeaf(sha, data), index, |entries|, path) == EntriesRoot(sha, entries)
  {
    hide HashLeaf, BuildRoot, RootFromPath, AuditPath;
    InclusionComplete(sha, LeafHashes(sha, entries), index);
  }

  lemma HonestInputsEqual(sha: Sha, entries: seq<bytes>, data: bytes, index: nat, path: seq<Digest>)
    requires index < |entries|
    ensures Honest(sha, entries, data, index, path)
        ==> RootInput(sha, entries) == ClaimInput(sha, data, index, |entries|, path)
  {
    hide HashLeaf, EntriesRoot, Honest, RootFromPath;
    if |entries| == 1 {
      HonestOfOne(sha, entries, data, path);
    } else if Honest(sha, entries, data, index, path) {
      HonestPathNotEmpty(sha, entries, data, index, path);
      HonestStep(sha, entries, data, index, path);
      var mid, inner := Split(|entries|), path[..|path| - 1];
      if index < mid {
        HonestRoot(sha, entries[..mid], data, index, inner);
      } else {
        HonestRoot(sha, entries[mid..], data, index - mid, inner);
      }
    }
  }

  // ---- path lengths ----

  function PathLength(index: nat, size: nat): (length: nat)
    requires index < size
    decreases size
  {
    if size == 1 then 0 else
      var k := Split(size);
      1 + if index < k then PathLength(index, k) else PathLength(index - k, size - k)
  }

  lemma {:induction false} AuditPathLength(sha: Sha, nodes: seq<Digest>, index: nat)
    requires index < |nodes|
    ensures |AuditPath(sha, nodes, index)| == PathLength(index, |nodes|)
    decreases |nodes|
  {
    if |nodes| > 1 {
      var k := Split(|nodes|);
      if index < k {
        AuditPathLength(sha, nodes[..k], index);
      } else {
        AuditPathLength(sha, nodes[k..], index - k);
      }
    }
  }

  /** RFC 6962 section 2.1.1: at most ceil(log2(n)) nodes. */
  lemma {:induction false} PathLengthBound(index: nat, size: nat, height: nat)
    requires index < size <= Pow2(height)
    ensures PathLength(index, size) <= height
    decreases size
  {
    if size > 1 {
      SplitHalves(size, height);
      var k := Split(size);
      if index < k {
        PathLengthBound(index, k, height - 1);
      } else {
        PathLengthBound(index - k, size - k, height - 1);
      }
    }
  }

  /** The length is not checked: a one-leaf tree accepts a path of one node, which no generated
      path for it has. */
  lemma LongerPathAccepted(sha: Sha, leaf: Digest, extra: Digest)
    ensures AcceptsInclusion(sha, leaf, HashInternal(sha, extra, leaf), 0, 1, [extra])
    ensures PathLength(0, 1) == 0
  {
    assert [extra][..0] == [];
  }
}
