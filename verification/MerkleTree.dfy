/** The Merkle tree hash of RFC 6962 section 2.1 over leaf hashes (internal/merkle/merkle.go).
    Every result holds for every function `sha` from byte strings to 32-byte digests. */
module MerkleTree {
  import opened ByteStrings
  import opened Splitting

  type Digest = d: bytes | |d| == 32 witness seq(32, _ => 0)

  type Sha = bytes -> Digest

  const LEAF_PREFIX: byte := 0x00
  const INTERNAL_PREFIX: byte := 0x01

  const ZERO_DIGEST: Digest :=
    [0, 0, 0, 0, 0, 0, 0, 0, 0, 0, 0, 0, 0, 0, 0, 0, 0, 0, 0, 0, 0, 0, 0, 0, 0, 0, 0, 0, 0, 0, 0, 0]

  function LeafInput(data: bytes): bytes {
    [LEAF_PREFIX] + data
  }

  function NodeInput(left: Digest, right: Digest): bytes {
    [INTERNAL_PREFIX] + left + right
  }

  function HashLeaf(sha: Sha, data: bytes): Digest {
    sha(LeafInput(data))
  }

  function HashInternal(sha: Sha, left: Digest, right: Digest): Digest {
    sha(NodeInput(left, right))
  }

  function BuildSubtree(sha: Sha, nodes: seq<Digest>): Digest
    requires nodes != []
    decreases |nodes|
  {
    if |nodes| == 1 then nodes[0] else
      var mid := Split(|nodes|);
      HashInternal(sha, BuildSubtree(sha, nodes[..mid]), BuildSubtree(sha, nodes[mid..]))
  }

  lemma SubtreeOfNode(sha: Sha, nodes: seq<Digest>)
    requires |nodes| >= 2
    ensures BuildSubtree(sha, nodes)
         == HashInternal(sha, BuildSubtree(sha, nodes[..Split(|nodes|)]), BuildSubtree(sha, nodes[Split(|nodes|)..]))
  {
  }

  function BuildRoot(sha: Sha, leaves: seq<Digest>): Digest {
    if leaves == [] then ZERO_DIGEST else BuildSubtree(sha, leaves)
  }

  function LeafHashes(sha: Sha, entries: seq<bytes>): (leaves: seq<Digest>)
    ensures |leaves| == |entries|
    ensures forall i :: 0 <= i < |entries| ==> leaves[i] == HashLeaf(sha, entries[i])
  {
    if entries == [] then [] else
      LeafHashes(sha, entries[..|entries| - 1]) + [HashLeaf(sha, entries[|entries| - 1])]
  }

  // ---- collisions, as data that a caller can check ----

  datatype Collision = Collision(x: bytes, y: bytes)

  predicate Collides(sha: Sha, c: Collision) {
    c.x != c.y && sha(c.x) == sha(c.y)
  }

  function Either(a: Option<Collision>, b: Option<Collision>): (r: Option<Collision>)
    ensures r.None? <==> a.None? && b.None?
    ensures r.Some? ==> r == a || r == b
  {
    if a.Some? then a else b
  }

  lemma NodeInputInjective(a: Digest, b: Digest, c: Digest, d: Digest)
    ensures NodeInput(a, b) == NodeInput(c, d) <==> a == c && b == d
  {
    assert NodeInput(a, b)[1..33] == a && NodeInput(a, b)[33..] == b;
    assert NodeInput(c, d)[1..33] == c && NodeInput(c, d)[33..] == d;
  }

  lemma LeafInputInjective(x: bytes, y: bytes)
    ensures LeafInput(x) == LeafInput(y) <==> x == y
  {
    assert LeafInput(x)[1..] == x && LeafInput(y)[1..] == y;
  }

  lemma LeafHashesSlice(sha: Sha, entries: seq<bytes>, lo: nat, hi: nat)
    requires lo <= hi <= |entries|
    ensures LeafHashes(sha, entries)[lo..hi] == LeafHashes(sha, entries[lo..hi])
  {
    hide LeafHashes, HashLeaf;
    var part, whole := LeafHashes(sha, entries[lo..hi]), LeafHashes(sha, entries);
    forall i | 0 <= i < hi - lo ensures whole[lo..hi][i] == part[i] {
      assert whole[lo..hi][i] == whole[lo + i];
    }
  }

  /** The root the source reports for a list of canonical entries. */
  function EntriesRoot(sha: Sha, entries: seq<bytes>): Digest {
    BuildRoot(sha, LeafHashes(sha, entries))
  }

  lemma EntriesRootOfNode(sha: Sha, entries: seq<bytes>)
    requires |entries| >= 2
    ensures EntriesRoot(sha, entries)
         == HashInternal(sha, EntriesRoot(sha, entries[..Split(|entries|)]), EntriesRoot(sha, entries[Split(|entries|)..]))
  {
    var mid := Split(|entries|);
    var leaves := LeafHashes(sha, entries);
    assert leaves[..mid] == LeafHashes(sha, entries[..mid]) by { LeafHashesSlice(sha, entries, 0, mid); }
    assert leaves[mid..] == LeafHashes(sha, entries[mid..]) by { LeafHashesSlice(sha, entries, mid, |entries|); }
    assert BuildSubtree(sha, leaves) == HashInternal(sha, BuildSubtree(sha, leaves[..mid]), BuildSubtree(sha, leaves[mid..]));
  }

  // ---- RFC 6962 section 2.1 in bytes ----

  /** The root of no entries: 32 zero bytes, where the RFC has the hash of the empty string. */
  lemma RootOfNothing(sha: Sha)
    ensures |EntriesRoot(sha, [])| == 32 && forall i :: 0 <= i < 32 ==> EntriesRoot(sha, [])[i] == 0
  {
    assert LeafHashes(sha, []) == [];
  }

  /** The root of one entry is the hash of a zero byte and the entry. */
  lemma RootOfOne(sha: Sha, d: bytes)
    ensures EntriesRoot(sha, [d]) == sha([0x00] + d)
  {
    assert LeafHashes(sha, [d]) == [sha([0x00] + d)];
  }

  /** For any power of two k with k < n <= 2k, the root of n entries is the hash of a one byte, the
      root of the first k and the root of the others, in this order. */
  lemma RootOfParts(sha: Sha, es: seq<bytes>, k: nat)
    requires |es| >= 2 && IsPow2(k) && k < |es| <= 2 * k
    ensures EntriesRoot(sha, es) == sha([0x01] + EntriesRoot(sha, es[..k]) + EntriesRoot(sha, es[k..]))
  {
    hide EntriesRoot;
    SplitUnique(k, |es|);
    EntriesRootOfNode(sha, es);
  }

  /** The string whose hash the root of a non-empty list of entries is. */
  function RootInput(sha: Sha, entries: seq<bytes>): (input: bytes)
    requires entries != []
    ensures sha(input) == EntriesRoot(sha, entries)
    ensures |input| >= 1 && input[0] == if |entries| == 1 then LEAF_PREFIX else INTERNAL_PREFIX
  {
    if |entries| == 1 then LeafInput(entries[0]) else
      EntriesRootOfNode(sha, entries);
      NodeInput(EntriesRoot(sha, entries[..Split(|entries|)]), EntriesRoot(sha, entries[Split(|entries|)..]))
  }

  /** Descends two trees in step and returns the first pair of hashed strings that differ. */
  function RootCollision(sha: Sha, xs: seq<bytes>, ys: seq<bytes>): Option<Collision>
    requires xs != [] && ys != []
    decreases |xs|
  {
    if RootInput(sha, xs) != RootInput(sha, ys) then
      Some(Collision(RootInput(sha, xs), RootInput(sha, ys)))
    else if |xs| == 1 || |ys| == 1 then
      None
    else
      Either(RootCollision(sha, xs[..Split(|xs|)], ys[..Split(|ys|)]),
             RootCollision(sha, xs[Split(|xs|)..], ys[Split(|ys|)..]))
  }

  lemma RootInputsEqual(sha: Sha, xs: seq<bytes>, ys: seq<bytes>)
    requires xs != [] && ys != [] && RootInput(sha, xs) == RootInput(sha, ys)
    ensures |xs| == 1 <==> |ys| == 1
    ensures |xs| == 1 ==> xs == ys
    ensures |xs| >= 2 ==> EntriesRoot(sha, xs[..Split(|xs|)]) == EntriesRoot(sha, ys[..Split(|ys|)])
    ensures |xs| >= 2 ==> EntriesRoot(sha, xs[Split(|xs|)..]) == EntriesRoot(sha, ys[Split(|ys|)..])
  {
    if |xs| == 1 {
      LeafInputInjective(xs[0], ys[0]);
    } else {
      NodeInputInjective(EntriesRoot(sha, xs[..Split(|xs|)]), EntriesRoot(sha, xs[Split(|xs|)..]),
                         EntriesRoot(sha, ys[..Split(|ys|)]), EntriesRoot(sha, ys[Split(|ys|)..]));
    }
  }

  /** Equal roots bind the entries and their number: either the lists are equal, and then the
      descent finds nothing, or it returns a collision. */
  lemma {:induction false} RootBinding(sha: Sha, xs: seq<bytes>, ys: seq<bytes>)
    requires xs != [] && ys != []
    requires EntriesRoot(sha, xs) == EntriesRoot(sha, ys)
    ensures RootCollision(sha, xs, ys).None? <==> xs == ys
    ensures RootCollision(sha, xs, ys).Some? ==> Collides(sha, RootCollision(sha, xs, ys).value)
    decreases |xs|
  {
    if RootInput(sha, xs) == RootInput(sha, ys) {
      RootInputsEqual(sha, xs, ys);
      if |xs| >= 2 {
        var i, j := Split(|xs|), Split(|ys|);
        RootBinding(sha, xs[..i], ys[..j]);
        RootBinding(sha, xs[i..], ys[j..]);
        if xs[..i] == ys[..j] && xs[i..] == ys[j..] {
          SameParts(xs, i, ys, j);
        }
      }
    }
  }
}
