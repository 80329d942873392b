/** Token boundary roots, computed by the Rust tokenizer with its own tree code
    (tokenizer-rs/src/merkle.rs). */
module BoundaryRoots {
  import opened ByteStrings
  import opened Splitting
  import opened MerkleTree
  import Hex

  type Offset = n: nat | n < 0x1_0000_0000

  /** `to_le_bytes`. */
  function LittleEndian(n: Offset): bytes {
    var q1 := n / 256;
    var q2 := q1 / 256;
    [(n % 256) as byte, (q1 % 256) as byte, (q2 % 256) as byte, (q2 / 256) as byte]
  }

  function FromLittleEndian(b: bytes): nat
    requires |b| == 4
  {
    b[0] as int + 256 * (b[1] as int + 256 * (b[2] as int + 256 * b[3] as int))
  }

  lemma LittleEndianReadBack(n: Offset)
    ensures FromLittleEndian(LittleEndian(n)) == n
  {
  }

  /** Four bytes, the least significant first. */
  lemma LittleEndianIs(n: Offset)
    ensures var b := LittleEndian(n);
      && |b| == 4
      && b[0] as int == n % 0x100 && b[1] as int == n / 0x100 % 0x100
      && b[2] as int == n / 0x1_0000 % 0x100 && b[3] as int == n / 0x100_0000
  {
    assert n / 256 / 256 == n / 0x1_0000 && n / 256 / 256 / 256 == n / 0x100_0000;
  }

  function OffsetEntries(offsets: seq<Offset>): (entries: seq<bytes>)
    ensures |entries| == |offsets|
    ensures forall i :: 0 <= i < |offsets| ==> entries[i] == LittleEndian(offsets[i])
  {
    if offsets == [] then [] else OffsetEntries(offsets[..|offsets| - 1]) + [LittleEndian(offsets[|offsets| - 1])]
  }

  /** `k <<= 1` on a 64-bit usize drops the top bit. */
  function ShiftLeftUsize(k: nat): nat {
    (2 * k) % TWO64
  }

  lemma ShiftUsizeDoubles(j: nat)
    requires Pow2(j) < TWO63
    ensures ShiftLeftUsize(Pow2(j)) == Pow2(j + 1) == 2 * Pow2(j) <= TWO63
  {
    Pow2At62();
    assert Pow2(63) == 2 * Pow2(62);
    if j >= 63 {
      if j > 63 { Pow2Monotone(63, j); }
      assert false;
    }
    if j + 1 < 63 {
      Pow2Monotone(j + 1, 63);
    }
  }

  method SplitPointUsize(n: nat) returns (result: nat)
    requires n <= TWO63
    ensures result == Split(n)
  {
    hide Pow2;
    ghost var j: nat := 0;
    var k := 1;
    PowerZero();
    while k < n
      invariant k == Pow2(j) && (k == 1 || k <= TWO63)
      invariant SplitFrom(k, n) == Split(n)
      decreases n - k
    {
      ShiftUsizeDoubles(j);
      j := j + 1;
      k := ShiftLeftUsize(k);
    }
    result := k / 2;
  }

  method BuildSubtreeOf(sha: Sha, nodes: seq<Digest>) returns (root: Digest)
    requires 1 <= |nodes| <= TWO63
    ensures root == BuildSubtree(sha, nodes)
    decreases |nodes|
  {
    if |nodes| == 1 {
      return nodes[0];
    }
    var mid := SplitPointUsize(|nodes|);
    var left := BuildSubtreeOf(sha, nodes[..mid]);
    var right := BuildSubtreeOf(sha, nodes[mid..]);
    root := HashInternal(sha, left, right);
  }

  lemma HexOfZeros()
    ensures forall i :: 0 <= i < 64 ==> Hex.Encode(ZERO_DIGEST)[i] == '0'
  {
    hide Hex.Encode;
    forall i | 0 <= i < 64 ensures Hex.Encode(ZERO_DIGEST)[i] == '0' {
      Hex.EncodeAt(ZERO_DIGEST, i / 2);
      assert i == 2 * (i / 2) || i == 2 * (i / 2) + 1;
    }
  }

  /** The Rust tree code computes the Go root over the same leaves. */
  method BoundaryRoot(sha: Sha, offsets: seq<Offset>) returns (text: string)
    requires |offsets| <= TWO63
    ensures text == Hex.Encode(EntriesRoot(sha, OffsetEntries(offsets)))
    ensures |text| == 64 && (offsets == [] ==> forall i :: 0 <= i < 64 ==> text[i] == '0')
  {
    if offsets == [] {
      assert OffsetEntries(offsets) == [];
      HexOfZeros();
      return Hex.Encode(ZERO_DIGEST);
    }
    var leaves: seq<Digest> := [];
    for i := 0 to |offsets|
      invariant leaves == LeafHashes(sha, OffsetEntries(offsets))[..i]
    {
      leaves := leaves + [HashLeaf(sha, LittleEndian(offsets[i]))];
    }
    assert leaves == LeafHashes(sha, OffsetEntries(offsets));
    var root := BuildSubtreeOf(sha, leaves);
    text := Hex.Encode(root);
  }

  /** The root fixes the whole list of offsets, or a collision comes out. */
  lemma BoundaryRootBinds(sha: Sha, xs: seq<Offset>, ys: seq<Offset>)
    requires xs != [] && ys != []
    requires Hex.Encode(EntriesRoot(sha, OffsetEntries(xs))) == Hex.Encode(EntriesRoot(sha, OffsetEntries(ys)))
    ensures var c := RootCollision(sha, OffsetEntries(xs), OffsetEntries(ys));
      (c.Some? && Collides(sha, c.value)) || (c.None? && xs == ys)
  {
    Hex.EncodeInjective(EntriesRoot(sha, OffsetEntries(xs)), EntriesRoot(sha, OffsetEntries(ys)));
    RootBinding(sha, OffsetEntries(xs), OffsetEntries(ys));
    if OffsetEntries(xs) == OffsetEntries(ys) {
      forall i | 0 <= i < |xs| ensures xs[i] == ys[i] {
        assert OffsetEntries(xs)[i] == OffsetEntries(ys)[i];
        LittleEndianReadBack(xs[i]);
        LittleEndianReadBack(ys[i]);
      }
    }
  }
}
