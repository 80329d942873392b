/** Byte strings, the Go `[]byte` and `string` values every other module works on, and the bounds of
    64-bit integers. */
module ByteStrings {
  newtype byte = b: int | 0 <= b < 256

  type bytes = seq<byte>

  const NEWLINE: byte := 10
  const RETURN: byte := 13
  const SPACE: byte := 32

  const TWO62: int := 0x4000_0000_0000_0000
  const TWO63: int := 0x8000_0000_0000_0000
  const TWO64: int := 0x1_0000_0000_0000_0000

  datatype Option<+T> = None | Some(value: T)

  datatype Result<+T, +E> = Ok(value: T) | Err(error: E)

  lemma SameParts<T>(xs: seq<T>, i: nat, ys: seq<T>, j: nat)
    requires i <= |xs| && j <= |ys|
    requires xs[..i] == ys[..j] && xs[i..] == ys[j..]
    ensures xs == ys
  {
    assert xs == xs[..i] + xs[i..] && ys == ys[..j] + ys[j..];
  }

  lemma SameEnds<T>(xs: seq<T>, init: seq<T>, last: T)
    requires xs != []
    ensures xs == init + [last] <==> xs[..|xs| - 1] == init && xs[|xs| - 1] == last
  {
    assert xs == xs[..|xs| - 1] + [xs[|xs| - 1]];
  }

  lemma SliceSnoc<T>(xs: seq<T>, lo: nat, hi: nat)
    requires lo <= hi < |xs|
    ensures xs[lo..hi + 1] == xs[lo..hi] + [xs[hi]]
  {
  }

  lemma AppendAssociates<T>(xs: seq<T>, ys: seq<T>, z: T)
    ensures (xs + ys) + [z] == xs + (ys + [z])
  {
  }

  lemma ConcatAssociates<T>(xs: seq<T>, ys: seq<T>, zs: seq<T>)
    ensures (xs + ys) + zs == xs + (ys + zs)
  {
  }

  /** The index of the first byte that satisfies p, or the length. */
  function IndexWhere(p: byte -> bool, s: bytes): (i: nat)
    ensures i <= |s|
  {
    if s == [] || p(s[0]) then 0 else 1 + IndexWhere(p, s[1..])
  }

  lemma {:induction false} IndexWhereAppend(p: byte -> bool, a: bytes, x: bytes)
    requires forall i :: 0 <= i < |a| ==> !p(a[i])
    requires x != [] && p(x[0])
    ensures IndexWhere(p, a + x) == |a|
    decreases |a|
  {
    if a == [] {
      assert a + x == x;
    } else {
      assert (a + x)[1..] == a[1..] + x;
      IndexWhereAppend(p, a[1..], x);
    }
  }

  lemma SameSplit<T>(a: seq<T>, x: seq<T>, b: seq<T>, y: seq<T>)
    requires a + x == b + y && |a| == |b|
    ensures a == b && x == y
  {
    assert (a + x)[..|a|] == a && (b + y)[..|b|] == b;
    assert (a + x)[|a|..] == x && (b + y)[|b|..] == y;
  }

  /** A string ended by a byte it does not contain can be read off whatever follows. */
  lemma SelfDelimited(p: byte -> bool, a: bytes, x: bytes, b: bytes, y: bytes)
    requires a + x == b + y && x != [] && y != [] && p(x[0]) && p(y[0])
    requires forall i :: 0 <= i < |a| ==> !p(a[i])
    requires forall i :: 0 <= i < |b| ==> !p(b[i])
    ensures a == b && x == y
  {
    IndexWhereAppend(p, a, x);
    IndexWhereAppend(p, b, y);
    SameSplit(a, x, b, y);
  }
}
