/** The `strings` and `bytes` functions that the note text code uses, on byte strings: splitting at
    newlines and at blank lines, and trimming. */
module TextLines {
  import opened ByteStrings

  /** `strings.IndexByte`, with the length for "absent". */
  function IndexByte(c: byte, s: bytes): (i: nat)
    ensures i <= |s| && (i < |s| ==> s[i] == c)
    ensures forall j :: 0 <= j < i ==> s[j] != c
  {
    if s == [] || s[0] == c then 0 else 1 + IndexByte(c, s[1..])
  }

  lemma IndexByteOf(c: byte, a: bytes, x: bytes)
    requires c !in a
    ensures IndexByte(c, a) == |a|
    ensures IndexByte(c, a + [c] + x) == |a|
  {
    var s := a + [c] + x;
    assert s[|a|] == c && forall k :: 0 <= k < |a| ==> s[k] == a[k];
  }

  /** `strings.Split(s, "\n")`. */
  function Lines(s: bytes): (ls: seq<bytes>)
    ensures ls != []
    decreases |s|
  {
    var i := IndexByte(NEWLINE, s);
    if i == |s| then [s] else [s[..i]] + Lines(s[i + 1..])
  }

  /** `strings.SplitN(s, "\n", n)`: the last piece is the rest. */
  function LinesN(s: bytes, n: nat): (ls: seq<bytes>)
    requires n >= 1
    ensures 1 <= |ls| <= n
    decreases n
  {
    var i := IndexByte(NEWLINE, s);
    if n == 1 || i == |s| then [s] else [s[..i]] + LinesN(s[i + 1..], n - 1)
  }

  lemma FirstLine(a: bytes, x: bytes)
    requires NEWLINE !in a
    ensures Lines(a) == [a]
    ensures Lines(a + [NEWLINE] + x) == [a] + Lines(x)
  {
    IndexByteOf(NEWLINE, a, x);
    var s := a + [NEWLINE] + x;
    assert s[..|a|] == a && s[|a| + 1..] == x;
  }

  lemma FirstLineN(a: bytes, x: bytes, n: nat)
    requires NEWLINE !in a && n >= 1
    ensures LinesN(a, n) == [a]
    ensures n >= 2 ==> LinesN(a + [NEWLINE] + x, n) == [a] + LinesN(x, n - 1)
  {
    IndexByteOf(NEWLINE, a, x);
    var s := a + [NEWLINE] + x;
    assert s[..|a|] == a && s[|a| + 1..] == x;
  }

  lemma {:induction false} LinesHaveNoNewline(s: bytes)
    ensures forall l :: l in Lines(s) ==> NEWLINE !in l
    decreases |s|
  {
    var i := IndexByte(NEWLINE, s);
    if i < |s| {
      LinesHaveNoNewline(s[i + 1..]);
    }
  }

  /** A string is its first line and, if there is a newline, what follows. */
  lemma LinesUnfold(s: bytes) returns (a: bytes, x: bytes)
    ensures NEWLINE !in a
    ensures |Lines(s)| == 1 ==> s == a && Lines(s) == [a]
    ensures |Lines(s)| > 1 ==> s == a + [NEWLINE] + x && Lines(s) == [a] + Lines(x)
  {
    var i := IndexByte(NEWLINE, s);
    a, x := s[..i], if i < |s| then s[i + 1..] else [];
    assert i < |s| ==> s == s[..i] + [s[i]] + s[i + 1..];
  }

  lemma {:induction false} LinesOfEnded(s: bytes)
    ensures Lines(s + [NEWLINE]) == Lines(s) + [[]]
    decreases |s|
  {
    hide Lines;
    var a, x := LinesUnfold(s);
    if |Lines(s)| == 1 {
      FirstLine(a, []);
      FirstLine([], []);
      assert s + [NEWLINE] == a + [NEWLINE] + [];
    } else {
      LinesOfEnded(x);
      FirstLine(a, x + [NEWLINE]);
      assert s + [NEWLINE] == a + [NEWLINE] + (x + [NEWLINE]);
    }
  }

  // ---- blank lines ----

  predicate BlankAt(s: bytes, i: int) {
    0 <= i && i + 1 < |s| && s[i] == NEWLINE && s[i + 1] == NEWLINE
  }

  /** `Index(s, "\n\n")`. */
  function BlankLine(s: bytes): (i: Option<nat>)
    ensures i.None? ==> forall j :: !BlankAt(s, j)
    ensures i.Some? ==> BlankAt(s, i.value) && forall j :: 0 <= j < i.value ==> !BlankAt(s, j)
  {
    FirstBlank(s, 0)
  }

  function FirstBlank(s: bytes, from: nat): (i: Option<nat>)
    requires from <= |s| && forall j :: 0 <= j < from ==> !BlankAt(s, j)
    ensures i.None? ==> forall j :: !BlankAt(s, j)
    ensures i.Some? ==> BlankAt(s, i.value) && forall j :: 0 <= j < i.value ==> !BlankAt(s, j)
    decreases |s| - from
  {
    if from == |s| then None else if BlankAt(s, from) then Some(from) else FirstBlank(s, from + 1)
  }

  /** `LastIndex(s, "\n\n")`. */
  function LastBlankLine(s: bytes): (i: Option<nat>)
    ensures i.None? ==> forall j :: !BlankAt(s, j)
    ensures i.Some? ==> BlankAt(s, i.value) && forall j :: i.value < j ==> !BlankAt(s, j)
  {
    LastBlank(s, |s|)
  }

  function LastBlank(s: bytes, upTo: nat): (i: Option<nat>)
    requires upTo <= |s| && forall j :: upTo <= j ==> !BlankAt(s, j)
    ensures i.None? ==> forall j :: !BlankAt(s, j)
    ensures i.Some? ==> BlankAt(s, i.value) && forall j :: i.value < j ==> !BlankAt(s, j)
    decreases upTo
  {
    if upTo == 0 then None else if BlankAt(s, upTo - 1) then Some(upTo - 1) else LastBlank(s, upTo - 1)
  }

  /** What stands before the first blank line, or everything: `SplitN(s, "\n\n", 2)[0]`. */
  function Head(s: bytes): bytes {
    match BlankLine(s)
    case Some(i) => s[..i]
    case None => s
  }

  // ---- lines joined again ----

  function Joined(lines: seq<bytes>): bytes {
    if lines == [] then [] else lines[0] + [NEWLINE] + Joined(lines[1..])
  }

  lemma JoinedFirst(lines: seq<bytes>)
    requires lines != []
    ensures Joined(lines) == lines[0] + ([NEWLINE] + Joined(lines[1..]))
  {
    ConcatAssociates(lines[0], [NEWLINE], Joined(lines[1..]));
  }

  lemma {:induction false} LinesOfJoined(lines: seq<bytes>, last: bytes)
    requires NEWLINE !in last && forall l :: l in lines ==> NEWLINE !in l
    ensures Lines(Joined(lines) + last) == lines + [last]
    decreases |lines|
  {
    hide Lines, Joined;
    if lines == [] {
      NothingJoined();
      assert [] + last == last && lines + [last] == [last];
      FirstLine(last, []);
    } else {
      var a, rest := lines[0], Joined(lines[1..]);
      assert a in lines && forall l :: l in lines[1..] ==> l in lines;
      LinesOfJoined(lines[1..], last);
      FirstLine(a, rest + last);
      JoinedFirst(lines);
      assert a + ([NEWLINE] + rest) + last == a + [NEWLINE] + (rest + last);
      assert lines + [last] == [a] + (lines[1..] + [last]);
    }
  }

  /** A string is its lines with a newline between any two. */
  lemma {:induction false} LinesJoinAgain(s: bytes)
    ensures var ls := Lines(s); s == Joined(ls[..|ls| - 1]) + ls[|ls| - 1]
    decreases |s|
  {
    hide Lines, Joined;
    NothingJoined();
    var ls := Lines(s);
    var a, x := LinesUnfold(s);
    if |ls| > 1 {
      LinesJoinAgain(x);
      var init := ls[..|ls| - 1];
      JoinedFirst(init);
      assert init[0] == a && init[1..] == Lines(x)[..|Lines(x)| - 1];
    }
  }

  lemma NothingJoined()
    ensures Joined([]) == []
  {
  }

  lemma {:induction false} JoinedSnoc(lines: seq<bytes>, last: bytes)
    ensures Joined(lines + [last]) == Joined(lines) + last + [NEWLINE]
    decreases |lines|
  {
    if lines == [] {
      assert [last][1..] == [];
    } else {
      JoinedSnoc(lines[1..], last);
      assert (lines + [last])[1..] == lines[1..] + [last];
    }
  }

  /** Lines with content leave no blank line behind. */
  lemma {:induction false} JoinedHasNoBlank(lines: seq<bytes>, j: int)
    requires forall l :: l in lines ==> l != [] && NEWLINE !in l
    ensures Joined(lines) != [] ==> Joined(lines)[0] != NEWLINE && Joined(lines)[|Joined(lines)| - 1] == NEWLINE
    ensures !BlankAt(Joined(lines), j)
    decreases |lines|
  {
    if lines != [] {
      var a, x := lines[0], Joined(lines[1..]);
      assert a in lines && forall l :: l in lines[1..] ==> l in lines;
      JoinedHasNoBlank(lines[1..], j - |a| - 1);
      var s := a + [NEWLINE] + x;
      assert 0 <= j < |a| ==> s[j] == a[j] && a[j] in a;
      assert |a| < j < |s| ==> s[j] == x[j - |a| - 1];
      assert |a| < j && j + 1 < |s| ==> s[j + 1] == x[j + 1 - |a| - 1];
      assert |a| + 1 < |s| ==> s[|a| + 1] == x[0];
      assert s[0] == a[0] && a[0] in a;
    }
  }
}
