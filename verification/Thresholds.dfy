/** Cosigning and the k-of-n check (internal/witness/client.go, internal/witness/verify.go). */
module Thresholds {
  import opened ByteStrings
  import opened Signing
  import opened Notes

  datatype CosignedError = NegativeThreshold | NotOpened(error: OpenError) | OperatorNotVerified | TooFewWitnesses

  predicate HasName(sigs: seq<Signature>, name: bytes) {
    exists i :: 0 <= i < |sigs| && sigs[i].name == name
  }

  function CountNamed(sigs: seq<Signature>, names: set<bytes>): nat {
    if sigs == [] then 0 else
      CountNamed(sigs[..|sigs| - 1], names) + if sigs[|sigs| - 1].name in names then 1 else 0
  }

  function NamesOf(keys: seq<NoteKey>): set<bytes> {
    set k | k in keys :: k.name
  }

  /** What the check answers; None is acceptance. */
  function CosignedVerdict(ed: Ed25519, raw: bytes, operator: NoteKey, witnesses: seq<NoteKey>, threshold: int): Option<CosignedError> {
    var outcome := Open(ed, raw, [operator] + witnesses);
    if threshold < 0 then Some(NegativeThreshold)
    else match NoteOf(outcome)
      case None => Some(NotOpened(outcome.error))
      case Some(n) =>
        if !HasName(n.sigs, operator.name) then Some(OperatorNotVerified)
        else if CountNamed(n.sigs, NamesOf(witnesses)) < threshold then Some(TooFewWitnesses)
        else None
  }

  method VerifyCosignedCheckpoint(ed: Ed25519, raw: bytes, operator: NoteKey, witnesses: seq<NoteKey>, threshold: int)
    returns (r: Option<CosignedError>)
    ensures r == CosignedVerdict(ed, raw, operator, witnesses, threshold)
  {
    hide Open;
    if threshold < 0 {
      return Some(NegativeThreshold);
    }
    var outcome := Open(ed, raw, [operator] + witnesses);
    var n: Note;
    if outcome.Ok? {
      n := outcome.value;
    } else if outcome.error.UnverifiedNote? {
      n := outcome.error.note;
    } else {
      return Some(NotOpened(outcome.error));
    }
    var operatorVerified := false;
    var i := 0;
    while i < |n.sigs| && !operatorVerified
      invariant 0 <= i <= |n.sigs|
      invariant operatorVerified ==> HasName(n.sigs, operator.name)
      invariant !operatorVerified ==> forall j :: 0 <= j < i ==> n.sigs[j].name != operator.name
      decreases |n.sigs| - i, !operatorVerified
    {
      if n.sigs[i].name == operator.name {
        operatorVerified := true;
      } else {
        i := i + 1;
      }
    }
    if !operatorVerified {
      return Some(OperatorNotVerified);
    }
    var witnessNames: set<bytes> := {};
    for j := 0 to |witnesses|
      invariant witnessNames == NamesOf(witnesses[..j])
    {
      assert witnesses[..j + 1] == witnesses[..j] + [witnesses[j]];
      witnessNames := witnessNames + {witnesses[j].name};
    }
    assert witnesses[..|witnesses|] == witnesses;
    var verified := 0;
    for j := 0 to |n.sigs|
      invariant verified == CountNamed(n.sigs[..j], witnessNames)
    {
      assert n.sigs[..j + 1][..j] == n.sigs[..j];
      if n.sigs[j].name in witnessNames {
        verified := verified + 1;
      }
    }
    assert n.sigs[..|n.sigs|] == n.sigs;
    r := if verified < threshold then Some(TooFewWitnesses) else None;
  }

  // ---- what acceptance means ----

  ghost predicate DistinctNames(keys: seq<NoteKey>) {
    forall i, j :: 0 <= i < j < |keys| ==> keys[i].name != keys[j].name
  }

  /** A line that carries a signature by a key that verifies over the text. */
  predicate VouchingLine(ed: Ed25519, text: bytes, line: bytes, k: NoteKey) {
    var s := ParseLine(line);
    s.Some? && SameKey(s.value, k) && ed.verify(k.key, text, SignatureBytes(s.value))
  }

  ghost predicate Vouches(ed: Ed25519, raw: bytes, k: NoteKey) {
    exists line :: line in SignatureLines(raw) && VouchingLine(ed, TextOf(raw), line, k)
  }

  ghost function VouchingNames(ed: Ed25519, raw: bytes, keys: seq<NoteKey>): set<bytes> {
    set k | k in keys && Vouches(ed, raw, k) :: k.name
  }

  lemma SomeElement<T>(xs: seq<T>)
    ensures xs == [] || exists x :: x in xs
  {
    if xs != [] {
      assert xs[0] in xs;
    }
  }

  lemma {:induction false} MatchingIsUnique(known: seq<NoteKey>, s: Signature, k: NoteKey)
    requires DistinctNames(known) && k in known && SameKey(s, k)
    ensures Matching(known, s) == [k]
    decreases |known|
  {
    var init, last := known[..|known| - 1], known[|known| - 1];
    assert known == init + [last];
    if k == last {
      MatchingAreKnown(init, s);
      forall q | q in init ensures !SameKey(s, q) {
        assert q.name != last.name;
      }
      SomeElement(Matching(init, s));
    } else {
      MatchingIsUnique(init, s, k);
    }
  }

  /** When a signature is taken in, a known key with its name and hash is the only one. */
  lemma TakenKeyIsUnique(ed: Ed25519, known: seq<NoteKey>, n: Note, s: Signature, k: NoteKey)
    requires k in known && SameKey(s, k) && WithSignature(ed, known, n, s).Ok?
    ensures Matching(known, s) == [k]
  {
    hide SignatureBytes;
    MatchingAreKnown(known, s);
    assert k in Matching(known, s);
  }

  ghost predicate SignedBy(sigs: seq<Signature>, k: NoteKey) {
    exists i :: 0 <= i < |sigs| && SameKey(sigs[i], k)
  }

  lemma WithSignatureOf(ed: Ed25519, known: seq<NoteKey>, n: Note, line: bytes, k: NoteKey)
    requires k in known
    requires ParseLine(line).Some? && WithSignature(ed, known, n, ParseLine(line).value).Ok?
    ensures SignedBy(WithSignature(ed, known, n, ParseLine(line).value).value.sigs, k)
       ==> SignedBy(n.sigs, k) || VouchingLine(ed, n.text, line, k)
    ensures SignedBy(n.sigs, k) || VouchingLine(ed, n.text, line, k)
       ==> SignedBy(WithSignature(ed, known, n, ParseLine(line).value).value.sigs, k)
  {
    hide ParseLine, SignatureBytes;
    var s := ParseLine(line).value;
    var m := WithSignature(ed, known, n, s).value;
    if SameKey(s, k) {
      TakenKeyIsUnique(ed, known, n, s, k);
      if Seen(n.sigs, s) {
        var i :| 0 <= i < |n.sigs| && n.sigs[i].name == s.name && n.sigs[i].hash == s.hash;
        assert SameKey(n.sigs[i], k);
      } else {
        assert m.sigs[|n.sigs|] == s;
        assert SignedBy(m.sigs, k);
      }
    }
    if SignedBy(n.sigs, k) {
      var i :| 0 <= i < |n.sigs| && SameKey(n.sigs[i], k);
      assert SameKey(m.sigs[i], k);
    }
  }

  /** When the lines open, a known key is among the verified signatures exactly when one of its
      lines verifies. */
  lemma {:induction false} SignedByIffVouched(ed: Ed25519, known: seq<NoteKey>, text: bytes, lines: seq<bytes>, k: NoteKey)
    requires k in known && OpenLines(ed, known, text, lines).Ok?
    ensures OpenLines(ed, known, text, lines).value.text == text
    ensures SignedBy(OpenLines(ed, known, text, lines).value.sigs, k) <==> exists l :: l in lines && VouchingLine(ed, text, l, k)
    decreases |lines|
  {
    hide WithSignature, VouchingLine, ParseLine;
    if lines != [] {
      var init, last := lines[..|lines| - 1], lines[|lines| - 1];
      assert lines == init + [last];
      SignedByIffVouched(ed, known, text, init, k);
      OpenLinesSane(ed, known, text, lines);
      WithSignatureOf(ed, known, OpenLines(ed, known, text, init).value, last, k);
    }
  }

  ghost predicate DifferentNames(sigs: seq<Signature>) {
    forall i, j :: 0 <= i < j < |sigs| ==> sigs[i].name != sigs[j].name
  }

  ghost function NamesIn(sigs: seq<Signature>): set<bytes> {
    set i | 0 <= i < |sigs| :: sigs[i].name
  }

  lemma NamesInSnoc(sigs: seq<Signature>)
    requires DifferentNames(sigs) && sigs != []
    ensures var init, last := sigs[..|sigs| - 1], sigs[|sigs| - 1];
      NamesIn(sigs) == NamesIn(init) + {last.name} && last.name !in NamesIn(init)
  {
    var init, last := sigs[..|sigs| - 1], sigs[|sigs| - 1];
    forall name ensures name in NamesIn(sigs) <==> name in NamesIn(init) + {last.name} {
      assert forall i :: 0 <= i < |init| ==> init[i] == sigs[i];
    }
  }

  lemma NamesInNothing()
    ensures NamesIn([]) == {}
  {
  }

  lemma OneMore<T>(a: set<T>, b: set<T>, c: set<T>, x: T)
    requires a == b + {x} && x !in b
    ensures |a * c| == |b * c| + if x in c then 1 else 0
  {
    if x in c {
      assert a * c == b * c + {x};
    } else {
      assert a * c == b * c;
    }
  }

  lemma {:induction false} CountIsCardinality(sigs: seq<Signature>, names: set<bytes>)
    requires DifferentNames(sigs)
    ensures CountNamed(sigs, names) == |NamesIn(sigs) * names|
    decreases |sigs|
  {
    hide NamesIn;
    if sigs == [] {
      NamesInNothing();
    } else {
      CountIsCardinality(sigs[..|sigs| - 1], names);
      NamesInSnoc(sigs);
      OneMore(NamesIn(sigs), NamesIn(sigs[..|sigs| - 1]), names, sigs[|sigs| - 1].name);
    }
  }

  /** With distinct names among the known keys, verified signatures have distinct names. */
  lemma SaneNamesDiffer(ed: Ed25519, known: seq<NoteKey>, text: bytes, n: Note)
    requires DistinctNames(known) && Sane(ed, known, text, n)
    ensures DifferentNames(n.sigs)
  {
    forall i, j | 0 <= i < j < |n.sigs| ensures n.sigs[i].name != n.sigs[j].name {
      assert VerifiedBy(ed, known, text, n.sigs[i]) && VerifiedBy(ed, known, text, n.sigs[j]);
    }
  }

  lemma VouchingNamesAreSigned(ed: Ed25519, raw: bytes, known: seq<NoteKey>, n: Note, keys: seq<NoteKey>)
    requires DistinctNames(known) && NoteOf(Open(ed, raw, known)) == Some(n)
    requires forall k :: k in keys ==> k in known
    ensures VouchingNames(ed, raw, keys) == NamesIn(n.sigs) * NamesOf(keys)
    ensures forall k :: k in known ==> (Vouches(ed, raw, k) <==> HasName(n.sigs, k.name))
  {
    hide VouchingLine, OpenLines;
    OpenIsSane(ed, raw, known);
    forall k | k in known ensures Vouches(ed, raw, k) <==> HasName(n.sigs, k.name) {
      SignedByIffVouched(ed, known, TextOf(raw), SignatureLines(raw), k);
      SignedByIffNamed(ed, known, TextOf(raw), n, k);
    }
    forall name ensures name in VouchingNames(ed, raw, keys) <==> name in NamesIn(n.sigs) * NamesOf(keys) {
      assert name in NamesIn(n.sigs) <==> HasName(n.sigs, name);
    }
  }

  lemma SignedByIffNamed(ed: Ed25519, known: seq<NoteKey>, text: bytes, n: Note, k: NoteKey)
    requires DistinctNames(known) && k in known && Sane(ed, known, text, n)
    ensures SignedBy(n.sigs, k) <==> HasName(n.sigs, k.name)
  {
    if HasName(n.sigs, k.name) {
      var i :| 0 <= i < |n.sigs| && n.sigs[i].name == k.name;
      assert VerifiedBy(ed, known, text, n.sigs[i]);
      var j :| 0 <= j < |known| && SameKey(n.sigs[i], known[j]);
      assert known[j] == k;
    }
  }

  /** The check accepts exactly when the note opens, the operator vouches for its text, and so do
      at least `threshold` of the required witnesses, counted by name. */
  lemma AcceptedIffVouched(ed: Ed25519, raw: bytes, operator: NoteKey, witnesses: seq<NoteKey>, threshold: int)
    requires DistinctNames([operator] + witnesses)
    ensures CosignedVerdict(ed, raw, operator, witnesses, threshold) == None
       <==> (&& 0 <= threshold <= |VouchingNames(ed, raw, witnesses)|
             && NoteOf(Open(ed, raw, [operator] + witnesses)).Some?
             && Vouches(ed, raw, operator))
  {
    hide Open, VouchingNames, Vouches;
    var known := [operator] + witnesses;
    assert known[0] == operator && forall k :: k in witnesses ==> k in known;
    var n := NoteOf(Open(ed, raw, known));
    if n.Some? {
      VouchingNamesAreSigned(ed, raw, known, n.value, witnesses);
      OpenIsSane(ed, raw, known);
      SaneNamesDiffer(ed, known, TextOf(raw), n.value);
      CountIsCardinality(n.value.sigs, NamesOf(witnesses));
    }
  }

  // ---- without assumptions on the names ----

  /** Names with key hashes of the known keys that vouch and whose name is one of the given ones. */
  ghost function VouchingIds(ed: Ed25519, raw: bytes, known: seq<NoteKey>, names: set<bytes>): set<(bytes, KeyHash)> {
    set k | k in known && k.name in names && Vouches(ed, raw, k) :: (k.name, k.hash)
  }

  ghost function IdsIn(sigs: seq<Signature>, names: set<bytes>): set<(bytes, KeyHash)> {
    set i | 0 <= i < |sigs| && sigs[i].name in names :: (sigs[i].name, sigs[i].hash)
  }

  ghost predicate DifferentIds(sigs: seq<Signature>) {
    forall i, j :: 0 <= i < j < |sigs| ==> !(sigs[i].name == sigs[j].name && sigs[i].hash == sigs[j].hash)
  }

  lemma IdsInSnoc(sigs: seq<Signature>, names: set<bytes>)
    requires DifferentIds(sigs) && sigs != []
    ensures var init, last := sigs[..|sigs| - 1], sigs[|sigs| - 1];
      && (last.name !in names ==> IdsIn(sigs, names) == IdsIn(init, names))
      && (last.name in names ==> (last.name, last.hash) !in IdsIn(init, names))
      && (last.name in names ==> IdsIn(sigs, names) == IdsIn(init, names) + {(last.name, last.hash)})
  {
    var init, last := sigs[..|sigs| - 1], sigs[|sigs| - 1];
    assert forall i :: 0 <= i < |init| ==> init[i] == sigs[i];
    forall id ensures id in IdsIn(sigs, names) <==> id in IdsIn(init, names) || (last.name in names && id == (last.name, last.hash)) {
    }
  }

  lemma {:induction false} CountIsIds(sigs: seq<Signature>, names: set<bytes>)
    requires DifferentIds(sigs)
    ensures CountNamed(sigs, names) == |IdsIn(sigs, names)|
    decreases |sigs|
  {
    if sigs == [] {
      assert IdsIn(sigs, names) == {};
    } else {
      CountIsIds(sigs[..|sigs| - 1], names);
      IdsInSnoc(sigs, names);
    }
  }

  lemma SignedIsVouched(ed: Ed25519, raw: bytes, known: seq<NoteKey>, n: Note, names: set<bytes>)
    requires NoteOf(Open(ed, raw, known)) == Some(n)
    ensures IdsIn(n.sigs, names) == VouchingIds(ed, raw, known, names)
  {
    hide OpenLines, VouchingLine, WellFormed, Vouches;
    OpenIsSane(ed, raw, known);
    forall k | k in known ensures SignedBy(n.sigs, k) <==> Vouches(ed, raw, k) {
      VouchedIsSigned(ed, raw, known, n, k);
    }
    forall id ensures id in IdsIn(n.sigs, names) <==> id in VouchingIds(ed, raw, known, names) {
      if id in IdsIn(n.sigs, names) {
        var i :| 0 <= i < |n.sigs| && (n.sigs[i].name, n.sigs[i].hash) == id && n.sigs[i].name in names;
        assert VerifiedBy(ed, known, TextOf(raw), n.sigs[i]);
        var j :| 0 <= j < |known| && SameKey(n.sigs[i], known[j]);
        assert SignedBy(n.sigs, known[j]);
      }
      if id in VouchingIds(ed, raw, known, names) {
        var k :| k in known && k.name in names && Vouches(ed, raw, k) && (k.name, k.hash) == id;
        var i :| 0 <= i < |n.sigs| && SameKey(n.sigs[i], k);
      }
    }
  }

  lemma VouchedIsSigned(ed: Ed25519, raw: bytes, known: seq<NoteKey>, n: Note, k: NoteKey)
    requires NoteOf(Open(ed, raw, known)) == Some(n) && k in known
    ensures SignedBy(n.sigs, k) <==> Vouches(ed, raw, k)
  {
    hide OpenLines, VouchingLine;
    SignedByIffVouched(ed, known, TextOf(raw), SignatureLines(raw), k);
  }

  /** For any keys, the check accepts exactly when the note opens, a known key with the operator's
      name vouches for its text, and the keys that vouch under the name of a required witness are
      at least `threshold` pairs of a name and a hash. */
  lemma AcceptedIff(ed: Ed25519, raw: bytes, operator: NoteKey, witnesses: seq<NoteKey>, threshold: int)
    ensures CosignedVerdict(ed, raw, operator, witnesses, threshold) == None
       <==> (&& 0 <= threshold <= |VouchingIds(ed, raw, [operator] + witnesses, NamesOf(witnesses))|
             && NoteOf(Open(ed, raw, [operator] + witnesses)).Some?
             && VouchingIds(ed, raw, [operator] + witnesses, {operator.name}) != {})
  {
    hide Open, VouchingIds;
    var known := [operator] + witnesses;
    var n := NoteOf(Open(ed, raw, known));
    if n.Some? {
      OpenIsSane(ed, raw, known);
      SignedIsVouched(ed, raw, known, n.value, NamesOf(witnesses));
      SignedIsVouched(ed, raw, known, n.value, {operator.name});
      CountIsIds(n.value.sigs, NamesOf(witnesses));
      NameHasId(n.value.sigs, operator.name);
    }
  }

  lemma NameHasId(sigs: seq<Signature>, name: bytes)
    ensures HasName(sigs, name) <==> IdsIn(sigs, {name}) != {}
  {
    if HasName(sigs, name) {
      var i :| 0 <= i < |sigs| && sigs[i].name == name;
      assert (sigs[i].name, sigs[i].hash) in IdsIn(sigs, {name});
    }
    if IdsIn(sigs, {name}) != {} {
      var id :| id in IdsIn(sigs, {name});
    }
  }

  // ---- which notes open ----

  predicate LineUnder(line: bytes, k: NoteKey) {
    ParseLine(line).Some? && SameKey(ParseLine(line).value, k)
  }

  /** The first line under the name and hash of a key. */
  ghost predicate FirstUnder(lines: seq<bytes>, i: nat, k: NoteKey)
    requires i < |lines|
  {
    LineUnder(lines[i], k) && forall j :: 0 <= j < i ==> !LineUnder(lines[j], k)
  }

  /** At most a hundred lines, all of them well formed, none under two known keys at once, and the
      first line under each known key verifies. */
  ghost predicate Readable(ed: Ed25519, known: seq<NoteKey>, text: bytes, lines: seq<bytes>) {
    && |lines| <= 100
    && (forall i :: 0 <= i < |lines| ==> ParseLine(lines[i]).Some? && |Matching(known, ParseLine(lines[i]).value)| <= 1)
    && (forall i, k :: 0 <= i < |lines| && k in known && FirstUnder(lines, i, k) ==> VouchingLine(ed, text, lines[i], k))
  }

  lemma ReadableInit(ed: Ed25519, known: seq<NoteKey>, text: bytes, init: seq<bytes>, last: bytes)
    requires Readable(ed, known, text, init + [last])
    ensures Readable(ed, known, text, init)
  {
    hide ParseLine, VouchingLine, Matching, LineUnder;
    var lines := init + [last];
    assert forall i :: 0 <= i < |init| ==> lines[i] == init[i];
    forall i, k | 0 <= i < |init| && k in known && FirstUnder(init, i, k) ensures VouchingLine(ed, text, init[i], k) {
      assert FirstUnder(lines, i, k);
    }
  }

  /** One more line is taken in exactly when it keeps the lines readable. */
  lemma ReadableSnoc(ed: Ed25519, known: seq<NoteKey>, text: bytes, init: seq<bytes>, last: bytes)
    requires Readable(ed, known, text, init) && |init| < MAX_SIGNATURES && ParseLine(last).Some?
    requires |Matching(known, ParseLine(last).value)| <= 1
    ensures Readable(ed, known, text, init + [last])
       <==> forall k :: k in known && FirstUnder(init + [last], |init|, k) ==> VouchingLine(ed, text, last, k)
  {
    hide ParseLine, VouchingLine, Matching, LineUnder;
    var lines := init + [last];
    assert lines[|init|] == last && forall i :: 0 <= i < |init| ==> lines[i] == init[i];
    if forall k :: k in known && FirstUnder(lines, |init|, k) ==> VouchingLine(ed, text, last, k) {
      forall i, k | 0 <= i < |lines| && k in known && FirstUnder(lines, i, k) ensures VouchingLine(ed, text, lines[i], k) {
        if i < |init| {
          assert FirstUnder(init, i, k);
        }
      }
    }
  }

  lemma {:induction false} FirstOfSome(lines: seq<bytes>, k: NoteKey) returns (i: nat)
    requires exists l :: l in lines && LineUnder(l, k)
    ensures i < |lines| && FirstUnder(lines, i, k)
    decreases |lines|
  {
    hide LineUnder;
    var init, last := lines[..|lines| - 1], lines[|lines| - 1];
    assert lines == init + [last];
    if exists l :: l in init && LineUnder(l, k) {
      i := FirstOfSome(init, k);
    } else {
      i := |init|;
      forall j | 0 <= j < i ensures !LineUnder(lines[j], k) {
        assert lines[j] in init;
      }
    }
  }

  /** When the lines before are readable, the known key of the last line has been seen exactly when
      an earlier line is under it. */
  lemma SeenIffUnder(ed: Ed25519, known: seq<NoteKey>, text: bytes, init: seq<bytes>, last: bytes, k: NoteKey)
    requires OpenLines(ed, known, text, init).Ok? && Readable(ed, known, text, init)
    requires k in known && LineUnder(last, k)
    ensures Seen(OpenLines(ed, known, text, init).value.sigs, ParseLine(last).value) <==> exists l :: l in init && LineUnder(l, k)
  {
    hide ParseLine, OpenLines, Matching, SignatureBytes;
    var n := OpenLines(ed, known, text, init).value;
    SignedByIffVouched(ed, known, text, init, k);
    assert Seen(n.sigs, ParseLine(last).value) <==> SignedBy(n.sigs, k);
    if exists l :: l in init && LineUnder(l, k) {
      var i := FirstOfSome(init, k);
      assert init[i] in init && VouchingLine(ed, text, init[i], k);
    }
  }

  lemma WithSignatureIff(ed: Ed25519, known: seq<NoteKey>, text: bytes, init: seq<bytes>, last: bytes)
    requires OpenLines(ed, known, text, init).Ok? && Readable(ed, known, text, init) && |init| < MAX_SIGNATURES
    requires ParseLine(last).Some?
    ensures WithSignature(ed, known, OpenLines(ed, known, text, init).value, ParseLine(last).value).Ok?
       <==> Readable(ed, known, text, init + [last])
  {
    hide ParseLine, OpenLines, Readable, SignatureBytes, Matching;
    var s := ParseLine(last).value;
    var keys := Matching(known, s);
    OpenLinesSane(ed, known, text, init);
    TextKept(ed, known, text, init);
    MatchingAreKnown(known, s);
    if |keys| > 1 {
      AmbiguousIsUnreadable(ed, known, text, init, last);
    } else {
      ReadableSnoc(ed, known, text, init, last);
      forall k | k in known && LineUnder(last, k) ensures k == keys[0] {
        assert k in keys;
      }
      if keys != [] {
        var k := keys[0];
        assert k in keys && LineUnder(last, k);
        SeenIffUnder(ed, known, text, init, last, k);
        FirstIffNoneBefore(init, last, k);
      }
    }
  }

  lemma TextKept(ed: Ed25519, known: seq<NoteKey>, text: bytes, lines: seq<bytes>)
    requires OpenLines(ed, known, text, lines).Ok?
    ensures OpenLines(ed, known, text, lines).value.text == text
  {
    hide OpenLines, VerifiedBy, WellFormed;
    OpenLinesSane(ed, known, text, lines);
  }

  lemma AmbiguousIsUnreadable(ed: Ed25519, known: seq<NoteKey>, text: bytes, init: seq<bytes>, last: bytes)
    requires ParseLine(last).Some? && |Matching(known, ParseLine(last).value)| > 1
    ensures !Readable(ed, known, text, init + [last])
  {
    hide ParseLine, Matching;
    assert (init + [last])[|init|] == last;
  }

  lemma FirstIffNoneBefore(init: seq<bytes>, last: bytes, k: NoteKey)
    ensures FirstUnder(init + [last], |init|, k) <==> LineUnder(last, k) && !exists l :: l in init && LineUnder(l, k)
  {
    hide LineUnder;
    var lines := init + [last];
    assert lines[|init|] == last && forall j :: 0 <= j < |init| ==> lines[j] == init[j];
    if exists l :: l in init && LineUnder(l, k) {
      var j :| 0 <= j < |init| && LineUnder(init[j], k);
      assert LineUnder(lines[j], k);
    }
    forall j | 0 <= j < |init| ensures lines[j] in init {
    }
  }

  /** Signature lines open exactly when they are readable. */
  lemma {:induction false} OpensIffReadable(ed: Ed25519, known: seq<NoteKey>, text: bytes, lines: seq<bytes>)
    ensures OpenLines(ed, known, text, lines).Ok? <==> Readable(ed, known, text, lines)
    decreases |lines|
  {
    hide ParseLine, WithSignature, VouchingLine, Matching, Readable;
    if lines == [] {
      NothingIsReadable(ed, known, text);
    } else {
      var init, last := lines[..|lines| - 1], lines[|lines| - 1];
      assert lines == init + [last];
      OpensIffReadable(ed, known, text, init);
      if Readable(ed, known, text, lines) {
        ReadableInit(ed, known, text, init, last);
      }
      LastIsParsed(ed, known, text, lines);
      if Readable(ed, known, text, init) && ParseLine(last).Some? && |init| < MAX_SIGNATURES {
        WithSignatureIff(ed, known, text, init, last);
      }
    }
  }

  lemma NothingIsReadable(ed: Ed25519, known: seq<NoteKey>, text: bytes)
    ensures Readable(ed, known, text, [])
  {
  }

  lemma LastIsParsed(ed: Ed25519, known: seq<NoteKey>, text: bytes, lines: seq<bytes>)
    requires lines != []
    ensures Readable(ed, known, text, lines) ==> ParseLine(lines[|lines| - 1]).Some? && |lines| <= 100
  {
    hide ParseLine, VouchingLine, Matching;
  }

  /** Keys are compared by name and hash, and a key that is given twice counts twice. */
  lemma MatchingStep(known: seq<NoteKey>, k: NoteKey, s: Signature)
    ensures Matching([], s) == []
    ensures Matching(known + [k], s) == Matching(known, s) + if s.name == k.name && s.hash == k.hash then [k] else []
  {
    assert (known + [k])[..|known|] == known;
  }

  /** The first line that spoils the lines decides the error: it is malformed or the hundred and
      first, or it is under two known keys, or it does not verify under the one known key. */
  lemma FirstBadLine(ed: Ed25519, known: seq<NoteKey>, text: bytes, init: seq<bytes>, bad: bytes, rest: seq<bytes>)
    requires Readable(ed, known, text, init) && !Readable(ed, known, text, init + [bad])
    ensures OpenLines(ed, known, text, init + [bad] + rest) == Err(
      var s := ParseLine(bad);
      if s.None? || |init| >= 100 then Malformed
      else if |Matching(known, s.value)| > 1 then Ambiguous
      else InvalidSignature(s.value.name, s.value.hash))
  {
    hide ParseLine, Readable, Matching, OpenLines, SignatureBytes;
    OpensIffReadable(ed, known, text, init);
    OpensIffReadable(ed, known, text, init + [bad]);
    OpenLinesSnoc(ed, known, text, init, bad);
    ErrorStays(ed, known, text, init + [bad], rest);
  }

  lemma OpenLinesSnoc(ed: Ed25519, known: seq<NoteKey>, text: bytes, lines: seq<bytes>, line: bytes)
    ensures OpenLines(ed, known, text, lines + [line]) ==
      (var n, s := OpenLines(ed, known, text, lines), ParseLine(line);
       if n.Err? then n
       else if s.None? || |lines| >= 100 then Err(Malformed)
       else WithSignature(ed, known, n.value, s.value))
  {
    hide WithSignature, ParseLine;
    assert (lines + [line])[..|lines|] == lines;
  }

  lemma {:induction false} ErrorStays(ed: Ed25519, known: seq<NoteKey>, text: bytes, lines: seq<bytes>, rest: seq<bytes>)
    requires OpenLines(ed, known, text, lines).Err?
    ensures OpenLines(ed, known, text, lines + rest) == OpenLines(ed, known, text, lines)
    decreases |rest|
  {
    hide WithSignature, ParseLine, OpenLines;
    if rest == [] {
      assert lines + rest == lines;
    } else {
      var init, last := rest[..|rest| - 1], rest[|rest| - 1];
      ErrorStays(ed, known, text, lines, init);
      assert lines + rest == (lines + init) + [last];
      OpenLinesSnoc(ed, known, text, lines + init, last);
    }
  }

  /** A message opens exactly when it is well framed, its lines are readable and a known key vouches
      for its text. */
  lemma OpensIff(ed: Ed25519, msg: bytes, known: seq<NoteKey>)
    ensures NoteOf(Open(ed, msg, known)).Some? <==> WellFramed(msg) && Readable(ed, known, TextOf(msg), SignatureLines(msg))
    ensures Open(ed, msg, known).Ok?
       <==> WellFramed(msg) && Readable(ed, known, TextOf(msg), SignatureLines(msg)) && exists k :: k in known && Vouches(ed, msg, k)
  {
    hide Readable, OpenLines, Vouches, WellFramed;
    OpensIffReadable(ed, known, TextOf(msg), SignatureLines(msg));
    var n := NoteOf(Open(ed, msg, known));
    if n.Some? {
      SomeVouches(ed, msg, known, n.value);
    }
  }

  lemma SomeVouches(ed: Ed25519, msg: bytes, known: seq<NoteKey>, n: Note)
    requires NoteOf(Open(ed, msg, known)) == Some(n)
    ensures n.sigs != [] <==> exists k :: k in known && Vouches(ed, msg, k)
  {
    hide Open, Vouches, SignatureBytes, WellFormed;
    OpenIsSane(ed, msg, known);
    if n.sigs != [] {
      assert VerifiedBy(ed, known, TextOf(msg), n.sigs[0]);
      var i :| 0 <= i < |known| && SameKey(n.sigs[0], known[i]);
      assert SignedBy(n.sigs, known[i]);
      VouchedIsSigned(ed, msg, known, n, known[i]);
    }
    if k :| k in known && Vouches(ed, msg, k) {
      VouchedIsSigned(ed, msg, known, n, k);
    }
  }

  /** Each refusal exactly when it is due, in the order of the checks. */
  lemma RefusedIff(ed: Ed25519, raw: bytes, operator: NoteKey, witnesses: seq<NoteKey>, threshold: int)
    ensures var known := [operator] + witnesses;
      var verdict := CosignedVerdict(ed, raw, operator, witnesses, threshold);
      var opens := WellFramed(raw) && Readable(ed, known, TextOf(raw), SignatureLines(raw));
      var byOperator := VouchingIds(ed, raw, known, {operator.name}) != {};
      && (verdict == Some(NegativeThreshold) <==> threshold < 0)
      && ((exists e :: verdict == Some(NotOpened(e))) <==> threshold >= 0 && !opens)
      && (verdict == Some(OperatorNotVerified) <==> threshold >= 0 && opens && !byOperator)
      && (verdict == Some(TooFewWitnesses)
          <==> opens && byOperator && |VouchingIds(ed, raw, known, NamesOf(witnesses))| < threshold)
  {
    hide Open, VouchingIds, Readable, WellFramed;
    var known := [operator] + witnesses;
    var n := NoteOf(Open(ed, raw, known));
    OpensIff(ed, raw, known);
    if n.Some? {
      OpenIsSane(ed, raw, known);
      SignedIsVouched(ed, raw, known, n.value, NamesOf(witnesses));
      SignedIsVouched(ed, raw, known, n.value, {operator.name});
      CountIsIds(n.value.sigs, NamesOf(witnesses));
      NameHasId(n.value.sigs, operator.name);
    }
  }
}
