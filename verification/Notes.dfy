/** Signed notes: `Open` and `Sign` of golang.org/x/mod/sumdb/note, the contract that the witness
    code is written against. The four bytes of a key hash stand for the integer they spell. */
module Notes {
  import opened ByteStrings
  import opened TextLines
  import opened Utf8
  import opened Signing
  import opened Cosignatures
  import Base64

  type KeyHash = h: bytes | |h| == 4 witness [0, 0, 0, 0]

  /** A key pair, named by its public key: a `note.Verifier`, and a `note.Signer` for its owner. */
  datatype NoteKey = NoteKey(name: bytes, hash: KeyHash, key: bytes)

  datatype Signature = Signature(name: bytes, hash: KeyHash, base64: bytes)

  datatype Note = Note(text: bytes, sigs: seq<Signature>, unverified: seq<Signature>)

  datatype OpenError =
    | Malformed
    | Ambiguous
    | InvalidSignature(name: bytes, hash: KeyHash)
    | UnverifiedNote(note: Note)

  const MAX_SIGNATURES := 100

  // ---- signature lines ----

  function LineOf(s: Signature): bytes {
    PREFIX + (s.name + [SPACE] + s.base64)
  }

  /** A signature that a line can carry. */
  predicate WellFormed(s: Signature) {
    && ValidName(s.name) && s.base64 != []
    && var raw := Base64.Decode(s.base64);
    raw.Some? && |raw.value| >= 5 && raw.value[..4] == s.hash
  }

  /** The bytes that are verified. */
  function SignatureBytes(s: Signature): bytes {
    var raw := Base64.Decode(s.base64);
    if raw.Some? && |raw.value| >= 4 then raw.value[4..] else []
  }

  function ParseLine(line: bytes): (s: Option<Signature>)
    ensures s.Some? ==> WellFormed(s.value)
  {
    if !HasPrefix(line, PREFIX) then None else
      var rest := line[4..];
      var i := IndexByte(SPACE, rest);
      var name, base64 := rest[..i], if i < |rest| then rest[i + 1..] else [];
      var raw := Base64.Decode(base64);
      if raw.None? || !ValidName(name) || base64 == [] || |raw.value| < 5 then None
      else Some(Signature(name, raw.value[..4], base64))
  }

  /** Signature lines are read back as written. */
  lemma ParseLineOf(s: Signature)
    requires WellFormed(s)
    ensures ParseLine(LineOf(s)) == Some(s)
  {
    hide Base64.Decode, ValidName;
    NameOk(s.name);
    assert LineOf(s)[..4] == PREFIX && LineOf(s)[4..] == s.name + [SPACE] + s.base64;
    IndexByteOf(SPACE, s.name, s.base64);
    assert (s.name + [SPACE] + s.base64)[..|s.name|] == s.name;
    assert (s.name + [SPACE] + s.base64)[|s.name| + 1..] == s.base64;
  }

  lemma NameOk(name: bytes)
    requires ValidName(name)
    ensures name != [] && SPACE !in name && NEWLINE !in name
  {
    NameBytes(name);
  }

  /** The layout of a line: em dash, space, name, space, base64. */
  lemma LineOfIs(s: Signature)
    ensures LineOf(s) == [0xE2, 0x80, 0x94, 0x20] + s.name + [0x20] + s.base64
  {
    assert PREFIX + (s.name + [SPACE] + s.base64) == PREFIX + s.name + [SPACE] + s.base64;
  }

  /** Exactly the lines of well-formed signatures are read. */
  lemma ParsesIff(line: bytes, s: Signature)
    ensures ParseLine(line) == Some(s) <==> WellFormed(s) && line == LineOf(s)
  {
    hide Base64.Decode, ValidName;
    if WellFormed(s) && line == LineOf(s) {
      ParseLineOf(s);
    }
    if ParseLine(line) == Some(s) {
      var rest := line[4..];
      var i := IndexByte(SPACE, rest);
      assert line == line[..4] + rest;
      assert i < |rest|;
      assert rest == rest[..i] + [rest[i]] + rest[i + 1..];
    }
  }

  // ---- Open ----

  predicate SameKey(s: Signature, k: NoteKey) {
    s.name == k.name && s.hash == k.hash
  }

  function Matching(known: seq<NoteKey>, s: Signature): seq<NoteKey> {
    if known == [] then [] else
      var init, last := Matching(known[..|known| - 1], s), known[|known| - 1];
      if SameKey(s, last) then init + [last] else init
  }

  predicate Seen(sigs: seq<Signature>, s: Signature) {
    exists i :: 0 <= i < |sigs| && sigs[i].name == s.name && sigs[i].hash == s.hash
  }

  /** One more signature: an unknown key is kept once, a known key verifies once. */
  function WithSignature(ed: Ed25519, known: seq<NoteKey>, n: Note, s: Signature): Result<Note, OpenError> {
    var keys := Matching(known, s);
    if keys == [] then
      if s in n.unverified then Ok(n) else Ok(n.(unverified := n.unverified + [s]))
    else if |keys| > 1 then Err(Ambiguous)
    else if Seen(n.sigs, s) then Ok(n)
    else if ed.verify(keys[0].key, n.text, SignatureBytes(s)) then Ok(n.(sigs := n.sigs + [s]))
    else Err(InvalidSignature(s.name, s.hash))
  }

  function OpenLines(ed: Ed25519, known: seq<NoteKey>, text: bytes, lines: seq<bytes>): (r: Result<Note, OpenError>)
    ensures r.Err? ==> !r.error.UnverifiedNote?
  {
    if lines == [] then Ok(Note(text, [], [])) else
      var n, s := OpenLines(ed, known, text, lines[..|lines| - 1]), ParseLine(lines[|lines| - 1]);
      if n.Err? then n
      else if s.None? || |lines| > MAX_SIGNATURES then Err(Malformed)
      else WithSignature(ed, known, n.value, s.value)
  }

  /** What stands before the last blank line, its newline included. */
  function TextOf(msg: bytes): bytes {
    match LastBlankLine(msg)
    case Some(i) => msg[..i + 1]
    case None => []
  }

  /** What stands after it. */
  function SectionOf(msg: bytes): bytes {
    match LastBlankLine(msg)
    case Some(i) => msg[i + 2..]
    case None => []
  }

  function SignatureLines(msg: bytes): seq<bytes> {
    if SectionOf(msg) == [] then [] else Lines(SectionOf(msg)[..|SectionOf(msg)| - 1])
  }

  predicate WellFramed(msg: bytes) {
    ValidText(msg) && SectionOf(msg) != [] && SectionOf(msg)[|SectionOf(msg)| - 1] == NEWLINE
  }

  function Open(ed: Ed25519, msg: bytes, known: seq<NoteKey>): Result<Note, OpenError> {
    if !WellFramed(msg) then Err(Malformed) else
      var n := OpenLines(ed, known, TextOf(msg), SignatureLines(msg));
      if n.Ok? && n.value.sigs == [] then Err(UnverifiedNote(n.value)) else n
  }

  // ---- Sign ----

  function SignatureBy(ed: Ed25519, text: bytes, k: NoteKey): Signature {
    Signature(k.name, k.hash, Base64.Encode(k.hash + ed.sign(k.key, text)))
  }

  /** Existing signatures but those that the new one replaces. */
  function Others(sigs: seq<Signature>, k: NoteKey): seq<Signature> {
    if sigs == [] then [] else
      var init, last := Others(sigs[..|sigs| - 1], k), sigs[|sigs| - 1];
      if SameKey(last, k) then init else init + [last]
  }

  lemma {:induction false} OthersAre(sigs: seq<Signature>, k: NoteKey)
    ensures forall s :: s in Others(sigs, k) <==> s in sigs && !(s.name == k.name && s.hash == k.hash)
    decreases |sigs|
  {
    if sigs != [] {
      OthersAre(sigs[..|sigs| - 1], k);
      assert sigs == sigs[..|sigs| - 1] + [sigs[|sigs| - 1]];
    }
  }

  function LinesOf(sigs: seq<Signature>): (lines: seq<bytes>)
    ensures |lines| == |sigs| && forall i :: 0 <= i < |sigs| ==> lines[i] == LineOf(sigs[i])
  {
    if sigs == [] then [] else LinesOf(sigs[..|sigs| - 1]) + [LineOf(sigs[|sigs| - 1])]
  }

  datatype SignError = BadText | BadSigner | BadSignature

  function Sign(ed: Ed25519, n: Note, k: NoteKey): Result<bytes, SignError> {
    if n.text == [] || n.text[|n.text| - 1] != NEWLINE then Err(BadText)
    else if !ValidName(k.name) then Err(BadSigner)
    else
      var kept := Others(n.sigs, k) + Others(n.unverified, k);
      if exists i :: 0 <= i < |kept| && !Carried(kept[i]) then Err(BadSignature)
      else Ok(Reassembled(n.text, LinesOf(kept + [SignatureBy(ed, n.text, k)])))
  }

  /** A signature that `Sign` writes again. */
  predicate Carried(s: Signature) {
    && ValidName(s.name)
    && var raw := Base64.Decode(s.base64);
    raw.Some? && |raw.value| >= 4 && raw.value[..4] == s.hash
  }

  lemma SignatureByIsWellFormed(ed: Ed25519, text: bytes, k: NoteKey)
    requires ValidName(k.name) && |ed.sign(k.key, text)| == 64
    ensures WellFormed(SignatureBy(ed, text, k))
    ensures SignatureBytes(SignatureBy(ed, text, k)) == ed.sign(k.key, text)
  {
    hide Base64.Decode;
    var raw := k.hash + ed.sign(k.key, text);
    Base64.DecodeEncode(raw);
    assert raw[..4] == k.hash && raw[4..] == ed.sign(k.key, text);
    assert |Base64.Encode(raw)| > 0;
  }

  // ---- what Open guarantees ----

  /** A signature counts only when exactly one known key has its name and hash and verifies it. */
  ghost predicate VerifiedBy(ed: Ed25519, known: seq<NoteKey>, text: bytes, s: Signature) {
    exists i :: 0 <= i < |known| && SameKey(s, known[i]) && ed.verify(known[i].key, text, SignatureBytes(s))
  }

  ghost predicate Sane(ed: Ed25519, known: seq<NoteKey>, text: bytes, n: Note) {
    && n.text == text
    && (forall i :: 0 <= i < |n.sigs| ==> VerifiedBy(ed, known, text, n.sigs[i]) && WellFormed(n.sigs[i]))
    && (forall i :: 0 <= i < |n.unverified| ==> WellFormed(n.unverified[i]))
    && (forall i, j :: 0 <= i < j < |n.sigs| ==> !(n.sigs[i].name == n.sigs[j].name && n.sigs[i].hash == n.sigs[j].hash))
  }

  lemma {:induction false} MatchingAreKnown(known: seq<NoteKey>, s: Signature)
    ensures forall k :: k in Matching(known, s) <==> k in known && SameKey(s, k)
    decreases |known|
  {
    if known != [] {
      MatchingAreKnown(known[..|known| - 1], s);
      assert known == known[..|known| - 1] + [known[|known| - 1]];
    }
  }

  lemma WithSignatureSane(ed: Ed25519, known: seq<NoteKey>, n: Note, s: Signature)
    requires Sane(ed, known, n.text, n) && WellFormed(s) && WithSignature(ed, known, n, s).Ok?
    ensures Sane(ed, known, n.text, WithSignature(ed, known, n, s).value)
  {
    hide WellFormed, SignatureBytes;
    MatchingAreKnown(known, s);
    var keys := Matching(known, s);
    assert keys != [] ==> keys[0] in keys;
    if |keys| == 1 && !Seen(n.sigs, s) {
      var i :| 0 <= i < |known| && known[i] == keys[0];
      assert SameKey(s, known[i]);
    }
  }

  lemma {:induction false} OpenLinesSane(ed: Ed25519, known: seq<NoteKey>, text: bytes, lines: seq<bytes>)
    requires OpenLines(ed, known, text, lines).Ok?
    ensures Sane(ed, known, text, OpenLines(ed, known, text, lines).value) && |lines| <= MAX_SIGNATURES
    decreases |lines|
  {
    hide WellFormed, WithSignature, ParseLine;
    if lines != [] {
      OpenLinesSane(ed, known, text, lines[..|lines| - 1]);
      var n := OpenLines(ed, known, text, lines[..|lines| - 1]).value;
      WithSignatureSane(ed, known, n, ParseLine(lines[|lines| - 1]).value);
    }
  }

  /** The note of a message, verified or not. */
  function NoteOf(r: Result<Note, OpenError>): Option<Note> {
    match r
    case Ok(n) => Some(n)
    case Err(UnverifiedNote(n)) => Some(n)
    case Err(_) => None
  }

  /** What is returned has only verified signatures, one for each name and hash, over the text
      before the last blank line, from at most a hundred lines. */
  lemma OpenIsSane(ed: Ed25519, msg: bytes, known: seq<NoteKey>)
    requires NoteOf(Open(ed, msg, known)).Some?
    ensures Sane(ed, known, TextOf(msg), NoteOf(Open(ed, msg, known)).value)
    ensures |SignatureLines(msg)| <= 100
  {
    hide OpenLines;
    OpenLinesSane(ed, known, TextOf(msg), SignatureLines(msg));
  }

  // ---- notes put together from a text and signature lines ----

  /** A text that can be signed and read back: it ends its last line and has no empty line. */
  predicate NoteText(text: bytes) {
    text != [] && text[|text| - 1] == NEWLINE && ValidText(text) && BlankLine(text).None?
  }

  predicate NoteLine(line: bytes) {
    SignatureLine(line) && ValidText(line)
  }

  lemma {:induction false} JoinedIsValid(lines: seq<bytes>)
    requires forall l :: l in lines ==> ValidText(l)
    ensures ValidText(Joined(lines))
    decreases |lines|
  {
    hide ValidText, Joined;
    if lines == [] {
      NothingJoined();
      PlainIsValid([]);
    } else {
      assert lines[0] in lines && forall l :: l in lines[1..] ==> l in lines;
      JoinedIsValid(lines[1..]);
      NewlineThenValid(Joined(lines[1..]));
      JoinedFirst(lines);
      ValidAppend(lines[0], [NEWLINE] + Joined(lines[1..]));
    }
  }

  lemma NewlineThenValid(s: bytes)
    requires ValidText(s)
    ensures ValidText([NEWLINE] + s)
  {
    assert ([NEWLINE] + s)[1..] == s;
  }

  lemma LastBlankOfReassembled(text: bytes, lines: seq<bytes>)
    requires NoteText(text) && lines != [] && forall l :: l in lines ==> NoteLine(l)
    ensures LastBlankLine(Reassembled(text, lines)) == Some(|text| - 1)
    ensures Joined(lines) != [] && Joined(lines)[|Joined(lines)| - 1] == NEWLINE
  {
    hide SignatureLine, ValidText;
    var m, x, k := Reassembled(text, lines), Joined(lines), |text| - 1;
    forall l | l in lines ensures l != [] && NEWLINE !in l {
      NoteLineBytes(l);
    }
    JoinedHasNoBlank(lines, 0);
    assert |x| >= |lines[0]| + 1;
    assert m[k] == NEWLINE && m[k + 1] == NEWLINE && m[k + 2] == x[0];
    assert BlankAt(m, k) && m[k + 2..] == x;
    forall j | k < j ensures !BlankAt(m, j) {
      JoinedHasNoBlank(lines, j - k - 2);
      if j >= k + 2 {
        assert j + 1 < |m| ==> m[j] == x[j - k - 2] && m[j + 1] == x[j - k - 1];
      }
    }
  }

  lemma NoteLineBytes(line: bytes)
    requires NoteLine(line)
    ensures line != [] && NEWLINE !in line && HasPrefix(line, PREFIX)
  {
  }

  lemma ReassembledIsValid(text: bytes, lines: seq<bytes>)
    requires ValidText(text) && forall l :: l in lines ==> ValidText(l)
    ensures ValidText(Reassembled(text, lines))
  {
    hide ValidText, Joined;
    JoinedIsValid(lines);
    NewlineThenValid(Joined(lines));
    ValidAppend(text, [NEWLINE] + Joined(lines));
    assert Reassembled(text, lines) == text + ([NEWLINE] + Joined(lines));
  }

  lemma LinesOfSection(lines: seq<bytes>)
    requires lines != [] && forall l :: l in lines ==> NEWLINE !in l
    ensures Joined(lines) != [] && Lines(Joined(lines)[..|Joined(lines)| - 1]) == lines
  {
    hide Joined, Lines;
    var init, last := lines[..|lines| - 1], lines[|lines| - 1];
    assert lines == init + [last];
    JoinedSnoc(init, last);
    assert Joined(lines)[..|Joined(lines)| - 1] == Joined(init) + last;
    assert last in lines && forall l :: l in init ==> l in lines;
    LinesOfJoined(init, last);
  }

  /** It is taken apart where it was put together, so opening it is opening its lines. */
  lemma OpenReassembled(text: bytes, lines: seq<bytes>)
    requires NoteText(text) && lines != [] && forall l :: l in lines ==> NoteLine(l)
    ensures var m := Reassembled(text, lines);
      WellFramed(m) && TextOf(m) == text && SignatureLines(m) == lines
  {
    hide SignatureLine, ValidText, Joined, Lines;
    var m, x := Reassembled(text, lines), Joined(lines);
    LastBlankOfReassembled(text, lines);
    assert m[..|text|] == text && m[|text| + 1..] == x;
    forall l | l in lines ensures NEWLINE !in l && ValidText(l) {
      NoteLineBytes(l);
    }
    ReassembledIsValid(text, lines);
    LinesOfSection(lines);
  }

  /** The line of a signature that `Sign` makes. */
  lemma SignedLine(ed: Ed25519, text: bytes, k: NoteKey)
    requires ValidName(k.name) && ValidText(k.name) && |ed.sign(k.key, text)| == 64
    ensures NoteLine(LineOf(SignatureBy(ed, text, k)))
    ensures ParseLine(LineOf(SignatureBy(ed, text, k))) == Some(SignatureBy(ed, text, k))
  {
    hide ParseLine, Base64.Encode, Base64.Decode, ValidName;
    var s := SignatureBy(ed, text, k);
    SignatureByIsWellFormed(ed, text, k);
    ParseLineOf(s);
    NameOk(k.name);
    Base64.EncodeSymbols(k.hash + ed.sign(k.key, text));
    assert forall i :: 0 <= i < |s.base64| ==> Base64.IsSymbol(s.base64[i]);
    LineIsPlain(s);
  }

  lemma LineIsPlain(s: Signature)
    requires NEWLINE !in s.name && ValidText(s.name) && s.base64 != []
    requires forall i :: 0 <= i < |s.base64| ==> Base64.IsSymbol(s.base64[i])
    ensures NoteLine(LineOf(s))
  {
    hide ValidText;
    LineIsValid(s);
    var line, n := LineOf(s), |s.base64|;
    assert line[|line| - 1] == s.base64[n - 1] && Base64.IsSymbol(s.base64[n - 1]);
    assert line[..4] == PREFIX;
    assert forall i :: 0 <= i < n ==> Base64.IsSymbol(s.base64[i]) && s.base64[i] != NEWLINE;
  }

  lemma PrefixIsValid()
    ensures ValidText(PREFIX)
  {
    assert RuneLength(PREFIX) == 3 && PREFIX[3..] == [SPACE];
    PlainIsValid([SPACE]);
  }

  lemma LineIsValid(s: Signature)
    requires ValidText(s.name)
    requires forall i :: 0 <= i < |s.base64| ==> Base64.IsSymbol(s.base64[i])
    ensures ValidText(LineOf(s))
  {
    hide ValidText, PREFIX;
    var rest: bytes := [SPACE] + s.base64;
    assert forall i :: 0 <= i < |s.base64| ==> rest[i + 1] == s.base64[i] && Base64.IsSymbol(s.base64[i]);
    PlainIsValid(rest);
    assert s.name + [SPACE] + s.base64 == s.name + rest;
    ValidAppend(s.name, rest);
    PrefixIsValid();
    ValidAppend(PREFIX, s.name + [SPACE] + s.base64);
  }
}
