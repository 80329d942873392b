/** Receipt signatures (pkg/vur/signing.go, internal/signing) and receipt building
    (internal/api/ingest.go). */
module Signing {
  import opened ByteStrings
  import opened MerkleTree
  import opened Json
  import opened Receipts
  import Hex

  /** Signatures as a pair of functions of the key pair, named by its public key. */
  datatype Ed25519 = Ed25519(sign: (bytes, bytes) -> bytes, verify: (bytes, bytes, bytes) -> bool)

  ghost predicate Correct(ed: Ed25519) {
    forall key, m :: |ed.sign(key, m)| == 64 && ed.verify(key, m, ed.sign(key, m))
  }

  /** A signature made for one message that verifies for another. */
  ghost predicate Forgery(ed: Ed25519, key: bytes, m: bytes, other: bytes) {
    m != other && ed.verify(key, other, ed.sign(key, m))
  }

  /** The `*Receipt` that signing and verifying change in place. */
  class ReceiptRef {
    var value: Receipt

    constructor (r: Receipt)
      ensures value == r
    {
      value := r;
    }
  }

  // ---- SignReceipt and VerifyReceipt ----

  /** What is signed: the receipt with its signer type filled in and no signature. */
  function ToSign(r: Receipt): Receipt {
    r.(signerType := if r.signerType == "" then "ed25519" else r.signerType, signatureHex := "")
  }

  function Signed(enc: Encoder, ed: Ed25519, key: bytes, r: Receipt): Receipt {
    ToSign(r).(signatureHex := Hex.Encode(ed.sign(key, CanonicalBytes(enc, ToSign(r)))))
  }

  method SignReceipt(enc: Encoder, ed: Ed25519, key: bytes, r: ReceiptRef)
    modifies r
    ensures r.value == Signed(enc, ed, key, old(r.value))
    ensures var unsigned := old(r.value).(signerType := if old(r.value.signerType) == "" then "ed25519" else old(r.value.signerType), signatureHex := "");
      r.value == unsigned.(signatureHex := Hex.Encode(ed.sign(key, CanonicalBytes(enc, unsigned))))
  {
    hide CanonicalBytes, Hex.Encode;
    if r.value.signerType == "" {
      r.value := r.value.(signerType := "ed25519");
    }
    r.value := r.value.(signatureHex := "");
    var b := CanonicalBytes(enc, r.value);
    r.value := r.value.(signatureHex := Hex.Encode(ed.sign(key, b)));
  }

  datatype Verdict = Accepted | NoSignature | BadHex | Mismatch

  function ReceiptVerdict(enc: Encoder, ed: Ed25519, key: bytes, r: Receipt): Verdict {
    if r.signatureHex == "" then NoSignature
    else if Hex.Decode(r.signatureHex).None? then BadHex
    else if ed.verify(key, CanonicalBytes(enc, r.(signatureHex := "")), Hex.Decode(r.signatureHex).value) then Accepted
    else Mismatch
  }

  /** The signature is cleared while the bytes are computed and put back. */
  method VerifyReceipt(enc: Encoder, ed: Ed25519, key: bytes, r: ReceiptRef) returns (v: Verdict)
    modifies r
    ensures v == ReceiptVerdict(enc, ed, key, r.value)
    ensures r.value == old(r.value)
  {
    var sigHex := r.value.signatureHex;
    if sigHex == "" {
      return NoSignature;
    }
    var sig := Hex.Decode(sigHex);
    if sig.None? {
      return BadHex;
    }
    r.value := r.value.(signatureHex := "");
    var b := CanonicalBytes(enc, r.value);
    r.value := r.value.(signatureHex := sigHex);
    v := if ed.verify(key, b, sig.value) then Accepted else Mismatch;
  }

  lemma SpelledBytes(text: string)
    ensures Hex.Decode(text).None? <==> forall sig :: !Hex.Spells(text, sig)
    ensures forall sig :: Hex.Spells(text, sig) <==> Hex.Decode(text) == Some(sig)
  {
    hide Hex.Decode, Hex.Spells;
    forall sig ensures Hex.Spells(text, sig) <==> Hex.Decode(text) == Some(sig) {
      Hex.DecodesSpelled(text, sig);
    }
    if Hex.Decode(text).Some? {
      assert Hex.Spells(text, Hex.Decode(text).value);
    }
  }

  /** For every receipt: no signature when the text is empty, bad hex when it spells no bytes, and
      acceptance exactly when the bytes it spells verify for the receipt without it. */
  lemma ReceiptVerdictIs(enc: Encoder, ed: Ed25519, key: bytes, r: Receipt)
    ensures ReceiptVerdict(enc, ed, key, r) == NoSignature <==> r.signatureHex == ""
    ensures ReceiptVerdict(enc, ed, key, r) == BadHex <==> r.signatureHex != "" && forall sig :: !Hex.Spells(r.signatureHex, sig)
    ensures ReceiptVerdict(enc, ed, key, r) == Accepted
       <==> r.signatureHex != "" && exists sig :: Hex.Spells(r.signatureHex, sig) && ed.verify(key, CanonicalBytes(enc, r.(signatureHex := "")), sig)
  {
    hide CanonicalBytes, Hex.Decode, Hex.Spells;
    SpelledBytes(r.signatureHex);
  }

  /** A receipt that carries another's signature is accepted exactly when no field that is signed
      differs, or the signature is a forgery for its canonical bytes. */
  lemma SignThenVerify(enc: Encoder, ed: Ed25519, key: bytes, r: Receipt, presented: Receipt)
    requires Sound(enc) && Correct(ed)
    requires presented.signatureHex == Signed(enc, ed, key, r).signatureHex
    ensures ReceiptVerdict(enc, ed, key, presented) == Accepted <==>
            (|| presented == Signed(enc, ed, key, r)
             || Forgery(ed, key, CanonicalBytes(enc, ToSign(r)), CanonicalBytes(enc, presented)))
  {
    var sig := ed.sign(key, CanonicalBytes(enc, ToSign(r)));
    Hex.DecodeEncode(sig);
    assert |Hex.Encode(sig)| == 128;
    CanonicalBytesDetermine(enc, presented, presented.(signatureHex := ""));
    CanonicalBytesDetermine(enc, ToSign(r), presented);
  }

  /** Whatever the encoder, a receipt that was signed verifies. */
  lemma SignedVerifies(enc: Encoder, ed: Ed25519, key: bytes, r: Receipt)
    requires Correct(ed)
    ensures ReceiptVerdict(enc, ed, key, Signed(enc, ed, key, r)) == Accepted
  {
    hide CanonicalBytes;
    HexOfSignature(ed, key, CanonicalBytes(enc, ToSign(r)));
    SameBytes(enc, ToSign(r), Signed(enc, ed, key, r).(signatureHex := ""));
  }

  lemma HexOfSignature(ed: Ed25519, key: bytes, m: bytes)
    requires Correct(ed)
    ensures Hex.Encode(ed.sign(key, m)) != "" && Hex.Decode(Hex.Encode(ed.sign(key, m))) == Some(ed.sign(key, m))
    ensures ed.verify(key, m, ed.sign(key, m))
  {
    Hex.DecodeEncode(ed.sign(key, m));
    assert |Hex.Encode(ed.sign(key, m))| == 128;
  }

  // ---- pluggable signers ----

  datatype Bundle = Bundle(signatureHex: string, certificatePEM: string, rekorLogIndex: int)

  datatype Signer = Signer(kind: string, identity: string, sign: bytes -> Option<Bundle>)

  function ToSignWith(s: Signer, r: Receipt): Receipt {
    r.(signerType := s.kind, signerIdentity := s.identity, signatureHex := "", certificatePEM := "", rekorLogIndex := 0)
  }

  function SignedWith(r: Receipt, bundle: Bundle): Receipt {
    r.(signatureHex := bundle.signatureHex, certificatePEM := bundle.certificatePEM,
       rekorLogIndex := if bundle.rekorLogIndex >= 0 then bundle.rekorLogIndex else r.rekorLogIndex)
  }

  /** When the signer fails the receipt is left prepared and unsigned. */
  method SignReceiptWithSigner(enc: Encoder, r: ReceiptRef, s: Signer) returns (ok: bool)
    modifies r
    ensures ok <==> s.sign(CanonicalBytes(enc, ToSignWith(s, old(r.value)))).Some?
    ensures ok ==> r.value == SignedWith(ToSignWith(s, old(r.value)), s.sign(CanonicalBytes(enc, ToSignWith(s, old(r.value)))).value)
    ensures !ok ==> r.value == ToSignWith(s, old(r.value))
    ensures var prepared := old(r.value).(signerType := s.kind, signerIdentity := s.identity, signatureHex := "", certificatePEM := "", rekorLogIndex := 0);
      match s.sign(CanonicalBytes(enc, prepared))
      case None => !ok && r.value == prepared
      case Some(b) => ok && r.value == prepared.(signatureHex := b.signatureHex, certificatePEM := b.certificatePEM,
                                                 rekorLogIndex := if b.rekorLogIndex >= 0 then b.rekorLogIndex else 0)
  {
    hide CanonicalBytes;
    r.value := r.value.(signerType := s.kind);
    r.value := r.value.(signerIdentity := s.identity);
    r.value := r.value.(signatureHex := "");
    r.value := r.value.(certificatePEM := "");
    r.value := r.value.(rekorLogIndex := 0);
    var bundle := s.sign(CanonicalBytes(enc, r.value));
    if bundle.None? {
      return false;
    }
    r.value := r.value.(signatureHex := bundle.value.signatureHex);
    r.value := r.value.(certificatePEM := bundle.value.certificatePEM);
    if bundle.value.rekorLogIndex >= 0 {
      r.value := r.value.(rekorLogIndex := bundle.value.rekorLogIndex);
    }
    ok := true;
  }

  function Ed25519Signer(ed: Ed25519, key: bytes): Signer {
    Signer("ed25519", Hex.Encode(key), (payload: bytes) => Some(Bundle(Hex.Encode(ed.sign(key, payload)), "", -1)))
  }

  /** The payload that the verifier recomputes is the one that was signed exactly when the signer
      fills in neither a certificate nor a positive log index. */
  lemma SignerKeepsPayload(enc: Encoder, s: Signer, r: Receipt, bundle: Bundle)
    requires Sound(enc) && s.sign(CanonicalBytes(enc, ToSignWith(s, r))) == Some(bundle)
    ensures CanonicalBytes(enc, SignedWith(ToSignWith(s, r), bundle).(signatureHex := "")) == CanonicalBytes(enc, ToSignWith(s, r))
       <==> bundle.certificatePEM == "" && bundle.rekorLogIndex <= 0
  {
    CanonicalBytesDetermine(enc, SignedWith(ToSignWith(s, r), bundle).(signatureHex := ""), ToSignWith(s, r));
  }

  /** With the Ed25519 signer every signed receipt verifies, and it says which key signed it. */
  lemma Ed25519SignerVerifies(enc: Encoder, ed: Ed25519, key: bytes, r: Receipt)
    requires Correct(ed)
    ensures var s := Ed25519Signer(ed, key);
      var bundle := s.sign(CanonicalBytes(enc, ToSignWith(s, r))).value;
      var signed := SignedWith(ToSignWith(s, r), bundle);
      && ReceiptVerdict(enc, ed, key, signed) == Accepted
      && signed == r.(signerType := "ed25519", signerIdentity := Hex.Encode(key), certificatePEM := "", rekorLogIndex := 0,
                      signatureHex := signed.signatureHex)
  {
    hide CanonicalBytes, Hex.Encode;
    var s := Ed25519Signer(ed, key);
    var prepared := ToSignWith(s, r);
    var payload := CanonicalBytes(enc, prepared);
    HexOfSignature(ed, key, payload);
    SameBytes(enc, prepared, SignedWith(prepared, s.sign(payload).value).(signatureHex := ""));
  }

  // ---- pluggable verifiers ----

  /** What a verifier is given besides the payload. */
  datatype Presented = Presented(signatureHex: string, certificatePEM: string, rekorLogIndex: int, signerIdentity: string, signerType: string)

  datatype Verifier = Verifier(verify: (bytes, Presented) -> Verdict)

  /** The verifier judges the receipt without its signature, and the receipt is left as it was. */
  method VerifyReceiptWithVerifier(enc: Encoder, r: ReceiptRef, v: Verifier) returns (verdict: Verdict)
    modifies r
    ensures r.value == old(r.value)
    ensures verdict == if r.value.signatureHex == "" then NoSignature
      else v.verify(CanonicalBytes(enc, r.value.(signatureHex := "")),
                    Presented(r.value.signatureHex, r.value.certificatePEM, r.value.rekorLogIndex, r.value.signerIdentity, r.value.signerType))
  {
    hide CanonicalBytes;
    var sigHex := r.value.signatureHex;
    if sigHex == "" {
      return NoSignature;
    }
    r.value := r.value.(signatureHex := "");
    var b := CanonicalBytes(enc, r.value);
    r.value := r.value.(signatureHex := sigHex);
    verdict := v.verify(b, Presented(sigHex, r.value.certificatePEM, r.value.rekorLogIndex, r.value.signerIdentity, r.value.signerType));
  }

  function Ed25519Verifier(ed: Ed25519, key: bytes): Verifier {
    Verifier((payload: bytes, p: Presented) =>
               if Hex.Decode(p.signatureHex).None? then BadHex
               else if ed.verify(key, payload, Hex.Decode(p.signatureHex).value) then Accepted
               else Mismatch)
  }

  /** For every signature text that is not empty, with the Ed25519 verifier the answer is that of
      the check without pluggable verifiers. */
  lemma Ed25519VerifierAgrees(enc: Encoder, ed: Ed25519, key: bytes, r: Receipt, p: Presented)
    requires r.signatureHex != "" && p.signatureHex == r.signatureHex
    ensures Ed25519Verifier(ed, key).verify(CanonicalBytes(enc, r.(signatureHex := "")), p) == ReceiptVerdict(enc, ed, key, r)
  {
    hide CanonicalBytes, Hex.Decode;
  }

  // ---- receipt building ----

  datatype Usage = Usage(inputTokens: int, outputTokens: int, reasoningTokens: int, requestID: string)

  datatype IngestRequest = IngestRequest(
    provider: string, tenant: string, model: string, requestBody: bytes, responseBody: bytes, requestID: string)

  /** What the model registry, the energy estimator, the clock and the id generator supply. */
  datatype Supplied = Supplied(
    id: string, now: int,
    modelSignerIdentity: string, modelSignatureVerified: bool, modelDigest: string,
    energyEstimateJoules: Float64, energySource: string, carbonIntensity: Float64, inferenceRegion: string)

  function HashBytes(sha: Sha, b: bytes): string {
    if b == [] then "" else Hex.Encode(sha(b))
  }

  function Draft(sha: Sha, key: bytes, req: IngestRequest, usage: Usage, given: Supplied): Receipt {
    Receipt(given.id, "1.1.0", req.tenant, req.provider, req.model, given.modelDigest, "", "",
            usage.inputTokens, usage.outputTokens, usage.reasoningTokens, 0, 0,
            HashBytes(sha, req.requestBody), HashBytes(sha, req.responseBody), "",
            if req.requestID == "" then usage.requestID else req.requestID,
            given.now, Hex.Encode(key), "", "", "", 0, false, Zero,
            given.modelSignerIdentity, given.modelSignatureVerified,
            given.energyEstimateJoules, given.energySource, given.carbonIntensity, given.inferenceRegion)
  }

  method BuildReceipt(enc: Encoder, sha: Sha, ed: Ed25519, key: bytes, req: IngestRequest, parsed: Option<Usage>, given: Supplied)
    returns (r: Option<Receipt>)
    ensures r.None? <==> parsed.None?
    ensures r.Some? ==> r.value == Signed(enc, ed, key, Draft(sha, key, req, parsed.value, given)).(verified := true)
    ensures r.Some? ==>
      && r.value.id == given.id && r.value.timestamp == given.now && r.value.version == "1.1.0"
      && r.value.tenant == req.tenant && r.value.provider == req.provider && r.value.model == req.model
      && r.value.inputTokens == parsed.value.inputTokens && r.value.outputTokens == parsed.value.outputTokens
      && r.value.reasoningTokens == parsed.value.reasoningTokens
      && r.value.requestHash == (if req.requestBody == [] then "" else Hex.Encode(sha(req.requestBody)))
      && r.value.responseHash == (if req.responseBody == [] then "" else Hex.Encode(sha(req.responseBody)))
      && r.value.requestID == (if req.requestID == "" then parsed.value.requestID else req.requestID)
    ensures r.Some? ==>
      && r.value.modelDigest == given.modelDigest && r.value.modelSignerIdentity == given.modelSignerIdentity
      && r.value.modelSignatureVerified == given.modelSignatureVerified
      && r.value.energyEstimateJoules == given.energyEstimateJoules && r.value.energySource == given.energySource
      && r.value.carbonIntensity == given.carbonIntensity && r.value.inferenceRegion == given.inferenceRegion
      && r.value.tokenizerID == r.value.tokenizerHash == r.value.tokenBoundaryRoot == r.value.certificatePEM == ""
      && r.value.verifiedInputTokens == r.value.verifiedOutputTokens == r.value.rekorLogIndex == 0
      && r.value.discrepancyPct == Zero
    ensures r.Some? ==>
      && r.value.verified && r.value.signerType == "ed25519" && r.value.signerIdentity == Hex.Encode(key)
      && r.value.signatureHex == Hex.Encode(ed.sign(key, CanonicalBytes(enc, r.value.(signatureHex := "", verified := false))))
  {
    hide CanonicalBytes, Hex.Encode;
    if parsed.None? {
      return None;
    }
    var receipt := new ReceiptRef(Draft(sha, key, req, parsed.value, given));
    SignReceipt(enc, ed, key, receipt);
    receipt.value := receipt.value.(verified := true);
    r := Some(receipt.value);
  }

  /** The flag set after signing is a signed field: an ingested receipt verifies exactly when its
      signature forges the canonical bytes with the flag set. */
  lemma BuiltReceiptVerifiesIffForgery(enc: Encoder, sha: Sha, ed: Ed25519, key: bytes, req: IngestRequest, usage: Usage, given: Supplied)
    requires Sound(enc) && Correct(ed)
    ensures var draft := Draft(sha, key, req, usage, given);
      var built := Signed(enc, ed, key, draft).(verified := true);
      ReceiptVerdict(enc, ed, key, built) == Accepted <==>
      Forgery(ed, key, CanonicalBytes(enc, ToSign(draft)), CanonicalBytes(enc, built))
  {
    var draft := Draft(sha, key, req, usage, given);
    SignThenVerify(enc, ed, key, draft, Signed(enc, ed, key, draft).(verified := true));
  }

  /** With the flag set before signing, as the documentation of the format asks, it verifies. */
  lemma FlagBeforeSigningVerifies(enc: Encoder, ed: Ed25519, key: bytes, draft: Receipt)
    requires Correct(ed)
    ensures ReceiptVerdict(enc, ed, key, Signed(enc, ed, key, draft.(verified := true))) == Accepted
  {
    SignedVerifies(enc, ed, key, draft.(verified := true));
  }
}
