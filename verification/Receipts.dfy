/** Receipts and their canonical bytes (pkg/vur/receipt.go, pkg/vur/canonical.go). */
module Receipts {
  import opened ByteStrings
  import opened Json

  /** Token counts are integers, energy figures 64-bit floats, the timestamp an instant in nanoseconds. */
  datatype Receipt = Receipt(
    id: string,
    version: string,
    tenant: string,
    provider: string,
    model: string,
    modelDigest: string,
    tokenizerID: string,
    tokenizerHash: string,
    inputTokens: int,
    outputTokens: int,
    reasoningTokens: int,
    verifiedInputTokens: int,
    verifiedOutputTokens: int,
    requestHash: string,
    responseHash: string,
    tokenBoundaryRoot: string,
    requestID: string,
    timestamp: int,
    signerIdentity: string,
    signerType: string,
    signatureHex: string,
    certificatePEM: string,
    rekorLogIndex: int,
    verified: bool,
    discrepancyPct: Float64,
    modelSignerIdentity: string,
    modelSignatureVerified: bool,
    energyEstimateJoules: Float64,
    energySource: string,
    carbonIntensity: Float64,
    inferenceRegion: string)

  // The members in alphabetical order, in groups that end in a member that is always written.

  function DiscrepancyFields(r: Receipt): seq<Field> {
    [ Field("carbon_intensity_gco2e_per_kwh", true, Flt(r.carbonIntensity)),
      Field("certificate_pem", true, Str(r.certificatePEM)),
      Field("discrepancy_pct", false, Flt(r.discrepancyPct)) ]
  }

  function IdFields(r: Receipt): seq<Field> {
    [ Field("energy_estimate_joules", true, Flt(r.energyEstimateJoules)),
      Field("energy_source", true, Str(r.energySource)),
      Field("id", false, Str(r.id)) ]
  }

  function ModelFields(r: Receipt): seq<Field> {
    [ Field("inference_region", true, Str(r.inferenceRegion)),
      Field("input_tokens", false, Int(r.inputTokens)),
      Field("model", false, Str(r.model)),
      Field("model_digest", false, Str(r.modelDigest)) ]
  }

  function ProviderFields(r: Receipt): seq<Field> {
    [ Field("model_signature_verified", true, Bool(r.modelSignatureVerified)),
      Field("model_signer_identity", true, Str(r.modelSignerIdentity)),
      Field("output_tokens", false, Int(r.outputTokens)),
      Field("provider", false, Str(r.provider)),
      Field("reasoning_tokens", false, Int(r.reasoningTokens)) ]
  }

  function RequestFields(r: Receipt): seq<Field> {
    [ Field("rekor_log_index", true, Int(r.rekorLogIndex)),
      Field("request_hash", false, Str(r.requestHash)),
      Field("request_id", false, Str(r.requestID)),
      Field("response_hash", false, Str(r.responseHash)),
      Field("signer_identity", false, Str(r.signerIdentity)),
      Field("signer_type", false, Str(r.signerType)) ]
  }

  function TokenizerFields(enc: Encoder, r: Receipt): seq<Field> {
    [ Field("tenant", false, Str(r.tenant)),
      Field("timestamp", false, Str(enc.time(r.timestamp))),
      Field("token_boundary_root", false, Str(r.tokenBoundaryRoot)),
      Field("tokenizer_hash", false, Str(r.tokenizerHash)),
      Field("tokenizer_id", false, Str(r.tokenizerID)) ]
  }

  function VerifiedFields(r: Receipt): seq<Field> {
    [ Field("verified", false, Bool(r.verified)),
      Field("verified_input_tokens", false, Int(r.verifiedInputTokens)),
      Field("verified_output_tokens", false, Int(r.verifiedOutputTokens)),
      Field("version", false, Str(r.version)) ]
  }

  /** The last four groups, from the one before. */
  function CanonicalTail(enc: Encoder, r: Receipt): seq<Field> {
    RequestFields(r) + (TokenizerFields(enc, r) + VerifiedFields(r))
  }

  function CanonicalFields(enc: Encoder, r: Receipt): seq<Field> {
    DiscrepancyFields(r) + (IdFields(r) + (ModelFields(r) + (ProviderFields(r) + CanonicalTail(enc, r))))
  }

  ghost predicate WellNamed(fs: seq<Field>) {
    Named(fs) && KeysSeparate(fs)
  }

  lemma CarbonNameIsPlain()
    ensures Plain("carbon_intensity_gco2e_per_kwh")
  {
  }

  lemma DiscrepancyNamesArePlain()
    ensures Plain("certificate_pem") && Plain("discrepancy_pct")
  {
  }

  lemma DiscrepancyNamed(r: Receipt)
    ensures Named(DiscrepancyFields(r))
  {
    hide Plain;
    CarbonNameIsPlain();
    DiscrepancyNamesArePlain();
  }

  lemma DiscrepancyWellNamed(r: Receipt)
    ensures WellNamed(DiscrepancyFields(r))
  {
    hide Named;
    DiscrepancyNamed(r);
    var f := DiscrepancyFields(r);
    assert f[0].name[1] != f[1].name[1] && f[0].name[0] != f[2].name[0] && f[1].name[0] != f[2].name[0];
  }

  lemma FirstIdNamesArePlain()
    ensures Plain("energy_estimate_joules") && Plain("energy_source")
  {
  }

  lemma LastIdNamesArePlain()
    ensures Plain("id")
  {
  }

  lemma IdNamed(r: Receipt)
    ensures Named(IdFields(r))
  {
    hide Plain;
    FirstIdNamesArePlain();
    LastIdNamesArePlain();
  }

  lemma IdWellNamed(r: Receipt)
    ensures WellNamed(IdFields(r))
  {
    hide Named;
    IdNamed(r);
    assert "energy_estimate_joules"[7] != "energy_source"[7];
    assert "energy_estimate_joules"[0] != "id"[0] && "energy_source"[0] != "id"[0];
  }

  lemma FirstModelNamesArePlain()
    ensures Plain("inference_region") && Plain("input_tokens")
  {
  }

  lemma LastModelNamesArePlain()
    ensures Plain("model") && Plain("model_digest")
  {
  }

  lemma ModelNamed(r: Receipt)
    ensures Named(ModelFields(r))
  {
    hide Plain;
    FirstModelNamesArePlain();
    LastModelNamesArePlain();
  }

  lemma ModelWellNamed(r: Receipt)
    ensures WellNamed(ModelFields(r))
  {
    hide Named;
    ModelNamed(r);
    assert "inference_region"[2] != "input_tokens"[2];
  }

  lemma LongestNameIsPlain()
    ensures Plain("model_signature_verified")
  {
  }

  lemma SignerNameIsPlain()
    ensures Plain("model_signer_identity")
  {
  }

  lemma ProviderNamesArePlain()
    ensures Plain("output_tokens") && Plain("provider") && Plain("reasoning_tokens")
  {
  }

  lemma ProviderNamed(r: Receipt)
    ensures Named(ProviderFields(r))
  {
    hide Plain;
    LongestNameIsPlain();
    SignerNameIsPlain();
    ProviderNamesArePlain();
  }

  lemma ProviderWellNamed(r: Receipt)
    ensures WellNamed(ProviderFields(r))
  {
    hide Named;
    ProviderNamed(r);
    assert "model_signature_verified"[10] != "model_signer_identity"[10];
    assert "model_signature_verified"[0] != "output_tokens"[0];
    assert "model_signer_identity"[0] != "output_tokens"[0];
  }

  lemma RequestNamesArePlain()
    ensures Plain("rekor_log_index") && Plain("request_hash") && Plain("request_id")
  {
  }

  lemma SignerNamesArePlain()
    ensures Plain("response_hash") && Plain("signer_identity") && Plain("signer_type")
  {
  }

  lemma RequestNamed(r: Receipt)
    ensures Named(RequestFields(r))
  {
    hide Plain;
    RequestNamesArePlain();
    SignerNamesArePlain();
  }

  lemma RequestWellNamed(r: Receipt)
    ensures WellNamed(RequestFields(r))
  {
    hide Named;
    RequestNamed(r);
    assert "rekor_log_index"[2] != "request_hash"[2];
  }

  lemma FirstTokenizerNamesArePlain()
    ensures Plain("tenant") && Plain("timestamp") && Plain("token_boundary_root")
  {
  }

  lemma LastTokenizerNamesArePlain()
    ensures Plain("tokenizer_hash") && Plain("tokenizer_id")
  {
  }

  lemma TokenizerNamed(enc: Encoder, r: Receipt)
    ensures Named(TokenizerFields(enc, r))
  {
    hide Plain;
    FirstTokenizerNamesArePlain();
    LastTokenizerNamesArePlain();
  }

  lemma TokenizerWellNamed(enc: Encoder, r: Receipt)
    ensures WellNamed(TokenizerFields(enc, r))
  {
    hide Named;
    TokenizerNamed(enc, r);
  }

  lemma FirstVerifiedNamesArePlain()
    ensures Plain("verified") && Plain("verified_input_tokens")
  {
  }

  lemma LastVerifiedNamesArePlain()
    ensures Plain("verified_output_tokens") && Plain("version")
  {
  }

  lemma VerifiedNamed(r: Receipt)
    ensures Named(VerifiedFields(r))
  {
    hide Plain;
    FirstVerifiedNamesArePlain();
    LastVerifiedNamesArePlain();
  }

  lemma VerifiedWellNamed(r: Receipt)
    ensures WellNamed(VerifiedFields(r))
  {
    hide Named;
    VerifiedNamed(r);
  }

  lemma CanonicalWellNamed(enc: Encoder, r: Receipt)
    ensures WellNamed(CanonicalFields(enc, r))
  {
    DiscrepancyWellNamed(r);
    IdWellNamed(r);
    ModelWellNamed(r);
    ProviderWellNamed(r);
    RequestWellNamed(r);
    TokenizerWellNamed(enc, r);
    VerifiedWellNamed(r);
    var g := TokenizerFields(enc, r) + VerifiedFields(r);
    KeysSeparateAppend(TokenizerFields(enc, r), VerifiedFields(r));
    KeysSeparateAppend(RequestFields(r), g);
    g := CanonicalTail(enc, r);
    KeysSeparateAppend(ProviderFields(r), g);
    g := ProviderFields(r) + g;
    KeysSeparateAppend(ModelFields(r), g);
    g := ModelFields(r) + g;
    KeysSeparateAppend(IdFields(r), g);
    g := IdFields(r) + g;
    KeysSeparateAppend(DiscrepancyFields(r), g);
  }

  function CanonicalBytes(enc: Encoder, r: Receipt): bytes {
    CanonicalWellNamed(enc, r);
    Marshal(enc, CanonicalFields(enc, r))
  }

  /** Two receipts that differ at most in the signature. */
  predicate SameButSignature(r: Receipt, s: Receipt) {
    r == s.(signatureHex := r.signatureHex)
  }

  lemma DiscrepancyFieldsDetermine(r: Receipt, s: Receipt)
    requires DiscrepancyFields(r) == DiscrepancyFields(s)
    ensures r.carbonIntensity == s.carbonIntensity
    ensures r.certificatePEM == s.certificatePEM
    ensures r.discrepancyPct == s.discrepancyPct
  {
    var f, g := DiscrepancyFields(r), DiscrepancyFields(s);
    assert f[0] == g[0] && f[1] == g[1] && f[2] == g[2];
  }

  lemma IdFieldsDetermine(r: Receipt, s: Receipt)
    requires IdFields(r) == IdFields(s)
    ensures r.energyEstimateJoules == s.energyEstimateJoules
    ensures r.energySource == s.energySource
    ensures r.id == s.id
  {
    var f, g := IdFields(r), IdFields(s);
    assert f[0] == g[0] && f[1] == g[1] && f[2] == g[2];
  }

  lemma ModelFieldsDetermine(r: Receipt, s: Receipt)
    requires ModelFields(r) == ModelFields(s)
    ensures r.inferenceRegion == s.inferenceRegion
    ensures r.inputTokens == s.inputTokens
    ensures r.model == s.model
    ensures r.modelDigest == s.modelDigest
  {
    var f, g := ModelFields(r), ModelFields(s);
    assert f[0] == g[0] && f[1] == g[1] && f[2] == g[2] && f[3] == g[3];
  }

  lemma ProviderFieldsDetermine(r: Receipt, s: Receipt)
    requires ProviderFields(r) == ProviderFields(s)
    ensures r.modelSignatureVerified == s.modelSignatureVerified
    ensures r.modelSignerIdentity == s.modelSignerIdentity
    ensures r.outputTokens == s.outputTokens
    ensures r.provider == s.provider
    ensures r.reasoningTokens == s.reasoningTokens
  {
    var f, g := ProviderFields(r), ProviderFields(s);
    assert f[0] == g[0] && f[1] == g[1] && f[2] == g[2] && f[3] == g[3] && f[4] == g[4];
  }

  lemma RequestFieldsDetermine(r: Receipt, s: Receipt)
    requires RequestFields(r) == RequestFields(s)
    ensures r.rekorLogIndex == s.rekorLogIndex
    ensures r.requestHash == s.requestHash
    ensures r.requestID == s.requestID
    ensures r.responseHash == s.responseHash
    ensures r.signerIdentity == s.signerIdentity
    ensures r.signerType == s.signerType
  {
    var f, g := RequestFields(r), RequestFields(s);
    assert f[0] == g[0] && f[1] == g[1] && f[2] == g[2] && f[3] == g[3] && f[4] == g[4] && f[5] == g[5];
  }

  lemma TokenizerFieldsDetermine(enc: Encoder, r: Receipt, s: Receipt)
    requires Sound(enc) && TokenizerFields(enc, r) == TokenizerFields(enc, s)
    ensures r.tenant == s.tenant
    ensures r.timestamp == s.timestamp
    ensures r.tokenBoundaryRoot == s.tokenBoundaryRoot
    ensures r.tokenizerHash == s.tokenizerHash
    ensures r.tokenizerID == s.tokenizerID
  {
    var f, g := TokenizerFields(enc, r), TokenizerFields(enc, s);
    assert f[0] == g[0] && f[1] == g[1] && f[2] == g[2] && f[3] == g[3] && f[4] == g[4];
  }

  lemma VerifiedFieldsDetermine(r: Receipt, s: Receipt)
    requires VerifiedFields(r) == VerifiedFields(s)
    ensures r.verified == s.verified
    ensures r.verifiedInputTokens == s.verifiedInputTokens
    ensures r.verifiedOutputTokens == s.verifiedOutputTokens
    ensures r.version == s.version
  {
    var f, g := VerifiedFields(r), VerifiedFields(s);
    assert f[0] == g[0] && f[1] == g[1] && f[2] == g[2] && f[3] == g[3];
  }

  lemma FieldsDetermine(enc: Encoder, r: Receipt, s: Receipt)
    requires Sound(enc) && CanonicalFields(enc, r) == CanonicalFields(enc, s)
    ensures SameButSignature(r, s)
  {
    var x, y := RequestFields(r) + (TokenizerFields(enc, r) + VerifiedFields(r)), RequestFields(s) + (TokenizerFields(enc, s) + VerifiedFields(s));
    var v, w := ModelFields(r) + (ProviderFields(r) + x), ModelFields(s) + (ProviderFields(s) + y);
    SameSplit(DiscrepancyFields(r), IdFields(r) + v, DiscrepancyFields(s), IdFields(s) + w);
    SameSplit(IdFields(r), v, IdFields(s), w);
    SameSplit(ModelFields(r), ProviderFields(r) + x, ModelFields(s), ProviderFields(s) + y);
    SameSplit(ProviderFields(r), x, ProviderFields(s), y);
    SameSplit(RequestFields(r), TokenizerFields(enc, r) + VerifiedFields(r),
                RequestFields(s), TokenizerFields(enc, s) + VerifiedFields(s));
    SameSplit(TokenizerFields(enc, r), VerifiedFields(r), TokenizerFields(enc, s), VerifiedFields(s));
    DiscrepancyFieldsDetermine(r, s);
    IdFieldsDetermine(r, s);
    ModelFieldsDetermine(r, s);
    ProviderFieldsDetermine(r, s);
    RequestFieldsDetermine(r, s);
    TokenizerFieldsDetermine(enc, r, s);
    VerifiedFieldsDetermine(r, s);
  }

  lemma TailGroupsSameSchema(enc: Encoder, r: Receipt, s: Receipt)
    ensures SameSchema(RequestFields(r), RequestFields(s))
    ensures SameSchema(TokenizerFields(enc, r), TokenizerFields(enc, s))
    ensures SameSchema(VerifiedFields(r), VerifiedFields(s))
  {
  }

  lemma HeadGroupsSameSchema(r: Receipt, s: Receipt)
    ensures SameSchema(DiscrepancyFields(r), DiscrepancyFields(s))
    ensures SameSchema(IdFields(r), IdFields(s))
    ensures SameSchema(ModelFields(r), ModelFields(s))
    ensures SameSchema(ProviderFields(r), ProviderFields(s))
  {
  }

  lemma TailSameSchema(enc: Encoder, r: Receipt, s: Receipt)
    ensures SameSchema(CanonicalTail(enc, r), CanonicalTail(enc, s))
  {
    hide SameSchema, RequestFields, TokenizerFields, VerifiedFields;
    TailGroupsSameSchema(enc, r, s);
    SameSchemaAppend(TokenizerFields(enc, r), VerifiedFields(r), TokenizerFields(enc, s), VerifiedFields(s));
    SameSchemaAppend(RequestFields(r), TokenizerFields(enc, r) + VerifiedFields(r),
                     RequestFields(s), TokenizerFields(enc, s) + VerifiedFields(s));
  }

  lemma CanonicalSameSchema(enc: Encoder, r: Receipt, s: Receipt)
    ensures SameSchema(CanonicalFields(enc, r), CanonicalFields(enc, s))
  {
    hide SameSchema, CanonicalTail, ProviderFields, ModelFields, IdFields, DiscrepancyFields;
    var x, y := CanonicalTail(enc, r), CanonicalTail(enc, s);
    HeadGroupsSameSchema(r, s);
    TailSameSchema(enc, r, s);
    SameSchemaAppend(ProviderFields(r), x, ProviderFields(s), y);
    x, y := ProviderFields(r) + x, ProviderFields(s) + y;
    SameSchemaAppend(ModelFields(r), x, ModelFields(s), y);
    x, y := ModelFields(r) + x, ModelFields(s) + y;
    SameSchemaAppend(IdFields(r), x, IdFields(s), y);
    x, y := IdFields(r) + x, IdFields(s) + y;
    SameSchemaAppend(DiscrepancyFields(r), x, DiscrepancyFields(s), y);
  }

  lemma SameBytes(enc: Encoder, r: Receipt, s: Receipt)
    requires SameButSignature(r, s)
    ensures CanonicalBytes(enc, r) == CanonicalBytes(enc, s)
  {
    hide Marshal;
    assert CanonicalFields(enc, r) == CanonicalFields(enc, s);
  }

  /** The canonical bytes determine every field but the signature, although fields holding their
      zero value may be left out. */
  lemma CanonicalBytesDetermine(enc: Encoder, r: Receipt, s: Receipt)
    requires Sound(enc)
    ensures CanonicalBytes(enc, r) == CanonicalBytes(enc, s) <==> SameButSignature(r, s)
  {
    if CanonicalBytes(enc, r) == CanonicalBytes(enc, s) {
      CanonicalWellNamed(enc, r);
      CanonicalWellNamed(enc, s);
      CanonicalSameSchema(enc, r, s);
      MarshalReadBack(enc, CanonicalFields(enc, r), CanonicalFields(enc, s));
      FieldsDetermine(enc, r, s);
    }
    if SameButSignature(r, s) {
      SameBytes(enc, r, s);
    }
  }

  // ---- the members, and their order ----

  /** The thirty members: name, whether it is left out when empty, and value. */
  lemma CanonicalMembers(enc: Encoder, r: Receipt)
    ensures CanonicalFields(enc, r) == [
      Field("carbon_intensity_gco2e_per_kwh", true, Flt(r.carbonIntensity)),
      Field("certificate_pem", true, Str(r.certificatePEM)),
      Field("discrepancy_pct", false, Flt(r.discrepancyPct)),
      Field("energy_estimate_joules", true, Flt(r.energyEstimateJoules)),
      Field("energy_source", true, Str(r.energySource)),
      Field("id", false, Str(r.id)),
      Field("inference_region", true, Str(r.inferenceRegion)),
      Field("input_tokens", false, Int(r.inputTokens)),
      Field("model", false, Str(r.model)),
      Field("model_digest", false, Str(r.modelDigest)),
      Field("model_signature_verified", true, Bool(r.modelSignatureVerified)),
      Field("model_signer_identity", true, Str(r.modelSignerIdentity)),
      Field("output_tokens", false, Int(r.outputTokens)),
      Field("provider", false, Str(r.provider)),
      Field("reasoning_tokens", false, Int(r.reasoningTokens))
    ] + [
      Field("rekor_log_index", true, Int(r.rekorLogIndex)),
      Field("request_hash", false, Str(r.requestHash)),
      Field("request_id", false, Str(r.requestID)),
      Field("response_hash", false, Str(r.responseHash)),
      Field("signer_identity", false, Str(r.signerIdentity)),
      Field("signer_type", false, Str(r.signerType)),
      Field("tenant", false, Str(r.tenant)),
      Field("timestamp", false, Str(enc.time(r.timestamp))),
      Field("token_boundary_root", false, Str(r.tokenBoundaryRoot)),
      Field("tokenizer_hash", false, Str(r.tokenizerHash)),
      Field("tokenizer_id", false, Str(r.tokenizerID)),
      Field("verified", false, Bool(r.verified)),
      Field("verified_input_tokens", false, Int(r.verifiedInputTokens)),
      Field("verified_output_tokens", false, Int(r.verifiedOutputTokens)),
      Field("version", false, Str(r.version))
    ]
  {
  }

  /** The bytes that are signed and hashed: the members that are not left out, between braces. */
  lemma CanonicalText(enc: Encoder, r: Receipt)
    ensures Named(CanonicalFields(enc, r))
    ensures CanonicalBytes(enc, r) == [123] + Separated(MemberTexts(enc, CanonicalFields(enc, r))) + [125]
  {
    hide CanonicalFields, Marshal, MemberTexts, Separated;
    CanonicalWellNamed(enc, r);
    MarshalText(enc, CanonicalFields(enc, r));
  }

  /** One text comes before another in byte order: they first differ at d. */
  predicate DiffersAt(a: string, b: string, d: nat) {
    && d <= |a| && d < |b|
    && (forall i :: 0 <= i < d ==> a[i] == b[i])
    && (d < |a| ==> a[d] < b[d])
  }

  ghost predicate Alphabetical(a: string, b: string) {
    exists d: nat :: DiffersAt(a, b, d)
  }

  ghost predicate SortedNames(fs: seq<Field>) {
    forall i, j :: 0 <= i < j < |fs| ==> Alphabetical(fs[i].name, fs[j].name)
  }

  lemma AlphabeticalTwice(a: string, b: string, c: string)
    requires Alphabetical(a, b) && Alphabetical(b, c)
    ensures Alphabetical(a, c)
  {
    var d: nat :| DiffersAt(a, b, d);
    var e: nat :| DiffersAt(b, c, e);
    assert DiffersAt(a, c, if d < e then d else e);
  }

  /** Groups in order, the last name of one before the first of the next. */
  lemma SortedAppend(fs: seq<Field>, gs: seq<Field>)
    requires SortedNames(fs) && SortedNames(gs)
    requires fs != [] && gs != [] && Alphabetical(fs[|fs| - 1].name, gs[0].name)
    ensures SortedNames(fs + gs)
  {
    hide Alphabetical;
    var all, n := fs + gs, |fs|;
    forall i, j | 0 <= i < j < |all| ensures Alphabetical(all[i].name, all[j].name) {
      if i < n <= j {
        if i < n - 1 {
          AlphabeticalTwice(fs[i].name, fs[n - 1].name, gs[0].name);
        }
        if j > n {
          AlphabeticalTwice(fs[i].name, gs[0].name, gs[j - n].name);
        }
      }
    }
  }

  lemma {:induction false} SortedConsecutive(fs: seq<Field>)
    requires forall i :: 0 < i < |fs| ==> Alphabetical(fs[i - 1].name, fs[i].name)
    ensures SortedNames(fs)
    decreases |fs|
  {
    hide Alphabetical;
    if |fs| >= 2 {
      var init, last := fs[..|fs| - 1], fs[|fs| - 1];
      SortedConsecutive(init);
      assert fs == init + [last];
      SortedAppend(init, [last]);
    }
  }

  lemma FirstGroupsSorted(r: Receipt)
    ensures SortedNames(DiscrepancyFields(r)) && SortedNames(IdFields(r))
  {
    assert DiffersAt("carbon_intensity_gco2e_per_kwh", "certificate_pem", 1);
    assert DiffersAt("certificate_pem", "discrepancy_pct", 0);
    SortedConsecutive(DiscrepancyFields(r));
    assert DiffersAt("energy_estimate_joules", "energy_source", 7);
    assert DiffersAt("energy_source", "id", 0);
    SortedConsecutive(IdFields(r));
  }

  lemma ModelGroupSorted(r: Receipt)
    ensures SortedNames(ModelFields(r))
  {
    assert DiffersAt("inference_region", "input_tokens", 2);
    assert DiffersAt("input_tokens", "model", 0);
    assert DiffersAt("model", "model_digest", 5);
    SortedConsecutive(ModelFields(r));
  }

  lemma MiddleGroupsSorted(r: Receipt)
    ensures SortedNames(ProviderFields(r)) && SortedNames(RequestFields(r))
  {
    assert DiffersAt("model_signature_verified", "model_signer_identity", 10);
    assert DiffersAt("model_signer_identity", "output_tokens", 0);
    assert DiffersAt("output_tokens", "provider", 0);
    assert DiffersAt("provider", "reasoning_tokens", 0);
    SortedConsecutive(ProviderFields(r));
    assert DiffersAt("rekor_log_index", "request_hash", 2);
    assert DiffersAt("request_hash", "request_id", 8);
    assert DiffersAt("request_id", "response_hash", 2);
    assert DiffersAt("response_hash", "signer_identity", 0);
    assert DiffersAt("signer_identity", "signer_type", 7);
    SortedConsecutive(RequestFields(r));
  }

  lemma TokenizerGroupSorted(enc: Encoder, r: Receipt)
    ensures SortedNames(TokenizerFields(enc, r))
  {
    assert DiffersAt("tenant", "timestamp", 1);
    assert DiffersAt("timestamp", "token_boundary_root", 1);
    assert DiffersAt("token_boundary_root", "tokenizer_hash", 5);
    assert DiffersAt("tokenizer_hash", "tokenizer_id", 10);
    SortedConsecutive(TokenizerFields(enc, r));
  }

  lemma VerifiedGroupSorted(r: Receipt)
    ensures SortedNames(VerifiedFields(r))
  {
    assert DiffersAt("verified", "verified_input_tokens", 8);
    assert DiffersAt("verified_input_tokens", "verified_output_tokens", 9);
    assert DiffersAt("verified_output_tokens", "version", 3);
    SortedConsecutive(VerifiedFields(r));
  }

  lemma GroupsFollow()
    ensures Alphabetical("discrepancy_pct", "energy_estimate_joules") && Alphabetical("id", "inference_region")
    ensures Alphabetical("model_digest", "model_signature_verified") && Alphabetical("reasoning_tokens", "rekor_log_index")
    ensures Alphabetical("signer_type", "tenant") && Alphabetical("tokenizer_id", "verified")
  {
    assert DiffersAt("discrepancy_pct", "energy_estimate_joules", 0);
    assert DiffersAt("id", "inference_region", 1);
    assert DiffersAt("model_digest", "model_signature_verified", 6);
    assert DiffersAt("reasoning_tokens", "rekor_log_index", 2);
    assert DiffersAt("signer_type", "tenant", 0);
    assert DiffersAt("tokenizer_id", "verified", 0);
  }

  /** The members are in strict alphabetical order, so the order of writing is canonical. */
  lemma CanonicalNamesSorted(enc: Encoder, r: Receipt)
    ensures SortedNames(CanonicalFields(enc, r))
  {
    hide SortedNames, Alphabetical;
    FirstGroupsSorted(r);
    ModelGroupSorted(r);
    MiddleGroupsSorted(r);
    TokenizerGroupSorted(enc, r);
    VerifiedGroupSorted(r);
    GroupsFollow();
    var g := TokenizerFields(enc, r) + VerifiedFields(r);
    SortedAppend(TokenizerFields(enc, r), VerifiedFields(r));
    SortedAppend(RequestFields(r), g);
    g := CanonicalTail(enc, r);
    SortedAppend(ProviderFields(r), g);
    g := ProviderFields(r) + g;
    SortedAppend(ModelFields(r), g);
    g := ModelFields(r) + g;
    SortedAppend(IdFields(r), g);
    g := IdFields(r) + g;
    SortedAppend(DiscrepancyFields(r), g);
  }
}
