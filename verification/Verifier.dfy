/** verifier.go: the verification chain. */
module Verifiers {
  import opened Wrappers
  import opened JsonModel
  import opened Platform
  import opened Tokens
  import opened Reconstruct
  import opened Collecting
  import opened Heap
  import Jwt

  datatype VerifierConfig = VerifierConfig(
    expectedVct: string,
    requireKeyBinding: bool,
    audience: string,
    clockSkew: int       // nanoseconds
  )

  datatype VerificationResult = VerificationResult(
    issuerClaims: Object,
    disclosedClaims: Object,
    issuer: string,
    vct: string,
    subject: string,
    keyBound: bool
  )

  /** What is known once the issuer JWT has been accepted (steps 0 to 5). */
  datatype Checked = Checked(token: Token, payload: Object, issuer: string, alg: HashAlg)

  /** A numeric date claim, as nanoseconds; `None` when absent or not a number. */
  function DateClaim(m: Object, k: string): Option<int> {
    if k in m && m[k].Num? then Some(FromSeconds(Truncate(m[k].mantissa, m[k].scale))) else None
  }

  predicate Expired(m: Object, now: int, skew: int) {
    DateClaim(m, "exp").Some? && now > DateClaim(m, "exp").value + skew
  }

  predicate NotYetValid(m: Object, now: int, skew: int) {
    DateClaim(m, "nbf").Some? && now < DateClaim(m, "nbf").value - skew
  }

  /** The `_sd_alg` claim, with the default of the specification. */
  function SdAlgName(m: Object): string {
    if StringMember(m, SD_ALG) == "" then "sha-256" else StringMember(m, SD_ALG)
  }

  /** Decoding, key resolution, signature, validity period and `_sd_alg`, in order. */
  function CheckToken(pf: Suite, cfg: VerifierConfig, t: Token, now: int): Result<Checked, VerifyError> {
    match Jwt.DecodeJwt(pf, t.issuerJwt)
    case None => Err(IssuerJwtUndecodable)
    case Some(jwt) =>
      var issuer := StringMember(jwt.payload, "iss");
      if issuer == "" then Err(IssuerMissing)
      else
        match pf.resolveKey(issuer, StringMember(jwt.header, "kid"))
        case None => Err(KeyResolutionFailed)
        case Some(key) =>
          if !Jwt.SignatureValid(pf, t.issuerJwt, key, StringMember(jwt.header, "alg")) then Err(SignatureInvalid)
          else if Expired(jwt.payload, now, cfg.clockSkew) then Err(TokenExpired)
          else if NotYetValid(jwt.payload, now, cfg.clockSkew) then Err(TokenNotYetValid)
          else
            match AlgorithmFromSdAlg(SdAlgName(jwt.payload))
            case None => Err(UnsupportedHashAlgorithm)
            case Some(alg) => Ok(Checked(t, jwt.payload, issuer, alg))
  }

  function CheckIssuerJwt(pf: Suite, cfg: VerifierConfig, raw: string, now: int): Result<Checked, VerifyError> {
    match ParseToken(raw)
    case None => Err(BadFormat)
    case Some(t) => CheckToken(pf, cfg, t, now)
  }

  /** More than the tolerance has passed since the second named by `exp`. */
  ghost predicate TooLate(m: Object, now: int, skew: int) {
    "exp" in m && m["exp"].Num? &&
    exists s | IsWholePart(m["exp"].mantissa, m["exp"].scale, s) :: now > s * 1_000_000_000 + skew
  }

  /** More than the tolerance is left until the second named by `nbf`. */
  ghost predicate TooEarly(m: Object, now: int, skew: int) {
    "nbf" in m && m["nbf"].Num? &&
    exists s | IsWholePart(m["nbf"].mantissa, m["nbf"].scale, s) :: now < s * 1_000_000_000 - skew
  }

  lemma DateMeaning(m: Object, k: string)
    ensures match DateClaim(m, k)
            case None => k !in m || !m[k].Num?
            case Some(t) => k in m && m[k].Num? && IsWholePart(m[k].mantissa, m[k].scale, t / 1_000_000_000) &&
                            t == t / 1_000_000_000 * 1_000_000_000
  {
    if k in m && m[k].Num? {
      var s := Truncate(m[k].mantissa, m[k].scale);
      TruncateMeaning(m[k].mantissa, m[k].scale, s);
      SecondsMeaning(0, s);
    }
  }

  lemma PeriodMeaning(m: Object, now: int, skew: int)
    ensures Expired(m, now, skew) <==> TooLate(m, now, skew)
    ensures NotYetValid(m, now, skew) <==> TooEarly(m, now, skew)
  {
    DateMeaning(m, "exp");
    DateMeaning(m, "nbf");
    if "exp" in m && m["exp"].Num? {
      OneWholePart(m["exp"]);
    }
    if "nbf" in m && m["nbf"].Num? {
      OneWholePart(m["nbf"]);
    }
  }

  lemma OneWholePart(j: Json)
    requires j.Num?
    ensures forall s, t | IsWholePart(j.mantissa, j.scale, s) && IsWholePart(j.mantissa, j.scale, t) :: s == t
  {
    forall s, t | IsWholePart(j.mantissa, j.scale, s) && IsWholePart(j.mantissa, j.scale, t)
      ensures s == t
    {
      TruncateMeaning(j.mantissa, j.scale, s);
      TruncateMeaning(j.mantissa, j.scale, t);
    }
  }

  /** The holder's key, two members down. */
  ghost predicate HasJwk(claims: Object, jwk: Object) {
    && "cnf" in claims && claims["cnf"].Obj?
    && "jwk" in claims["cnf"].members && claims["cnf"].members["jwk"] == Obj(jwk)
  }

  lemma CnfMeaning(claims: Object, jwk: Object)
    ensures ExtractCnf(claims) == Some(jwk) <==> HasJwk(claims, jwk)
  {
  }

  /** `extractCnf`. */
  function ExtractCnf(claims: Object): Option<Object> {
    if "cnf" in claims && claims["cnf"].Obj? then
      var cnf := claims["cnf"].members;
      if "jwk" in cnf && cnf["jwk"].Obj? then Some(cnf["jwk"].members) else None
    else None
  }

  /** The `aud` claim names the verifier, alone or in a list. */
  predicate AudienceMatches(payload: Object, expected: string) {
    && "aud" in payload
    && match payload["aud"]
       case Str(s) => s == expected
       case Arr(items) => Str(expected) in items
       case _ => false
  }

  /** `verifyKBJWT`; `None` when the KB-JWT is in order. */
  function KbJwtError(pf: Suite, t: Token, jwk: Object, nonce: string, audience: string): Option<VerifyError> {
    match Jwt.DecodeJwt(pf, t.kbJwt)
    case None => Some(KbJwtUndecodable)
    case Some(kb) =>
      match pf.jwkKey(jwk)
      case None => Some(KbJwtKeyInvalid)
      case Some(key) =>
        if !Jwt.SignatureValid(pf, t.kbJwt, key, StringMember(kb.header, "alg")) then Some(KbJwtSignatureInvalid)
        else if nonce != "" && StringMember(kb.payload, "nonce") != nonce then Some(KbJwtNonceMismatch)
        else if audience != "" && !AudienceMatches(kb.payload, audience) then Some(KbJwtAudMismatch)
        else if StringMember(kb.payload, "sd_hash") != pf.digest(Sha256, t.Prefix()) then Some(KbJwtHashMismatch)
        else None
  }

  /** Step 7. The `cnf` claim is taken from the payload after the write-back. */
  function KeyBindingError(pf: Suite, cfg: VerifierConfig, t: Token, claims: Object, nonce: string)
    : Option<VerifyError>
  {
    if !t.HasKeyBinding() then
      if cfg.requireKeyBinding then Some(KbJwtRequired) else None
    else
      match ExtractCnf(claims)
      case None => Some(CnfMissing)
      case Some(jwk) => KbJwtError(pf, t, jwk, nonce, cfg.audience)
  }

  /** Steps 7 and 8, given the accepted disclosures. */
  function Conclude(pf: Suite, cfg: VerifierConfig, c: Checked, w: Writes, nonce: string)
    : Result<VerificationResult, VerifyError>
  {
    var claims := Rebuild(Obj(c.payload), [], w).members;
    match KeyBindingError(pf, cfg, c.token, claims, nonce)
    case Some(e) => Err(e)
    case None =>
      var vct := StringMember(claims, "vct");
      if cfg.expectedVct != "" && vct != cfg.expectedVct then Err(VctMismatch)
      else Ok(VerificationResult(claims, Values(w), c.issuer, vct, StringMember(claims, "sub"),
                                 c.token.HasKeyBinding()))
  }

  /** The whole chain, for a given index of the payload's digests. */
  ghost function Outcome(pf: Suite, cfg: VerifierConfig, raw: string, nonce: string, now: int,
                         index: map<string, Path>): Result<VerificationResult, VerifyError>
  {
    match CheckIssuerJwt(pf, cfg, raw, now)
    case Err(e) => Err(e)
    case Ok(c) =>
      if Deep(Obj(c.payload), 0) then Err(PayloadTooDeep)
      else
        match Process(pf, c.alg, index, c.token.disclosures)
        case Err(e) => Err(e)
        case Ok(w) => Conclude(pf, cfg, c, w, nonce)
  }

  /** `index` is one that collecting the digests of the presented payload can produce. */
  ghost predicate Possible(pf: Suite, cfg: VerifierConfig, raw: string, now: int, index: map<string, Path>) {
    var checked := CheckIssuerJwt(pf, cfg, raw, now);
    checked.Ok? && !Deep(Obj(checked.value.payload), 0) ==> Collected(checked.value.payload, index)
  }

  lemma PossibleIsCollected(pf: Suite, cfg: VerifierConfig, raw: string, now: int, index: map<string, Path>)
    requires Possible(pf, cfg, raw, now, index) && CheckIssuerJwt(pf, cfg, raw, now).Ok?
    requires !Deep(Obj(CheckIssuerJwt(pf, cfg, raw, now).value.payload), 0)
    ensures var m := CheckIssuerJwt(pf, cfg, raw, now).value.payload;
            Collected(m, index) && IsIndex(m, index)
  {
    CollectedIsIndex(CheckIssuerJwt(pf, cfg, raw, now).value.payload, index);
  }

  /** `r` is the result for some index that can be collected. */
  ghost predicate Verdict(pf: Suite, cfg: VerifierConfig, raw: string, nonce: string, now: int,
                          r: Result<VerificationResult, VerifyError>)
  {
    exists index | Possible(pf, cfg, raw, now, index) :: r == Outcome(pf, cfg, raw, nonce, now, index)
  }

  /** The `aud` member is the verifier's name, or an array in which it stands somewhere. */
  ghost predicate NamesAudience(payload: Object, expected: string) {
    "aud" in payload &&
    (payload["aud"] == Str(expected) ||
     (payload["aud"].Arr? &&
      exists i :: 0 <= i < |payload["aud"].items| && payload["aud"].items[i] == Str(expected)))
  }

  lemma AudienceMeaning(payload: Object, expected: string)
    ensures AudienceMatches(payload, expected) <==> NamesAudience(payload, expected)
  {
  }

  method CheckAudience(payload: Object, expected: string) returns (ok: bool)
    ensures ok == AudienceMatches(payload, expected)
    ensures ok <==> NamesAudience(payload, expected)
  {
    AudienceMeaning(payload, expected);
    if "aud" !in payload {
      return false;
    }
    match payload["aud"] {
      case Str(s) =>
        return s == expected;
      case Arr(items) =>
        var found := false;
        var i := 0;
        while i < |items| && !found
          invariant i <= |items|
          invariant found <==> Str(expected) in items[..i]
        {
          if items[i] == Str(expected) {
            found := true;
          }
          i := i + 1;
        }
        assert items[..|items|] == items;
        return found;
      case _ =>
        return false;
    }
  }

  method VerifyKbJwt(pf: Suite, t: Token, jwk: Object, nonce: string, audience: string) returns (e: Option<VerifyError>)
    ensures e == KbJwtError(pf, t, jwk, nonce, audience)
  {
    var kb := Jwt.DecodeJwt(pf, t.kbJwt);
    if kb.None? {
      return Some(KbJwtUndecodable);
    }
    var key := pf.jwkKey(jwk);
    if key.None? {
      return Some(KbJwtKeyInvalid);
    }
    if !Jwt.SignatureValid(pf, t.kbJwt, key.value, StringMember(kb.value.header, "alg")) {
      return Some(KbJwtSignatureInvalid);
    }
    if nonce != "" && StringMember(kb.value.payload, "nonce") != nonce {
      return Some(KbJwtNonceMismatch);
    }
    if audience != "" {
      var matches := CheckAudience(kb.value.payload, audience);
      if !matches {
        return Some(KbJwtAudMismatch);
      }
    }
    if StringMember(kb.value.payload, "sd_hash") != pf.digest(Sha256, t.Prefix()) {
      return Some(KbJwtHashMismatch);
    }
    return None;
  }

  /**
   * Step 6: the payload becomes a tree of heap objects, an index of its digests is collected,
   * and the disclosed values are stored through that index. What the root object holds
   * afterwards is the rebuilt payload.
   */
  method RevealInPlace(pf: Suite, alg: HashAlg, payload: Object, ds: seq<string>)
    returns (r: Result<(Object, Object), VerifyError>, ghost index: map<string, Path>)
    ensures Deep(Obj(payload), 0) ==> r == Err(PayloadTooDeep)
    ensures !Deep(Obj(payload), 0) ==> Collected(payload, index)
    ensures !Deep(Obj(payload), 0) ==>
              match Process(pf, alg, index, ds)
              case Err(e) => r == Err(e)
              case Ok(w) => r.Ok? && Obj(r.value.0) == Rebuild(Obj(payload), [], w) && r.value.1 == Values(w)
  {
    var l := Decode(payload);
    assert ObjectAt(payload, []) == Some(payload);
    var root := l[[]];
    var digestMap;
    digestMap, index := CollectDigests(root, 0, payload, l, [], payload);
    if digestMap.Err? {
      return Err(PayloadTooDeep), index;
    }
    var disclosed, w := ApplyDisclosures(pf, alg, ds, digestMap.value, l, payload, index);
    if disclosed.Err? {
      return Err(disclosed.error), index;
    }
    ContentsAreRebuilt(l, payload, w, [], payload, l.Values);
    return Ok((Contents(root, l.Values).members, disclosed.value)), index;
  }

  method Verify(pf: Suite, cfg: VerifierConfig, raw: string, nonce: string, now: int)
    returns (r: Result<VerificationResult, VerifyError>)
    ensures Verdict(pf, cfg, raw, nonce, now, r)
  {
    ghost var index: map<string, Path> := map[];
    assert CheckIssuerJwt(pf, cfg, raw, now).Err? ==> Possible(pf, cfg, raw, now, index);
    var t := Parse(raw);
    if t.None? {
      return Err(BadFormat);
    }
    var jwt := Jwt.DecodeJwt(pf, t.value.issuerJwt);
    if jwt.None? {
      return Err(IssuerJwtUndecodable);
    }
    var payload := jwt.value.payload;
    var issuer := StringMember(payload, "iss");
    if issuer == "" {
      return Err(IssuerMissing);
    }
    var key := pf.resolveKey(issuer, StringMember(jwt.value.header, "kid"));
    if key.None? {
      return Err(KeyResolutionFailed);
    }
    if !Jwt.SignatureValid(pf, t.value.issuerJwt, key.value, StringMember(jwt.value.header, "alg")) {
      return Err(SignatureInvalid);
    }
    if Expired(payload, now, cfg.clockSkew) {
      return Err(TokenExpired);
    }
    if NotYetValid(payload, now, cfg.clockSkew) {
      return Err(TokenNotYetValid);
    }
    var alg := AlgorithmFromSdAlg(SdAlgName(payload));
    if alg.None? {
      return Err(UnsupportedHashAlgorithm);
    }
    assert CheckIssuerJwt(pf, cfg, raw, now) == Ok(Checked(t.value, payload, issuer, alg.value));

    var revealed;
    revealed, index := RevealInPlace(pf, alg.value, payload, t.value.disclosures);
    assert Possible(pf, cfg, raw, now, index);
    if revealed.Err? {
      return Err(revealed.error);
    }
    var (issuerClaims, disclosedClaims) := revealed.value;

    if cfg.requireKeyBinding && !t.value.HasKeyBinding() {
      return Err(KbJwtRequired);
    }
    if t.value.HasKeyBinding() {
      var jwk := ExtractCnf(issuerClaims);
      if jwk.None? {
        return Err(CnfMissing);
      }
      var e := VerifyKbJwt(pf, t.value, jwk.value, nonce, cfg.audience);
      if e.Some? {
        return Err(e.value);
      }
    }
    var vct := StringMember(issuerClaims, "vct");
    if cfg.expectedVct != "" && vct != cfg.expectedVct {
      return Err(VctMismatch);
    }
    return Ok(VerificationResult(issuerClaims, disclosedClaims, issuer, vct, StringMember(issuerClaims, "sub"),
                                 t.value.HasKeyBinding()));
  }
}
