/** The verdict of a verification, stage by stage, read off the text and what it carries. */
module Stages {
  import opened Wrappers
  import opened JsonModel
  import opened Platform
  import opened Tokens
  import opened Reconstruct
  import opened DisclosureStage
  import opened Verifiers
  import opened Soundness
  import Jwt
  import Text

  /** What a verifier reads from a JWT: its payload and three texts, each empty if missing. */
  datatype Read = Read(header: Object, payload: Object, alg: string)

  /** `token` can be read, as `r`. */
  ghost predicate ReadAs(pf: Suite, token: string, r: Read) {
    Jwt.Carries(pf, token, r.header, r.payload) && ReadsText(r.header, "alg", r.alg)
  }

  // ----- The issuer JWT -----

  /** The verdict `v` on an issuer JWT that was read as `r`, with issuer `iss` and key id `kid`. */
  ghost predicate IssuerVerdict(pf: Suite, cfg: VerifierConfig, t: Token, now: int, r: Read, iss: string, kid: string,
                                v: Result<Checked, VerifyError>)
  {
    if iss == "" then v == Err(IssuerMissing)
    else
      match pf.resolveKey(iss, kid)
      case None => v == Err(KeyResolutionFailed)
      case Some(key) =>
        if !Jwt.SignedBy(pf, t.issuerJwt, key, r.alg) then v == Err(SignatureInvalid)
        else if TooLate(r.payload, now, cfg.clockSkew) then v == Err(TokenExpired)
        else if TooEarly(r.payload, now, cfg.clockSkew) then v == Err(TokenNotYetValid)
        else if exists alg :: HashNamed(r.payload, alg) then
          exists alg :: HashNamed(r.payload, alg) && v == Ok(Checked(t, r.payload, iss, alg))
        else v == Err(UnsupportedHashAlgorithm)
  }

  lemma Readable(pf: Suite, token: string) returns (r: Read)
    ensures match Jwt.DecodeJwt(pf, token)
            case None => forall x :: !ReadAs(pf, token, x)
            case Some(jwt) => r.header == jwt.header && r.payload == jwt.payload && ReadAs(pf, token, r) &&
                              r.alg == StringMember(jwt.header, "alg")
    ensures forall x | ReadAs(pf, token, x) :: x == r
  {
    r := Read(map[], map[], "");
    if Jwt.DecodeJwt(pf, token).Some? {
      var jwt := Jwt.DecodeJwt(pf, token).value;
      r := Read(jwt.header, jwt.payload, StringMember(jwt.header, "alg"));
      Jwt.DecodeMeaning(pf, token, jwt.header, jwt.payload);
      StringMemberMeaning(jwt.header, "alg", r.alg);
    }
    forall x | ReadAs(pf, token, x)
      ensures Jwt.DecodeJwt(pf, token) == Some(Jwt.Decoded(x.header, x.payload)) && x == r
    {
      Jwt.DecodeMeaning(pf, token, x.header, x.payload);
      StringMemberMeaning(x.header, "alg", x.alg);
    }
  }

  /** The checks of the issuer JWT, in order, each with its error. */
  lemma IssuerStage(pf: Suite, cfg: VerifierConfig, t: Token, now: int)
    ensures (CheckToken(pf, cfg, t, now) == Err(IssuerJwtUndecodable) <==> forall r :: !ReadAs(pf, t.issuerJwt, r))
    ensures forall r, iss, kid |
              ReadAs(pf, t.issuerJwt, r) && ReadsText(r.payload, "iss", iss) && ReadsText(r.header, "kid", kid) ::
              IssuerVerdict(pf, cfg, t, now, r, iss, kid, CheckToken(pf, cfg, t, now))
  {
    var r := Readable(pf, t.issuerJwt);
    if Jwt.DecodeJwt(pf, t.issuerJwt).Some? {
      IssuerChecks(pf, cfg, t, now, r);
    }
    forall r', iss, kid |
      ReadAs(pf, t.issuerJwt, r') && ReadsText(r'.payload, "iss", iss) && ReadsText(r'.header, "kid", kid)
      ensures IssuerVerdict(pf, cfg, t, now, r', iss, kid, CheckToken(pf, cfg, t, now))
    {
      StringMemberMeaning(r.payload, "iss", iss);
      StringMemberMeaning(r.header, "kid", kid);
    }
  }

  lemma IssuerChecks(pf: Suite, cfg: VerifierConfig, t: Token, now: int, r: Read)
    requires Jwt.DecodeJwt(pf, t.issuerJwt) == Some(Jwt.Decoded(r.header, r.payload))
    requires r.alg == StringMember(r.header, "alg")
    ensures IssuerVerdict(pf, cfg, t, now, r, StringMember(r.payload, "iss"), StringMember(r.header, "kid"),
                          CheckToken(pf, cfg, t, now))
    ensures CheckToken(pf, cfg, t, now) != Err(IssuerJwtUndecodable)
  {
    var iss, kid := StringMember(r.payload, "iss"), StringMember(r.header, "kid");
    if iss != "" && pf.resolveKey(iss, kid).Some? {
      Jwt.SignatureMeaning(pf, t.issuerJwt, pf.resolveKey(iss, kid).value, r.alg);
      PeriodMeaning(r.payload, now, cfg.clockSkew);
      HashChoice(r.payload);
    }
  }

  lemma HashChoice(m: Object)
    ensures match AlgorithmFromSdAlg(SdAlgName(m))
            case None => forall alg :: !HashNamed(m, alg)
            case Some(alg) => HashNamed(m, alg)
  {
    HashMeaning(m, Sha256);
    HashMeaning(m, Sha384);
    HashMeaning(m, Sha512);
    HashMeaning(m, OtherHash);
  }

  /** A token whose issuer is known, and whose signature does not decode or does not verify under
      the issuer's key, is rejected for that. */
  lemma ForgedIsRejected(pf: Suite, cfg: VerifierConfig, raw: string, nonce: string, now: int, index: map<string, Path>,
                         t: Token, h: string, p: string, s: string, header: Object, m: Object,
                         iss: string, kid: string, alg: string, key: PublicKey)
    requires ParseToken(raw) == Some(t) && t.issuerJwt == h + "." + p + "." + s && '.' !in h && '.' !in p
    requires pf.decode(h) == Some(Obj(header)) && pf.decode(p) == Some(Obj(m))
    requires ReadsText(m, "iss", iss) && iss != "" && ReadsText(header, "kid", kid) && ReadsText(header, "alg", alg)
    requires pf.resolveKey(iss, kid) == Some(key)
    requires match pf.decodeBytes(s)
             case None => true
             case Some(signature) => !pf.checkSignature(key, alg, h + "." + p, signature)
    ensures Outcome(pf, cfg, raw, nonce, now, index) == Err(SignatureInvalid)
  {
    var r := Read(header, m, alg);
    assert Jwt.ThreeParts(t.issuerJwt, h, p, s) && ReadAs(pf, t.issuerJwt, r);
    IssuerStage(pf, cfg, t, now);
    NotSigned(pf, t.issuerJwt, h, p, s, key, alg);
    assert IssuerVerdict(pf, cfg, t, now, r, iss, kid, CheckToken(pf, cfg, t, now));
  }

  lemma NotSigned(pf: Suite, token: string, h: string, p: string, s: string, key: PublicKey, alg: string)
    requires Jwt.ThreeParts(token, h, p, s)
    requires match pf.decodeBytes(s)
             case None => true
             case Some(signature) => !pf.checkSignature(key, alg, h + "." + p, signature)
    ensures !Jwt.SignedBy(pf, token, key, alg)
  {
    forall h', p', s' | Jwt.ThreeParts(token, h', p', s')
      ensures h' == h && p' == p && s' == s
    {
      Jwt.SplitMeaning(token, h, p, s);
      Jwt.SplitMeaning(token, h', p', s');
    }
  }

  // ----- The whole chain -----

  /** Text that is no token is rejected for that, and nothing else is. */
  lemma FormatStage(pf: Suite, cfg: VerifierConfig, raw: string, nonce: string, now: int, index: map<string, Path>)
    ensures Outcome(pf, cfg, raw, nonce, now, index) == Err(BadFormat) <==>
            !(TILDE in raw && raw[0] != TILDE && !Text.Doubled(raw, TILDE))
  {
    ParseAcceptsExactly(raw);
    if ParseToken(raw).Some? {
      var t := ParseToken(raw).value;
      CheckErrors(pf, cfg, t, now);
      if CheckToken(pf, cfg, t, now).Ok? {
        LaterErrors(pf, cfg, raw, nonce, now, index, CheckToken(pf, cfg, t, now).value);
      }
    }
  }

  lemma CheckErrors(pf: Suite, cfg: VerifierConfig, t: Token, now: int)
    ensures CheckToken(pf, cfg, t, now) != Err(BadFormat) && CheckToken(pf, cfg, t, now) != Err(PayloadTooDeep)
  {
  }

  lemma {:induction false} LoopErrors(pf: Suite, alg: HashAlg, index: map<string, Path>, ds: seq<string>)
    ensures match Process(pf, alg, index, ds)
            case Err(e) => e.DisclosureUnparsable? || e.DisclosureMismatch? || e.DisclosureDuplicate?
            case Ok(_) => true
  {
    if ds != [] {
      LoopErrors(pf, alg, index, ds[..|ds| - 1]);
    }
  }

  lemma ConcludeErrors(pf: Suite, cfg: VerifierConfig, c: Checked, w: Writes, nonce: string)
    ensures Conclude(pf, cfg, c, w, nonce) != Err(BadFormat) && Conclude(pf, cfg, c, w, nonce) != Err(PayloadTooDeep)
  {
  }

  lemma LaterErrors(pf: Suite, cfg: VerifierConfig, raw: string, nonce: string, now: int, index: map<string, Path>,
                    c: Checked)
    requires CheckIssuerJwt(pf, cfg, raw, now) == Ok(c)
    ensures Outcome(pf, cfg, raw, nonce, now, index) != Err(BadFormat)
    ensures !Deep(Obj(c.payload), 0) ==> Outcome(pf, cfg, raw, nonce, now, index) != Err(PayloadTooDeep)
  {
    LoopErrors(pf, c.alg, index, c.token.disclosures);
    if Process(pf, c.alg, index, c.token.disclosures).Ok? {
      ConcludeErrors(pf, cfg, c, Process(pf, c.alg, index, c.token.disclosures).value, nonce);
    }
  }

  /** Once the issuer JWT has passed, a payload is too deep exactly if it has an object 17 members
      down; this is found before any disclosure is looked at. */
  lemma DepthStage(pf: Suite, cfg: VerifierConfig, raw: string, nonce: string, now: int, index: map<string, Path>,
                   c: Checked)
    requires CheckIssuerJwt(pf, cfg, raw, now) == Ok(c)
    ensures Outcome(pf, cfg, raw, nonce, now, index) == Err(PayloadTooDeep) <==>
            exists p: Path :: |p| == 17 && ObjectAt(c.payload, p).Some?
  {
    DeepFromRoot(c.payload);
    LaterErrors(pf, cfg, raw, nonce, now, index, c);
  }

  /** An error of the first stages is that of the whole chain. */
  lemma CheckErrorStands(pf: Suite, cfg: VerifierConfig, raw: string, nonce: string, now: int, index: map<string, Path>,
                         t: Token)
    requires ParseToken(raw) == Some(t) && CheckToken(pf, cfg, t, now).Err?
    ensures Outcome(pf, cfg, raw, nonce, now, index) == Err(CheckToken(pf, cfg, t, now).error)
  {
  }

  /** So is an error of the disclosure loop; without one, the last stages decide. */
  lemma LoopErrorStands(pf: Suite, cfg: VerifierConfig, raw: string, nonce: string, now: int, index: map<string, Path>,
                        t: Token, c: Checked)
    requires ParseToken(raw) == Some(t) && CheckToken(pf, cfg, t, now) == Ok(c)
    requires forall p: Path | |p| == 17 :: ObjectAt(c.payload, p) == None
    ensures match Process(pf, c.alg, index, t.disclosures)
            case Err(e) => Outcome(pf, cfg, raw, nonce, now, index) == Err(e)
            case Ok(w) => Outcome(pf, cfg, raw, nonce, now, index) == Conclude(pf, cfg, c, w, nonce)
  {
    AuthenticWhenChecked(pf, cfg, t, now);
    DeepFromRoot(c.payload);
    if Process(pf, c.alg, index, t.disclosures).Ok? {
      OutcomeConcludes(pf, cfg, raw, nonce, now, index, c, Process(pf, c.alg, index, t.disclosures).value);
    }
  }

  // ----- The KB-JWT and the type -----

  /** The verdict `v` on a KB-JWT that was read as `r`, under the holder's key `jwk`. */
  ghost predicate KbReadVerdict(pf: Suite, t: Token, jwk: Object, nonce: string, audience: string, r: Read,
                                v: Option<VerifyError>)
  {
    match pf.jwkKey(jwk)
    case None => v == Some(KbJwtKeyInvalid)
    case Some(key) =>
      if !Jwt.SignedBy(pf, t.kbJwt, key, r.alg) then v == Some(KbJwtSignatureInvalid)
      else if nonce != "" && !ReadsText(r.payload, "nonce", nonce) then v == Some(KbJwtNonceMismatch)
      else if audience != "" && !NamesAudience(r.payload, audience) then v == Some(KbJwtAudMismatch)
      else if !ReadsText(r.payload, "sd_hash", pf.digest(Sha256, t.Prefix())) then v == Some(KbJwtHashMismatch)
      else v == None
  }

  /** The checks of the KB-JWT, in order, each with its error. */
  lemma KbStage(pf: Suite, t: Token, jwk: Object, nonce: string, audience: string)
    ensures KbJwtError(pf, t, jwk, nonce, audience) == Some(KbJwtUndecodable) <==> forall r :: !ReadAs(pf, t.kbJwt, r)
    ensures forall r | ReadAs(pf, t.kbJwt, r) ::
              KbReadVerdict(pf, t, jwk, nonce, audience, r, KbJwtError(pf, t, jwk, nonce, audience))
  {
    var r := Readable(pf, t.kbJwt);
    if Jwt.DecodeJwt(pf, t.kbJwt).Some? && pf.jwkKey(jwk).Some? {
      Jwt.SignatureMeaning(pf, t.kbJwt, pf.jwkKey(jwk).value, r.alg);
      StringMemberMeaning(r.payload, "nonce", nonce);
      AudienceMeaning(r.payload, audience);
      StringMemberMeaning(r.payload, "sd_hash", pf.digest(Sha256, t.Prefix()));
    }
  }

  /** A KB-JWT made for another verifier is rejected for that. */
  lemma OtherAudienceIsRejected(pf: Suite, t: Token, jwk: Object, nonce: string, audience: string,
                                r: Read, key: PublicKey)
    requires ReadAs(pf, t.kbJwt, r) && pf.jwkKey(jwk) == Some(key) && Jwt.SignedBy(pf, t.kbJwt, key, r.alg)
    requires nonce == "" || ReadsText(r.payload, "nonce", nonce)
    requires audience != ""
    requires "aud" in r.payload ==>
               && r.payload["aud"] != Str(audience)
               && (r.payload["aud"].Arr? ==> Str(audience) !in r.payload["aud"].items)
    ensures KbJwtError(pf, t, jwk, nonce, audience) == Some(KbJwtAudMismatch)
  {
    KbStage(pf, t, jwk, nonce, audience);
    assert !NamesAudience(r.payload, audience);
    assert KbReadVerdict(pf, t, jwk, nonce, audience, r, KbJwtError(pf, t, jwk, nonce, audience));
  }

  /** What is asked of the claims `claims` and the KB-JWT, if there is one. */
  ghost predicate BindingVerdict(pf: Suite, cfg: VerifierConfig, t: Token, claims: Object, nonce: string,
                                 v: Option<VerifyError>)
  {
    if t.kbJwt == "" then v == (if cfg.requireKeyBinding then Some(KbJwtRequired) else None)
    else if exists jwk :: HasJwk(claims, jwk) then
      exists jwk :: HasJwk(claims, jwk) && v == KbJwtError(pf, t, jwk, nonce, cfg.audience)
    else v == Some(CnfMissing)
  }

  /** The last stages: key binding, then the type, both in the rebuilt claims; then the result. */
  lemma LastStages(pf: Suite, cfg: VerifierConfig, c: Checked, w: Writes, nonce: string, vct: string, sub: string)
    returns (binding: Option<VerifyError>)
    requires var claims := Rebuild(Obj(c.payload), [], w).members;
             ReadsText(claims, "vct", vct) && ReadsText(claims, "sub", sub)
    ensures BindingVerdict(pf, cfg, c.token, Rebuild(Obj(c.payload), [], w).members, nonce, binding)
    ensures var r := Conclude(pf, cfg, c, w, nonce);
            if binding.Some? then r == Err(binding.value)
            else if cfg.expectedVct != "" && vct != cfg.expectedVct then r == Err(VctMismatch)
            else
              && r.Ok? && Obj(r.value.issuerClaims) == Rebuild(Obj(c.payload), [], w)
              && (forall k :: k in r.value.disclosedClaims <==> k in w)
              && (forall k | k in w :: r.value.disclosedClaims[k] == w[k].value)
              && r.value.issuer == c.issuer && r.value.vct == vct && r.value.subject == sub
              && r.value.keyBound == (c.token.kbJwt != "")
  {
    var claims := Rebuild(Obj(c.payload), [], w).members;
    binding := KeyBindingError(pf, cfg, c.token, claims, nonce);
    StringMemberMeaning(claims, "vct", vct);
    StringMemberMeaning(claims, "sub", sub);
    if ExtractCnf(claims).Some? {
      CnfMeaning(claims, ExtractCnf(claims).value);
    }
    forall jwk | HasJwk(claims, jwk)
      ensures ExtractCnf(claims) == Some(jwk)
    {
      CnfMeaning(claims, jwk);
    }
  }
}
