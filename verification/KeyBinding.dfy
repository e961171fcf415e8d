/** The holder signs a prefix, the verifier recomputes it: when the two agree. */
module KeyBinding {
  import opened Wrappers
  import opened JsonModel
  import opened Platform
  import opened Tokens
  import opened Holders
  import opened Sublists
  import opened Reconstruct
  import opened Verifiers
  import opened Soundness
  import Jwt

  /** The members a verifier reads back from a KB-JWT. */
  lemma KbPayloadMembers(pf: Suite, t: Token, nonce: string, audience: string, now: int, expected: string)
    ensures var m := KbPayload(pf, t, nonce, audience, now);
            && StringMember(m, "nonce") == nonce
            && StringMember(m, "sd_hash") == pf.digest(Sha256, t.Prefix())
            && (AudienceMatches(m, expected) <==> expected == audience)
  {
  }

  lemma SelectionWellFormed(pf: Suite, signer: Option<Signer>, now: int, t: Token, opts: PresentOptions)
    requires Lawful(pf) && WellFormed(t) && Presentation(pf, signer, now, t, opts).Ok?
    ensures WellFormed(Presentation(pf, signer, now, t, opts).value)
  {
    PresentationKeeps(pf, signer, now, t, opts);
    var p := Presentation(pf, signer, now, t, opts).value;
    var at := SublistPositions(p.disclosures, t.disclosures);
    forall i | 0 <= i < |p.disclosures|
      ensures p.disclosures[i] != "" && TILDE !in p.disclosures[i]
    {
      assert p.disclosures[i] == t.disclosures[at[i]];
    }
    if p.HasKeyBinding() {
      Jwt.SignedDecodes(pf, signer.value, "kb+jwt",
                        KbPayload(pf, p.(kbJwt := ""), opts.nonce, opts.audience, now));
    }
  }

  /** The KB-JWT decodes to what the holder signed. */
  lemma KbDecodes(pf: Suite, signer: Signer, now: int, t: Token, opts: PresentOptions)
    requires Lawful(pf) && opts.keyBinding
    requires Presentation(pf, Some(signer), now, t, opts).Ok?
    ensures var p := Presentation(pf, Some(signer), now, t, opts).value;
            && p.HasKeyBinding()
            && Jwt.DecodeJwt(pf, p.kbJwt) == Some(Jwt.Decoded(Jwt.Header("kb+jwt", signer),
                                                  KbPayload(pf, p, opts.nonce, opts.audience, now)))
            && forall key | SignsFor(pf, signer, key) :: Jwt.SignatureValid(pf, p.kbJwt, key, signer.alg)
  {
    var p := Presentation(pf, Some(signer), now, t, opts).value;
    var bare := p.(kbJwt := "");
    Jwt.SignedDecodes(pf, signer, "kb+jwt", KbPayload(pf, bare, opts.nonce, opts.audience, now));
    assert p.Prefix() == bare.Prefix();
  }

  /** What the KB-JWT of a presentation holds for whoever decodes it. */
  lemma KbHolds(pf: Suite, signer: Signer, now: int, t: Token, opts: PresentOptions)
    returns (header: Object, payload: Object)
    requires Lawful(pf) && opts.keyBinding && Presentation(pf, Some(signer), now, t, opts).Ok?
    ensures var p := Presentation(pf, Some(signer), now, t, opts).value;
            && Jwt.Carries(pf, p.kbJwt, header, payload)
            && Jwt.IsHeader(header, "kb+jwt", signer)
            && IsKbPayload(pf, payload, p.Prefix(), opts.nonce, opts.audience, now)
  {
    var p := Presentation(pf, Some(signer), now, t, opts).value;
    KbDecodes(pf, signer, now, t, opts);
    header, payload := Jwt.Header("kb+jwt", signer), KbPayload(pf, p, opts.nonce, opts.audience, now);
    Jwt.DecodeMeaning(pf, p.kbJwt, header, payload);
    Jwt.HeaderMeaning("kb+jwt", signer);
    KbPayloadMeaning(pf, p, opts.nonce, opts.audience, now);
  }

  /** What the verifier's check finds, after the presentation went over the wire. */
  function KbVerdict(opts: PresentOptions, nonce: string, audience: string): Option<VerifyError> {
    if nonce != "" && nonce != opts.nonce then Some(KbJwtNonceMismatch)
    else if audience != "" && audience != opts.audience then Some(KbJwtAudMismatch)
    else None
  }

  /**
   * A key-bound presentation arrives unchanged, and passes the key-binding check under the
   * signer's key exactly when each expected nonce and audience that is set is the one signed.
   */
  lemma HolderAndVerifierAgree(pf: Suite, signer: Signer, now: int, t: Token, opts: PresentOptions,
                               jwk: Object, nonce: string, audience: string)
    requires Lawful(pf) && WellFormed(t) && opts.keyBinding
    requires Presentation(pf, Some(signer), now, t, opts).Ok?
    requires pf.jwkKey(jwk).Some? && SignsFor(pf, signer, pf.jwkKey(jwk).value)
    ensures var p := Presentation(pf, Some(signer), now, t, opts).value;
            && ParseToken(p.ToString()) == Some(p)
            && KbJwtError(pf, p, jwk, nonce, audience) == KbVerdict(opts, nonce, audience)
  {
    SelectionWellFormed(pf, Some(signer), now, t, opts);
    var p := Presentation(pf, Some(signer), now, t, opts).value;
    ParseOfString(p);
    KbDecodes(pf, signer, now, t, opts);
    KbPayloadMembers(pf, p, opts.nonce, opts.audience, now, audience);
    Jwt.HeaderMembers("kb+jwt", signer);
  }

  /** The hash does not confuse the two prefixes. */
  ghost predicate PrefixesApart(pf: Suite, a: Token, b: Token) {
    pf.digest(Sha256, a.Prefix()) == pf.digest(Sha256, b.Prefix()) ==> a.Prefix() == b.Prefix()
  }

  /**
   * Whoever puts the KB-JWT of a presentation on anything else than the same issuer JWT with
   * the same disclosures in the same order is rejected: at the hash, if at no earlier check.
   */
  lemma TamperingIsRejected(pf: Suite, signer: Signer, now: int, t: Token, opts: PresentOptions, forged: Token,
                            jwk: Object, nonce: string, audience: string)
    requires Lawful(pf) && WellFormed(t) && opts.keyBinding
    requires Presentation(pf, Some(signer), now, t, opts).Ok?
    requires var p := Presentation(pf, Some(signer), now, t, opts).value;
             && WellFormed(forged) && forged.kbJwt == p.kbJwt && PrefixesApart(pf, forged, p)
             && (forged.issuerJwt != p.issuerJwt || forged.disclosures != p.disclosures)
    ensures var p := Presentation(pf, Some(signer), now, t, opts).value;
            && KbJwtError(pf, forged, jwk, nonce, audience).Some?
            && (KbJwtError(pf, p, jwk, nonce, audience).None? ==>
                  KbJwtError(pf, forged, jwk, nonce, audience) == Some(KbJwtHashMismatch))
  {
    var p := Presentation(pf, Some(signer), now, t, opts).value;
    SelectionWellFormed(pf, Some(signer), now, t, opts);
    PrefixIsInjective(forged, p);
    KbDecodes(pf, signer, now, t, opts);
    KbPayloadMembers(pf, p, opts.nonce, opts.audience, now, audience);
  }

  /** In terms of the whole verification: no verifier accepts such a token. */
  lemma TamperedTokenIsRejected(pf: Suite, signer: Signer, now: int, t: Token, opts: PresentOptions, forged: Token,
                                cfg: VerifierConfig, nonce: string, later: int, index: map<string, Path>)
    requires Lawful(pf) && WellFormed(t) && opts.keyBinding
    requires Presentation(pf, Some(signer), now, t, opts).Ok?
    requires var p := Presentation(pf, Some(signer), now, t, opts).value;
             && WellFormed(forged) && forged.kbJwt == p.kbJwt && PrefixesApart(pf, forged, p)
             && (forged.issuerJwt != p.issuerJwt || forged.disclosures != p.disclosures)
    ensures Outcome(pf, cfg, forged.ToString(), nonce, later, index).Err?
  {
    ParseOfString(forged);
    KbDecodes(pf, signer, now, t, opts);
    if Outcome(pf, cfg, forged.ToString(), nonce, later, index).Ok? {
      var t', c, w, r := OutcomeOk(pf, cfg, forged.ToString(), nonce, later, index);
      Concluded(pf, cfg, c, w, nonce);
      AuthenticWhenChecked(pf, cfg, t', later);
      TamperingIsRejected(pf, signer, now, t, opts, forged, ExtractCnf(r.issuerClaims).value, nonce, cfg.audience);
    }
  }
}
