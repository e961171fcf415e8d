/** The three parties in a row, as the round-trip tests of sdjwt_test.go put them. */
module Protocol {
  import opened Wrappers
  import opened JsonModel
  import opened Platform
  import opened Tokens
  import opened Claims
  import opened Accounting
  import opened Issuers
  import opened IssuedPayload
  import opened Holders
  import opened Verifiers
  import opened Reconstruct
  import opened Pipeline
  import opened EndToEnd

  /** Which party gave up, and why. */
  datatype Failure =
    | AtIssuer(issuing: IssueError)
    | AtHolder(presenting: HolderError)
    | AtVerifier(verifying: VerifyError)

  /** The hash never collides, and never hits a random value. */
  ghost predicate IdealHash(pf: Suite, alg: HashAlg, stream: nat -> string) {
    && (forall a: string, b: string :: pf.digest(alg, a) == pf.digest(alg, b) ==> a == b)
    && (forall i: nat, a: string :: stream(i) != pf.digest(alg, a))
  }

  lemma {:induction false} NeverDrawn(stream: nat -> string, from: nat, ss: seq<string>, s: string)
    requires DrawnFrom(stream, from, ss) && forall i: nat :: stream(i) != s
    ensures s !in ss
  {
    if ss != [] {
      NeverDrawn(stream, from, ss[..|ss| - 1], s);
    }
  }

  lemma NoCollisions(sc: Scheme, es: seq<Entry>, stream: nat -> string)
    requires IdealHash(sc.pf, sc.alg, stream)
    ensures CollisionFree(sc, es)
  {
  }

  lemma DecoysMiss(sc: Scheme, es: seq<Entry>, stream: nat -> string, from: nat, decoys: seq<string>)
    requires IdealHash(sc.pf, sc.alg, stream) && DrawnFrom(stream, from, decoys)
    ensures DecoysApart(sc, es, decoys)
  {
    forall i | 0 <= i < |es|
      ensures sc.Digest(es[i].disclosure) !in decoys
    {
      NeverDrawn(stream, from, decoys, sc.Digest(es[i].disclosure));
    }
  }

  /** With an ideal hash and a random source that never repeats itself, issuing is sound. */
  lemma IdealIsSound(x: Issuance, stream: nat -> string, from: nat)
    requires Issued(x.pf, x.cfg, x.signer, x.req, x.now, x.run, x.decoys, x.token)
    requires Lawful(x.pf) && TidyRequest(x.cfg, x.SdAlg(), x.req, x.now)
    requires NeverRepeats(stream) && IdealHash(x.pf, x.cfg.hashAlg, stream)
    requires SaltsFrom(stream, from, x.All()) && DrawnFrom(stream, from + |x.All()|, x.decoys)
    ensures Sound(x)
  {
    NoCollisions(x.Sc(), x.All(), stream);
    DecoysMiss(x.Sc(), x.All(), stream, from + |x.All()|, x.decoys);
    IssuedIsSound(x, stream, from);
  }

  function HashName(cfg: IssuerConfig): string {
    match SdAlgFromHash(cfg.hashAlg)
    case Some(name) => name
    case None => ""
  }

  /** The claims a verifier is to report. */
  function Expectation(cfg: IssuerConfig, req: IssueRequest, now: int, names: seq<string>): Json {
    Obj((Registered(cfg, HashName(cfg), req, now) - {SD_ALG}) +
        PruneByName(Structured(req.claims, req.selectiveFields), names).members)
  }

  /** What the verifier of a presentation is to report: the agreed claims if the reveal list is
      presentable, and that a disclosure is unacceptable otherwise. */
  ghost predicate VerifiedAsAgreed(cfg: IssuerConfig, req: IssueRequest, now: int, opts: PresentOptions,
                                   r: Result<VerificationResult, VerifyError>)
  {
    if Presentable(req, opts.revealClaims) then r.Ok? && AsAgreed(cfg, req, now, opts, r.value)
    else RejectsDisclosure(r)
  }

  ghost predicate AsAgreed(cfg: IssuerConfig, req: IssueRequest, now: int, opts: PresentOptions,
                           r: VerificationResult)
  {
    && Obj(StripRoot(r.issuerClaims)) == Expectation(cfg, req, now, opts.revealClaims)
    && DisclosesNamed(req, opts.revealClaims, r.disclosedClaims)
    && r.keyBound == opts.keyBinding
    && r.issuer == cfg.id && r.vct == req.vct && (req.subject != "" ==> r.subject == req.subject)
  }

  lemma PresentationVerifies(x: Issuance, holder: Option<Signer>, at: int, opts: PresentOptions,
                         cfg: VerifierConfig, key: PublicKey, nonce: string, later: int, index: map<string, Path>)
    requires Sound(x) && ShallowRequest(x.req)
    requires Presentation(x.pf, holder, at, x.token, opts).Ok?
    requires Trusts(x, cfg, key, later) && BindingAgreed(x, holder, opts, cfg, nonce)
    requires Possible(x.pf, cfg, Presentation(x.pf, holder, at, x.token, opts).value.ToString(), later, index)
    ensures var p := Presentation(x.pf, holder, at, x.token, opts).value;
            var r := Outcome(x.pf, cfg, p.ToString(), nonce, later, index);
            VerifiedAsAgreed(x.cfg, x.req, x.now, opts, r)
  {
    IssuePresentVerify(x, holder, at, opts, cfg, key, nonce, later, index);
  }

  /** Everything a token was issued from. */
  ghost predicate IssuedFrom(x: Issuance, pf: Suite, cfg: IssuerConfig, signer: Signer, req: IssueRequest, now: int) {
    x.pf == pf && x.cfg == cfg && x.signer == signer && x.req == req && x.now == now
  }

  /** A request that is not turned down: it has a type, a supported hash, only claims in its list of
      selective fields, and no 17 levels of structured claims. */
  ghost predicate Issuable(cfg: IssuerConfig, req: IssueRequest) {
    && req.vct != "" && cfg.hashAlg in {Sha256, Sha384, Sha512}
    && (forall n | n in req.selectiveFields :: n in req.claims)
    && (forall p: Path | |p| == 17 :: GroupAt(req.claims, p) == None)
  }

  lemma IssuableIsNotRefused(cfg: IssuerConfig, req: IssueRequest)
    requires Issuable(cfg, req)
    ensures Refusal(cfg, req).None? && SdAlgFromHash(cfg.hashAlg) == Some(HashName(cfg))
  {
    RefusalMeaning(cfg, req);
    SdAlgNames(cfg.hashAlg, HashName(cfg));
  }

  /** Issuing with an ideal hash and fresh randomness fails in the signer only, and is sound. */
  method IssueSoundly(pf: Suite, cfg: IssuerConfig, signer: Signer, req: IssueRequest, now: int, rng: Entropy)
    returns (r: Result<Token, IssueError>, ghost x: Issuance)
    requires Lawful(pf) && Issuable(cfg, req)
    requires NeverRepeats(rng.stream) && IdealHash(pf, cfg.hashAlg, rng.stream)
    requires TidyRequest(cfg, HashName(cfg), req, now)
    modifies rng
    ensures IssuedFrom(x, pf, cfg, signer, req, now)
    ensures match r
            case Err(e) => e == IssueError.SigningFailed && CanFail(signer)
            case Ok(t) => Sound(x) && x.token == t
  {
    IssuableIsNotRefused(cfg, req);
    r, x := IssueUnrefused(pf, cfg, signer, req, now, rng);
  }

  method IssueUnrefused(pf: Suite, cfg: IssuerConfig, signer: Signer, req: IssueRequest, now: int, rng: Entropy)
    returns (r: Result<Token, IssueError>, ghost x: Issuance)
    requires Lawful(pf) && Refusal(cfg, req).None?
    requires NeverRepeats(rng.stream) && IdealHash(pf, cfg.hashAlg, rng.stream)
    requires TidyRequest(cfg, HashName(cfg), req, now)
    modifies rng
    ensures IssuedFrom(x, pf, cfg, signer, req, now)
    ensures match r
            case Err(e) => e == IssueError.SigningFailed && CanFail(signer)
            case Ok(t) => Sound(x) && x.token == t
  {
    ghost var run, decoys;
    r, run, decoys := Issue(pf, cfg, signer, req, now, rng);
    x := Issuance(pf, cfg, signer, req, now, run, decoys, if r.Ok? then r.value else Token("", [], ""));
    if r.Ok? {
      IdealIsSound(x, rng.stream, old(rng.drawn));
    } else {
      UnsignedFails(pf, cfg, signer, req, now, run, decoys);
    }
  }

  lemma UnsignedFails(pf: Suite, cfg: IssuerConfig, signer: Signer, req: IssueRequest, now: int,
                      run: seq<Visit>, decoys: seq<string>)
    requires Unsigned(pf, cfg, signer, req, now, run, decoys)
    ensures CanFail(signer)
  {
    var payload := Payload(Scheme(pf, cfg.hashAlg), cfg, SdAlgFromHash(cfg.hashAlg).value, req, now, run, decoys);
    var header := Jwt.SignedMeaning(pf, signer, "vc+sd-jwt", payload);
    assert signer.sign(pf.encode(Obj(header)) + "." + pf.encode(Obj(payload))) == None;
  }

  /**
   * Issue, present, send, verify. Only a signer can make the first two fail. The verifier then
   * rejects a disclosure if and only if the reveal list names a member inside a hidden one, or
   * one name for two members. Otherwise it reports the registered claims and the claim tree
   * without the selective members that were not named. All this depends neither on the order in
   * which maps are walked nor on salts, decoys or signatures.
   */
  method IssuePresentAndVerify(pf: Suite, cfg: IssuerConfig, signer: Signer, req: IssueRequest, now: int, rng: Entropy,
                               holder: Option<Signer>, at: int, opts: PresentOptions,
                               vcfg: VerifierConfig, nonce: string, later: int, ghost key: PublicKey)
    returns (r: Result<VerificationResult, Failure>)
    requires Lawful(pf) && Issuable(cfg, req)
    requires NeverRepeats(rng.stream) && IdealHash(pf, cfg.hashAlg, rng.stream)
    requires TidyRequest(cfg, HashName(cfg), req, now) && ShallowRequest(req)
    requires opts.keyBinding ==> opts.nonce != "" && opts.audience != ""
    requires TrustsIssuer(pf, cfg, signer, req, now, vcfg, key, later)
    requires BindsHolder(pf, req, holder, opts, vcfg, nonce)
    modifies rng
    ensures match r
            case Err(AtIssuer(e)) => e == IssueError.SigningFailed && CanFail(signer)
            case Err(AtHolder(e)) => e == HolderError.SigningFailed && opts.keyBinding && CanFail(holder.value)
            case Err(AtVerifier(e)) => VerifiedAsAgreed(cfg, req, now, opts, Err(e))
            case Ok(result) => VerifiedAsAgreed(cfg, req, now, opts, Ok(result))
  {
    var issued, x := IssueSoundly(pf, cfg, signer, req, now, rng);
    if issued.Err? {
      return Err(AtIssuer(issued.error));
    }
    PresentingIssued(x, holder, at, opts);
    var presented := Present(pf, holder, at, issued.value, opts);
    if presented.Err? {
      return Err(AtHolder(presented.error));
    }
    var raw := presented.value.ToString();
    var verified := Verify(pf, vcfg, raw, nonce, later);
    ghost var index :| Possible(pf, vcfg, raw, later, index) && verified == Outcome(pf, vcfg, raw, nonce, later, index);
    PresentationVerifies(x, holder, at, opts, vcfg, key, nonce, later, index);
    match verified {
      case Err(e) => return Err(AtVerifier(e));
      case Ok(result) => return Ok(result);
    }
  }
}
