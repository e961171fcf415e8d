/** The main results about issuing, presenting and verifying. */
module EndToEnd {
  import opened Wrappers
  import opened JsonModel
  import opened Platform
  import opened Disclosures
  import opened Tokens
  import opened Sublists
  import opened Claims
  import opened Accounting
  import opened Issuers
  import opened IssuedPayload
  import opened Reconstruct
  import opened DisclosureStage
  import opened Meaning
  import opened Holders
  import opened Verifiers
  import opened Soundness
  import opened KeyBinding
  import opened Pipeline
  import Jwt

  // ----- What any accepted presentation means -----

  /** What an accepted issuer JWT with a given content is taken for. */
  lemma CheckFinds(pf: Suite, cfg: VerifierConfig, t: Token, later: int, header: Object, m: Object)
    requires Jwt.DecodeJwt(pf, t.issuerJwt) == Some(Jwt.Decoded(header, m)) && CheckToken(pf, cfg, t, later).Ok?
    ensures var c := CheckToken(pf, cfg, t, later).value;
            && c.token == t && c.payload == m && c.issuer == StringMember(m, "iss")
            && AlgorithmFromSdAlg(SdAlgName(m)) == Some(c.alg)
  {
  }

  /** What checking the issuer JWT finds in a token of this issuance. */
  lemma CheckedPayload(x: Issuance, cfg: VerifierConfig, t: Token, later: int)
    requires Sound(x) && t.issuerJwt == x.token.issuerJwt && CheckToken(x.pf, cfg, t, later).Ok?
    ensures CheckToken(x.pf, cfg, t, later) == Ok(Checked(t, x.SignedClaims(), x.cfg.id, x.cfg.hashAlg))
  {
    IssuedDecodes(x);
    PayloadLookups(x);
    CheckFinds(x.pf, cfg, t, later, Jwt.Header("vc+sd-jwt", x.signer), x.SignedClaims());
  }

  /** What a verifier reads before the write-back is what the issuer registered. */
  ghost predicate IssuedClaims(x: Issuance, m: Object) {
    && StringMember(m, "iss") == x.cfg.id
    && AlgorithmFromSdAlg(SdAlgName(m)) == Some(x.cfg.hashAlg)
    && DateClaim(m, "exp") == Some(SecondsOf(Expiry(x.req, x.cfg, x.now)))
    && DateClaim(m, "nbf") == Some(SecondsOf(Start(x.req, x.now)))
  }

  lemma PayloadLookups(x: Issuance)
    requires Sound(x)
    ensures IssuedClaims(x, x.SignedClaims())
  {
    RegisteredReads(x);
    RegisteredWins(x, "iss");
    RegisteredWins(x, "exp");
    RegisteredWins(x, "nbf");
    RegisteredWins(x, SD_ALG);
    ReadsAlike(x, x.Reg(), x.SignedClaims());
  }

  lemma RegisteredReads(x: Issuance)
    requires SdAlgFromHash(x.cfg.hashAlg) == Some(x.SdAlg())
    ensures "iss" in x.Reg() && "exp" in x.Reg() && "nbf" in x.Reg() && SD_ALG in x.Reg()
    ensures IssuedClaims(x, x.Reg())
  {
    RegisteredLookups(x.cfg, x.SdAlg(), x.req, x.now);
    RegisteredDates(x.Reg(), "exp", Or(x.req.expiresAt, x.now + x.cfg.tokenTtl));
    RegisteredDates(x.Reg(), "nbf", Or(x.req.notBefore, x.now));
    SdAlgTablesAgree(x.cfg.hashAlg, x.SdAlg());
  }

  lemma ReadsAlike(x: Issuance, a: Object, b: Object)
    requires IssuedClaims(x, a)
    requires forall k | k == "iss" || k == "exp" || k == "nbf" || k == SD_ALG :: k in a && k in b && a[k] == b[k]
    ensures IssuedClaims(x, b)
  {
  }

  lemma RegisteredWins(x: Issuance, k: string)
    requires k in x.Reg()
    ensures k in x.SignedClaims() && x.SignedClaims()[k] == x.Reg()[k]
  {
  }

  /** A time in nanoseconds, cut to whole seconds. */
  function SecondsOf(t: int): int {
    t - t % 1_000_000_000
  }

  /** When a credential expires: when asked to, or after its lifetime. */
  function Expiry(req: IssueRequest, cfg: IssuerConfig, now: int): int {
    match req.expiresAt
    case Some(t) => t
    case None => now + cfg.tokenTtl
  }

  /** When it begins to be valid: when asked to, or at once. */
  function Start(req: IssueRequest, now: int): int {
    match req.notBefore
    case Some(t) => t
    case None => now
  }

  lemma RegisteredDates(m: Object, k: string, t: int)
    requires k in m && m[k] == UnixSeconds(t)
    ensures DateClaim(m, k) == Some(SecondsOf(t))
  {
    assert Pow10(0) == 1;
    SecondsMeaning(t, ToSeconds(t));
    SecondsMeaning(0, ToSeconds(t));
  }

  lemma RegisteredLookups(cfg: IssuerConfig, sdAlg: string, req: IssueRequest, now: int)
    ensures var r := Registered(cfg, sdAlg, req, now);
            && "iss" in r && r["iss"] == Str(cfg.id)
            && "exp" in r && r["exp"] == UnixSeconds(Or(req.expiresAt, now + cfg.tokenTtl))
            && "nbf" in r && r["nbf"] == UnixSeconds(Or(req.notBefore, now))
            && "vct" in r && r["vct"] == Str(req.vct)
            && SD_ALG in r && r[SD_ALG] == Str(sdAlg)
            && (req.subject != "" ==> "sub" in r && r["sub"] == Str(req.subject))
            && (req.holderJwk.Some? ==> "cnf" in r && r["cnf"] == Obj(map["jwk" := Obj(req.holderJwk.value)]))
  {
  }

  /** A revealed claim never stands in for a registered one. */
  lemma RegisteredStays(x: Issuance, es: seq<Entry>, w: Writes, k: string)
    requires Sound(x) && EntriesFrom(es, x.All()) && AllVisible(es) && WritesAre(w, es) && k in x.Reg()
    ensures var rebuilt := Rebuild(Obj(x.SignedClaims()), [], w).members;
            k in rebuilt && rebuilt[k] == x.Reg()[k]
  {
    SoundFacts(x);
    RegisteredWins(x, k);
    RegisteredUntouched(x.Sc(), x.run, es, k);
    RebuildUntouched(x.Reg()[k], [k], w, es);
    NotRevealedAtRoot(x.Sc(), x.run, es, w, k);
    RebuildKeeps(x.SignedClaims(), w, k);
  }

  /** Only claims are revealed. */
  lemma NotRevealedAtRoot(sc: Scheme, run: seq<Visit>, es: seq<Entry>, w: Writes, k: string)
    requires Tidy(run) && k !in Names(run)
    requires WritesAre(w, es) && forall e | e in es :: e in AllEntries(sc, run)
    ensures !WrittenAt(w, [], k)
  {
    var e := WrittenIsShown(w, es, [], k);
    if WrittenAt(w, [], k) {
      var i := EntryFrom(sc, run, [], [], e);
      EntryOfName(sc, run[i], [], [], e);
      NameIn(run, i);
    }
  }

  lemma RebuildKeeps(m: Object, w: Writes, k: string)
    requires k in m && !WrittenAt(w, [], k) && Rebuild(m[k], [k], w) == m[k]
    ensures var rebuilt := Rebuild(Obj(m), [], w).members;
            k in rebuilt && rebuilt[k] == m[k]
  {
    assert [] + [k] == [k];
  }

  /** The disclosed claims are those of the entries. */
  ghost predicate Reports(claims: Object, es: seq<Entry>) {
    && (forall e | e in es :: e.disclosure.key in claims && claims[e.disclosure.key] == e.disclosure.value)
    && (forall k | k in claims :: exists i | 0 <= i < |es| :: es[i].disclosure.key == k)
  }

  /** The verified claims: the registered ones and the claim tree without what is withheld. */
  function Verified(x: Issuance, pruned: Json): Json
    requires pruned.Obj?
  {
    Obj((x.Reg() - {SD_ALG}) + pruned.members)
  }

  /**
   * Whatever part of an issued token's disclosures is presented, if the verifier accepts, then
   * the claims it reports, without `_sd` and `_sd_alg`, are the registered claims and the claim
   * tree pruned to the members that are always visible or were presented.
   */
  lemma VerifiedMeaning(x: Issuance, cfg: VerifierConfig, t: Token, nonce: string, later: int, index: map<string, Path>)
    returns (es: seq<Entry>, r: VerificationResult)
    requires Sound(x) && WellFormed(t) && t.issuerJwt == x.token.issuerJwt
    requires Sublist(t.disclosures, x.token.disclosures)
    requires Possible(x.pf, cfg, t.ToString(), later, index)
    requires Outcome(x.pf, cfg, t.ToString(), nonce, later, index).Ok?
    ensures Outcome(x.pf, cfg, t.ToString(), nonce, later, index) == Ok(r)
    ensures t.disclosures == Texts(x.Sc(), es) && EntriesFrom(es, x.All())
    ensures AllVisible(es) && EntryKeysDistinct(es)
    ensures Obj(StripRoot(r.issuerClaims)) == Verified(x, Prune(x.Claims(), [], Positions(es)))
    ensures Reports(r.disclosedClaims, es)
  {
    ParseOfString(t);
    var t', c, w;
    t', c, w, r := OutcomeOk(x.pf, cfg, t.ToString(), nonce, later, index);
    CheckedPayload(x, cfg, t, later);
    PossibleIsCollected(x.pf, cfg, t.ToString(), later, index);
    es := ExactAcceptance(x, index, t.disclosures);
    Concluded(x.pf, cfg, c, w, nonce);
    SoundFacts(x);
    RegisteredLookups(x.cfg, x.SdAlg(), x.req, x.now);
    PayloadMeaning(x.Sc(), x.run, x.req.claims, x.req.selectiveFields, x.decoys, x.Reg(), es, w);
  }

  // ----- When a presentation is accepted -----

  /** The verifier knows the issuer's key, accepts the type, and looks within the validity period. */
  ghost predicate TrustsIssuer(pf: Suite, issuer: IssuerConfig, signer: Signer, req: IssueRequest, now: int,
                               cfg: VerifierConfig, key: PublicKey, later: int)
  {
    && issuer.id != ""
    && pf.resolveKey(issuer.id, signer.keyId) == Some(key)
    && SignsFor(pf, signer, key)
    && later <= SecondsOf(Expiry(req, issuer, now)) + cfg.clockSkew
    && SecondsOf(Start(req, now)) - cfg.clockSkew <= later
    && (cfg.expectedVct == "" || cfg.expectedVct == req.vct)
  }

  ghost predicate Trusts(x: Issuance, cfg: VerifierConfig, key: PublicKey, later: int) {
    TrustsIssuer(x.pf, x.cfg, x.signer, x.req, x.now, cfg, key, later)
  }

  lemma CheckPasses(pf: Suite, cfg: VerifierConfig, t: Token, later: int, header: Object, m: Object, key: PublicKey)
    requires Jwt.DecodeJwt(pf, t.issuerJwt) == Some(Jwt.Decoded(header, m))
    requires StringMember(m, "iss") != ""
    requires pf.resolveKey(StringMember(m, "iss"), StringMember(header, "kid")) == Some(key)
    requires Jwt.SignatureValid(pf, t.issuerJwt, key, StringMember(header, "alg"))
    requires !Expired(m, later, cfg.clockSkew) && !NotYetValid(m, later, cfg.clockSkew)
    requires AlgorithmFromSdAlg(SdAlgName(m)).Some?
    ensures CheckToken(pf, cfg, t, later).Ok?
  {
  }

  /** The issuer JWT of a trusted issuer, seen within its validity, in terms of what is read from it. */
  lemma TrustedChecks(x: Issuance, cfg: VerifierConfig, key: PublicKey, later: int, m: Object, t: Token)
    requires Trusts(x, cfg, key, later) && IssuedClaims(x, m)
    requires Jwt.DecodeJwt(x.pf, t.issuerJwt) == Some(Jwt.Decoded(Jwt.Header("vc+sd-jwt", x.signer), m))
    requires Jwt.SignatureValid(x.pf, t.issuerJwt, key, x.signer.alg)
    ensures CheckToken(x.pf, cfg, t, later).Ok?
  {
    Jwt.HeaderMembers("vc+sd-jwt", x.signer);
    CheckPasses(x.pf, cfg, t, later, Jwt.Header("vc+sd-jwt", x.signer), m, key);
  }

  lemma TrustedPasses(x: Issuance, cfg: VerifierConfig, key: PublicKey, t: Token, later: int)
    requires Sound(x) && Trusts(x, cfg, key, later) && t.issuerJwt == x.token.issuerJwt
    ensures CheckToken(x.pf, cfg, t, later) == Ok(Checked(t, x.SignedClaims(), x.cfg.id, x.cfg.hashAlg))
  {
    IssuedDecodes(x);
    PayloadLookups(x);
    TrustedChecks(x, cfg, key, later, x.SignedClaims(), t);
    CheckedPayload(x, cfg, t, later);
  }

  /** Objects inside plain values and the holder's key stay within the verifier's depth bound. */
  ghost predicate ShallowRequest(req: IssueRequest) {
    && Shallow(Structured(req.claims, req.selectiveFields), 0)
    && (req.holderJwk.Some? ==> !Deep(Obj(req.holderJwk.value), 2))
  }

  lemma RegisteredShallow(cfg: IssuerConfig, sdAlg: string, req: IssueRequest, now: int, reg: Object)
    requires reg == Registered(cfg, sdAlg, req, now)
    requires req.holderJwk.Some? ==> !Deep(Obj(req.holderJwk.value), 2)
    ensures forall k | k in reg :: !Deep(reg[k], 1)
  {
    forall k | k in reg
      ensures !Deep(reg[k], 1)
    {
      RegisteredNotDeep(cfg, sdAlg, req, now, k);
    }
  }

  lemma NotRefused(cfg: IssuerConfig, req: IssueRequest)
    requires Refusal(cfg, req).None?
    ensures !TooDeep(Structured(req.claims, req.selectiveFields), 0)
  {
  }

  lemma SignedIsShallow(x: Issuance)
    requires Sound(x) && ShallowRequest(x.req)
    ensures !Deep(Obj(x.SignedClaims()), 0)
  {
    SoundFacts(x);
    NotRefused(x.cfg, x.req);
    RegisteredShallow(x.cfg, x.SdAlg(), x.req, x.now, x.Reg());
    SignedNotDeep(x.Sc(), x.run, x.decoys, x.Reg(), x.req.claims, x.req.selectiveFields);
  }

  /** The key binding of `t` is in order for the holder key the credential names. */
  ghost predicate Binds(x: Issuance, cfg: VerifierConfig, t: Token, nonce: string) {
    if t.HasKeyBinding() then
      x.req.holderJwk.Some? && KbJwtError(x.pf, t, x.req.holderJwk.value, nonce, cfg.audience).None?
    else !cfg.requireKeyBinding
  }

  lemma BindingHolds(x: Issuance, cfg: VerifierConfig, t: Token, nonce: string, es: seq<Entry>, w: Writes)
    requires Sound(x) && Binds(x, cfg, t, nonce)
    requires EntriesFrom(es, x.All()) && AllVisible(es) && WritesAre(w, es)
    ensures KeyBindingError(x.pf, cfg, t, Rebuild(Obj(x.SignedClaims()), [], w).members, nonce).None?
  {
    if t.HasKeyBinding() {
      RegisteredLookups(x.cfg, x.SdAlg(), x.req, x.now);
      RegisteredStays(x, es, w, "cnf");
      NamedKeyBinds(x.pf, cfg, t, Rebuild(Obj(x.SignedClaims()), [], w).members, x.req.holderJwk.value, nonce);
    }
  }

  lemma NamedKeyBinds(pf: Suite, cfg: VerifierConfig, t: Token, claims: Object, jwk: Object, nonce: string)
    requires "cnf" in claims && claims["cnf"] == Obj(map["jwk" := Obj(jwk)])
    requires t.HasKeyBinding() && KbJwtError(pf, t, jwk, nonce, cfg.audience).None?
    ensures KeyBindingError(pf, cfg, t, claims, nonce).None?
  {
    CnfOf(claims, jwk);
  }

  lemma CnfOf(claims: Object, jwk: Object)
    requires "cnf" in claims && claims["cnf"] == Obj(map["jwk" := Obj(jwk)])
    ensures ExtractCnf(claims) == Some(jwk)
  {
  }

  lemma ConcludesWell(pf: Suite, cfg: VerifierConfig, c: Checked, w: Writes, nonce: string, vct: string)
    requires var claims := Rebuild(Obj(c.payload), [], w).members;
             && KeyBindingError(pf, cfg, c.token, claims, nonce).None?
             && StringMember(claims, "vct") == vct && (cfg.expectedVct == "" || cfg.expectedVct == vct)
    ensures Conclude(pf, cfg, c, w, nonce).Ok?
    ensures var r := Conclude(pf, cfg, c, w, nonce).value;
            r.issuer == c.issuer && r.vct == vct && r.keyBound == c.token.HasKeyBinding() &&
            r.subject == StringMember(Rebuild(Obj(c.payload), [], w).members, "sub")
  {
  }

  /** The registered claims a verifier reads after the write-back are still the issuer's. */
  lemma RebuiltLookups(x: Issuance, es: seq<Entry>, w: Writes)
    requires Sound(x) && EntriesFrom(es, x.All()) && AllVisible(es) && WritesAre(w, es)
    ensures var rebuilt := Rebuild(Obj(x.SignedClaims()), [], w).members;
            && StringMember(rebuilt, "vct") == x.req.vct
            && (x.req.subject != "" ==> StringMember(rebuilt, "sub") == x.req.subject)
  {
    RegisteredLookups(x.cfg, x.SdAlg(), x.req, x.now);
    RegisteredStays(x, es, w, "vct");
    if x.req.subject != "" {
      RegisteredStays(x, es, w, "sub");
    }
  }

  /** What the verifier reports about a presentation of `x`. */
  ghost predicate ReportsIssuance(x: Issuance, t: Token, r: VerificationResult) {
    && r.issuer == x.cfg.id && r.vct == x.req.vct
    && (x.req.subject != "" ==> r.subject == x.req.subject)
    && (r.keyBound <==> t.HasKeyBinding())
  }

  lemma ConcludedForIssuance(x: Issuance, cfg: VerifierConfig, c: Checked, nonce: string, es: seq<Entry>, w: Writes)
    requires Sound(x) && Binds(x, cfg, c.token, nonce)
    requires c.payload == x.SignedClaims() && c.issuer == x.cfg.id
    requires cfg.expectedVct == "" || cfg.expectedVct == x.req.vct
    requires EntriesFrom(es, x.All()) && AllVisible(es) && WritesAre(w, es)
    ensures Conclude(x.pf, cfg, c, w, nonce).Ok?
    ensures ReportsIssuance(x, c.token, Conclude(x.pf, cfg, c, w, nonce).value)
  {
    BindingHolds(x, cfg, c.token, nonce, es, w);
    RebuiltLookups(x, es, w);
    ConcludesWell(x.pf, cfg, c, w, nonce, x.req.vct);
  }

  /**
   * A trusted verifier accepts every part of an issued token's disclosures in which nothing
   * around any disclosure is hidden and no key repeats, given that the key binding is in order.
   */
  lemma AcceptedWhenClean(x: Issuance, cfg: VerifierConfig, key: PublicKey, t: Token, nonce: string, later: int,
                          index: map<string, Path>, es: seq<Entry>)
    returns (r: VerificationResult)
    requires Sound(x) && ShallowRequest(x.req) && Trusts(x, cfg, key, later)
    requires WellFormed(t) && t.issuerJwt == x.token.issuerJwt && t.disclosures == Texts(x.Sc(), es)
    requires EntriesFrom(es, x.All()) && AllVisible(es) && EntryKeysDistinct(es)
    requires Binds(x, cfg, t, nonce)
    requires Possible(x.pf, cfg, t.ToString(), later, index)
    ensures Outcome(x.pf, cfg, t.ToString(), nonce, later, index) == Ok(r)
    ensures ReportsIssuance(x, t, r)
  {
    ParseOfString(t);
    TrustedPasses(x, cfg, key, t, later);
    SignedIsShallow(x);
    PossibleIsCollected(x.pf, cfg, t.ToString(), later, index);
    EntriesSeen(x, index, es);
    DistinctAccepted(x.pf, x.cfg.hashAlg, index, t.disclosures);
    AcceptedWrites(x, index, es);
    var c := Checked(t, x.SignedClaims(), x.cfg.id, x.cfg.hashAlg);
    var w := Process(x.pf, x.cfg.hashAlg, index, t.disclosures).value;
    ConcludedForIssuance(x, cfg, c, nonce, es, w);
    r := Conclude(x.pf, cfg, c, w, nonce).value;
    AcceptedOutcome(x.pf, cfg, t.ToString(), t, nonce, later, index, c, w, r);
  }

  /** It rejects every other part, at the first disclosure that is hidden inside another or whose
      key repeats. */
  lemma RejectedWhenUnclean(x: Issuance, cfg: VerifierConfig, key: PublicKey, t: Token, nonce: string, later: int,
                            index: map<string, Path>, es: seq<Entry>)
    requires Sound(x) && ShallowRequest(x.req) && Trusts(x, cfg, key, later)
    requires WellFormed(t) && t.issuerJwt == x.token.issuerJwt && t.disclosures == Texts(x.Sc(), es)
    requires EntriesFrom(es, x.All()) && !(AllVisible(es) && EntryKeysDistinct(es))
    requires Possible(x.pf, cfg, t.ToString(), later, index)
    ensures RejectsDisclosure(Outcome(x.pf, cfg, t.ToString(), nonce, later, index))
  {
    ParseOfString(t);
    TrustedPasses(x, cfg, key, t, later);
    SignedIsShallow(x);
    PossibleIsCollected(x.pf, cfg, t.ToString(), later, index);
    var n := ExactRejection(x, index, es);
  }

  /** Verification stopped at a disclosure. */
  predicate RejectsDisclosure(r: Result<VerificationResult, VerifyError>) {
    r.Err? && (r.error.DisclosureMismatch? || r.error.DisclosureDuplicate?)
  }

  // ----- Reveal lists -----

  /** A reveal list names a member; the empty list names all of them. */
  predicate Shows(names: seq<string>, k: string) {
    names == [] || k in names
  }

  /** The claim tree with every selective member that is not named left out. */
  function PruneByName(c: Claim, names: seq<string>): Json {
    match c
    case Leaf(j) => j
    case Structured(fields, selective) =>
      Obj(map k | k in fields && (k !in selective || Shows(names, k)) :: PruneByName(fields[k], names))
  }

  /** The entries a reveal list keeps. */
  function Named(es: seq<Entry>, names: seq<string>): seq<Entry> {
    if es == [] then []
    else
      var before, last := Named(es[..|es| - 1], names), es[|es| - 1];
      if Shows(names, last.disclosure.key) then before + [last] else before
  }

  lemma {:induction false} NamedHas(es: seq<Entry>, names: seq<string>, e: Entry)
    ensures e in Named(es, names) <==> e in es && Shows(names, e.disclosure.key)
  {
    if es != [] {
      var before, last := es[..|es| - 1], es[|es| - 1];
      NamedHas(before, names, e);
      assert es == before + [last];
    }
  }

  lemma {:induction false} NamedIsSublist(es: seq<Entry>, names: seq<string>)
    ensures Sublist(Named(es, names), es)
    ensures names == [] ==> Named(es, names) == es
  {
    if es != [] {
      var before, last := es[..|es| - 1], es[|es| - 1];
      NamedIsSublist(before, names);
      assert es == before + [last];
      SublistExtends(Named(before, names), before, last);
    }
  }

  lemma NamedMeaning(es: seq<Entry>, names: seq<string>)
    ensures forall e :: e in Named(es, names) <==> e in es && Shows(names, e.disclosure.key)
    ensures Sublist(Named(es, names), es)
    ensures names == [] ==> Named(es, names) == es
  {
    forall e
      ensures e in Named(es, names) <==> e in es && Shows(names, e.disclosure.key)
    {
      NamedHas(es, names, e);
    }
    NamedIsSublist(es, names);
  }

  /** The holder's filter keeps exactly the named disclosures of an issued token. */
  lemma {:induction false} KeptAreNamed(sc: Scheme, es: seq<Entry>, names: seq<string>)
    requires Lawful(sc.pf) && names != []
    requires forall e | e in es :: e.disclosure.key != ""
    ensures Kept(sc.pf, Texts(sc, es), (set k | k in names)) == Some(Texts(sc, Named(es, names)))
  {
    if es != [] {
      var before, last := es[..|es| - 1], es[|es| - 1];
      KeptAreNamed(sc, before, names);
      var ds, wanted := Texts(sc, es), (set k | k in names);
      assert ds != [] && ds[..|ds| - 1] == Texts(sc, before) && ds[|ds| - 1] == sc.Text(last.disclosure);
      ParseOfEncode(sc.pf, last.disclosure);
      assert last in es;
      assert Wanted(last.disclosure, wanted) <==> Shows(names, last.disclosure.key);
      TextsAppend(sc, Named(before, names), [last]);
      assert Texts(sc, [last]) == [sc.Text(last.disclosure)];
    }
  }

  lemma SelectionIsNamed(x: Issuance, names: seq<string>)
    requires Sound(x)
    ensures Selection(x.pf, x.token.disclosures, names) == Some(Texts(x.Sc(), Named(x.All(), names)))
  {
    NamedMeaning(x.All(), names);
    if names != [] {
      SoundFacts(x);
      forall e | e in x.All()
        ensures e.disclosure.key != ""
      {
        EntryKeyIsName(x.Sc(), x.run, [], [], e);
      }
      KeptAreNamed(x.Sc(), x.All(), names);
    }
  }

  /** Nothing on the way to the object at `p` is selective. */
  ghost predicate OpenPath(fields: Fields, selective: set<string>, p: Path)
    decreases |p|
  {
    p == [] ||
    (&& p[0] in fields && p[0] !in selective && fields[p[0]].Structured?
     && OpenPath(fields[p[0]].fields, AsSet(fields[p[0]].selectiveFields), p[1..]))
  }

  /** An entry is visible exactly when nothing around it is selective. */
  lemma {:induction false} VisibleIsOpen(sc: Scheme, run: seq<Visit>, fields: Fields, selective: set<string>,
                                         path: Path, base: Path, e: Entry)
    requires IsRun(run, fields, selective) && base <= path && e in Entries(sc, run, path, base)
    ensures path <= e.path
    ensures e.base == base <==> OpenPath(fields, selective, e.path[|path|..])
    decreases run
  {
    var i := EntryFrom(sc, run, path, base, e);
    var v := run[i];
    EntryOfBelow(sc, v, path, base, e);
    FollowsAt(run, fields, selective, i);
    if e.path != path {
      var c, below := fields[v.name], path + [v.name];
      var inner := if v.selective then below else base;
      VisibleIsOpen(sc, v.body.visits, c.fields, AsSet(c.selectiveFields), below, inner, e);
      EntryBelow(sc, v.body.visits, below, inner, e);
      var q := e.path[|path|..];
      assert q[0] == v.name && q[1..] == e.path[|below|..];
    }
  }

  /** The reveal list names only members around which nothing is hidden, and no name stands for
      two of them. Said of the request, before anything is issued. */
  ghost predicate Presentable(req: IssueRequest, names: seq<string>) {
    var f, s := req.claims, AsSet(req.selectiveFields);
    && (forall p, k | SelectiveAt(f, s, p, k) && Shows(names, k) :: OpenPath(f, s, p))
    && (forall p, q, k | SelectiveAt(f, s, p, k) && SelectiveAt(f, s, q, k) && Shows(names, k) :: p == q)
  }

  lemma NamedAreClean(x: Issuance, names: seq<string>)
    requires Sound(x) && Presentable(x.req, names)
    ensures var es := Named(x.All(), names);
            EntriesFrom(es, x.All()) && AllVisible(es) && EntryKeysDistinct(es)
  {
    var f, s := x.req.claims, AsSet(x.req.selectiveFields);
    var all, es := x.All(), Named(x.All(), names);
    SoundFacts(x);
    NamedMeaning(all, names);
    forall i | 0 <= i < |es|
      ensures es[i].Visible() && SelectiveAt(f, s, es[i].path, es[i].disclosure.key)
    {
      assert es[i] in es;
      EntryIsSelective(x.Sc(), x.run, f, s, [], [], es[i]);
      VisibleIsOpen(x.Sc(), x.run, f, s, [], [], es[i]);
    }
    var at := SublistPositions(es, all);
    forall i, j | 0 <= i < j < |es|
      ensures es[i].disclosure.key != es[j].disclosure.key
    {
      if es[i].disclosure.key == es[j].disclosure.key {
        assert es[j] in es;
        assert es[i].path == es[j].path;
        PositionsDiffer(x.Sc(), x.run, [], [], at[i], at[j]);
      }
    }
  }

  /** Conversely, a reveal list that is not presentable names a hidden surrounding or a key twice. */
  lemma CleanIsPresentable(x: Issuance, names: seq<string>)
    requires Sound(x)
    requires var es := Named(x.All(), names);
             AllVisible(es) && EntryKeysDistinct(es)
    ensures Presentable(x.req, names)
  {
    var f, s := x.req.claims, AsSet(x.req.selectiveFields);
    forall p, k | SelectiveAt(f, s, p, k) && Shows(names, k)
      ensures OpenPath(f, s, p)
    {
      var i := NamedAt(x, names, p, k);
    }
    forall p, q, k | SelectiveAt(f, s, p, k) && SelectiveAt(f, s, q, k) && Shows(names, k)
      ensures p == q
    {
      var i := NamedAt(x, names, p, k);
      var j := NamedAt(x, names, q, k);
      assert !(i < j) && !(j < i);
    }
  }

  /** The named entry of a selective member with a name that shows. */
  lemma NamedAt(x: Issuance, names: seq<string>, p: Path, k: string) returns (i: nat)
    requires Sound(x) && SelectiveAt(x.req.claims, AsSet(x.req.selectiveFields), p, k) && Shows(names, k)
    ensures var es := Named(x.All(), names);
            && i < |es| && es[i].path == p && es[i].disclosure.key == k
            && (es[i].Visible() <==> OpenPath(x.req.claims, AsSet(x.req.selectiveFields), p))
  {
    var f, s := x.req.claims, AsSet(x.req.selectiveFields);
    var e := SelectiveHasEntry(x.Sc(), x.run, f, s, [], [], p, k);
    assert [] + p == p;
    VisibleIsOpen(x.Sc(), x.run, f, s, [], [], e);
    NamedMeaning(x.All(), names);
    i :| 0 <= i < |Named(x.All(), names)| && Named(x.All(), names)[i] == e;
  }

  lemma PositionOf(es: seq<Entry>, e: Entry)
    requires e in es
    ensures (e.path, e.disclosure.key) in Positions(es)
  {
    var i :| 0 <= i < |es| && es[i] == e;
  }

  lemma EntryAt(es: seq<Entry>, q: Path, k: string) returns (e: Entry)
    requires (q, k) in Positions(es)
    ensures e in es && e.path == q && e.disclosure.key == k
  {
    var i :| 0 <= i < |es| && (es[i].path, es[i].disclosure.key) == (q, k);
    e := es[i];
  }

  /** The positions of the named entries are the selective positions with those names. */
  lemma NamedPositions(x: Issuance, names: seq<string>, q: Path, k: string)
    requires Sound(x) && SelectiveAt(x.req.claims, AsSet(x.req.selectiveFields), q, k)
    ensures (q, k) in Positions(Named(x.All(), names)) <==> Shows(names, k)
  {
    SoundFacts(x);
    var es := Named(x.All(), names);
    if Shows(names, k) {
      var e := SelectiveHasEntry(x.Sc(), x.run, x.req.claims, AsSet(x.req.selectiveFields), [], [], q, k);
      assert [] + q == q;
      NamedHas(x.All(), names, e);
      PositionOf(es, e);
    }
    if (q, k) in Positions(es) {
      var e := EntryAt(es, q, k);
      NamedHas(x.All(), names, e);
    }
  }

  /** Pruning by position and by name agree when the positions are those with the names. */
  lemma {:induction false} PruneAgrees(c: Claim, p: Path, shown: set<Position>, names: seq<string>)
    requires c.Structured? ==>
               forall q, k | SelectiveAt(c.fields, AsSet(c.selectiveFields), q, k) ::
                 (p + q, k) in shown <==> Shows(names, k)
    ensures Prune(c, p, shown) == PruneByName(c, names)
    decreases c
  {
    match c
    case Leaf(_) =>
    case Structured(fields, selective) =>
      var a, b := Prune(c, p, shown).members, PruneByName(c, names).members;
      forall k
        ensures k in a <==> k in b
        ensures k in a ==> a[k] == b[k]
      {
        if k in fields {
          if k in selective {
            assert SelectiveAt(fields, AsSet(selective), [], k);
            assert p + [] == p;
          }
          forall q, k' | fields[k].Structured? && SelectiveAt(fields[k].fields, AsSet(fields[k].selectiveFields), q, k')
            ensures (p + [k] + q, k') in shown <==> Shows(names, k')
          {
            assert ([k] + q)[1..] == q;
            assert SelectiveAt(fields, AsSet(selective), [k] + q, k');
            assert p + ([k] + q) == p + [k] + q;
          }
          PruneAgrees(fields[k], p + [k], shown, names);
        }
      }
      assert a == b;
  }

  lemma NamedPrune(x: Issuance, names: seq<string>)
    requires Sound(x)
    ensures Prune(x.Claims(), [], Positions(Named(x.All(), names))) == PruneByName(x.Claims(), names)
  {
    var shown := Positions(Named(x.All(), names));
    forall q, k | SelectiveAt(x.req.claims, AsSet(x.req.selectiveFields), q, k)
      ensures ([] + q, k) in shown <==> Shows(names, k)
    {
      NamedPositions(x, names, q, k);
      assert [] + q == q;
    }
    PruneAgrees(x.Claims(), [], shown, names);
  }

  /** Present with the credential's holder key, or as a bearer if the verifier allows it. */
  ghost predicate BindsHolder(pf: Suite, req: IssueRequest, holder: Option<Signer>, opts: PresentOptions,
                              cfg: VerifierConfig, nonce: string)
  {
    if opts.keyBinding then
      && holder.Some?
      && req.holderJwk.Some? && pf.jwkKey(req.holderJwk.value).Some?
      && SignsFor(pf, holder.value, pf.jwkKey(req.holderJwk.value).value)
      && KbVerdict(opts, nonce, cfg.audience).None?
    else !cfg.requireKeyBinding
  }

  ghost predicate BindingAgreed(x: Issuance, holder: Option<Signer>, opts: PresentOptions,
                                cfg: VerifierConfig, nonce: string)
  {
    BindsHolder(x.pf, x.req, holder, opts, cfg, nonce)
  }

  /** An issued token always presents, if what key binding needs is there and the signer signs. */
  lemma PresentingIssued(x: Issuance, holder: Option<Signer>, at: int, opts: PresentOptions)
    requires Sound(x)
    ensures var r := Presentation(x.pf, holder, at, x.token, opts);
            if !opts.keyBinding then r.Ok?
            else if holder == None then r == Err(NoSigner)
            else if opts.nonce == "" then r == Err(NonceRequired)
            else if opts.audience == "" then r == Err(AudienceRequired)
            else r.Ok? || (r == Err(HolderError.SigningFailed) && CanFail(holder.value))
  {
    SelectionIsNamed(x, opts.revealClaims);
    PresentingSelected(x.pf, holder, at, x.token, opts);
  }

  lemma PresentationBinds(x: Issuance, holder: Option<Signer>, at: int, opts: PresentOptions,
                          cfg: VerifierConfig, nonce: string)
    requires Sound(x) && BindingAgreed(x, holder, opts, cfg, nonce)
    requires Presentation(x.pf, holder, at, x.token, opts).Ok?
    ensures var p := Presentation(x.pf, holder, at, x.token, opts).value;
            WellFormed(p) && Binds(x, cfg, p, nonce) && (p.HasKeyBinding() <==> opts.keyBinding)
  {
    IssuedIsWellFormed(x);
    var p := Presentation(x.pf, holder, at, x.token, opts).value;
    if opts.keyBinding {
      SelectionWellFormed(x.pf, holder, at, x.token, opts);
      KbDecodes(x.pf, holder.value, at, x.token, opts);
      HolderAndVerifierAgree(x.pf, holder.value, at, x.token, opts, x.req.holderJwk.value, nonce, cfg.audience);
    } else {
      assert p == Presentation(x.pf, None, at, x.token, opts).value;
      SelectionWellFormed(x.pf, None, at, x.token, opts);
    }
  }

  lemma PresentedAreNamed(x: Issuance, holder: Option<Signer>, at: int, opts: PresentOptions)
    requires Sound(x) && Presentation(x.pf, holder, at, x.token, opts).Ok?
    ensures var p := Presentation(x.pf, holder, at, x.token, opts).value;
            p.issuerJwt == x.token.issuerJwt &&
            p.disclosures == Texts(x.Sc(), Named(x.All(), opts.revealClaims))
  {
    SelectionIsNamed(x, opts.revealClaims);
  }

  /** The claims reported for a presentation with the reveal list `names`. */
  ghost predicate ReportsNamed(x: Issuance, opts: PresentOptions, t: Token, r: VerificationResult) {
    && ReportsIssuance(x, t, r) && r.keyBound == opts.keyBinding
    && Obj(StripRoot(r.issuerClaims)) == Verified(x, PruneByName(x.Claims(), opts.revealClaims))
    && DisclosesNamed(x.req, opts.revealClaims, r.disclosedClaims)
  }

  /**
   * Issue, present, verify. For every claim tree and choice of selective fields, every order in
   * which the maps are walked, all salts and decoys, and every reveal list: a verifier who trusts
   * the issuer accepts what is presented if and only if the list names only members around which
   * nothing is hidden, each name once. The claims it then reports are the registered ones and the
   * claim tree without the selective members that were not named; the disclosed claims are those
   * named, without their own selective members.
   */
  lemma IssuePresentVerify(x: Issuance, holder: Option<Signer>, at: int, opts: PresentOptions,
                           cfg: VerifierConfig, key: PublicKey, nonce: string, later: int, index: map<string, Path>)
    requires Sound(x) && ShallowRequest(x.req)
    requires Presentation(x.pf, holder, at, x.token, opts).Ok?
    requires Trusts(x, cfg, key, later) && BindingAgreed(x, holder, opts, cfg, nonce)
    requires Possible(x.pf, cfg, Presentation(x.pf, holder, at, x.token, opts).value.ToString(), later, index)
    ensures var p := Presentation(x.pf, holder, at, x.token, opts).value;
            var r := Outcome(x.pf, cfg, p.ToString(), nonce, later, index);
            if Presentable(x.req, opts.revealClaims) then r.Ok? && ReportsNamed(x, opts, p, r.value)
            else RejectsDisclosure(r)
  {
    var names := opts.revealClaims;
    var es := Named(x.All(), names);
    var p := Presentation(x.pf, holder, at, x.token, opts).value;
    PresentationBinds(x, holder, at, opts, cfg, nonce);
    PresentedAreNamed(x, holder, at, opts);
    NamedMeaning(x.All(), names);
    if AllVisible(es) && EntryKeysDistinct(es) {
      CleanIsPresentable(x, names);
      var r := AcceptedWhenClean(x, cfg, key, p, nonce, later, index, es);
      NamedResult(x, cfg, p, nonce, later, index, names, r);
    } else {
      if Presentable(x.req, names) {
        NamedAreClean(x, names);
      }
      RejectedWhenUnclean(x, cfg, key, p, nonce, later, index, es);
    }
  }

  lemma {:induction false} TextsOfSublist(sc: Scheme, a: seq<Entry>, b: seq<Entry>)
    requires Sublist(a, b)
    ensures Sublist(Texts(sc, a), Texts(sc, b))
    decreases |b|
  {
    if a != [] {
      var b' := b[..|b| - 1];
      assert Texts(sc, b)[..|b| - 1] == Texts(sc, b');
      if Sublist(a, b') {
        TextsOfSublist(sc, a, b');
      } else {
        assert Texts(sc, a)[..|a| - 1] == Texts(sc, a[..|a| - 1]);
        TextsOfSublist(sc, a[..|a| - 1], b');
      }
    }
  }

  /** With distinct digests the texts determine the entries. */
  lemma SameTextsSameEntries(sc: Scheme, all: seq<Entry>, a: seq<Entry>, b: seq<Entry>)
    requires DigestsDistinct(sc, all) && EntriesFrom(a, all) && EntriesFrom(b, all)
    requires Texts(sc, a) == Texts(sc, b)
    ensures a == b
  {
    assert |a| == |Texts(sc, a)| && |b| == |Texts(sc, b)|;
    forall i | 0 <= i < |a|
      ensures a[i] == b[i]
    {
      assert a[i] in a && b[i] in b && Texts(sc, a)[i] == Texts(sc, b)[i];
      SameDigestSameEntry(sc, all, a[i], b[i]);
    }
  }

  /** The claims that `names` discloses, each without its own selective members, and no others. */
  ghost predicate DisclosesNamed(req: IssueRequest, names: seq<string>, claims: Object) {
    var f, s := req.claims, AsSet(req.selectiveFields);
    && (forall p, k | SelectiveAt(f, s, p, k) && Shows(names, k) ::
          k in claims && StripSd(claims[k]) == Prune(ClaimAt(f, p, k), p + [k], {}))
    && (forall k | k in claims :: Shows(names, k) && exists p :: SelectiveAt(f, s, p, k))
  }

  lemma ReportedAreNamed(x: Issuance, names: seq<string>, claims: Object)
    requires Sound(x) && Reports(claims, Named(x.All(), names))
    ensures DisclosesNamed(x.req, names, claims)
  {
    var f, s := x.req.claims, AsSet(x.req.selectiveFields);
    forall p, k | SelectiveAt(f, s, p, k) && Shows(names, k)
      ensures k in claims && StripSd(claims[k]) == Prune(ClaimAt(f, p, k), p + [k], {})
    {
      ReportedAt(x, names, claims, p, k);
    }
    forall k | k in claims
      ensures Shows(names, k) && exists p :: SelectiveAt(f, s, p, k)
    {
      var i :| 0 <= i < |Named(x.All(), names)| && Named(x.All(), names)[i].disclosure.key == k;
      var e := Named(x.All(), names)[i];
      NamedHas(x.All(), names, e);
      EntryIsSelective(x.Sc(), x.run, f, s, [], [], e);
    }
  }

  lemma ReportedAt(x: Issuance, names: seq<string>, claims: Object, p: Path, k: string)
    requires Sound(x) && Reports(claims, Named(x.All(), names))
    requires SelectiveAt(x.req.claims, AsSet(x.req.selectiveFields), p, k) && Shows(names, k)
    ensures k in claims && StripSd(claims[k]) == Prune(ClaimAt(x.req.claims, p, k), p + [k], {})
  {
    var f, s := x.req.claims, AsSet(x.req.selectiveFields);
    SoundFacts(x);
    var i := NamedAt(x, names, p, k);
    var e := Named(x.All(), names)[i];
    NamedHas(x.All(), names, e);
    HiddenValue(x.Sc(), x.run, f, s, [], [], e);
    assert e in Named(x.All(), names);
  }

  /** What is reported about the presentation of the named disclosures. */
  lemma NamedResult(x: Issuance, cfg: VerifierConfig, t: Token, nonce: string, later: int, index: map<string, Path>,
                    names: seq<string>, r: VerificationResult)
    requires Sound(x) && WellFormed(t) && t.issuerJwt == x.token.issuerJwt
    requires t.disclosures == Texts(x.Sc(), Named(x.All(), names))
    requires Possible(x.pf, cfg, t.ToString(), later, index)
    requires Outcome(x.pf, cfg, t.ToString(), nonce, later, index) == Ok(r)
    ensures Obj(StripRoot(r.issuerClaims)) == Verified(x, PruneByName(x.Claims(), names))
    ensures Presentable(x.req, names) && DisclosesNamed(x.req, names, r.disclosedClaims)
  {
    var named := Named(x.All(), names);
    NamedMeaning(x.All(), names);
    TextsOfSublist(x.Sc(), named, x.All());
    var es, r' := VerifiedMeaning(x, cfg, t, nonce, later, index);
    SameTextsSameEntries(x.Sc(), x.All(), es, named);
    NamedPrune(x, names);
    CleanIsPresentable(x, names);
    ReportedAreNamed(x, names, r.disclosedClaims);
  }
}
