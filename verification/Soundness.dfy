/** What an accepted presentation guarantees, and how acceptance depends on the disclosures. */
module Soundness {
  import opened Wrappers
  import opened JsonModel
  import opened Platform
  import opened Disclosures
  import opened Tokens
  import opened Reconstruct
  import opened Collecting
  import opened DisclosureStage
  import opened Rebuilding
  import opened Sublists
  import opened Verifiers
  import Heap
  import Jwt

  /** `t` carries an issuer JWT with payload `m`, signed by the key its issuer and key id
      resolve to, within its validity period. */
  ghost predicate Authentic(pf: Suite, cfg: VerifierConfig, t: Token, now: int, m: Object) {
    exists header: Object, iss, kid, alg, key ::
      && Jwt.Carries(pf, t.issuerJwt, header, m)
      && ReadsText(m, "iss", iss) && iss != "" && ReadsText(header, "kid", kid) && ReadsText(header, "alg", alg)
      && pf.resolveKey(iss, kid) == Some(key)
      && Jwt.SignedBy(pf, t.issuerJwt, key, alg)
      && !TooLate(m, now, cfg.clockSkew) && !TooEarly(m, now, cfg.clockSkew)
  }

  /** `t` ends in a KB-JWT that is signed by `key` and names this verifier, this exchange and
      exactly the presented issuer JWT and disclosures. */
  ghost predicate BoundTo(pf: Suite, cfg: VerifierConfig, t: Token, nonce: string, key: PublicKey) {
    exists header: Object, payload: Object, alg ::
      && Jwt.Carries(pf, t.kbJwt, header, payload)
      && ReadsText(header, "alg", alg) && Jwt.SignedBy(pf, t.kbJwt, key, alg)
      && (nonce == "" || ReadsText(payload, "nonce", nonce))
      && (cfg.audience == "" || NamesAudience(payload, cfg.audience))
      && ReadsText(payload, "sd_hash", pf.digest(Sha256, t.Prefix()))
  }

  /** The disclosed claims are exactly the keyed disclosures. */
  ghost predicate Discloses(pf: Suite, ds: seq<string>, claims: Object) {
    && (forall i | 0 <= i < |ds| && KeyOf(pf, ds[i]) != "" ::
          KeyOf(pf, ds[i]) in claims && ParseDisclosure(pf, ds[i]).Some? &&
          claims[KeyOf(pf, ds[i])] == ParseDisclosure(pf, ds[i]).value.value)
    && (forall k | k in claims :: k != "" && exists i | 0 <= i < |ds| :: KeyOf(pf, ds[i]) == k)
  }

  lemma AuthenticWhenChecked(pf: Suite, cfg: VerifierConfig, t: Token, now: int)
    requires CheckToken(pf, cfg, t, now).Ok?
    ensures var c := CheckToken(pf, cfg, t, now).value;
            && c.token == t && Authentic(pf, cfg, t, now, c.payload)
            && AlgorithmFromSdAlg(SdAlgName(c.payload)) == Some(c.alg)
            && c.issuer == StringMember(c.payload, "iss")
  {
    var jwt := Jwt.DecodeJwt(pf, t.issuerJwt).value;
    var m := jwt.payload;
    var iss, kid, alg := StringMember(m, "iss"), StringMember(jwt.header, "kid"), StringMember(jwt.header, "alg");
    StringMemberMeaning(m, "iss", iss);
    StringMemberMeaning(jwt.header, "kid", kid);
    StringMemberMeaning(jwt.header, "alg", alg);
    Jwt.DecodeMeaning(pf, t.issuerJwt, jwt.header, m);
    Jwt.SignatureMeaning(pf, t.issuerJwt, pf.resolveKey(iss, kid).value, alg);
    PeriodMeaning(m, now, cfg.clockSkew);
  }

  lemma BoundWhenNoError(pf: Suite, cfg: VerifierConfig, t: Token, jwk: Object, nonce: string)
    requires KbJwtError(pf, t, jwk, nonce, cfg.audience).None?
    ensures pf.jwkKey(jwk).Some? && BoundTo(pf, cfg, t, nonce, pf.jwkKey(jwk).value)
  {
    var kb, key := Jwt.DecodeJwt(pf, t.kbJwt).value, pf.jwkKey(jwk).value;
    var alg := StringMember(kb.header, "alg");
    Jwt.DecodeMeaning(pf, t.kbJwt, kb.header, kb.payload);
    StringMemberMeaning(kb.header, "alg", alg);
    Jwt.SignatureMeaning(pf, t.kbJwt, key, alg);
    StringMemberMeaning(kb.payload, "nonce", nonce);
    AudienceMeaning(kb.payload, cfg.audience);
    StringMemberMeaning(kb.payload, "sd_hash", pf.digest(Sha256, t.Prefix()));
  }

  /** The stages of a successful verification: the issuer JWT, the disclosures, the rest. */
  ghost predicate Accepts(pf: Suite, cfg: VerifierConfig, t: Token, nonce: string, now: int,
                          index: map<string, Path>, c: Checked, w: Writes, r: VerificationResult)
  {
    && CheckToken(pf, cfg, t, now) == Ok(c)
    && !Deep(Obj(c.payload), 0)
    && Process(pf, c.alg, index, t.disclosures) == Ok(w)
    && Conclude(pf, cfg, c, w, nonce) == Ok(r)
  }

  lemma OutcomeOk(pf: Suite, cfg: VerifierConfig, raw: string, nonce: string, now: int, index: map<string, Path>)
    returns (t: Token, c: Checked, w: Writes, r: VerificationResult)
    requires Outcome(pf, cfg, raw, nonce, now, index).Ok?
    ensures ParseToken(raw) == Some(t) && Accepts(pf, cfg, t, nonce, now, index, c, w, r)
    ensures Outcome(pf, cfg, raw, nonce, now, index) == Ok(r)
  {
    t := ParseToken(raw).value;
    c := CheckToken(pf, cfg, t, now).value;
    w := Process(pf, c.alg, index, c.token.disclosures).value;
    r := Conclude(pf, cfg, c, w, nonce).value;
    AuthenticWhenChecked(pf, cfg, t, now);
  }

  lemma AcceptedOutcome(pf: Suite, cfg: VerifierConfig, raw: string, t: Token, nonce: string, now: int,
                        index: map<string, Path>, c: Checked, w: Writes, r: VerificationResult)
    requires ParseToken(raw) == Some(t) && Accepts(pf, cfg, t, nonce, now, index, c, w, r)
    ensures Outcome(pf, cfg, raw, nonce, now, index) == Ok(r)
  {
    AuthenticWhenChecked(pf, cfg, t, now);
  }

  /** What the last two steps report. */
  lemma Concluded(pf: Suite, cfg: VerifierConfig, c: Checked, w: Writes, nonce: string)
    requires Conclude(pf, cfg, c, w, nonce).Ok?
    ensures var r := Conclude(pf, cfg, c, w, nonce).value;
            && Obj(r.issuerClaims) == Rebuild(Obj(c.payload), [], w)
            && Obj(r.disclosedClaims) == Obj(Heap.Values(w)) && r.issuer == c.issuer
            && r.vct == StringMember(r.issuerClaims, "vct") && r.subject == StringMember(r.issuerClaims, "sub")
            && (cfg.expectedVct != "" ==> r.vct == cfg.expectedVct)
            && (r.keyBound <==> c.token.HasKeyBinding())
            && (cfg.requireKeyBinding ==> r.keyBound)
            && KeyBindingError(pf, cfg, c.token, r.issuerClaims, nonce).None?
  {
  }

  lemma BoundToCnf(pf: Suite, cfg: VerifierConfig, t: Token, claims: Object, nonce: string) returns (jwk: Object)
    requires t.HasKeyBinding() && KeyBindingError(pf, cfg, t, claims, nonce).None?
    ensures HasJwk(claims, jwk) && pf.jwkKey(jwk).Some? && BoundTo(pf, cfg, t, nonce, pf.jwkKey(jwk).value)
  {
    jwk := ExtractCnf(claims).value;
    CnfMeaning(claims, jwk);
    BoundWhenNoError(pf, cfg, t, jwk, nonce);
  }

  /** The hash that `_sd_alg` names, which is SHA-256 if it is absent, empty or no string. */
  ghost predicate HashNamed(m: Object, alg: HashAlg) {
    || (alg == Sha256 && (ReadsText(m, "_sd_alg", "") || ReadsText(m, "_sd_alg", "sha-256")))
    || (alg == Sha384 && ReadsText(m, "_sd_alg", "sha-384"))
    || (alg == Sha512 && ReadsText(m, "_sd_alg", "sha-512"))
  }

  lemma HashMeaning(m: Object, alg: HashAlg)
    ensures AlgorithmFromSdAlg(SdAlgName(m)) == Some(alg) <==> HashNamed(m, alg)
  {
    StringMemberMeaning(m, "_sd_alg", "");
    StringMemberMeaning(m, "_sd_alg", "sha-256");
    StringMemberMeaning(m, "_sd_alg", "sha-384");
    StringMemberMeaning(m, "_sd_alg", "sha-512");
    SdAlgNames(alg, SdAlgName(m));
  }

  /** Some object of the payload lists the digest. */
  ghost predicate Listed(m: Object, d: string) {
    exists p :: Holds(m, p, d)
  }

  /** Every text was committed to by some `_sd` of the payload. */
  ghost predicate CommittedTo(pf: Suite, alg: HashAlg, m: Object, ds: seq<string>) {
    forall i | 0 <= i < |ds| :: Listed(m, pf.digest(alg, ds[i]))
  }

  lemma AcceptedAreCommitted(pf: Suite, alg: HashAlg, m: Object, index: map<string, Path>, ds: seq<string>)
    requires IsIndex(m, index) && Process(pf, alg, index, ds).Ok?
    ensures CommittedTo(pf, alg, m, ds) && KeysDistinct(pf, ds)
    ensures Discloses(pf, ds, Heap.Values(Process(pf, alg, index, ds).value))
  {
    AcceptedMeaning(pf, alg, index, ds);
    forall i | 0 <= i < |ds|
      ensures Listed(m, pf.digest(alg, ds[i]))
    {
      assert Expected(pf, alg, index, ds[i]);
      assert Holds(m, index[pf.digest(alg, ds[i])], pf.digest(alg, ds[i]));
    }
  }

  /** The keyed disclosures, each in an object of the payload that lists its digest, and that has
      no object inside it which does. */
  ghost predicate StoredWhereListed(pf: Suite, alg: HashAlg, m: Object, ds: seq<string>, w: Writes) {
    && (forall i | 0 <= i < |ds| && KeyOf(pf, ds[i]) != "" :: KeyOf(pf, ds[i]) in w)
    && (forall k | k in w :: exists i | 0 <= i < |ds| :: StoredAt(pf, alg, m, ds[i], k, w[k]))
  }

  ghost predicate StoredAt(pf: Suite, alg: HashAlg, m: Object, text: string, k: string, at: Placed) {
    && k != "" && KeyOf(pf, text) == k && ParseDisclosure(pf, text).Some?
    && at.value == ParseDisclosure(pf, text).value.value
    && Holds(m, at.path, pf.digest(alg, text))
    && forall q | Holds(m, q, pf.digest(alg, text)) && at.path <= q :: q == at.path
  }

  lemma AcceptedAreStored(pf: Suite, alg: HashAlg, m: Object, index: map<string, Path>, ds: seq<string>)
    requires Collected(m, index) && Process(pf, alg, index, ds).Ok?
    ensures StoredWhereListed(pf, alg, m, ds, Process(pf, alg, index, ds).value)
  {
    var w := Process(pf, alg, index, ds).value;
    CollectedIsIndex(m, index);
    AcceptedMeaning(pf, alg, index, ds);
    forall k | k in w
      ensures exists i | 0 <= i < |ds| :: StoredAt(pf, alg, m, ds[i], k, w[k])
    {
      var i :| 0 <= i < |ds| && KeyOf(pf, ds[i]) == k;
      assert Expected(pf, alg, index, ds[i]);
      assert StoredAt(pf, alg, m, ds[i], k, w[k]);
    }
  }

  /**
   * Success on arbitrary input means: a well-formed presentation of an authentic issuer JWT,
   * every disclosure committed to by an `_sd` of the signed payload, no key twice, the reported
   * claims the payload with each keyed disclosure stored in an object that lists its digest, the
   * disclosed claims exactly those of the disclosures, and key binding exactly when a KB-JWT
   * was there, hence always when required, bound to the key in the reported `cnf` claim.
   */
  lemma VerifyIsSound(pf: Suite, cfg: VerifierConfig, raw: string, nonce: string, now: int, index: map<string, Path>)
    returns (t: Token, m: Object, alg: HashAlg, w: Writes, r: VerificationResult)
    requires Possible(pf, cfg, raw, now, index)
    requires Outcome(pf, cfg, raw, nonce, now, index).Ok?
    ensures Outcome(pf, cfg, raw, nonce, now, index) == Ok(r)
    ensures WellFormed(t) && raw == t.ToString()
    ensures Authentic(pf, cfg, t, now, m) && ReadsText(m, "iss", r.issuer) && r.issuer != ""
    ensures HashNamed(m, alg)
    ensures CommittedTo(pf, alg, m, t.disclosures) && KeysDistinct(pf, t.disclosures)
    ensures Obj(r.issuerClaims) == Rebuild(Obj(m), [], w) && StoredWhereListed(pf, alg, m, t.disclosures, w)
    ensures Discloses(pf, t.disclosures, r.disclosedClaims)
    ensures ReadsText(r.issuerClaims, "vct", r.vct) && ReadsText(r.issuerClaims, "sub", r.subject)
    ensures cfg.expectedVct != "" ==> r.vct == cfg.expectedVct
    ensures (r.keyBound <==> t.kbJwt != "") && (cfg.requireKeyBinding ==> r.keyBound)
    ensures r.keyBound ==> exists jwk :: HasJwk(r.issuerClaims, jwk) && pf.jwkKey(jwk).Some? &&
                                         BoundTo(pf, cfg, t, nonce, pf.jwkKey(jwk).value)
  {
    StringOfParse(raw);
    var c;
    t, c, w, r := OutcomeOk(pf, cfg, raw, nonce, now, index);
    m, alg := c.payload, c.alg;
    AuthenticWhenChecked(pf, cfg, t, now);
    PossibleIsCollected(pf, cfg, raw, now, index);
    AcceptedAreCommitted(pf, alg, m, index, t.disclosures);
    AcceptedAreStored(pf, alg, m, index, t.disclosures);
    Concluded(pf, cfg, c, w, nonce);
    StringMemberMeaning(m, "iss", r.issuer);
    StringMemberMeaning(r.issuerClaims, "vct", r.vct);
    StringMemberMeaning(r.issuerClaims, "sub", r.subject);
    HashMeaning(m, alg);
    if t.HasKeyBinding() {
      var jwk := BoundToCnf(pf, cfg, t, r.issuerClaims, nonce);
    }
  }

  // ----- Two presentations of the same issuer JWT -----

  /** What is known about the issuer JWT does not depend on the disclosures. */
  lemma CheckIgnoresDisclosures(pf: Suite, cfg: VerifierConfig, a: Token, b: Token, now: int)
    requires a.issuerJwt == b.issuerJwt
    ensures match CheckToken(pf, cfg, a, now)
            case Err(e) => CheckToken(pf, cfg, b, now) == Err(e)
            case Ok(c) => CheckToken(pf, cfg, b, now) == Ok(c.(token := b))
  {
  }

  /** Two bearer presentations of one issuer JWT, and indexes collected in verifying them. */
  ghost predicate Comparable(pf: Suite, cfg: VerifierConfig, a: Token, b: Token, now: int,
                             ia: map<string, Path>, ib: map<string, Path>)
  {
    && WellFormed(a) && WellFormed(b) && a.issuerJwt == b.issuerJwt
    && !a.HasKeyBinding() && !b.HasKeyBinding()
    && Possible(pf, cfg, a.ToString(), now, ia) && Possible(pf, cfg, b.ToString(), now, ib)
  }

  /** Nothing that is revealed can end up in different objects. */
  ghost predicate OnePlace(pf: Suite, alg: HashAlg, m: Object, ds: seq<string>,
                           ia: map<string, Path>, ib: map<string, Path>)
  {
    ia == ib || Settled(pf, alg, m, ds)
  }

  lemma ComparableChecks(pf: Suite, cfg: VerifierConfig, a: Token, b: Token, nonce: string, now: int,
                         ia: map<string, Path>, ib: map<string, Path>)
    returns (c: Checked, w: Writes, rb: VerificationResult)
    requires Comparable(pf, cfg, a, b, now, ia, ib)
    requires Outcome(pf, cfg, b.ToString(), nonce, now, ib).Ok?
    ensures Outcome(pf, cfg, b.ToString(), nonce, now, ib) == Ok(rb)
    ensures CheckIssuerJwt(pf, cfg, b.ToString(), now) == Ok(c) && c.token == b && Authentic(pf, cfg, b, now, c.payload)
    ensures CheckIssuerJwt(pf, cfg, a.ToString(), now) == Ok(c.(token := a)) && !Deep(Obj(c.payload), 0)
    ensures Process(pf, c.alg, ib, b.disclosures) == Ok(w) && Conclude(pf, cfg, c, w, nonce) == Ok(rb)
    ensures Collected(c.payload, ia) && Collected(c.payload, ib)
  {
    ParseOfString(a);
    ParseOfString(b);
    var t;
    t, c, w, rb := OutcomeOk(pf, cfg, b.ToString(), nonce, now, ib);
    CheckIgnoresDisclosures(pf, cfg, b, a, now);
    AuthenticWhenChecked(pf, cfg, b, now);
    PossibleIsCollected(pf, cfg, a.ToString(), now, ia);
    PossibleIsCollected(pf, cfg, b.ToString(), now, ib);
  }

  /** A list accepted under one index is accepted under another, and reveals the same values. */
  lemma AcceptedElsewhere(pf: Suite, alg: HashAlg, m: Object, ia: map<string, Path>, ib: map<string,
                          Path>, ds: seq<string>)
    requires Collected(m, ia) && Collected(m, ib) && Process(pf, alg, ib, ds).Ok?
    ensures Process(pf, alg, ia, ds).Ok?
    ensures SameButPlaces(Process(pf, alg, ia, ds).value, Process(pf, alg, ib, ds).value)
    ensures OnePlace(pf, alg, m, ds, ia, ib) ==> Process(pf, alg, ia, ds) == Process(pf, alg, ib, ds)
  {
    CollectedIsIndex(m, ia);
    CollectedIsIndex(m, ib);
    IndexesKnowTheSame(m, ib, ia);
    VerdictIgnoresIndex(pf, alg, ib, ia, ds);
    if Settled(pf, alg, m, ds) {
      SettledIsDetermined(pf, alg, m, ia, ib, ds);
    }
  }

  /**
   * Reordering the disclosures of an accepted bearer presentation leaves an accepted one, with the
   * same disclosed claims, type and subject, whatever the indexes. The outcome is the same
   * altogether where nothing revealed can end up in different objects.
   */
  lemma OrderDoesNotMatter(pf: Suite, cfg: VerifierConfig, a: Token, b: Token, nonce: string, now: int,
                           ia: map<string, Path>, ib: map<string, Path>)
    returns (c: Checked, ra: VerificationResult, rb: VerificationResult)
    requires Comparable(pf, cfg, a, b, now, ia, ib)
    requires multiset(a.disclosures) == multiset(b.disclosures)
    requires Outcome(pf, cfg, b.ToString(), nonce, now, ib).Ok?
    ensures Outcome(pf, cfg, b.ToString(), nonce, now, ib) == Ok(rb) && Authentic(pf, cfg, b, now, c.payload)
    ensures Outcome(pf, cfg, a.ToString(), nonce, now, ia) == Ok(ra)
    ensures SameButClaims(ra, rb)
    ensures OnePlace(pf, c.alg, c.payload, a.disclosures, ia, ib) ==> ra == rb
  {
    var w;
    c, w, rb := ComparableChecks(pf, cfg, a, b, nonce, now, ia, ib);
    ProcessPermuted(pf, c.alg, ib, b.disclosures, a.disclosures);
    AcceptedElsewhere(pf, c.alg, c.payload, ia, ib, a.disclosures);
    var v := Process(pf, c.alg, ia, a.disclosures).value;
    OutcomeConcludes(pf, cfg, a.ToString(), nonce, now, ia, c.(token := a), v);
    RootAgrees(pf, c.alg, c.payload, ia, ib, a.disclosures);
    BearersConcludeAlike(pf, cfg, c, a, v, nonce);
    SameShownConcludes(pf, cfg, c, v, w, nonce);
    ra := Conclude(pf, cfg, c, v, nonce).value;
  }

  /** Two results that differ in the reported claims at most. */
  ghost predicate SameButClaims(a: VerificationResult, b: VerificationResult) {
    && Obj(a.disclosedClaims) == Obj(b.disclosedClaims)
    && a.issuer == b.issuer && a.vct == b.vct && a.subject == b.subject && a.keyBound == b.keyBound
  }

  /** The same values, and the same ones at the root. */
  ghost predicate SameShown(v: Writes, w: Writes) {
    SameButPlaces(v, w) && forall k :: WrittenAt(v, [], k) <==> WrittenAt(w, [], k)
  }

  lemma RootAgrees(pf: Suite, alg: HashAlg, m: Object, ia: map<string, Path>, ib: map<string, Path>, ds: seq<string>)
    requires Collected(m, ia) && Collected(m, ib) && Process(pf, alg, ib, ds).Ok?
    ensures Process(pf, alg, ia, ds).Ok?
    ensures SameShown(Process(pf, alg, ia, ds).value, Process(pf, alg, ib, ds).value)
  {
    AcceptedElsewhere(pf, alg, m, ia, ib, ds);
    forall k
      ensures WrittenAt(Process(pf, alg, ia, ds).value, [], k) <==> WrittenAt(Process(pf, alg, ib, ds).value, [], k)
    {
      SameAtRoot(pf, alg, m, ia, ib, ds, k);
      SameAtRoot(pf, alg, m, ib, ia, ds, k);
    }
  }

  /** Without a KB-JWT, the last steps look at no more than that. */
  lemma SameShownConcludes(pf: Suite, cfg: VerifierConfig, c: Checked, v: Writes, w: Writes, nonce: string)
    requires !c.token.HasKeyBinding() && SameShown(v, w)
    ensures match Conclude(pf, cfg, c, w, nonce)
            case Err(e) => Conclude(pf, cfg, c, v, nonce) == Err(e)
            case Ok(r) => Conclude(pf, cfg, c, v, nonce).Ok? &&
                          SameButClaims(Conclude(pf, cfg, c, v, nonce).value, r)
  {
    SameValues(v, w);
    RootString(c.payload, v, "vct");
    RootString(c.payload, w, "vct");
    RootString(c.payload, v, "sub");
    RootString(c.payload, w, "sub");
    assert c.(token := c.token) == c;
  }

  lemma SameValues(v: Writes, w: Writes)
    requires SameButPlaces(v, w)
    ensures Obj(Heap.Values(v)) == Obj(Heap.Values(w))
  {
    assert Heap.Values(v) == Heap.Values(w);
  }

  /** Without a KB-JWT the last steps do not look at the token. */
  lemma BearersConcludeAlike(pf: Suite, cfg: VerifierConfig, c: Checked, t: Token, w: Writes, nonce: string)
    requires !c.token.HasKeyBinding() && !t.HasKeyBinding()
    ensures Conclude(pf, cfg, c.(token := t), w, nonce) == Conclude(pf, cfg, c, w, nonce)
  {
  }

  lemma ProcessedInPayload(pf: Suite, alg: HashAlg, m: Object, index: map<string, Path>, ds: seq<string>)
    requires IsIndex(m, index) && Process(pf, alg, index, ds).Ok?
    ensures InPayload(m, Process(pf, alg, index, ds).value)
  {
    var w := Process(pf, alg, index, ds).value;
    AcceptedMeaning(pf, alg, index, ds);
    forall k | k in w
      ensures ObjectAt(m, w[k].path).Some?
    {
      var i :| 0 <= i < |ds| && KeyOf(pf, ds[i]) == k;
      assert Expected(pf, alg, index, ds[i]) && Holds(m, index[pf.digest(alg, ds[i])], pf.digest(alg, ds[i]));
    }
  }

  /** What a verifier reads at the root after the write-back: what was revealed there, if
      anything, and the payload's own member otherwise. */
  function ShownAtRoot(m: Object, w: Writes, k: string): string {
    if WrittenAt(w, [], k) then (if w[k].value.Str? then w[k].value.s else "") else StringMember(m, k)
  }

  lemma RootString(m: Object, w: Writes, k: string)
    ensures StringMember(Rebuild(Obj(m), [], w).members, k) == ShownAtRoot(m, w, k)
  {
  }

  predicate TypeMatches(cfg: VerifierConfig, m: Object, w: Writes) {
    cfg.expectedVct == "" || ShownAtRoot(m, w, "vct") == cfg.expectedVct
  }

  /** Without a KB-JWT, when none is required, only the type can stop the last steps. */
  lemma ConcludesIffTypeMatches(pf: Suite, cfg: VerifierConfig, c: Checked, t: Token, w: Writes, nonce: string)
    requires !t.HasKeyBinding() && !cfg.requireKeyBinding
    ensures Conclude(pf, cfg, c.(token := t), w, nonce).Ok? <==> TypeMatches(cfg, c.payload, w)
    ensures !TypeMatches(cfg, c.payload, w) ==> Conclude(pf, cfg, c.(token := t), w, nonce) == Err(VctMismatch)
  {
    RootString(c.payload, w, "vct");
  }

  /** A bearer presentation gets as far as the last steps. */
  lemma OutcomeConcludes(pf: Suite, cfg: VerifierConfig, raw: string, nonce: string, now: int, index: map<string, Path>,
                         c: Checked, w: Writes)
    requires CheckIssuerJwt(pf, cfg, raw, now) == Ok(c)
    requires !Deep(Obj(c.payload), 0) && Process(pf, c.alg, index, c.token.disclosures) == Ok(w)
    ensures Outcome(pf, cfg, raw, nonce, now, index) == Conclude(pf, cfg, c, w, nonce)
  {
  }

  /**
   * Dropping disclosures from an accepted bearer presentation leaves an accepted one with fewer
   * disclosed claims, if and only if the type that is then shown is the expected one; so it does
   * whenever no `vct` claim was revealed. This holds for any indexes. Where nothing revealed can
   * end up in different objects, and no revealed claim replaces an existing member, the claims
   * are those of the larger presentation with exactly the withheld members taken out.
   * `v` and `w` are the values revealed by each.
   */
  lemma PresentationsAreMonotone(pf: Suite, cfg: VerifierConfig, a: Token, b: Token, nonce: string, now: int,
                                 ia: map<string, Path>, ib: map<string, Path>)
    returns (c: Checked, v: Writes, w: Writes, rb: VerificationResult)
    requires Comparable(pf, cfg, a, b, now, ia, ib)
    requires Sublist(a.disclosures, b.disclosures)
    requires Outcome(pf, cfg, b.ToString(), nonce, now, ib).Ok?
    ensures Outcome(pf, cfg, b.ToString(), nonce, now, ib) == Ok(rb)
    ensures Authentic(pf, cfg, b, now, c.payload)
    ensures Obj(rb.disclosedClaims) == Obj(Heap.Values(w)) && SubObject(Heap.Values(v), rb.disclosedClaims)
    ensures "vct" !in rb.disclosedClaims ==> TypeMatches(cfg, c.payload, v)
    ensures OnePlace(pf, c.alg, c.payload, a.disclosures, ia, ib) ==> SubWrites(v, w)
    ensures var ra := Outcome(pf, cfg, a.ToString(), nonce, now, ia);
            && (ra.Ok? <==> TypeMatches(cfg, c.payload, v))
            && (ra.Err? ==> ra == Err(VctMismatch))
            && (ra.Ok? ==> Obj(ra.value.disclosedClaims) == Obj(Heap.Values(v)))
            && (ra.Ok? && SubWrites(v, w) && Fresh(c.payload, w) ==>
                  Obj(ra.value.issuerClaims) == Erase(Obj(rb.issuerClaims), [], Dropped(v, w)) &&
                  PrunedFrom(Obj(ra.value.issuerClaims), Obj(rb.issuerClaims)))
  {
    c, w, rb := ComparableChecks(pf, cfg, a, b, nonce, now, ia, ib);
    ProcessSublist(pf, c.alg, ib, a.disclosures, b.disclosures);
    AcceptedElsewhere(pf, c.alg, c.payload, ia, ib, a.disclosures);
    v := Process(pf, c.alg, ia, a.disclosures).value;
    Concluded(pf, cfg, c, w, nonce);
    FewerValues(Process(pf, c.alg, ib, a.disclosures).value, v, w);
    OutcomeConcludes(pf, cfg, a.ToString(), nonce, now, ia, c.(token := a), v);
    ConcludesIffTypeMatches(pf, cfg, c, a, v, nonce);
    if "vct" !in rb.disclosedClaims {
      assert "vct" !in Heap.Values(w);
      TypeStaysMatched(pf, cfg, c, v, w, nonce);
    }
    if TypeMatches(cfg, c.payload, v) {
      Concluded(pf, cfg, c.(token := a), v, nonce);
      CollectedIsIndex(c.payload, ib);
      ProcessedInPayload(pf, c.alg, c.payload, ib, b.disclosures);
      if SubWrites(v, w) {
        LessIsErased(c.payload, v, w);
      }
    }
  }

  /** Every member of `a` is the same in `b`. */
  predicate SubObject(a: Object, b: Object) {
    forall k | k in a :: k in b && b[k] == a[k]
  }

  lemma FewerValues(u: Writes, v: Writes, w: Writes)
    requires SubWrites(u, w) && SameButPlaces(v, u)
    ensures SubObject(Heap.Values(v), Heap.Values(w)) && v.Keys <= w.Keys
  {
  }

  lemma TypeStaysMatched(pf: Suite, cfg: VerifierConfig, c: Checked, v: Writes, w: Writes, nonce: string)
    requires Conclude(pf, cfg, c, w, nonce).Ok? && v.Keys <= w.Keys && "vct" !in w
    ensures TypeMatches(cfg, c.payload, v)
  {
    RootString(c.payload, w, "vct");
  }

  lemma LessIsErased(m: Object, v: Writes, w: Writes)
    requires SubWrites(v, w) && InPayload(m, w)
    ensures Fresh(m, w) ==> Rebuild(Obj(m), [], v) == Erase(Rebuild(Obj(m), [], w), [], Dropped(v, w)) &&
                            PrunedFrom(Rebuild(Obj(m), [], v), Rebuild(Obj(m), [], w))
  {
    if Fresh(m, w) {
      RebuildLess(m, v, w, [], m);
      ErasePrunes(Rebuild(Obj(m), [], w), [], Dropped(v, w));
    }
  }

  /** A payload of two members whose only object lists one digest has one index. */
  lemma FlatIndex(m: Object, digest: string) returns (index: map<string, Path>)
    requires m == map["iss" := Str("i"), SD := Arr([Str(digest)])]
    ensures Collected(m, index) && digest in index && index[digest] == [] && !Deep(Obj(m), 0)
  {
    index := SomeIndex(m);
    CollectedIsIndex(m, index);
    assert m[SD].items[0] == Str(digest);
    assert Holds(m, [], digest);
    assert Holds(m, index[digest], digest);
    assert forall k | k in m :: !m[k].Obj?;
  }

  lemma NoTypeOfItsOwn(m: Object, digest: string)
    requires m == map["iss" := Str("i"), SD := Arr([Str(digest)])]
    ensures ShownAtRoot(m, map[], "vct") == ""
  {
    assert "vct"[0] != "iss"[0] && "vct"[0] != "_sd"[0];
  }

  /** It can happen: the type is what was revealed, so that withholding it loses acceptance. */
  lemma WithheldTypeIsMissed(pf: Suite, cfg: VerifierConfig, jwt: string, text: string, salt: string,
                             nonce: string, now: int, c: Checked)
    returns (index: map<string, Path>)
    requires WellFormed(Token(jwt, [text], "")) && CheckToken(pf, cfg, Token(jwt, [text], ""), now) == Ok(c)
    requires c.payload == map["iss" := Str("i"), SD := Arr([Str(pf.digest(c.alg, text))])]
    requires ParseDisclosure(pf, text) == Some(Disclosure(salt, "vct", Str(cfg.expectedVct)))
    requires cfg.expectedVct != "" && !cfg.requireKeyBinding
    ensures var a, b := Token(jwt, [], ""), Token(jwt, [text], "");
            && Comparable(pf, cfg, a, b, now, index, index) && Sublist(a.disclosures, b.disclosures)
            && Outcome(pf, cfg, b.ToString(), nonce, now, index).Ok?
            && Outcome(pf, cfg, a.ToString(), nonce, now, index) == Err(VctMismatch)
  {
    var a, b := Token(jwt, [], ""), Token(jwt, [text], "");
    var m, digest := c.payload, pf.digest(c.alg, text);
    index := FlatIndex(m, digest);
    ParseOfString(a);
    ParseOfString(b);
    CheckIgnoresDisclosures(pf, cfg, b, a, now);
    AuthenticWhenChecked(pf, cfg, b, now);
    var w: Writes := map["vct" := Placed([], Str(cfg.expectedVct))];
    ProcessOfOne(pf, c.alg, index, text, Disclosure(salt, "vct", Str(cfg.expectedVct)));
    OutcomeConcludes(pf, cfg, b.ToString(), nonce, now, index, c, w);
    OutcomeConcludes(pf, cfg, a.ToString(), nonce, now, index, c.(token := a), map[]);
    ConcludesIffTypeMatches(pf, cfg, c, b, w, nonce);
    ConcludesIffTypeMatches(pf, cfg, c, a, map[], nonce);
    NoTypeOfItsOwn(m, digest);
  }
}
