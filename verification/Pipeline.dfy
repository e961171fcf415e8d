/** Issue, present, verify: what comes out is what went in, minus what was withheld. */
module Pipeline {
  import opened Wrappers
  import opened JsonModel
  import opened Platform
  import opened Disclosures
  import opened Tokens
  import opened Sublists
  import opened Claims
  import opened Accounting
  import opened Issuers
  import opened IssuedPayload
  import opened Reconstruct
  import opened DisclosureStage
  import opened Meaning
  import Jwt

  /** Everything that happened at issuance: the issuer, the request, and how it was served. */
  datatype Issuance = Issuance(
    pf: Suite,
    cfg: IssuerConfig,
    signer: Signer,
    req: IssueRequest,
    now: int,
    run: seq<Visit>,
    decoys: seq<string>,
    token: Token
  ) {
    function Sc(): Scheme {
      Scheme(pf, cfg.hashAlg)
    }

    function SdAlg(): string {
      match SdAlgFromHash(cfg.hashAlg)
      case Some(name) => name
      case None => ""
    }

    function Claims(): Claim {
      Structured(req.claims, req.selectiveFields)
    }

    function All(): seq<Entry> {
      AllEntries(Sc(), run)
    }

    function Reg(): Object {
      Registered(cfg, SdAlg(), req, now)
    }

    function SignedClaims(): Object {
      SignedPayload(Sc(), run, decoys, Reg())
    }
  }

  /**
   * A credential issued from a tidy request, with an encoding that can be undone, and with
   * digests and decoys that do not collide.
   */
  ghost predicate Sound(x: Issuance) {
    && Issued(x.pf, x.cfg, x.signer, x.req, x.now, x.run, x.decoys, x.token)
    && Lawful(x.pf)
    && TidyRequest(x.cfg, x.SdAlg(), x.req, x.now)
    && DigestsDistinct(x.Sc(), x.All()) && DecoysApart(x.Sc(), x.All(), x.decoys)
  }

  /** Values drawn at different positions are different. */
  ghost predicate NeverRepeats(stream: nat -> string) {
    forall i: nat, j: nat :: stream(i) == stream(j) ==> i == j
  }

  lemma {:induction false} SaltAt(stream: nat -> string, from: nat, es: seq<Entry>, i: nat)
    requires SaltsFrom(stream, from, es) && i < |es|
    ensures es[i].disclosure.salt == stream(from + i)
  {
    if i < |es| - 1 {
      SaltAt(stream, from, es[..|es| - 1], i);
    }
  }

  /** What the issuer puts out is sound if the random source never repeats itself, the hash does
      not collide on the disclosures, and no decoy is a digest. */
  lemma IssuedIsSound(x: Issuance, stream: nat -> string, from: nat)
    requires Issued(x.pf, x.cfg, x.signer, x.req, x.now, x.run, x.decoys, x.token)
    requires Lawful(x.pf) && TidyRequest(x.cfg, x.SdAlg(), x.req, x.now)
    requires SaltsFrom(stream, from, x.All()) && NeverRepeats(stream)
    requires CollisionFree(x.Sc(), x.All()) && DecoysApart(x.Sc(), x.All(), x.decoys)
    ensures Sound(x)
  {
    var es := x.All();
    forall i, j | 0 <= i < j < |es|
      ensures es[i].disclosure.salt != es[j].disclosure.salt
    {
      SaltAt(stream, from, es, i);
      SaltAt(stream, from, es, j);
    }
    FreshSaltsGiveDistinctDigests(x.Sc(), es);
  }

  lemma RegisteredFacts(x: Issuance)
    requires Sound(x)
    ensures SdFree(x.Reg())
  {
    forall k | k in x.Reg()
      ensures k != SD && NoSd(x.Reg()[k])
    {
      RegisteredHasNoSd(x.cfg, x.SdAlg(), x.req, x.now, k);
    }
  }

  /** The conditions under which the issuer's output can be reasoned about. */
  lemma SoundFacts(x: Issuance)
    requires Sound(x)
    ensures IsRun(x.run, x.req.claims, AsSet(x.req.selectiveFields)) && Tidy(x.run)
    ensures SdFree(x.Reg()) && Names(x.run) !! x.Reg().Keys && SD !in x.req.claims
    ensures Payload(x.Sc(), x.cfg, x.SdAlg(), x.req, x.now, x.run, x.decoys) == x.SignedClaims()
  {
    TidyRun(x.run, x.req.claims, AsSet(x.req.selectiveFields));
    RegisteredFacts(x);
  }

  lemma IssuedDecodes(x: Issuance)
    requires Sound(x)
    ensures Jwt.DecodeJwt(x.pf, x.token.issuerJwt) ==
            Some(Jwt.Decoded(Jwt.Header("vc+sd-jwt", x.signer), x.SignedClaims()))
    ensures x.token.issuerJwt != "" && TILDE !in x.token.issuerJwt
    ensures forall key | SignsFor(x.pf, x.signer, key) ::
              Jwt.SignatureValid(x.pf, x.token.issuerJwt, key, x.signer.alg)
  {
    SoundFacts(x);
    Jwt.SignedDecodes(x.pf, x.signer, "vc+sd-jwt", x.SignedClaims());
  }

  /** What an issued JWT holds for whoever decodes it: its header, and in its payload the registered
      claims under their names; and how many decoys there are. */
  lemma IssuedHolds(x: Issuance) returns (header: Object, reg: Object, alg: string)
    requires Sound(x)
    ensures Jwt.IsHeader(header, "vc+sd-jwt", x.signer)
    ensures Jwt.Carries(x.pf, x.token.issuerJwt, header, x.SignedClaims())
    ensures (x.cfg.hashAlg, alg) in {(Sha256, "sha-256"), (Sha384, "sha-384"), (Sha512, "sha-512")}
    ensures IsRegistered(reg, x.cfg, alg, x.req, x.now)
    ensures forall k | k in reg :: k in x.SignedClaims() && x.SignedClaims()[k] == reg[k]
    ensures if x.cfg.decoyCount > 0 then |x.decoys| == x.cfg.decoyCount else x.decoys == []
  {
    IssuedDecodes(x);
    header, reg, alg := Jwt.Header("vc+sd-jwt", x.signer), x.Reg(), x.SdAlg();
    Jwt.HeaderMeaning("vc+sd-jwt", x.signer);
    Jwt.DecodeMeaning(x.pf, x.token.issuerJwt, header, x.SignedClaims());
    Issuers.RegisteredMeaning(x.cfg, alg, x.req, x.now);
    SdAlgNames(x.cfg.hashAlg, alg);
  }

  lemma IssuedIsWellFormed(x: Issuance)
    requires Sound(x)
    ensures WellFormed(x.token)
  {
    IssuedDecodes(x);
    var ds, es := x.token.disclosures, x.All();
    forall i | 0 <= i < |ds|
      ensures ds[i] != "" && TILDE !in ds[i]
    {
      assert ds[i] == x.pf.encode(ToArray(es[i].disclosure));
    }
  }

  // ----- The disclosures of an issued token -----

  /** Claim names are neither empty nor `_sd`. */
  lemma {:induction false} EntryKeyIsName(sc: Scheme, run: seq<Visit>, path: Path, base: Path, e: Entry)
    requires Tidy(run) && base <= path && e in Entries(sc, run, path, base)
    ensures e.disclosure.key != "" && e.disclosure.key != SD
    decreases run
  {
    var i := EntryFrom(sc, run, path, base, e);
    EntryOfBelow(sc, run[i], path, base, e);
    TidyAt(run, i);
    if e.path != path {
      var below := path + [run[i].name];
      EntryKeyIsName(sc, run[i].body.visits, below, if run[i].selective then below else base, e);
    }
  }

  ghost predicate EntriesFrom(es: seq<Entry>, all: seq<Entry>) {
    forall e | e in es :: e in all
  }

  ghost predicate EntryKeysDistinct(es: seq<Entry>) {
    forall i, j | 0 <= i < j < |es| :: es[i].disclosure.key != es[j].disclosure.key
  }

  /** A sub-list of the token's disclosures consists of the texts of a sub-list of its entries. */
  lemma EntriesOfSublist(sc: Scheme, all: seq<Entry>, ds: seq<string>) returns (es: seq<Entry>)
    requires Sublist(ds, Texts(sc, all))
    ensures ds == Texts(sc, es) && EntriesFrom(es, all)
  {
    var at := SublistPositions(ds, Texts(sc, all));
    es := seq(|ds|, i requires 0 <= i < |ds| && at[i] < |all| => all[at[i]]);
  }

  /** How the verifier sees the text of an entry. */
  lemma EntrySeen(x: Issuance, index: map<string, Path>, e: Entry)
    requires Sound(x) && e in x.All() && IsIndex(x.SignedClaims(), index)
    ensures var text := x.Sc().Text(e.disclosure);
            && KeyOf(x.pf, text) == e.disclosure.key && e.disclosure.key != ""
            && (Expected(x.pf, x.cfg.hashAlg, index, text) <==> e.Visible())
            && (e.Visible() ==>
                  Placement(x.pf, x.cfg.hashAlg, index, text) == Placed(e.path, e.disclosure.value))
            && ParseDisclosure(x.pf, text) == Some(e.disclosure)
  {
    SoundFacts(x);
    ParseOfEncode(x.pf, e.disclosure);
    EntryKeyIsName(x.Sc(), x.run, [], [], e);
    IndexOfSigned(x.Sc(), x.run, x.decoys, x.Reg(), index, e);
  }

  lemma EntriesSeen(x: Issuance, index: map<string, Path>, es: seq<Entry>)
    requires Sound(x) && EntriesFrom(es, x.All()) && IsIndex(x.SignedClaims(), index)
    ensures var ds := Texts(x.Sc(), es);
            && (AllExpected(x.pf, x.cfg.hashAlg, index, ds) <==> AllVisible(es))
            && (KeysDistinct(x.pf, ds) <==> EntryKeysDistinct(es))
            && forall i | 0 <= i < |es| :: ParseDisclosure(x.pf, ds[i]) == Some(es[i].disclosure)
  {
    var ds := Texts(x.Sc(), es);
    forall i | 0 <= i < |es|
      ensures KeyOf(x.pf, ds[i]) == es[i].disclosure.key && es[i].disclosure.key != ""
      ensures Expected(x.pf, x.cfg.hashAlg, index, ds[i]) <==> es[i].Visible()
      ensures ParseDisclosure(x.pf, ds[i]) == Some(es[i].disclosure)
    {
      assert es[i] in es;
      EntrySeen(x, index, es[i]);
    }
  }

  lemma AcceptedWrites(x: Issuance, index: map<string, Path>, es: seq<Entry>)
    requires Sound(x) && EntriesFrom(es, x.All()) && IsIndex(x.SignedClaims(), index)
    requires Process(x.pf, x.cfg.hashAlg, index, Texts(x.Sc(), es)).Ok?
    ensures AllVisible(es)
    ensures WritesAre(Process(x.pf, x.cfg.hashAlg, index, Texts(x.Sc(), es)).value, es)
  {
    var ds := Texts(x.Sc(), es);
    AcceptedMeaning(x.pf, x.cfg.hashAlg, index, ds);
    EntriesSeen(x, index, es);
    forall i | 0 <= i < |es|
      ensures KeyOf(x.pf, ds[i]) == es[i].disclosure.key && es[i].disclosure.key != ""
      ensures Expected(x.pf, x.cfg.hashAlg, index, ds[i])
      ensures Placement(x.pf, x.cfg.hashAlg, index, ds[i]) == Placed(es[i].path, es[i].disclosure.value)
    {
      assert es[i] in es;
      EntrySeen(x, index, es[i]);
    }
    CollectedWrites(x.pf, x.cfg.hashAlg, index, ds, es, Process(x.pf, x.cfg.hashAlg, index, ds).value);
  }

  /** What the loop collects from texts that stand for entries. */
  lemma CollectedWrites(pf: Suite, alg: HashAlg, index: map<string, Path>, ds: seq<string>, es: seq<Entry>, w: Writes)
    requires AllExpected(pf, alg, index, ds) && Collects(pf, alg, index, ds, w) && |ds| == |es|
    requires forall i | 0 <= i < |es| :: KeyOf(pf, ds[i]) == es[i].disclosure.key && es[i].disclosure.key != ""
    requires forall i | 0 <= i < |es| ::
               Placement(pf, alg, index, ds[i]) == Placed(es[i].path, es[i].disclosure.value)
    ensures WritesAre(w, es)
  {
    forall e | e in es
      ensures e.disclosure.key in w && w[e.disclosure.key] == Placed(e.path, e.disclosure.value)
    {
      var i :| 0 <= i < |es| && es[i] == e;
      assert KeyOf(pf, ds[i]) == e.disclosure.key;
    }
    forall k | k in w
      ensures exists i | 0 <= i < |es| :: es[i].disclosure.key == k
    {
      var i :| 0 <= i < |ds| && KeyOf(pf, ds[i]) == k;
      assert es[i].disclosure.key == k;
    }
  }

  /**
   * Exact acceptance. Of an issued token's disclosures, the verifier accepts a sub-list if and
   * only if nothing around any of them is hidden and no two have the same key.
   */
  lemma ExactAcceptance(x: Issuance, index: map<string, Path>, ds: seq<string>) returns (es: seq<Entry>)
    requires Sound(x) && Sublist(ds, x.token.disclosures) && IsIndex(x.SignedClaims(), index)
    ensures ds == Texts(x.Sc(), es) && EntriesFrom(es, x.All())
    ensures Process(x.pf, x.cfg.hashAlg, index, ds).Ok? <==> AllVisible(es) && EntryKeysDistinct(es)
    ensures Process(x.pf, x.cfg.hashAlg, index, ds).Ok? ==>
              WritesAre(Process(x.pf, x.cfg.hashAlg, index, ds).value, es)
  {
    es := EntriesOfSublist(x.Sc(), x.All(), ds);
    ProcessMeaning(x.pf, x.cfg.hashAlg, index, ds);
    EntriesSeen(x, index, es);
    if Process(x.pf, x.cfg.hashAlg, index, ds).Ok? {
      AcceptedWrites(x, index, es);
    }
  }

  lemma TextsPrefix(sc: Scheme, es: seq<Entry>, n: nat)
    requires n <= |es|
    ensures Texts(sc, es[..n]) == Texts(sc, es)[..n]
  {
  }

  /** Otherwise the first offender decides: hidden means mismatch, repeated means duplicate. */
  lemma ExactRejection(x: Issuance, index: map<string, Path>, es: seq<Entry>) returns (n: nat)
    requires Sound(x) && EntriesFrom(es, x.All()) && IsIndex(x.SignedClaims(), index)
    requires !(AllVisible(es) && EntryKeysDistinct(es))
    ensures n < |es| && AllVisible(es[..n]) && EntryKeysDistinct(es[..n])
    ensures var key := es[n].disclosure.key;
            Process(x.pf, x.cfg.hashAlg, index, Texts(x.Sc(), es)) ==
            Err(if es[n].Visible() then DisclosureDuplicate(key) else DisclosureMismatch(key))
  {
    var ds := Texts(x.Sc(), es);
    EntriesSeen(x, index, es);
    ProcessMeaning(x.pf, x.cfg.hashAlg, index, ds);
    n := FirstOffender(x.pf, x.cfg.hashAlg, index, ds);
    TextsPrefix(x.Sc(), es, n);
    assert EntriesFrom(es[..n], x.All());
    EntriesSeen(x, index, es[..n]);
    assert es[n] in es;
    EntrySeen(x, index, es[n]);
  }
}
