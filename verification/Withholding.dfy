/** What is withheld leaves no trace in the verified claims. */
module Withholding {
  import opened Wrappers
  import opened JsonModel
  import opened Tokens
  import opened Claims
  import opened Accounting
  import opened Meaning
  import opened Verifiers
  import opened Pipeline
  import opened EndToEnd

  /** Two claim trees that differ at most inside selective members which `names` withholds. */
  ghost predicate AgreeWhereShown(a: Claim, b: Claim, names: seq<string>)
    decreases a
  {
    if a.Structured? && b.Structured? then
      && a.fields.Keys == b.fields.Keys
      && AsSet(a.selectiveFields) == AsSet(b.selectiveFields)
      && forall k | k in a.fields && (k !in a.selectiveFields || Shows(names, k)) ::
           AgreeWhereShown(a.fields[k], b.fields[k], names)
    else a == b
  }

  lemma {:induction false} AgreedPruneAlike(a: Claim, b: Claim, names: seq<string>)
    requires AgreeWhereShown(a, b, names)
    ensures PruneByName(a, names) == PruneByName(b, names)
    decreases a
  {
    if a.Structured? && b.Structured? {
      var x, y := PruneByName(a, names).members, PruneByName(b, names).members;
      forall k
        ensures k in x <==> k in y
        ensures k in x ==> x[k] == y[k]
      {
        assert k in a.selectiveFields <==> k in AsSet(a.selectiveFields);
        assert k in b.selectiveFields <==> k in AsSet(b.selectiveFields);
        if k in x {
          AgreedPruneAlike(a.fields[k], b.fields[k], names);
        }
      }
      assert x == y;
    }
  }

  /** A selective member that is not named is absent from its object, if that is there at all. */
  lemma {:induction false} WithheldIsAbsent(fields: Fields, selective: seq<string>, names: seq<string>,
                                            p: Path, k: string)
    requires SelectiveAt(fields, AsSet(selective), p, k) && !Shows(names, k)
    ensures var o := ObjectAt(PruneByName(Structured(fields, selective), names).members, p);
            o.Some? ==> k !in o.value
    decreases |p|
  {
    if p != [] {
      var c := fields[p[0]];
      WithheldIsAbsent(c.fields, c.selectiveFields, names, p[1..], k);
    }
  }

  /** A presentation of the named disclosures of `x` that some verifier accepted. */
  ghost predicate Verifies(x: Issuance, names: seq<string>, cfg: VerifierConfig, t: Token, nonce: string, later: int,
                           index: map<string, Path>, r: VerificationResult)
  {
    && Sound(x) && WellFormed(t) && t.issuerJwt == x.token.issuerJwt
    && t.disclosures == Texts(x.Sc(), Named(x.All(), names))
    && Possible(x.pf, cfg, t.ToString(), later, index)
    && Outcome(x.pf, cfg, t.ToString(), nonce, later, index) == Ok(r)
  }

  lemma {:induction false} AgreementIsMutual(a: Claim, b: Claim, names: seq<string>)
    requires AgreeWhereShown(a, b, names)
    ensures AgreeWhereShown(b, a, names)
    decreases a
  {
    if a.Structured? && b.Structured? {
      forall k | k in b.fields && (k !in b.selectiveFields || Shows(names, k))
        ensures AgreeWhereShown(b.fields[k], a.fields[k], names)
      {
        assert k in a.selectiveFields <==> k in AsSet(a.selectiveFields);
        assert k in b.selectiveFields <==> k in AsSet(b.selectiveFields);
        AgreementIsMutual(a.fields[k], b.fields[k], names);
      }
    }
  }

  /** Without selective members, trees that agree are equal. */
  lemma {:induction false} AgreedAreEqual(a: Claim, b: Claim, names: seq<string>, q: Path)
    requires AgreeWhereShown(a, b, names)
    ensures Prune(a, q, {}) == Prune(b, q, {})
    decreases a
  {
    if a.Structured? && b.Structured? {
      var x, y := Prune(a, q, {}).members, Prune(b, q, {}).members;
      forall k
        ensures k in x <==> k in y
        ensures k in x ==> x[k] == y[k]
      {
        assert k in a.selectiveFields <==> k in AsSet(a.selectiveFields);
        assert k in b.selectiveFields <==> k in AsSet(b.selectiveFields);
        if k in x {
          AgreedAreEqual(a.fields[k], b.fields[k], names, q + [k]);
        }
      }
      assert x == y;
    }
  }

  /** Trees that agree have the same members that show, and these agree. */
  lemma {:induction false} AgreedAt(a: Claim, b: Claim, names: seq<string>, p: Path, k: string)
    requires AgreeWhereShown(a, b, names) && a.Structured? && b.Structured?
    requires OpenPath(a.fields, AsSet(a.selectiveFields), p) && Shows(names, k)
    requires SelectiveAt(a.fields, AsSet(a.selectiveFields), p, k)
    ensures SelectiveAt(b.fields, AsSet(b.selectiveFields), p, k)
    ensures AgreeWhereShown(ClaimAt(a.fields, p, k), ClaimAt(b.fields, p, k), names)
    decreases |p|
  {
    if p != [] {
      assert p[0] in a.selectiveFields <==> p[0] in AsSet(a.selectiveFields);
      AgreedAt(a.fields[p[0]], b.fields[p[0]], names, p[1..], k);
    }
  }

  /** The disclosed claims of one of two agreeing requests are among those of the other. */
  lemma DisclosedAlike(x: Issuance, y: Issuance, names: seq<string>, cx: Object, cy: Object, k: string)
    requires AgreeWhereShown(x.Claims(), y.Claims(), names) && Presentable(x.req, names)
    requires DisclosesNamed(x.req, names, cx) && DisclosesNamed(y.req, names, cy) && k in cx
    ensures k in cy && StripSd(cx[k]) == StripSd(cy[k])
  {
    var p :| SelectiveAt(x.req.claims, AsSet(x.req.selectiveFields), p, k);
    AgreedAt(x.Claims(), y.Claims(), names, p, k);
    AgreedAreEqual(ClaimAt(x.req.claims, p, k), ClaimAt(y.req.claims, p, k), names, p + [k]);
  }

  /**
   * Two issuances whose requests differ only inside withheld members: whatever the salts, the
   * order of issuance and the decoys, and whoever verifies the two presentations, the verified
   * claims and the disclosed claims are equal once stripped, and the withheld members are absent.
   */
  lemma WithheldValuesLeaveNoTrace(x: Issuance, y: Issuance, names: seq<string>,
                                   cx: VerifierConfig, tx: Token, nx: string, lx: int, ix: map<string, Path>,
                                   rx: VerificationResult,
                                   cy: VerifierConfig, ty: Token, ny: string, ly: int, iy: map<string, Path>,
                                   ry: VerificationResult)
    requires Verifies(x, names, cx, tx, nx, lx, ix, rx) && Verifies(y, names, cy, ty, ny, ly, iy, ry)
    requires x.Reg() == y.Reg() && AgreeWhereShown(x.Claims(), y.Claims(), names)
    ensures Obj(StripRoot(rx.issuerClaims)) == Obj(StripRoot(ry.issuerClaims))
    ensures forall k :: k in rx.disclosedClaims <==> k in ry.disclosedClaims
    ensures forall k | k in rx.disclosedClaims && k in ry.disclosedClaims ::
              StripSd(rx.disclosedClaims[k]) == StripSd(ry.disclosedClaims[k])
    ensures forall k | k in rx.disclosedClaims :: Shows(names, k)
    ensures forall p, k | SelectiveAt(x.req.claims, AsSet(x.req.selectiveFields), p, k) && !Shows(names, k) ::
              Missing(StripRoot(rx.issuerClaims), p, k)
  {
    NamedResult(x, cx, tx, nx, lx, ix, names, rx);
    NamedResult(y, cy, ty, ny, ly, iy, names, ry);
    AgreedPruneAlike(x.Claims(), y.Claims(), names);
    AgreementIsMutual(x.Claims(), y.Claims(), names);
    forall k | k in rx.disclosedClaims
      ensures k in ry.disclosedClaims && StripSd(rx.disclosedClaims[k]) == StripSd(ry.disclosedClaims[k])
    {
      DisclosedAlike(x, y, names, rx.disclosedClaims, ry.disclosedClaims, k);
    }
    forall k | k in ry.disclosedClaims
      ensures k in rx.disclosedClaims
    {
      DisclosedAlike(y, x, names, ry.disclosedClaims, rx.disclosedClaims, k);
    }
    forall p, k | SelectiveAt(x.req.claims, AsSet(x.req.selectiveFields), p, k) && !Shows(names, k)
      ensures Missing(StripRoot(rx.issuerClaims), p, k)
    {
      WithheldIsAbsent(x.req.claims, x.req.selectiveFields, names, p, k);
      MissingFromUnion(x, PruneByName(x.Claims(), names).members, p, k);
    }
  }

  /** There is no claim `k` in an object at `p`. */
  ghost predicate Missing(claims: Object, p: Path, k: string) {
    ObjectAt(claims, p).Some? ==> k !in ObjectAt(claims, p).value
  }

  /** A claim position never runs into a registered claim. */
  lemma MissingFromUnion(x: Issuance, claims: Object, p: Path, k: string)
    requires Sound(x) && SelectiveAt(x.req.claims, AsSet(x.req.selectiveFields), p, k)
    requires Missing(claims, p, k)
    ensures Missing((x.Reg() - {SD_ALG}) + claims, p, k)
  {
    var n := if p == [] then k else p[0];
    assert n in x.req.claims && n !in x.Reg();
  }
}
