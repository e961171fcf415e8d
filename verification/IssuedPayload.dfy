/** The signed payload of a credential, as the verifier walks it. */
module IssuedPayload {
  import opened Wrappers
  import opened JsonModel
  import opened Claims
  import opened Accounting
  import opened Issuers
  import opened Reconstruct

  /** A request whose claims survive the trip: no claim of the root has the name of a claim the
      issuer sets, and neither the claims nor the holder's key bring an `_sd` of their own. */
  ghost predicate TidyRequest(cfg: IssuerConfig, sdAlg: string, req: IssueRequest, now: int) {
    && TidyClaim(Structured(req.claims, req.selectiveFields))
    && req.claims.Keys !! Registered(cfg, sdAlg, req, now).Keys
    && (req.holderJwk.Some? ==> NoSd(Obj(req.holderJwk.value)))
  }

  /** The registered claims bring no `_sd`. */
  lemma RegisteredHasNoSd(cfg: IssuerConfig, sdAlg: string, req: IssueRequest, now: int, k: string)
    requires req.holderJwk.Some? ==> NoSd(Obj(req.holderJwk.value))
    requires k in Registered(cfg, sdAlg, req, now)
    ensures k != SD && NoSd(Registered(cfg, sdAlg, req, now)[k])
  {
    if k == "cnf" && req.holderJwk.Some? {
      var cnf := map["jwk" := Obj(req.holderJwk.value)];
      assert Registered(cfg, sdAlg, req, now)[k] == Obj(cnf);
      assert "_sd"[0] != "jwk"[0];
      assert forall k' | k' in cnf :: k' == "jwk" && NoSd(cnf[k']);
      assert SD !in cnf;
    }
  }

  /** Claims that bring no `_sd`, at any level. */
  ghost predicate SdFree(reg: Object) {
    forall k | k in reg :: k != SD && NoSd(reg[k])
  }

  /** The payload that is signed: the built claims, decoys and registered claims. */
  function SignedPayload(sc: Scheme, run: seq<Visit>, decoys: seq<string>, reg: Object): Object {
    WithDecoys(Built(BuiltObject(sc, run), OwnDigests(sc, run)), decoys) + reg
  }

  /** Members other than `_sd` come from the open members of the run or are registered. */
  lemma PayloadMember(sc: Scheme, run: seq<Visit>, decoys: seq<string>, reg: Object, k: string)
    requires Tidy(run) && SdFree(reg) && k != SD
    ensures var m := SignedPayload(sc, run, decoys, reg);
            && (k in m <==> k in reg || k in OpenMembers(sc, run))
            && (k in m ==> m[k] == if k in reg then reg[k] else OpenMembers(sc, run)[k])
  {
  }

  /** The `_sd` of the root lists the digests of hidden root members and the decoys. */
  lemma PayloadSd(sc: Scheme, run: seq<Visit>, decoys: seq<string>, reg: Object, d: string)
    requires Tidy(run) && SdFree(reg)
    ensures var m := SignedPayload(sc, run, decoys, reg);
            && (d in SdStrings(m) <==> d in OwnDigests(sc, run) || d in decoys)
            && (SD in m ==> !m[SD].Obj?)
  {
    BuiltSd(sc, run);
    var m := SignedPayload(sc, run, decoys, reg);
    if decoys != [] {
      var all := OwnDigests(sc, run) + decoys;
      assert m[SD] == StringArray(all);
      if d in all {
        var i :| 0 <= i < |all| && all[i] == d;
        assert m[SD].items[i] == Str(d);
      }
    } else {
      assert SD in m <==> SD in BuiltObject(sc, run);
      assert SD in m ==> m[SD] == BuiltObject(sc, run)[SD];
    }
  }

  /** What the signed payload holds is what the built claims hold, and the decoys at the root. */
  lemma PayloadHolds(sc: Scheme, run: seq<Visit>, decoys: seq<string>, reg: Object, q: Path, d: string)
    requires Tidy(run) && SdFree(reg) && Names(run) !! reg.Keys
    ensures Holds(SignedPayload(sc, run, decoys, reg), q, d) <==>
            Holds(BuiltObject(sc, run), q, d) || (q == [] && d in decoys)
  {
    var m, b := SignedPayload(sc, run, decoys, reg), BuiltObject(sc, run);
    PayloadSd(sc, run, decoys, reg, d);
    BuiltSd(sc, run);
    if q != [] && q[0] != SD {
      var k := q[0];
      PayloadMember(sc, run, decoys, reg, k);
      if k in OpenMembers(sc, run) {
        var i := OpenMemberFrom(sc, run, k);
        NameIn(run, i);
        assert m[k] == b[k];
      } else if k in reg && reg[k].Obj? {
        NoSdHoldsNothing(reg[k], q[1..], d);
      }
    }
  }

  /** A digest that is no decoy is listed no more often in the signed payload than in the built one. */
  lemma PayloadCopies(sc: Scheme, run: seq<Visit>, decoys: seq<string>, reg: Object, q: Path, d: string)
    requires Tidy(run) && SdFree(reg) && Names(run) !! reg.Keys && d !in decoys
    ensures Copies(SignedPayload(sc, run, decoys, reg), q, d) == Copies(BuiltObject(sc, run), q, d)
  {
    var m, b := SignedPayload(sc, run, decoys, reg), BuiltObject(sc, run);
    if q == [] {
      RootListings(sc, run, decoys, reg, d);
    } else if q[0] == SD {
      BuiltSd(sc, run);
      PayloadSd(sc, run, decoys, reg, d);
    } else {
      PayloadMember(sc, run, decoys, reg, q[0]);
      if q[0] in OpenMembers(sc, run) {
        var i := OpenMemberFrom(sc, run, q[0]);
        NameIn(run, i);
        assert m[q[0]] == b[q[0]];
      } else if q[0] in reg && reg[q[0]].Obj? {
        NoSdHoldsNothing(reg[q[0]], q[1..], d);
        CopiesHold(reg[q[0]].members, q[1..], d);
      }
    }
  }

  /** The `_sd` of the signed root: the digests of its hidden members, then the decoys; there is
      none if there is neither. */
  lemma RootArray(sc: Scheme, run: seq<Visit>, decoys: seq<string>, reg: Object)
    requires Tidy(run) && SdFree(reg)
    ensures var m, own := SignedPayload(sc, run, decoys, reg), OwnDigests(sc, run);
            if own == [] && decoys == [] then "_sd" !in m
            else
              && "_sd" in m && m["_sd"].Arr? && |m["_sd"].items| == |own| + |decoys|
              && (forall i | 0 <= i < |own| :: m["_sd"].items[i] == Str(own[i]))
              && (forall i | 0 <= i < |decoys| :: m["_sd"].items[|own| + i] == Str(decoys[i]))
  {
    var m, own := SignedPayload(sc, run, decoys, reg), OwnDigests(sc, run);
    if SD in OpenMembers(sc, run) {
      var i := OpenMemberFrom(sc, run, SD);
      TidyAt(run, i);
    }
    if own != [] || decoys != [] {
      assert m[SD] == StringArray(own + decoys) by {
        assert own + [] == own;
      }
    }
  }

  /** The root lists the digests of its hidden members, and the decoys, each as often as it occurs. */
  lemma RootListings(sc: Scheme, run: seq<Visit>, decoys: seq<string>, reg: Object, d: string)
    requires Tidy(run) && SdFree(reg)
    ensures Listings(SignedPayload(sc, run, decoys, reg), d) ==
            multiset(OwnDigests(sc, run))[d] + multiset(decoys)[d]
    ensures Listings(BuiltObject(sc, run), d) == multiset(OwnDigests(sc, run))[d]
  {
    var m, b := SignedPayload(sc, run, decoys, reg), BuiltObject(sc, run);
    BuiltSd(sc, run);
    if decoys != [] {
      Relabelled(OwnDigests(sc, run) + decoys);
      assert m[SD] == StringArray(OwnDigests(sc, run) + decoys);
    } else {
      assert SD in m <==> SD in b;
      assert SD in m ==> m[SD] == b[SD];
    }
  }

  /** No decoy equals the digest of a disclosure. */
  ghost predicate DecoysApart(sc: Scheme, es: seq<Entry>, decoys: seq<string>) {
    forall i | 0 <= i < |es| :: sc.Digest(es[i].disclosure) !in decoys
  }

  /** In the signed payload a disclosure's digest is held by its own object if nothing around that
      is hidden, and nowhere else. */
  lemma DigestInSigned(sc: Scheme, run: seq<Visit>, decoys: seq<string>, reg: Object, e: Entry, q: Path)
    requires Tidy(run) && SdFree(reg) && Names(run) !! reg.Keys
    requires DigestsDistinct(sc, AllEntries(sc, run)) && DecoysApart(sc, AllEntries(sc, run), decoys)
    requires e in AllEntries(sc, run)
    ensures Holds(SignedPayload(sc, run, decoys, reg), q, sc.Digest(e.disclosure)) <==> e.Visible() && e.path == q
    ensures Copies(SignedPayload(sc, run, decoys, reg), q, sc.Digest(e.disclosure)) ==
            if e.Visible() && e.path == q then 1 else 0
  {
    PayloadHolds(sc, run, decoys, reg, q, sc.Digest(e.disclosure));
    DigestInPayload(sc, run, e, q);
    PayloadCopies(sc, run, decoys, reg, q, sc.Digest(e.disclosure));
    CopiesHold(SignedPayload(sc, run, decoys, reg), q, sc.Digest(e.disclosure));
  }

  /** An object of the signed payload or of a disclosed value. */
  datatype Site = InPayload(at: Path) | InValue(of: Entry, at: Path)

  /** How often the object at a site lists a digest. */
  ghost function CopiesAt(sc: Scheme, run: seq<Visit>, decoys: seq<string>, reg: Object, s: Site, d: string): nat {
    match s
    case InPayload(at) => Copies(SignedPayload(sc, run, decoys, reg), at, d)
    case InValue(of, at) =>
      if of in AllEntries(sc, run) && of.disclosure.value.Obj? then Copies(of.disclosure.value.members, at, d) else 0
  }

  /**
   * Each digest sits in exactly one `_sd` of the payload and all disclosed values, and once in
   * that: in the payload if nothing around its member is hidden, and otherwise in the value of
   * the nearest hidden member around it.
   */
  lemma DigestSitsOnce(sc: Scheme, run: seq<Visit>, decoys: seq<string>, reg: Object, e: Entry)
    returns (s: Site)
    requires Tidy(run) && SdFree(reg) && Names(run) !! reg.Keys
    requires DigestsDistinct(sc, AllEntries(sc, run)) && DecoysApart(sc, AllEntries(sc, run), decoys)
    requires e in AllEntries(sc, run)
    ensures s.InPayload? <==> e.Visible()
    ensures s.InPayload? ==> s.at == e.path
    ensures s.InValue? ==> s.of in AllEntries(sc, run)
    ensures s.InValue? ==> s.of.path + [s.of.disclosure.key] == e.base && e.base + s.at == e.path
    ensures CopiesAt(sc, run, decoys, reg, s, sc.Digest(e.disclosure)) == 1
    ensures forall t | t != s :: CopiesAt(sc, run, decoys, reg, t, sc.Digest(e.disclosure)) == 0
  {
    s := InPayload(e.path);
    if !e.Visible() {
      var a := EnclosingEntry(sc, run, [], [], e);
      EntryBelow(sc, run, [], [], e);
      s := InValue(a, e.path[|e.base|..]);
      DigestInDisclosure(sc, run, a, e, s.at);
    } else {
      DigestInSigned(sc, run, decoys, reg, e, e.path);
    }
    forall t | t != s
      ensures CopiesAt(sc, run, decoys, reg, t, sc.Digest(e.disclosure)) == 0
    {
      SitsNowhereElse(sc, run, decoys, reg, e, s, t);
    }
  }

  lemma SitsNowhereElse(sc: Scheme, run: seq<Visit>, decoys: seq<string>, reg: Object, e: Entry, s: Site, t: Site)
    requires Tidy(run) && SdFree(reg) && Names(run) !! reg.Keys
    requires DigestsDistinct(sc, AllEntries(sc, run)) && DecoysApart(sc, AllEntries(sc, run), decoys)
    requires e in AllEntries(sc, run) && t != s
    requires if e.Visible() then s == InPayload(e.path)
             else s.InValue? && s.of in AllEntries(sc, run) &&
                  s.of.path + [s.of.disclosure.key] == e.base && e.base + s.at == e.path
    ensures CopiesAt(sc, run, decoys, reg, t, sc.Digest(e.disclosure)) == 0
  {
    match t
    case InPayload(at) => DigestInSigned(sc, run, decoys, reg, e, at);
    case InValue(of, at) =>
      if of in AllEntries(sc, run) && of.disclosure.value.Obj? {
        DigestInDisclosure(sc, run, of, e, at);
        assert e.base + at == e.path ==> at == e.path[|e.base|..];
        assert s.InValue? ==> s.at == e.path[|e.base|..];
        if of.path + [of.disclosure.key] == e.base && e.base + at == e.path {
          SamePlaceSameParts(of.path, of.disclosure.key, s.of.path, s.of.disclosure.key);
          SamePositionSameEntry(sc, run, of, s.of);
        }
      }
  }

  lemma SamePlaceSameParts(p: Path, k: string, q: Path, l: string)
    requires p + [k] == q + [l]
    ensures p == q && k == l
  {
    assert (p + [k])[..|p|] == p && (q + [l])[..|q|] == q;
    assert (p + [k])[|p|] == k && (q + [l])[|q|] == l;
  }

  /** Any index of the signed payload knows exactly the visible disclosures, at their objects. */
  lemma IndexOfSigned(sc: Scheme, run: seq<Visit>, decoys: seq<string>, reg: Object, index: map<string, Path>, e: Entry)
    requires Tidy(run) && SdFree(reg) && Names(run) !! reg.Keys
    requires DigestsDistinct(sc, AllEntries(sc, run)) && DecoysApart(sc, AllEntries(sc, run), decoys)
    requires e in AllEntries(sc, run)
    requires IsIndex(SignedPayload(sc, run, decoys, reg), index)
    ensures sc.Digest(e.disclosure) in index <==> e.Visible()
    ensures e.Visible() ==> index[sc.Digest(e.disclosure)] == e.path
  {
    var m, d := SignedPayload(sc, run, decoys, reg), sc.Digest(e.disclosure);
    DigestInSigned(sc, run, decoys, reg, e, e.path);
    if d in index {
      assert Holds(m, index[d], d);
      DigestInSigned(sc, run, decoys, reg, e, index[d]);
    }
  }

  // ----- Depth -----

  /** Objects inside plain values that are left in the clear stay within the verifier's bound,
      counted from a claim that is `depth` levels down. */
  ghost predicate Shallow(c: Claim, depth: nat)
    decreases c
  {
    match c
    case Leaf(j) => !Deep(j, depth)
    case Structured(fields, selective) =>
      forall k | k in fields && k !in selective :: Shallow(fields[k], depth + 1)
  }

  /** A run that is not too deep for the issuer is not too deep for the verifier either, unless
      plain values are. */
  lemma {:induction false} BuiltNotDeep(sc: Scheme, run: seq<Visit>, fields: Fields, selective: seq<string>, depth: nat)
    requires IsRun(run, fields, AsSet(selective))
    requires !TooDeep(Structured(fields, selective), depth) && Shallow(Structured(fields, selective), depth)
    ensures !Deep(Obj(BuiltObject(sc, run)), depth)
    decreases MAX_NESTING_DEPTH + 1 - depth
  {
    var b := BuiltObject(sc, run);
    forall k | k in b && b[k].Obj?
      ensures !Deep(b[k], depth + 1)
    {
      var i := OpenMemberFrom(sc, run, k);
      FollowsAt(run, fields, AsSet(selective), i);
      assert Shallow(fields[k], depth + 1);
      match fields[k]
      case Leaf(j) =>
      case Structured(below, nested) =>
        BuiltNotDeep(sc, run[i].body.visits, below, nested, depth + 1);
    }
  }

  /** Object-free plain values are shallow. */
  ghost predicate ObjectFree(c: Claim) {
    match c
    case Leaf(j) => !j.Obj?
    case Structured(fields, _) => forall k | k in fields :: ObjectFree(fields[k])
  }

  lemma {:induction false} ObjectFreeIsShallow(c: Claim, depth: nat)
    requires ObjectFree(c)
    ensures Shallow(c, depth)
    decreases c
  {
    if c.Structured? {
      forall k | k in c.fields {
        ObjectFreeIsShallow(c.fields[k], depth + 1);
      }
    }
  }

  lemma SignedNotDeep(sc: Scheme, run: seq<Visit>, decoys: seq<string>, reg: Object, fields: Fields,
                      selective: seq<string>)
    requires IsRun(run, fields, AsSet(selective))
    requires !TooDeep(Structured(fields, selective), 0) && Shallow(Structured(fields, selective), 0)
    requires forall k | k in reg :: !Deep(reg[k], 1)
    ensures !Deep(Obj(SignedPayload(sc, run, decoys, reg)), 0)
  {
    var m := SignedPayload(sc, run, decoys, reg);
    BuiltNotDeep(sc, run, fields, selective, 0);
    forall k | k in m && m[k].Obj? && k !in reg
      ensures !Deep(m[k], 1)
    {
      assert BuiltObject(sc, run)[k] == m[k];
    }
  }

  /** The registered claims nest no deeper than the holder's key. */
  lemma RegisteredNotDeep(cfg: IssuerConfig, sdAlg: string, req: IssueRequest, now: int, k: string)
    requires req.holderJwk.Some? ==> !Deep(Obj(req.holderJwk.value), 2)
    requires k in Registered(cfg, sdAlg, req, now)
    ensures !Deep(Registered(cfg, sdAlg, req, now)[k], 1)
  {
    if Registered(cfg, sdAlg, req, now)[k].Obj? {
      var cnf := map["jwk" := Obj(req.holderJwk.value)];
      assert Registered(cfg, sdAlg, req, now)[k] == Obj(cnf);
      assert forall k' | k' in cnf :: cnf[k'] == Obj(req.holderJwk.value);
    }
  }

  /**
   * The two depth limits agree: claims whose plain values contain no objects are never signed
   * into a payload that the verifier finds too deep, whatever the claims are called, unless the
   * holder's key does, two levels down.
   */
  lemma DepthLimitsAgree(sc: Scheme, cfg: IssuerConfig, sdAlg: string, req: IssueRequest, now: int,
                         run: seq<Visit>, decoys: seq<string>)
    requires IsRun(run, req.claims, AsSet(req.selectiveFields))
    requires !TooDeep(Structured(req.claims, req.selectiveFields), 0)
    requires ObjectFree(Structured(req.claims, req.selectiveFields))
    requires req.holderJwk.Some? ==> !Deep(Obj(req.holderJwk.value), 2)
    ensures !Deep(Obj(Payload(sc, cfg, sdAlg, req, now, run, decoys)), 0)
  {
    var reg := Registered(cfg, sdAlg, req, now);
    ObjectFreeIsShallow(Structured(req.claims, req.selectiveFields), 0);
    forall k | k in reg
      ensures !Deep(reg[k], 1)
    {
      RegisteredNotDeep(cfg, sdAlg, req, now, k);
    }
    SignedNotDeep(sc, run, decoys, reg, req.claims, req.selectiveFields);
    assert Payload(sc, cfg, sdAlg, req, now, run, decoys) == SignedPayload(sc, run, decoys, reg);
  }
}
