/** When the result of a verification is well defined although the order of map iteration is not. */
module Determinacy {
  import opened Wrappers
  import opened JsonModel
  import opened Platform
  import opened Disclosures
  import opened Tokens
  import opened Reconstruct
  import opened DisclosureStage
  import opened Collecting
  import opened Rebuilding
  import opened Verifiers
  import opened Soundness

  // ----- The reported claims -----

  /** No keyed disclosure has the name of a member of an object that lists its digest. */
  ghost predicate NamesFree(pf: Suite, alg: HashAlg, m: Object, ds: seq<string>) {
    forall i, p | 0 <= i < |ds| && KeyOf(pf, ds[i]) != "" && Holds(m, p, pf.digest(alg, ds[i])) ::
      KeyOf(pf, ds[i]) !in ObjectAt(m, p).value
  }

  lemma FreeIsFresh(pf: Suite, alg: HashAlg, m: Object, index: map<string, Path>, ds: seq<string>)
    requires Collected(m, index) && Process(pf, alg, index, ds).Ok? && NamesFree(pf, alg, m, ds)
    ensures Fresh(m, Process(pf, alg, index, ds).value)
  {
    var w := Process(pf, alg, index, ds).value;
    AcceptedAreStored(pf, alg, m, index, ds);
    forall k | k in w
      ensures !Overwrites(m, w, w[k].path, k)
    {
      var i :| 0 <= i < |ds| && StoredAt(pf, alg, m, ds[i], k, w[k]);
    }
  }

  /** Where nothing is overwritten, every object of the payload stays in place. */
  lemma FreshIsOpen(m: Object, w: Writes, p: Path)
    requires Fresh(m, w) && ObjectAt(m, p).Some?
    ensures OpenTo(w, p)
  {
    forall i | 0 <= i < |p|
      ensures !WrittenAt(w, p[..i], p[i])
    {
      assert p[..i] + p[i..] == p && p[i..][0] == p[i];
      ObjectAtAppend(m, p[..i], p[i..]);
      if p[i] in w {
        assert !Overwrites(m, w, w[p[i]].path, p[i]);
      }
    }
  }

  /** A member that only one of two lists of writes adds to an object makes a difference. */
  lemma AddedShows(m: Object, v: Writes, w: Writes, p: Path, k: string)
    requires Fresh(m, v) && Fresh(m, w) && ObjectAt(m, p).Some? && k !in ObjectAt(m, p).value
    requires WrittenAt(v, p, k) && !WrittenAt(w, p, k)
    ensures Rebuild(Obj(m), [], v) != Rebuild(Obj(m), [], w)
  {
    var o := ObjectAt(m, p).value;
    FreshIsOpen(m, v, p);
    FreshIsOpen(m, w, p);
    assert p[..0] == [] && p[0..] == p;
    ObjectOfRebuilt(m, v, p, 0, m);
    ObjectOfRebuilt(m, w, p, 0, m);
    assert k in Rebuild(Obj(o), p, v).members && k !in Rebuild(Obj(o), p, w).members;
  }

  /** Two orders that put a disclosed value into different objects, where that shows. */
  lemma ScatteredShows(pf: Suite, alg: HashAlg, m: Object, index: map<string, Path>, ds: seq<string>, i: nat)
    returns (a: map<string, Path>, b: map<string, Path>)
    requires Collected(m, index) && Process(pf, alg, index, ds).Ok? && NamesFree(pf, alg, m, ds)
    requires i < |ds| && KeyOf(pf, ds[i]) != "" && !Nested(m, pf.digest(alg, ds[i]))
    ensures Collected(m, a) && Process(pf, alg, a, ds).Ok? && Collected(m, b) && Process(pf, alg, b, ds).Ok?
    ensures Rebuild(Obj(m), [], Process(pf, alg, a, ds).value) != Rebuild(Obj(m), [], Process(pf, alg, b, ds).value)
  {
    var d, k := pf.digest(alg, ds[i]), KeyOf(pf, ds[i]);
    a, b := TwoPlaces(m, d);
    AcceptedElsewhere(pf, alg, m, a, index, ds);
    AcceptedElsewhere(pf, alg, m, b, index, ds);
    FreeIsFresh(pf, alg, m, a, ds);
    FreeIsFresh(pf, alg, m, b, ds);
    PlacedByIndex(pf, alg, a, ds, i);
    PlacedByIndex(pf, alg, b, ds, i);
    CollectedIsIndex(m, a);
    assert Holds(m, a[d], d);
    AddedShows(m, Process(pf, alg, a, ds).value, Process(pf, alg, b, ds).value, a[d], k);
  }

  lemma PlacedByIndex(pf: Suite, alg: HashAlg, index: map<string, Path>, ds: seq<string>, i: nat)
    requires Process(pf, alg, index, ds).Ok? && i < |ds| && KeyOf(pf, ds[i]) != ""
    ensures pf.digest(alg, ds[i]) in index
    ensures var w := Process(pf, alg, index, ds).value;
            KeyOf(pf, ds[i]) in w && w[KeyOf(pf, ds[i])].path == index[pf.digest(alg, ds[i])]
  {
    AcceptedMeaning(pf, alg, index, ds);
    assert Expected(pf, alg, index, ds[i]);
  }

  /** Every order in which members are visited leads to the same claims. */
  ghost predicate ClaimsDetermined(pf: Suite, alg: HashAlg, m: Object, ds: seq<string>) {
    forall a, b | Collected(m, a) && Collected(m, b) && Process(pf, alg, a, ds).Ok? && Process(pf, alg, b, ds).Ok? ::
      Rebuild(Obj(m), [], Process(pf, alg, a, ds).value) == Rebuild(Obj(m), [], Process(pf, alg, b, ds).value)
  }

  /**
   * The reconstructed claims, for an accepted list that names no member already there: they are
   * the same in every order if and only if no keyed disclosure has its digest in two objects of
   * which neither contains the other.
   */
  lemma ClaimsDeterminedIffSettled(pf: Suite, alg: HashAlg, m: Object, index: map<string, Path>, ds: seq<string>)
    requires Collected(m, index) && Process(pf, alg, index, ds).Ok? && NamesFree(pf, alg, m, ds)
    ensures ClaimsDetermined(pf, alg, m, ds) <==> Settled(pf, alg, m, ds)
  {
    if Settled(pf, alg, m, ds) {
      forall a, b | Collected(m, a) && Collected(m, b)
        ensures Process(pf, alg, a, ds) == Process(pf, alg, b, ds)
      {
        SettledIsDetermined(pf, alg, m, a, b, ds);
      }
    } else {
      var i :| 0 <= i < |ds| && KeyOf(pf, ds[i]) != "" && !Nested(m, pf.digest(alg, ds[i]));
      var a, b := ScatteredShows(pf, alg, m, index, ds, i);
    }
  }

  // ----- The whole outcome -----

  /** Every order in which the members of the payload are visited leads to the same outcome. */
  ghost predicate OutcomeDetermined(pf: Suite, cfg: VerifierConfig, raw: string, nonce: string, now: int) {
    forall a, b | Possible(pf, cfg, raw, now, a) && Possible(pf, cfg, raw, now, b) ::
      Outcome(pf, cfg, raw, nonce, now, a) == Outcome(pf, cfg, raw, nonce, now, b)
  }

  /** A presentation that is settled has one outcome, whatever that is. */
  lemma SettledHasOneOutcome(pf: Suite, cfg: VerifierConfig, raw: string, nonce: string, now: int, c: Checked)
    requires CheckIssuerJwt(pf, cfg, raw, now) == Ok(c) && Settled(pf, c.alg, c.payload, c.token.disclosures)
    ensures OutcomeDetermined(pf, cfg, raw, nonce, now)
  {
    forall a, b | Possible(pf, cfg, raw, now, a) && Possible(pf, cfg, raw, now, b)
      ensures Outcome(pf, cfg, raw, nonce, now, a) == Outcome(pf, cfg, raw, nonce, now, b)
    {
      if !Deep(Obj(c.payload), 0) {
        PossibleIsCollected(pf, cfg, raw, now, a);
        PossibleIsCollected(pf, cfg, raw, now, b);
        SettledIsDetermined(pf, c.alg, c.payload, a, b, c.token.disclosures);
      }
    }
  }

  /** Two orders that reconstruct different claims do not both lead to the same acceptance. */
  lemma DifferentClaims(pf: Suite, cfg: VerifierConfig, raw: string, nonce: string, now: int, c: Checked,
                        a: map<string, Path>, b: map<string, Path>)
    requires CheckIssuerJwt(pf, cfg, raw, now) == Ok(c) && !Deep(Obj(c.payload), 0)
    requires Process(pf, c.alg, a, c.token.disclosures).Ok? && Process(pf, c.alg, b, c.token.disclosures).Ok?
    requires Rebuild(Obj(c.payload), [], Process(pf, c.alg, a, c.token.disclosures).value) !=
             Rebuild(Obj(c.payload), [], Process(pf, c.alg, b, c.token.disclosures).value)
    ensures var ra, rb := Outcome(pf, cfg, raw, nonce, now, a), Outcome(pf, cfg, raw, nonce, now, b);
            ra.Ok? ==> ra != rb
  {
    var v := Process(pf, c.alg, a, c.token.disclosures).value;
    var w := Process(pf, c.alg, b, c.token.disclosures).value;
    OutcomeConcludes(pf, cfg, raw, nonce, now, a, c, v);
    OutcomeConcludes(pf, cfg, raw, nonce, now, b, c, w);
    if Conclude(pf, cfg, c, v, nonce).Ok? && Conclude(pf, cfg, c, w, nonce).Ok? {
      Concluded(pf, cfg, c, v, nonce);
      Concluded(pf, cfg, c, w, nonce);
    }
  }

  /**
   * When what `Verify` returns is well defined. A presentation that some order accepts, and that
   * names no member already there, key-bound or not: it has the same outcome in every order if and
   * only if no keyed disclosure has its digest in two objects of which neither contains the other.
   */
  lemma OutcomeDeterminedIffSettled(pf: Suite, cfg: VerifierConfig, raw: string, nonce: string, now: int,
                                    index: map<string, Path>, c: Checked)
    requires Possible(pf, cfg, raw, now, index) && Outcome(pf, cfg, raw, nonce, now, index).Ok?
    requires CheckIssuerJwt(pf, cfg, raw, now) == Ok(c) && NamesFree(pf, c.alg, c.payload, c.token.disclosures)
    ensures OutcomeDetermined(pf, cfg, raw, nonce, now) <==> Settled(pf, c.alg, c.payload, c.token.disclosures)
  {
    var m, ds := c.payload, c.token.disclosures;
    if Settled(pf, c.alg, m, ds) {
      SettledHasOneOutcome(pf, cfg, raw, nonce, now, c);
    } else {
      PossibleIsCollected(pf, cfg, raw, now, index);
      var i :| 0 <= i < |ds| && KeyOf(pf, ds[i]) != "" && !Nested(m, pf.digest(c.alg, ds[i]));
      var a, b := ScatteredShows(pf, c.alg, m, index, ds, i);
      DifferentClaims(pf, cfg, raw, nonce, now, c, a, b);
      assert Possible(pf, cfg, raw, now, a) && Possible(pf, cfg, raw, now, b);
      assert Outcome(pf, cfg, raw, nonce, now, a) != Outcome(pf, cfg, raw, nonce, now, index) ||
             Outcome(pf, cfg, raw, nonce, now, a) != Outcome(pf, cfg, raw, nonce, now, b);
    }
  }

  /** Without a KB-JWT, the order of map iteration decides about the reported claims at most: never
      about acceptance, the error, the disclosed claims, the type or the subject. */
  lemma BearerVerdictIsDetermined(pf: Suite, cfg: VerifierConfig, raw: string, nonce: string, now: int,
                                  a: map<string, Path>, b: map<string, Path>)
    requires Possible(pf, cfg, raw, now, a) && Possible(pf, cfg, raw, now, b)
    requires ParseToken(raw).Some? ==> !ParseToken(raw).value.HasKeyBinding()
    ensures match Outcome(pf, cfg, raw, nonce, now, b)
            case Err(e) => Outcome(pf, cfg, raw, nonce, now, a) == Err(e)
            case Ok(r) => Outcome(pf, cfg, raw, nonce, now, a).Ok? &&
                          SameButClaims(Outcome(pf, cfg, raw, nonce, now, a).value, r)
  {
    var checked := CheckIssuerJwt(pf, cfg, raw, now);
    if checked.Ok? && !Deep(Obj(checked.value.payload), 0) {
      var c := checked.value;
      AuthenticWhenChecked(pf, cfg, ParseToken(raw).value, now);
      PossibleIsCollected(pf, cfg, raw, now, a);
      PossibleIsCollected(pf, cfg, raw, now, b);
      IndexesKnowTheSame(c.payload, b, a);
      VerdictIgnoresIndex(pf, c.alg, b, a, c.token.disclosures);
      if Process(pf, c.alg, b, c.token.disclosures).Ok? {
        var v := Process(pf, c.alg, a, c.token.disclosures).value;
        var w := Process(pf, c.alg, b, c.token.disclosures).value;
        RootAgrees(pf, c.alg, c.payload, a, b, c.token.disclosures);
        OutcomeConcludes(pf, cfg, raw, nonce, now, a, c, v);
        OutcomeConcludes(pf, cfg, raw, nonce, now, b, c, w);
        SameShownConcludes(pf, cfg, c, v, w, nonce);
      }
    }
  }

  // ----- With a KB-JWT, acceptance can depend on the order -----

  /** A payload that lists one digest in the holder's key and in another object. */
  function KeyAndElsewhere(d: string): Object {
    map["iss" := Str("i"), "cnf" := Obj(map["jwk" := Obj(Home(d))]), "x" := Obj(Home(d))]
  }

  const IN_KEY: Path := ["cnf", "jwk"]
  const ELSEWHERE: Path := ["x"]

  lemma InnerHome(d: string, p: Path)
    ensures Holds(map["jwk" := Obj(Home(d))], p, d) <==> p == ["jwk"]
  {
    var cnf: Object := map["jwk" := Obj(Home(d))];
    assert "jwk"[0] != "_sd"[0] && SD !in cnf;
    if p != [] && p[0] in cnf {
      assert p == ["jwk"] + p[1..];
      HomeHolds(d, p[1..], d);
    }
  }

  lemma KeyAndElsewhereHold(d: string, p: Path)
    ensures Holds(KeyAndElsewhere(d), p, d) <==> p == IN_KEY || p == ELSEWHERE
  {
    var m := KeyAndElsewhere(d);
    assert "iss"[0] != "_sd"[0] && "cnf"[0] != "_sd"[0] && "x"[0] != "_sd"[0];
    assert "iss"[0] != "cnf"[0] && "x"[0] != "cnf"[0] && "iss"[0] != "x"[0];
    assert SD !in m;
    if p != [] {
      var q := p[1..];
      assert p == [p[0]] + q;
      if p[0] == "x" {
        HomeHolds(d, q, d);
      } else if p[0] == "cnf" {
        InnerHome(d, q);
      }
    }
  }

  lemma KeyAndElsewhereNotDeep(d: string)
    ensures !Deep(Obj(KeyAndElsewhere(d)), 0)
  {
    var m, cnf := KeyAndElsewhere(d), map["jwk" := Obj(Home(d))];
    assert forall k | k in Home(d) :: !Home(d)[k].Obj?;
    assert !Deep(Obj(Home(d)), 1);
    assert !Deep(Obj(Home(d)), 2);
    assert forall k | k in cnf :: cnf[k] == Obj(Home(d));
    assert !Deep(Obj(cnf), 1);
    assert forall k | k in m && m[k].Obj? :: m[k] == Obj(cnf) || m[k] == Obj(Home(d));
  }

  lemma HomeRebuilt(d: string, p: Path, v: Json)
    requires p == IN_KEY || p == ELSEWHERE
    ensures Rebuild(Obj(Home(d)), IN_KEY, map["k" := Placed(p, v)]) ==
            Obj(if p == IN_KEY then Home(d)["k" := v] else Home(d))
  {
    var w: Writes := map["k" := Placed(p, v)];
    assert "k"[0] != "_sd"[0];
    assert Rebuild(Obj(Home(d)), IN_KEY, w).members == if p == IN_KEY then Home(d)["k" := v] else Home(d);
  }

  lemma MemberRebuilt(o: Object, at: Path, k: string, p: Path, v: Json)
    requires k in o && k != "k"
    ensures var got := Rebuild(Obj(o), at, map["k" := Placed(p, v)]).members;
            k in got && got[k] == Rebuild(o[k], at + [k], map["k" := Placed(p, v)])
  {
  }

  lemma KeyRebuilt(d: string, p: Path, v: Json)
    requires p == IN_KEY || p == ELSEWHERE
    ensures ExtractCnf(Rebuild(Obj(KeyAndElsewhere(d)), [], map["k" := Placed(p, v)]).members) ==
            Some(if p == IN_KEY then Home(d)["k" := v] else Home(d))
  {
    assert "k"[0] != "cnf"[0] && "k"[0] != "jwk"[0];
    assert [] + ["cnf"] == ["cnf"] && ["cnf"] + ["jwk"] == IN_KEY;
    MemberRebuilt(KeyAndElsewhere(d), [], "cnf", p, v);
    MemberRebuilt(map["jwk" := Obj(Home(d))], ["cnf"], "jwk", p, v);
    HomeRebuilt(d, p, v);
  }

  /** It can happen: one presentation, and two orders of visiting the members of its payload, of
      which one completes the holder's key and the other does not. */
  lemma AcceptanceCanDependOnOrder(pf: Suite, cfg: VerifierConfig, raw: string, nonce: string, now: int, c: Checked,
                                   text: string, salt: string, v: Json)
    returns (a: map<string, Path>, b: map<string, Path>)
    requires CheckIssuerJwt(pf, cfg, raw, now) == Ok(c) && c.payload == KeyAndElsewhere(pf.digest(c.alg, text))
    requires c.token.disclosures == [text] && c.token.HasKeyBinding() && cfg.expectedVct == ""
    requires ParseDisclosure(pf, text) == Some(Disclosure(salt, "k", v))
    requires var jwk := Home(pf.digest(c.alg, text));
             && KbJwtError(pf, c.token, jwk["k" := v], nonce, cfg.audience).None?
             && pf.jwkKey(jwk).None?
    ensures Possible(pf, cfg, raw, now, a) && Outcome(pf, cfg, raw, nonce, now, a).Ok?
    ensures Possible(pf, cfg, raw, now, b) && Outcome(pf, cfg, raw, nonce, now, b) == Err(KbJwtKeyInvalid)
  {
    var d := pf.digest(c.alg, text);
    a := SteeredTo(d, IN_KEY);
    b := SteeredTo(d, ELSEWHERE);
    KeyAndElsewhereNotDeep(d);
    ProcessOfOne(pf, c.alg, a, text, Disclosure(salt, "k", v));
    ProcessOfOne(pf, c.alg, b, text, Disclosure(salt, "k", v));
    OutcomeConcludes(pf, cfg, raw, nonce, now, a, c, map["k" := Placed(IN_KEY, v)]);
    OutcomeConcludes(pf, cfg, raw, nonce, now, b, c, map["k" := Placed(ELSEWHERE, v)]);
    KeyRebuilt(d, IN_KEY, v);
    KeyRebuilt(d, ELSEWHERE, v);
  }

  lemma SteeredTo(d: string, p: Path) returns (index: map<string, Path>)
    requires p == IN_KEY || p == ELSEWHERE
    ensures Collected(KeyAndElsewhere(d), index) && d in index && index[d] == p
  {
    KeyAndElsewhereHold(d, p);
    index := Steered(KeyAndElsewhere(d), p, d);
    CollectedIsIndex(KeyAndElsewhere(d), index);
    KeyAndElsewhereHold(d, index[d]);
  }

  // ----- Where a name is taken, scattering need not show -----

  /** A payload that lists `d` in two objects inside a member whose name a disclosure takes. */
  function Overwritten(h: string, d: string): Object {
    map[SD := Arr([Str(h)]), "a" := Obj(TwoHomes(d))]
  }

  lemma OverwrittenHolds(h: string, d: string, p: Path, e: string)
    requires h != d
    ensures Holds(Overwritten(h, d), p, e) <==> (p == [] && e == h) || ((p == ["a", "a"] || p == ["a", "b"]) && e == d)
  {
    var m := Overwritten(h, d);
    assert m[SD].items[0] == Str(h) && "a"[0] != "_sd"[0];
    assert SdStrings(m) == {h};
    if p != [] && p[0] == "a" {
      assert p == ["a"] + p[1..];
      HomesOf(d, p[1..], e);
    }
  }

  /** Whatever the order, both values are accepted, and only the first one can be seen. */
  lemma OverwrittenAnyway(pf: Suite, alg: HashAlg, index: map<string, Path>, s: string, t: string,
                          x: string, y: string, u: Json, v: Json)
    requires ParseDisclosure(pf, s) == Some(Disclosure(x, "a", u))
    requires ParseDisclosure(pf, t) == Some(Disclosure(y, "k", v))
    requires pf.digest(alg, s) != pf.digest(alg, t)
    requires Collected(Overwritten(pf.digest(alg, s), pf.digest(alg, t)), index)
    ensures var m := Overwritten(pf.digest(alg, s), pf.digest(alg, t));
            && Process(pf, alg, index, [s, t]).Ok?
            && Rebuild(Obj(m), [], Process(pf, alg, index, [s, t]).value) == Obj(m["a" := u])
  {
    var h, d := pf.digest(alg, s), pf.digest(alg, t);
    var m := Overwritten(h, d);
    CollectedIsIndex(m, index);
    OverwrittenHolds(h, d, [], h);
    OverwrittenHolds(h, d, ["a", "a"], d);
    OverwrittenHolds(h, d, index[h], h);
    OverwrittenHolds(h, d, index[d], d);
    ProcessOfOne(pf, alg, index, s, Disclosure(x, "a", u));
    assert [s, t][..1] == [s];
    assert "k"[0] != "a"[0];
    var w := Process(pf, alg, index, [s, t]).value;
    assert w == map["a" := Placed([], u), "k" := Placed(index[d], v)];
    TakenMember(m, w, u);
  }

  lemma TakenMember(m: Object, w: Writes, u: Json)
    requires m.Keys == {SD, "a"} && m[SD].Arr?
    requires w.Keys == {"a", "k"} && w["a"] == Placed([], u) && w["k"].path != []
    ensures Rebuild(Obj(m), [], w) == Obj(m["a" := u])
  {
    assert "k"[0] != "a"[0] && "a"[0] != "_sd"[0] && "k"[0] != "_sd"[0];
    var got := Rebuild(Obj(m), [], w).members;
    assert SD !in w;
    assert got[SD] == Rebuild(m[SD], [] + [SD], w) == m[SD];
    assert got["a"] == u;
    assert got == m["a" := u];
  }

  /** It can happen: a list that is not settled, and claims that are determined nevertheless. So
      the condition on names is needed in `ClaimsDeterminedIffSettled`. */
  lemma ScatteringCanBeHidden(pf: Suite, alg: HashAlg, s: string, t: string, x: string, y: string, u: Json, v: Json)
    requires ParseDisclosure(pf, s) == Some(Disclosure(x, "a", u))
    requires ParseDisclosure(pf, t) == Some(Disclosure(y, "k", v))
    requires pf.digest(alg, s) != pf.digest(alg, t)
    ensures var m := Overwritten(pf.digest(alg, s), pf.digest(alg, t));
            && ClaimsDetermined(pf, alg, m, [s, t])
            && !Settled(pf, alg, m, [s, t]) && !NamesFree(pf, alg, m, [s, t])
  {
    var h, d := pf.digest(alg, s), pf.digest(alg, t);
    var m := Overwritten(h, d);
    forall a | Collected(m, a)
      ensures Process(pf, alg, a, [s, t]).Ok?
      ensures Rebuild(Obj(m), [], Process(pf, alg, a, [s, t]).value) == Obj(m["a" := u])
    {
      OverwrittenAnyway(pf, alg, a, s, t, x, y, u, v);
    }
    OverwrittenHolds(h, d, ["a", "a"], d);
    OverwrittenHolds(h, d, ["a", "b"], d);
    OverwrittenHolds(h, d, [], h);
    assert ["a", "a"][1] != ["a", "b"][1] by {
      assert "a"[0] != "b"[0];
    }
    assert !Nested(m, pf.digest(alg, [s, t][1]));
    assert "a" in ObjectAt(m, []).value && KeyOf(pf, [s, t][0]) == "a";
  }
}
