/** What a verified credential says, in terms of the claim tree it was issued from. */
module Meaning {
  import opened JsonModel
  import opened Disclosures
  import opened Claims
  import opened Accounting
  import opened IssuedPayload
  import opened Reconstruct

  /** A selective member: the position of its object, and its name. */
  type Position = (Path, string)

  /** The claim at `p` with the selective members that are not `shown` left out. */
  function Prune(c: Claim, p: Path, shown: set<Position>): Json {
    match c
    case Leaf(j) => j
    case Structured(fields, selective) =>
      Obj(map k | k in fields && (k !in selective || (p, k) in shown) :: Prune(fields[k], p + [k], shown))
  }

  function Positions(es: seq<Entry>): set<Position> {
    set i | 0 <= i < |es| :: (es[i].path, es[i].disclosure.key)
  }

  ghost predicate AllVisible(es: seq<Entry>) {
    forall i | 0 <= i < |es| :: es[i].Visible()
  }

  /** `w` is what revealing `es` writes. */
  ghost predicate WritesAre(w: Writes, es: seq<Entry>) {
    && (forall e | e in es :: e.disclosure.key in w && w[e.disclosure.key] == Placed(e.path, e.disclosure.value))
    && (forall k | k in w :: exists i | 0 <= i < |es| :: es[i].disclosure.key == k)
  }

  /** The entries of `es` at or below `p` come from the visits `run` of the object there. */
  ghost predicate Local(sc: Scheme, es: seq<Entry>, run: seq<Visit>, p: Path) {
    forall e | e in es && p <= e.path :: e in Entries(sc, run, p, [])
  }

  /** Something is written at a position exactly when it is shown. */
  lemma WrittenIsShown(w: Writes, es: seq<Entry>, p: Path, k: string) returns (e: Entry)
    requires WritesAre(w, es)
    ensures WrittenAt(w, p, k) <==> (p, k) in Positions(es)
    ensures WrittenAt(w, p, k) ==> e in es && e.path == p && e.disclosure.key == k && w[k].value == e.disclosure.value
  {
    e := Entry([], [], Disclosure("", "", Null));
    if k in w {
      var i :| 0 <= i < |es| && es[i].disclosure.key == k;
      assert es[i] in es;
      e := es[i];
    }
    if (p, k) in Positions(es) {
      var i :| 0 <= i < |es| && (es[i].path, es[i].disclosure.key) == (p, k);
      assert es[i] in es;
    }
  }

  /** Values without written positions are left alone. */
  lemma {:induction false} RebuildNothing(j: Json, p: Path, w: Writes)
    requires forall k | k in w :: !(p <= w[k].path)
    ensures Rebuild(j, p, w) == j
    decreases j
  {
    if j.Obj? {
      forall k | k in j.members
        ensures Rebuild(j.members[k], p + [k], w) == j.members[k]
      {
        assert forall k' | k' in w :: p + [k] <= w[k'].path ==> p <= w[k'].path;
        RebuildNothing(j.members[k], p + [k], w);
      }
      assert Rebuild(j, p, w).members == j.members;
    }
  }

  /** No entry of `es` lies at or below `p`. */
  ghost predicate NoneBelow(es: seq<Entry>, p: Path) {
    forall e | e in es :: !(p <= e.path)
  }

  lemma RebuildUntouched(j: Json, p: Path, w: Writes, es: seq<Entry>)
    requires WritesAre(w, es) && NoneBelow(es, p)
    ensures Rebuild(j, p, w) == j
  {
    forall k | k in w
      ensures !(p <= w[k].path)
    {
      var e := WrittenIsShown(w, es, w[k].path, k);
    }
    RebuildNothing(j, p, w);
  }

  /** The entries below one member of an object come from the visit to that member. */
  lemma LocalBelow(sc: Scheme, run: seq<Visit>, i: nat, p: Path, es: seq<Entry>)
    requires Tidy(run) && i < |run| && AllVisible(es) && Local(sc, es, run, p)
    ensures run[i].selective || run[i].body.Plain? ==> NoneBelow(es, p + [run[i].name])
    ensures run[i].body.Group? ==> Local(sc, es, run[i].body.visits, p + [run[i].name])
  {
    var v := run[i];
    var q := p + [v.name];
    forall e | e in es && q <= e.path
      ensures !v.selective && v.body.Group? && e in Entries(sc, v.body.visits, q, [])
    {
      assert p <= e.path by {
        assert q[..|p|] == p;
      }
      assert e.Visible();
      var j := EntryFrom(sc, run, p, [], e);
      EntryOfName(sc, run[j], p, [], e);
      assert e.path[|p|] == v.name;
      NamesDiffer(run, i, j);
      EntryOfBelow(sc, v, p, [], e);
      if v.selective {
        EntryBelow(sc, v.body.visits, q, q, e);
      }
    }
  }

  /** Rebuilding what the issuer built, and stripping it, gives the pruned claims. */
  lemma {:induction false} RebuiltMeaning(sc: Scheme, run: seq<Visit>, fields: Fields, selective: seq<string>,
                                          p: Path, es: seq<Entry>, w: Writes)
    requires IsRun(run, fields, AsSet(selective)) && Tidy(run)
    requires AllVisible(es) && Local(sc, es, run, p) && WritesAre(w, es)
    ensures StripSd(Rebuild(Obj(BuiltObject(sc, run)), p, w)) ==
            Prune(Structured(fields, selective), p, Positions(es))
    decreases run, 1
  {
    var got := StripSd(Rebuild(Obj(BuiltObject(sc, run)), p, w)).members;
    var want := Prune(Structured(fields, selective), p, Positions(es)).members;
    forall k
      ensures k in got <==> k in want
      ensures k in got ==> got[k] == want[k]
    {
      MemberMeaning(sc, run, fields, selective, p, es, w, k);
    }
    assert got == want;
  }

  /** The same for one member. */
  lemma {:induction false} MemberMeaning(sc: Scheme, run: seq<Visit>, fields: Fields, selective: seq<string>,
                                         p: Path, es: seq<Entry>, w: Writes, k: string)
    requires IsRun(run, fields, AsSet(selective)) && Tidy(run)
    requires AllVisible(es) && Local(sc, es, run, p) && WritesAre(w, es)
    ensures var b := BuiltObject(sc, run);
            && ((k != SD && (k in b || WrittenAt(w, p, k))) <==>
                k in fields && (k !in selective || (p, k) in Positions(es)))
            && (k != SD && WrittenAt(w, p, k) ==>
                  StripSd(w[k].value) == Prune(fields[k], p + [k], Positions(es)))
            && (k != SD && k in b && !WrittenAt(w, p, k) ==>
                  StripSd(Rebuild(b[k], p + [k], w)) == Prune(fields[k], p + [k], Positions(es)))
    decreases run, 0
  {
    var b := BuiltObject(sc, run);
    var e := WrittenIsShown(w, es, p, k);
    if WrittenAt(w, p, k) {
      var i := EntryFrom(sc, run, p, [], e);
      EntryOfBelow(sc, run[i], p, [], e);
      FollowsAt(run, fields, AsSet(selective), i);
      TidyAt(run, i);
      LocalBelow(sc, run, i, p, es);
      BodyMeaning(sc, run[i], fields[k], p + [k], es, w);
      RebuildUntouched(w[k].value, p + [k], w, es);
    } else if k in fields {
      var i := NameFrom(run, k);
      FollowsAt(run, fields, AsSet(selective), i);
      TidyAt(run, i);
      LocalBelow(sc, run, i, p, es);
      BodyMeaning(sc, run[i], fields[k], p + [k], es, w);
      if run[i].selective {
        if k in OpenMembers(sc, run) {
          var j := OpenMemberFrom(sc, run, k);
          NamesDiffer(run, i, j);
        }
      } else {
        OpenMemberIn(sc, run, i);
      }
    } else if k in OpenMembers(sc, run) {
      var i := OpenMemberFrom(sc, run, k);
      NameIn(run, i);
    }
  }

  /** The same for the value of one member, hidden or not. */
  lemma {:induction false} BodyMeaning(sc: Scheme, v: Visit, claim: Claim, q: Path, es: seq<Entry>, w: Writes)
    requires TidyVisit(v) && Matches(v.body, claim)
    requires AllVisible(es) && WritesAre(w, es)
    requires v.body.Plain? ==> NoneBelow(es, q)
    requires v.body.Group? ==> Local(sc, es, v.body.visits, q)
    ensures StripSd(Rebuild(BodyJson(sc, v.body), q, w)) == Prune(claim, q, Positions(es))
    decreases v, 0
  {
    match claim
    case Leaf(j) =>
      RebuildUntouched(j, q, w, es);
      StripSdOfClean(j);
    case Structured(fields, selective) =>
      RebuiltMeaning(sc, v.body.visits, fields, selective, q, es, w);
  }

  lemma BuiltMember(sc: Scheme, run: seq<Visit>, k: string)
    requires k != SD
    ensures var b, open := BuiltObject(sc, run), OpenMembers(sc, run);
            (k in b <==> k in open) && (k in b ==> b[k] == open[k])
  {
  }

  /** A registered member of the signed payload is not touched by revealing claims. */
  lemma RegisteredMeaning(sc: Scheme, run: seq<Visit>, m: Object, reg: Object, es: seq<Entry>, w: Writes, k: string)
    requires Tidy(run) && SdFree(reg) && k !in Names(run)
    requires k in reg && k in m && m[k] == reg[k] && !WrittenAt(w, [], k)
    requires WritesAre(w, es) && forall e | e in es :: e in AllEntries(sc, run)
    ensures var rebuilt := Rebuild(Obj(m), [], w).members;
            k in rebuilt && StripSd(rebuilt[k]) == reg[k]
  {
    assert [] + [k] == [k];
    RegisteredUntouched(sc, run, es, k);
    RebuildUntouched(reg[k], [k], w, es);
    StripSdOfClean(reg[k]);
  }

  /** One member of the signed payload, once rebuilt: registered, or pruned like the claims. */
  lemma PayloadMemberMeaning(sc: Scheme, run: seq<Visit>, fields: Fields, selective: seq<string>,
                             decoys: seq<string>, reg: Object, es: seq<Entry>, w: Writes, k: string)
    requires IsRun(run, fields, AsSet(selective)) && Tidy(run) && k != SD
    requires SdFree(reg) && fields.Keys !! reg.Keys
    requires AllVisible(es) && WritesAre(w, es) && forall e | e in es :: e in AllEntries(sc, run)
    ensures var rebuilt := Rebuild(Obj(SignedPayload(sc, run, decoys, reg)), [], w).members;
            var claims := Prune(Structured(fields, selective), [], Positions(es)).members;
            && (k in rebuilt <==> k in reg || k in claims)
            && (k in claims ==> k !in reg && StripSd(rebuilt[k]) == claims[k])
            && (k in reg ==> StripSd(rebuilt[k]) == reg[k])
  {
    assert Local(sc, es, run, []);
    MemberMeaning(sc, run, fields, selective, [], es, w, k);
    PayloadMember(sc, run, decoys, reg, k);
    BuiltMember(sc, run, k);
    if k in reg {
      RegisteredMeaning(sc, run, SignedPayload(sc, run, decoys, reg), reg, es, w, k);
    } else {
      assert [] + [k] == [k];
    }
  }

  /** For the signed payload, the registered claims are there as well. */
  lemma PayloadMeaning(sc: Scheme, run: seq<Visit>, fields: Fields, selective: seq<string>,
                       decoys: seq<string>, reg: Object, es: seq<Entry>, w: Writes)
    requires IsRun(run, fields, AsSet(selective)) && Tidy(run)
    requires SdFree(reg) && fields.Keys !! reg.Keys && SD_ALG in reg
    requires SD !in fields
    requires AllVisible(es) && WritesAre(w, es) && forall e | e in es :: e in AllEntries(sc, run)
    ensures Obj(StripRoot(Rebuild(Obj(SignedPayload(sc, run, decoys, reg)), [], w).members)) ==
            Obj((reg - {SD_ALG}) + Prune(Structured(fields, selective), [], Positions(es)).members)
  {
    var rebuilt := Rebuild(Obj(SignedPayload(sc, run, decoys, reg)), [], w).members;
    var claims := Prune(Structured(fields, selective), [], Positions(es)).members;
    forall k | k != SD
      ensures k in rebuilt <==> k in reg || k in claims
      ensures k in claims ==> k !in reg && StripSd(rebuilt[k]) == claims[k]
      ensures k in reg ==> StripSd(rebuilt[k]) == reg[k]
    {
      PayloadMemberMeaning(sc, run, fields, selective, decoys, reg, es, w, k);
    }
    StripToUnion(rebuilt, reg, claims);
  }

  lemma StripToUnion(rebuilt: Object, reg: Object, claims: Object)
    requires SD !in reg && SD !in claims && SD_ALG in reg
    requires forall k | k != SD :: k in rebuilt <==> k in reg || k in claims
    requires forall k | k in claims :: k !in reg && StripSd(rebuilt[k]) == claims[k]
    requires forall k | k in reg :: StripSd(rebuilt[k]) == reg[k]
    ensures StripRoot(rebuilt) == (reg - {SD_ALG}) + claims
  {
  }

  /** Nothing is revealed below a member that is not a claim. */
  lemma RegisteredUntouched(sc: Scheme, run: seq<Visit>, es: seq<Entry>, k: string)
    requires Tidy(run) && k !in Names(run) && forall e | e in es :: e in AllEntries(sc, run)
    ensures NoneBelow(es, [k])
  {
    forall e | e in es
      ensures !([k] <= e.path)
    {
      var i := EntryFrom(sc, run, [], [], e);
      EntryOfName(sc, run[i], [], [], e);
      NameIn(run, i);
    }
  }

  // ----- Disclosed values -----

  /** The claim `k` of the object at `p`, hidden or not. */
  function ClaimAt(fields: Fields, p: Path, k: string): Claim
    decreases |p|
  {
    if p == [] then (if k in fields then fields[k] else Leaf(Null))
    else if p[0] in fields && fields[p[0]].Structured? then ClaimAt(fields[p[0]].fields, p[1..], k)
    else Leaf(Null)
  }

  /** What a disclosure reveals of the claim it hides: everything but its selective members. */
  lemma {:induction false} HiddenValue(sc: Scheme, run: seq<Visit>, fields: Fields, selective: set<string>,
                                       path: Path, base: Path, e: Entry)
    requires IsRun(run, fields, selective) && Tidy(run) && base <= path && e in Entries(sc, run, path, base)
    ensures path <= e.path
    ensures var k := e.disclosure.key;
            StripSd(e.disclosure.value) == Prune(ClaimAt(fields, e.path[|path|..], k), e.path + [k], {})
    decreases run
  {
    var i := EntryFrom(sc, run, path, base, e);
    var v := run[i];
    EntryOfBelow(sc, v, path, base, e);
    FollowsAt(run, fields, selective, i);
    TidyAt(run, i);
    if e.path == path {
      RebuildNothing(BodyJson(sc, v.body), path + [v.name], map[]);
      BodyMeaning(sc, v, fields[v.name], path + [v.name], [], map[]);
      assert Positions([]) == {};
    } else {
      var c, below := fields[v.name], path + [v.name];
      HiddenValue(sc, v.body.visits, c.fields, AsSet(c.selectiveFields), below, if v.selective then below else base, e);
      var q := e.path[|path|..];
      assert q[0] == v.name && q[1..] == e.path[|below|..];
    }
  }
}
