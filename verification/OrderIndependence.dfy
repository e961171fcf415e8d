/** When the order of issuance shows in what is issued, and when it does not. */
module OrderIndependence {
  import opened JsonModel
  import opened Claims
  import opened Accounting
  import opened IssueOrder

  ghost predicate AtMostOneSelective(run: seq<Visit>) {
    forall i, j | 0 <= i < j < |run| :: !(run[i].selective && run[j].selective)
  }

  /** Inside hidden values every object has at most one selective member. */
  ghost predicate Rigid(run: seq<Visit>, hidden: bool)
    decreases run
  {
    && (hidden ==> AtMostOneSelective(run))
    && forall i | 0 <= i < |run| && run[i].body.Group? :: Rigid(run[i].body.visits, hidden || run[i].selective)
  }

  /** The same, said of the claims before they are issued. */
  ghost predicate RigidClaim(c: Claim, hidden: bool)
    decreases c
  {
    c.Structured? ==>
      && (hidden ==>
            forall k, l | k in c.fields && k in c.selectiveFields && l in c.fields && l in c.selectiveFields :: k == l)
      && forall k | k in c.fields :: RigidClaim(c.fields[k], hidden || k in c.selectiveFields)
  }

  lemma AtMostOneOfClaims(run: seq<Visit>, fields: Fields, selective: seq<string>)
    requires IsRun(run, fields, AsSet(selective))
    ensures AtMostOneSelective(run) <==>
            forall k, l | k in fields && k in selective && l in fields && l in selective :: k == l
  {
    if AtMostOneSelective(run) {
      forall k, l | k in fields && k in selective && l in fields && l in selective
        ensures k == l
      {
        var i := NameFrom(run, k);
        var j := NameFrom(run, l);
        FollowsAt(run, fields, AsSet(selective), i);
        FollowsAt(run, fields, AsSet(selective), j);
        assert i == j;
      }
    } else {
      var i, j :| 0 <= i < j < |run| && run[i].selective && run[j].selective;
      FollowsAt(run, fields, AsSet(selective), i);
      FollowsAt(run, fields, AsSet(selective), j);
      if run[i].name == run[j].name {
        NamesDiffer(run, i, j);
      }
    }
  }

  lemma {:induction false} RigidRun(run: seq<Visit>, fields: Fields, selective: seq<string>, hidden: bool)
    requires IsRun(run, fields, AsSet(selective))
    ensures Rigid(run, hidden) <==> RigidClaim(Structured(fields, selective), hidden)
    decreases run
  {
    AtMostOneOfClaims(run, fields, selective);
    forall i | 0 <= i < |run|
      ensures run[i].name in fields
      ensures run[i].body.Group? <==> fields[run[i].name].Structured?
      ensures run[i].body.Group? ==>
                (Rigid(run[i].body.visits, hidden || run[i].selective) <==>
                 RigidClaim(fields[run[i].name], hidden || run[i].name in selective))
    {
      FollowsAt(run, fields, AsSet(selective), i);
      match fields[run[i].name]
      case Leaf(_) =>
      case Structured(below, nested) =>
        RigidRun(run[i].body.visits, below, nested, hidden || run[i].selective);
    }
    forall k | k in fields
      ensures exists i | 0 <= i < |run| :: run[i].name == k
    {
      var i := NameFrom(run, k);
    }
  }

  // ----- Rigid runs -----

  lemma {:induction false} NoOwnDigests(sc: Scheme, run: seq<Visit>)
    requires forall i | 0 <= i < |run| :: !run[i].selective
    ensures OwnDigests(sc, run) == []
  {
    if run != [] {
      NoOwnDigests(sc, run[..|run| - 1]);
    }
  }

  lemma {:induction false} OneOwnDigest(sc: Scheme, run: seq<Visit>, i: nat)
    requires AtMostOneSelective(run) && i < |run| && run[i].selective
    ensures OwnDigests(sc, run) == [sc.Digest(VisitDisclosure(sc, run[i]))]
  {
    var n := |run| - 1;
    if i == n {
      NoOwnDigests(sc, run[..n]);
    } else {
      OneOwnDigest(sc, run[..n], i);
    }
  }

  /** Visits to the same member contribute the same; a hidden value is the same to the letter. */
  lemma {:induction false} VisitsAgree(sc: Scheme, u: Visit, v: Visit, hidden: bool)
    requires TidyVisit(u) && TidyVisit(v) && u.name == v.name && UnorderedVisit(u) == UnorderedVisit(v)
    requires u.body.Group? ==> Rigid(u.body.visits, hidden || u.selective)
    ensures VisitBag(sc, u) == VisitBag(sc, v)
    ensures hidden || u.selective ==> BodyJson(sc, u.body) == BodyJson(sc, v.body)
    ensures u.selective ==> VisitDisclosure(sc, u) == VisitDisclosure(sc, v)
    decreases u, 0
  {
    match u.body
    case Plain(_) =>
    case Group(visits) =>
      BagsAgree(sc, visits, v.body.visits, hidden || u.selective);
      if hidden || u.selective {
        HiddenObjectsAgree(sc, visits, v.body.visits);
        assert BodyJson(sc, u.body) == BodyJson(sc, v.body);
      }
      assert u.selective ==> VisitDisclosure(sc, u) == VisitDisclosure(sc, v);
      assert VisitBag(sc, u) - TextBag(sc, visits) == VisitBag(sc, v) - TextBag(sc, v.body.visits);
  }

  /** The member visited at `a[i]` contributes the same texts to `b`. */
  lemma {:induction false} TextCounterpart(sc: Scheme, a: seq<Visit>, i: nat, b: seq<Visit>, hidden: bool)
    returns (j: nat)
    requires Reordered(a, b) && Rigid(a, hidden) && i < |a|
    ensures j < |b| && b[j].name == a[i].name && VisitBag(sc, b[j]) == VisitBag(sc, a[i])
    decreases a, 0
  {
    j := Counterpart(a, i, b);
    VisitsAgree(sc, a[i], b[j], hidden);
  }

  /** Reordering a rigid run does not change its disclosures. */
  lemma {:induction false} BagsAgree(sc: Scheme, a: seq<Visit>, b: seq<Visit>, hidden: bool)
    requires Reordered(a, b) && Rigid(a, hidden)
    ensures TextBag(sc, a) == TextBag(sc, b)
    decreases a, 1
  {
    var p, q := TextParts(sc, a), TextParts(sc, b);
    TextPartsAt(sc, a);
    TextPartsAt(sc, b);
    PartsApart(a, p);
    PartsApart(b, q);
    forall i | 0 <= i < |a|
      ensures p[i] in q
    {
      var j := TextCounterpart(sc, a, i, b, hidden);
      assert q[j] == p[i];
    }
    forall j | 0 <= j < |b|
      ensures q[j] in p
    {
      var i := Counterpart(b, j, a);
      var j' := TextCounterpart(sc, a, i, b, hidden);
      NamesDiffer(b, j, j');
      assert p[i] == q[j];
    }
    SumOfSameParts(p, q);
  }

  lemma PartsApart(run: seq<Visit>, parts: seq<Part>)
    requires DistinctNames(run) && |parts| == |run|
    requires forall i | 0 <= i < |run| :: parts[i].0 == run[i].name
    ensures NamedApart(parts)
  {
    forall i, j | 0 <= i < j < |parts|
      ensures parts[i].0 != parts[j].0
    {
      if parts[i].0 == parts[j].0 {
        NamesDiffer(run, i, j);
      }
    }
  }

  /** Reordering a rigid run of a hidden object does not change the object. */
  lemma {:induction false} HiddenObjectsAgree(sc: Scheme, a: seq<Visit>, b: seq<Visit>)
    requires Reordered(a, b) && Rigid(a, true)
    ensures Obj(BuiltObject(sc, a)) == Obj(BuiltObject(sc, b))
    decreases a, 1
  {
    OpenMembersAgree(sc, a, b);
    if exists i | 0 <= i < |a| :: a[i].selective {
      var i :| 0 <= i < |a| && a[i].selective;
      var j := Counterpart(a, i, b);
      VisitsAgree(sc, a[i], b[j], true);
      OneOwnDigest(sc, a, i);
      StillAtMostOne(a, b);
      OneOwnDigest(sc, b, j);
    } else {
      NoOwnDigests(sc, a);
      forall j | 0 <= j < |b|
        ensures !b[j].selective
      {
        var i := Counterpart(b, j, a);
      }
      NoOwnDigests(sc, b);
    }
  }

  lemma StillAtMostOne(a: seq<Visit>, b: seq<Visit>)
    requires Reordered(a, b) && AtMostOneSelective(a)
    ensures AtMostOneSelective(b)
  {
    forall i, j | 0 <= i < j < |b|
      ensures !(b[i].selective && b[j].selective)
    {
      if b[i].selective && b[j].selective {
        var i' := Counterpart(b, i, a);
        var j' := Counterpart(b, j, a);
        assert i' == j';
        NamesDiffer(b, i, j);
      }
    }
  }

  lemma {:induction false} OpenMembersAgree(sc: Scheme, a: seq<Visit>, b: seq<Visit>)
    requires Reordered(a, b) && Rigid(a, true)
    ensures OpenMembers(sc, a) == OpenMembers(sc, b)
    decreases a, 0
  {
    var x, y := OpenMembers(sc, a), OpenMembers(sc, b);
    forall k
      ensures k in x <==> k in y
      ensures k in x ==> x[k] == y[k]
    {
      if k in x {
        var i := OpenMemberFrom(sc, a, k);
        var j := Counterpart(a, i, b);
        VisitsAgree(sc, a[i], b[j], true);
        OpenMemberIn(sc, b, j);
      }
      if k in y {
        var j := OpenMemberFrom(sc, b, k);
        var i := Counterpart(b, j, a);
        OpenMemberIn(sc, a, i);
      }
    }
    assert x == y;
  }

  // ----- The visible payload -----

  /** Equal up to the order of the elements of `_sd` arrays. */
  ghost predicate Alike(x: Json, y: Json)
    decreases x
  {
    if x.Obj? && y.Obj? then
      && x.members.Keys == y.members.Keys
      && forall k | k in x.members && k in y.members ::
           if k == SD && x.members[k].Arr? && y.members[k].Arr?
           then multiset(x.members[k].items) == multiset(y.members[k].items)
           else Alike(x.members[k], y.members[k])
    else x == y
  }

  lemma {:induction false} AlikeItself(x: Json)
    ensures Alike(x, x)
  {
    if x.Obj? {
      forall k | k in x.members {
        AlikeItself(x.members[k]);
      }
    }
  }

  function DigestPart(sc: Scheme, v: Visit): Part {
    (v.name, if v.selective then multiset{sc.Digest(VisitDisclosure(sc, v))} else multiset{})
  }

  function DigestParts(sc: Scheme, run: seq<Visit>): seq<Part> {
    if run == [] then [] else DigestParts(sc, run[..|run| - 1]) + [DigestPart(sc, run[|run| - 1])]
  }

  lemma {:induction false} DigestPartsAt(sc: Scheme, run: seq<Visit>)
    ensures |DigestParts(sc, run)| == |run|
    ensures forall i | 0 <= i < |run| :: DigestParts(sc, run)[i] == DigestPart(sc, run[i])
  {
    if run != [] {
      DigestPartsAt(sc, run[..|run| - 1]);
    }
  }

  lemma {:induction false} DigestsAreParts(sc: Scheme, run: seq<Visit>)
    ensures multiset(OwnDigests(sc, run)) == Sum(DigestParts(sc, run))
  {
    if run != [] {
      DigestsAreParts(sc, run[..|run| - 1]);
      var parts := DigestParts(sc, run);
      assert parts[..|parts| - 1] == DigestParts(sc, run[..|run| - 1]);
    }
  }

  /** The member visited at `a[i]` contributes the same digest to `b`. */
  lemma DigestCounterpart(sc: Scheme, a: seq<Visit>, i: nat, b: seq<Visit>, hidden: bool) returns (j: nat)
    requires Reordered(a, b) && (Rigid(a, hidden) || Rigid(b, hidden)) && i < |a|
    ensures j < |b| && DigestPart(sc, b[j]) == DigestPart(sc, a[i])
  {
    j := Counterpart(a, i, b);
    if Rigid(a, hidden) {
      VisitsAgree(sc, a[i], b[j], hidden);
    } else {
      VisitsAgree(sc, b[j], a[i], hidden);
    }
  }

  lemma DigestsAgree(sc: Scheme, a: seq<Visit>, b: seq<Visit>, hidden: bool)
    requires Reordered(a, b) && Rigid(a, hidden)
    ensures multiset(OwnDigests(sc, a)) == multiset(OwnDigests(sc, b))
  {
    var p, q := DigestParts(sc, a), DigestParts(sc, b);
    DigestPartsAt(sc, a);
    DigestPartsAt(sc, b);
    DigestsAreParts(sc, a);
    DigestsAreParts(sc, b);
    PartsApart(a, p);
    PartsApart(b, q);
    forall i | 0 <= i < |a|
      ensures p[i] in q
    {
      var j := DigestCounterpart(sc, a, i, b, hidden);
      assert q[j] == p[i];
    }
    forall j | 0 <= j < |b|
      ensures q[j] in p
    {
      var i := DigestCounterpart(sc, b, j, a, hidden);
      assert p[i] == q[j];
    }
    SumOfSameParts(p, q);
  }

  lemma StringArraysAgree(a: seq<string>, b: seq<string>)
    requires multiset(a) == multiset(b)
    ensures multiset(StringArray(a).items) == multiset(StringArray(b).items)
  {
    Relabelled(a);
    Relabelled(b);
  }

  /** The payload of a rigid run does not depend on the order, except within `_sd` arrays. */
  lemma {:induction false} PayloadsAlike(sc: Scheme, a: seq<Visit>, b: seq<Visit>)
    requires Reordered(a, b) && Rigid(a, false)
    ensures Alike(Obj(BuiltObject(sc, a)), Obj(BuiltObject(sc, b)))
    decreases a
  {
    var x, y := BuiltObject(sc, a), BuiltObject(sc, b);
    BuiltSd(sc, a);
    BuiltSd(sc, b);
    DigestsAgree(sc, a, b, false);
    StringArraysAgree(OwnDigests(sc, a), OwnDigests(sc, b));
    assert OwnDigests(sc, a) == [] <==> OwnDigests(sc, b) == [] by {
      assert |multiset(OwnDigests(sc, a))| == |multiset(OwnDigests(sc, b))|;
    }
    forall k | k != SD
      ensures k in x <==> k in y
      ensures k in x ==> Alike(x[k], y[k])
    {
      if k in y {
        var j := OpenMemberFrom(sc, b, k);
        var i := Counterpart(b, j, a);
        OpenMemberIn(sc, a, i);
      }
      if k in x {
        var i := OpenMemberFrom(sc, a, k);
        var j := Counterpart(a, i, b);
        OpenMemberIn(sc, b, j);
        match a[i].body
        case Plain(v) => AlikeItself(v);
        case Group(visits) => PayloadsAlike(sc, visits, b[j].body.visits);
      }
    }
    NoSdAmongOpen(sc, a);
    NoSdAmongOpen(sc, b);
  }

  lemma NoSdAmongOpen(sc: Scheme, run: seq<Visit>)
    requires Tidy(run)
    ensures SD !in OpenMembers(sc, run)
  {
    if SD in OpenMembers(sc, run) {
      var i := OpenMemberFrom(sc, run, SD);
      TidyAt(run, i);
    }
  }

  // ----- Runs that are not rigid -----

  lemma {:induction false} TidyFrom(run: seq<Visit>)
    requires forall i | 0 <= i < |run| :: TidyVisit(run[i])
    requires forall i, j | 0 <= i < j < |run| :: run[i].name != run[j].name
    ensures Tidy(run)
  {
    if run != [] {
      TidyFrom(run[..|run| - 1]);
      if run[|run| - 1].name in Names(run[..|run| - 1]) {
        var i := NameFrom(run[..|run| - 1], run[|run| - 1].name);
      }
    }
  }

  lemma ReorderedFrom(a: seq<Visit>, b: seq<Visit>)
    requires Tidy(a) && Tidy(b) && Names(a) == Names(b)
    requires forall i, j | 0 <= i < |a| && 0 <= j < |b| && a[i].name == b[j].name ::
               UnorderedVisit(a[i]) == UnorderedVisit(b[j])
    ensures Reordered(a, b)
  {
    UnorderedNames(a);
    UnorderedNames(b);
    var x, y := Unordered(a), Unordered(b);
    forall k | k in x
      ensures k in y && x[k] == y[k]
    {
      var i := NameFrom(a, k);
      var j := NameFrom(b, k);
      UnorderedAt(a, i);
      UnorderedAt(b, j);
    }
    assert x.Keys == y.Keys;
    assert x == y;
  }
}
