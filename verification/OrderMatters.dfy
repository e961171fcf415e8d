/** Issuance is independent of map order exactly for rigid claims. */
module OrderMatters {
  import opened JsonModel
  import opened Platform
  import opened Disclosures
  import opened Claims
  import opened Accounting
  import opened IssueOrder
  import opened OrderIndependence

  lemma {:induction false} DigestOfFront(sc: Scheme, v: Visit, rest: seq<Visit>)
    requires v.selective
    ensures OwnDigests(sc, [v] + rest) == [sc.Digest(VisitDisclosure(sc, v))] + OwnDigests(sc, rest)
  {
    if rest == [] {
      assert [v] + rest == [v];
      assert [v][..0] == [];
    } else {
      var n := |rest| - 1;
      DigestOfFront(sc, v, rest[..n]);
      assert ([v] + rest)[..n + 1] == [v] + rest[..n];
    }
  }

  /** The first digest listed is that of the first selective member. */
  lemma {:induction false} FirstDigest(sc: Scheme, run: seq<Visit>, i: nat) returns (f: nat)
    requires i < |run| && run[i].selective
    ensures f <= i && run[f].selective
    ensures OwnDigests(sc, run) != [] && OwnDigests(sc, run)[0] == sc.Digest(VisitDisclosure(sc, run[f]))
  {
    var n := |run| - 1;
    if i < n {
      f := FirstDigest(sc, run[..n], i);
    } else if OwnDigests(sc, run[..n]) == [] {
      f := n;
    } else {
      var j := OwnDigestFrom(sc, run[..n], OwnDigests(sc, run[..n])[0]);
      f := FirstDigest(sc, run[..n], j);
    }
  }

  /** Among the entries of a run, equal digests mean equal disclosures. */
  ghost predicate DigestsTell(sc: Scheme, run: seq<Visit>, path: Path, base: Path) {
    forall d, e | d in Entries(sc, run, path, base) && e in Entries(sc, run, path, base) &&
                  sc.Digest(d.disclosure) == sc.Digest(e.disclosure) :: d.disclosure == e.disclosure
  }

  function InnerBase(v: Visit, path: Path, base: Path): Path {
    if v.selective then path + [v.name] else base
  }

  lemma DigestsTellBelow(sc: Scheme, run: seq<Visit>, path: Path, base: Path, i: nat)
    requires DigestsTell(sc, run, path, base) && i < |run| && run[i].body.Group?
    ensures DigestsTell(sc, run[i].body.visits, path + [run[i].name], InnerBase(run[i], path, base))
  {
    forall e | e in Entries(sc, run[i].body.visits, path + [run[i].name], InnerBase(run[i], path, base))
      ensures e in Entries(sc, run, path, base)
    {
      EntryIn(sc, run, i, path, base, e);
    }
  }

  /** Moves one visit to the front. */
  function ToFront(run: seq<Visit>, j: nat): seq<Visit>
    requires j < |run|
  {
    [run[j]] + (run[..j] + run[j + 1..])
  }

  /** Where the k-th visit stood before the j-th one was moved to the front. */
  function Origin(j: nat, k: nat): nat {
    if k == 0 then j else if k <= j then k - 1 else k
  }

  lemma ToFrontAt(run: seq<Visit>, j: nat, k: nat)
    requires j < |run| && k < |run|
    ensures |ToFront(run, j)| == |run| && Origin(j, k) < |run| && ToFront(run, j)[k] == run[Origin(j, k)]
  {
  }

  lemma ToFrontTidy(run: seq<Visit>, j: nat)
    requires Tidy(run) && j < |run|
    ensures Tidy(ToFront(run, j))
  {
    var b := ToFront(run, j);
    forall k | 0 <= k < |b|
      ensures TidyVisit(b[k])
    {
      ToFrontAt(run, j, k);
      TidyAt(run, Origin(j, k));
    }
    forall i, k | 0 <= i < k < |b|
      ensures b[i].name != b[k].name
    {
      ToFrontAt(run, j, i);
      ToFrontAt(run, j, k);
      if b[i].name == b[k].name {
        NamesDiffer(run, Origin(j, i), Origin(j, k));
      }
    }
    TidyFrom(b);
  }

  lemma ToFrontHas(run: seq<Visit>, j: nat, b: seq<Visit>, i: nat)
    requires j < |run| && i < |run| && b == ToFront(run, j)
    ensures run[i].name in Names(b)
  {
    var k := if i == j then 0 else if i < j then i + 1 else i;
    ToFrontAt(run, j, k);
    NameIn(b, k);
  }

  lemma ToFrontHasNoMore(run: seq<Visit>, j: nat, b: seq<Visit>, k: nat)
    requires j < |run| && k < |run| && b == ToFront(run, j)
    ensures |b| == |run| && b[k].name in Names(run)
  {
    ToFrontAt(run, j, k);
    NameIn(run, Origin(j, k));
  }

  lemma ToFrontNames(run: seq<Visit>, j: nat, b: seq<Visit>)
    requires j < |run| && b == ToFront(run, j)
    ensures Names(b) == Names(run)
  {
    forall n | n in Names(run)
      ensures n in Names(b)
    {
      var i := NameFrom(run, n);
      ToFrontHas(run, j, b, i);
    }
    forall n | n in Names(b)
      ensures n in Names(run)
    {
      var k := NameFrom(b, n);
      ToFrontHasNoMore(run, j, b, k);
    }
  }

  lemma ToFrontReorders(run: seq<Visit>, j: nat)
    requires Tidy(run) && j < |run|
    ensures Reordered(run, ToFront(run, j))
  {
    var b := ToFront(run, j);
    ToFrontTidy(run, j);
    ToFrontNames(run, j, b);
    forall i, k | 0 <= i < |run| && 0 <= k < |b| && run[i].name == b[k].name
      ensures UnorderedVisit(run[i]) == UnorderedVisit(b[k])
    {
      ToFrontAt(run, j, k);
      NamesDiffer(run, i, Origin(j, k));
    }
    ReorderedFrom(run, b);
  }

  /** Replaces what one visit found inside a structured claim by a reordering of it. */
  function Inside(run: seq<Visit>, i: nat, visits: seq<Visit>): seq<Visit>
    requires i < |run|
  {
    run[i := run[i].(body := Group(visits))]
  }

  lemma InsideReorders(run: seq<Visit>, i: nat, visits: seq<Visit>)
    requires Tidy(run) && i < |run| && run[i].body.Group? && Reordered(run[i].body.visits, visits)
    ensures Reordered(run, Inside(run, i, visits))
  {
    var b := Inside(run, i, visits);
    forall k | 0 <= k < |b|
      ensures TidyVisit(b[k]) && b[k].name == run[k].name && UnorderedVisit(b[k]) == UnorderedVisit(run[k])
    {
      TidyAt(run, k);
    }
    forall j, k | 0 <= j < k < |b|
      ensures b[j].name != b[k].name
    {
      if b[j].name == b[k].name {
        NamesDiffer(run, j, k);
      }
    }
    TidyFrom(b);
    forall n
      ensures n in Names(run) <==> n in Names(b)
    {
      if n in Names(run) {
        var k := NameFrom(run, n);
        NameIn(b, k);
      }
      if n in Names(b) {
        var k := NameFrom(b, n);
        NameIn(run, k);
      }
    }
    forall j, k | 0 <= j < |run| && 0 <= k < |b| && run[j].name == b[k].name
      ensures UnorderedVisit(run[j]) == UnorderedVisit(b[k])
    {
      NamesDiffer(run, j, k);
    }
    ReorderedFrom(run, b);
  }

  /** Two entries, of one run and another, that hide different things under the same salt. */
  ghost predicate Clash(sc: Scheme, a: seq<Visit>, b: seq<Visit>, path: Path, base: Path, d: Entry, e: Entry) {
    && d in Entries(sc, a, path, base) && e in Entries(sc, b, path, base)
    && d.disclosure.salt == e.disclosure.salt && d.disclosure != e.disclosure
  }

  /** Two hidden members in one object: putting the later one first changes its `_sd`. */
  lemma TwoHiddenMembers(sc: Scheme, run: seq<Visit>, path: Path, base: Path, i: nat, j: nat)
    requires Tidy(run) && DigestsTell(sc, run, path, base)
    requires i < j < |run| && run[i].selective && run[j].selective
    ensures Obj(BuiltObject(sc, run)) != Obj(BuiltObject(sc, ToFront(run, j)))
  {
    var b := ToFront(run, j);
    var f := FirstDigest(sc, run, i);
    DigestOfFront(sc, run[j], run[..j] + run[j + 1..]);
    var u, v := Entry(path, base, VisitDisclosure(sc, run[f])), Entry(path, base, VisitDisclosure(sc, run[j]));
    EntryIn(sc, run, f, path, base, u);
    EntryIn(sc, run, j, path, base, v);
    if run[f].name == run[j].name {
      NamesDiffer(run, f, j);
    }
    assert sc.Digest(u.disclosure) != sc.Digest(v.disclosure);
    assert BuiltObject(sc, run)[SD].items[0] == Str(sc.Digest(u.disclosure));
    assert BuiltObject(sc, b)[SD].items[0] == Str(sc.Digest(v.disclosure));
  }

  /** A different object inside a member left in the clear makes a different object. */
  lemma DifferentInside(sc: Scheme, run: seq<Visit>, i: nat, visits: seq<Visit>)
    requires Tidy(run) && i < |run| && run[i].body.Group? && !run[i].selective
    requires Reordered(run, Inside(run, i, visits))
    requires Obj(BuiltObject(sc, run[i].body.visits)) != Obj(BuiltObject(sc, visits))
    ensures Obj(BuiltObject(sc, run)) != Obj(BuiltObject(sc, Inside(run, i, visits)))
  {
    var b := Inside(run, i, visits);
    OpenMemberIn(sc, run, i);
    OpenMemberIn(sc, b, i);
    TidyAt(run, i);
    var k := run[i].name;
    assert BuiltObject(sc, run)[k] == Obj(BuiltObject(sc, run[i].body.visits));
    assert BuiltObject(sc, b)[k] == Obj(BuiltObject(sc, visits));
  }

  lemma GroupDisclosure(sc: Scheme, v: Visit)
    requires v.body.Group?
    ensures VisitDisclosure(sc, v) == Disclosure(v.salt, v.name, Obj(BuiltObject(sc, v.body.visits)))
  {
    assert BodyJson(sc, v.body) == Obj(BuiltObject(sc, v.body.visits));
  }

  /** A run that is not rigid has a reordering that shows: in the object itself, if that is going
      to be hidden, or in what some entry hides. */
  lemma {:induction false} Twist(sc: Scheme, run: seq<Visit>, hidden: bool, path: Path, base: Path)
    returns (b: seq<Visit>, shows: bool, d: Entry, e: Entry)
    requires Tidy(run) && DigestsTell(sc, run, path, base) && !Rigid(run, hidden)
    ensures Reordered(run, b)
    ensures if shows then hidden && Obj(BuiltObject(sc, run)) != Obj(BuiltObject(sc, b))
            else Clash(sc, run, b, path, base, d, e)
    decreases run
  {
    d := Entry([], [], Disclosure("", "", Null));
    e := d;
    if hidden && !AtMostOneSelective(run) {
      var i, j :| 0 <= i < j < |run| && run[i].selective && run[j].selective;
      b, shows := ToFront(run, j), true;
      ToFrontReorders(run, j);
      TwoHiddenMembers(sc, run, path, base, i, j);
    } else {
      var i :| 0 <= i < |run| && run[i].body.Group? && !Rigid(run[i].body.visits, hidden || run[i].selective);
      TidyAt(run, i);
      DigestsTellBelow(sc, run, path, base, i);
      var v := run[i];
      var visits, deeper;
      visits, deeper, d, e :=
        Twist(sc, v.body.visits, hidden || v.selective, path + [v.name], InnerBase(v, path, base));
      b := Inside(run, i, visits);
      InsideReorders(run, i, visits);
      if deeper && v.selective {
        d, e := Entry(path, base, VisitDisclosure(sc, v)), Entry(path, base, VisitDisclosure(sc, b[i]));
        shows := false;
        GroupDisclosure(sc, v);
        GroupDisclosure(sc, b[i]);
      } else {
        shows := deeper;
      }
      if shows {
        DifferentInside(sc, run, i, visits);
      } else {
        EntryIn(sc, run, i, path, base, d);
        EntryIn(sc, b, i, path, base, e);
      }
    }
  }

  /** Every reordering of `a` yields the same disclosures, as a bag. */
  ghost predicate OrderInvisible(sc: Scheme, a: seq<Visit>) {
    forall b | Reordered(a, b) ::
      multiset(Texts(sc, AllEntries(sc, a))) == multiset(Texts(sc, AllEntries(sc, b)))
  }

  lemma ClashIsVisible(sc: Scheme, a: seq<Visit>, b: seq<Visit>, d: Entry, e: Entry)
    requires Lawful(sc.pf) && FreshSalts(AllEntries(sc, a)) && Clash(sc, a, b, [], [], d, e)
    ensures multiset(Texts(sc, AllEntries(sc, a))) != multiset(Texts(sc, AllEntries(sc, b)))
  {
    var x, y := AllEntries(sc, a), AllEntries(sc, b);
    var j :| 0 <= j < |y| && y[j] == e;
    var k :| 0 <= k < |x| && x[k] == d;
    assert Texts(sc, y)[j] == sc.Text(e.disclosure);
    forall i | 0 <= i < |x|
      ensures Texts(sc, x)[i] != sc.Text(e.disclosure)
    {
      EncodeIsInjective(sc.pf, x[i].disclosure, e.disclosure);
    }
    assert sc.Text(e.disclosure) in multiset(Texts(sc, y));
    assert sc.Text(e.disclosure) !in Texts(sc, x);
  }

  /**
   * Whatever claims are issued, with fresh salts and no digest collisions: the disclosures do
   * not depend on the order in which the maps are walked if and only if no object inside a
   * hidden claim has two selective members.
   */
  lemma OrderInvisibleIffRigid(sc: Scheme, a: seq<Visit>, fields: Fields, selective: seq<string>)
    requires Lawful(sc.pf) && IsRun(a, fields, AsSet(selective)) && Tidy(a)
    requires FreshSalts(AllEntries(sc, a)) && DigestsDistinct(sc, AllEntries(sc, a))
    ensures OrderInvisible(sc, a) <==> RigidClaim(Structured(fields, selective), false)
  {
    RigidRun(a, fields, selective, false);
    if Rigid(a, false) {
      forall b | Reordered(a, b)
        ensures multiset(Texts(sc, AllEntries(sc, a))) == multiset(Texts(sc, AllEntries(sc, b)))
      {
        BagsAgree(sc, a, b, false);
        TextsAreBag(sc, a, [], []);
        TextsAreBag(sc, b, [], []);
      }
    } else {
      forall d, e | d in AllEntries(sc, a) && e in AllEntries(sc, a) &&
                    sc.Digest(d.disclosure) == sc.Digest(e.disclosure)
        ensures d.disclosure == e.disclosure
      {
        SameDigestSameEntry(sc, AllEntries(sc, a), d, e);
      }
      var b, shows, d, e := Twist(sc, a, false, [], []);
      ClashIsVisible(sc, a, b, d, e);
    }
  }

  // ----- An example -----

  /** A hidden claim with two selective members of its own. */
  function ExampleClaims(): Fields {
    map["a" := Structured(map["x" := Leaf(Null), "y" := Leaf(Null)], ["x", "y"])]
  }

  function ExampleInner(): Fields {
    map["x" := Leaf(Null), "y" := Leaf(Null)]
  }

  const VISIT_X := Visit("x", true, "1", Plain(Null))
  const VISIT_Y := Visit("y", true, "2", Plain(Null))

  function ExampleRun(inner: seq<Visit>): seq<Visit> {
    [Visit("a", true, "3", Group(inner))]
  }

  lemma PairIsRun(u: Visit, v: Visit, fields: Fields, selective: set<string>)
    requires u.name != v.name && fields.Keys == {u.name, v.name}
    requires u.selective == (u.name in selective) && v.selective == (v.name in selective)
    requires Matches(u.body, fields[u.name]) && Matches(v.body, fields[v.name])
    ensures IsRun([u, v], fields, selective)
  {
    assert [u, v][..1] == [u] && [u][..0] == [];
    assert Names([]) == {} && Names([u]) == {u.name} && Names([u, v]) == {u.name, v.name};
    assert DistinctNames([u]) && Follows([u], fields, selective);
  }

  lemma SingleIsRun(u: Visit, fields: Fields, selective: set<string>)
    requires fields.Keys == {u.name} && u.selective == (u.name in selective)
    requires Matches(u.body, fields[u.name])
    ensures IsRun([u], fields, selective)
  {
    assert [u][..0] == [];
    assert Names([]) == {} && Names([u]) == {u.name};
  }

  lemma ExampleIsRun(inner: seq<Visit>)
    requires inner == [VISIT_X, VISIT_Y] || inner == [VISIT_Y, VISIT_X]
    ensures IsRun(ExampleRun(inner), ExampleClaims(), {"a"})
  {
    var f := ExampleInner();
    assert "x"[0] != "y"[0];
    assert AsSet(["x", "y"]) == {"x", "y"};
    if inner == [VISIT_X, VISIT_Y] {
      PairIsRun(VISIT_X, VISIT_Y, f, {"x", "y"});
    } else {
      PairIsRun(VISIT_Y, VISIT_X, f, {"x", "y"});
    }
    SingleIsRun(ExampleRun(inner)[0], ExampleClaims(), {"a"});
  }

  lemma PairEntries(sc: Scheme, u: Visit, v: Visit, path: Path, base: Path)
    requires u.body.Plain? && v.body.Plain? && u.selective && v.selective
    ensures Entries(sc, [u, v], path, base) ==
            [Entry(path, base, VisitDisclosure(sc, u)), Entry(path, base, VisitDisclosure(sc, v))]
    ensures OwnDigests(sc, [u, v]) == [sc.Digest(VisitDisclosure(sc, u)), sc.Digest(VisitDisclosure(sc, v))]
  {
    assert [u, v][..1] == [u] && [u][..0] == [];
    assert Entries(sc, [], path, base) == [];
    assert EntriesOf(sc, u, path, base) == [Entry(path, base, VisitDisclosure(sc, u))];
    assert Entries(sc, [u], path, base) == [Entry(path, base, VisitDisclosure(sc, u))];
    assert EntriesOf(sc, v, path, base) == [Entry(path, base, VisitDisclosure(sc, v))];
    assert OwnDigests(sc, []) == [] && OwnDigests(sc, [u]) == [sc.Digest(VisitDisclosure(sc, u))];
  }

  lemma ExampleEntries(sc: Scheme, u: Visit, v: Visit)
    requires u.body.Plain? && v.body.Plain? && u.selective && v.selective
    ensures var run := ExampleRun([u, v]);
            AllEntries(sc, run) ==
            [Entry(["a"], ["a"], VisitDisclosure(sc, u)), Entry(["a"], ["a"], VisitDisclosure(sc, v)),
             Entry([], [], VisitDisclosure(sc, run[0]))]
  {
    var run := ExampleRun([u, v]);
    PairEntries(sc, u, v, ["a"], ["a"]);
    assert run[..0] == [];
    assert Entries(sc, [], [], []) == [];
    assert [] + ["a"] == ["a"];
    assert Entries(sc, run, [], []) == EntriesOf(sc, run[0], [], []);
  }

  /** The two example runs differ only in the order in which the members are met. */
  lemma SameUnordered()
    ensures Unordered(ExampleRun([VISIT_X, VISIT_Y])) == Unordered(ExampleRun([VISIT_Y, VISIT_X]))
  {
    var a, b := ExampleRun([VISIT_X, VISIT_Y]), ExampleRun([VISIT_Y, VISIT_X]);
    var xy, yx := [VISIT_X, VISIT_Y], [VISIT_Y, VISIT_X];
    assert "x"[0] != "y"[0];
    assert xy[..1] == [VISIT_X] && yx[..1] == [VISIT_Y] && [VISIT_X][..0] == [] && [VISIT_Y][..0] == [];
    assert Unordered([]) == map[];
    assert Unordered([VISIT_X]) == map["x" := UnorderedVisit(VISIT_X)];
    assert Unordered([VISIT_Y]) == map["y" := UnorderedVisit(VISIT_Y)];
    assert Unordered(xy) == Unordered(yx);
    assert a[..0] == [] && b[..0] == [];
    assert UnorderedVisit(a[0]) == UnorderedVisit(b[0]);
  }

  /**
   * The order of issuance can show. Hiding `a`, whose members `x` and `y` are selective, gives
   * different disclosures when `y` is met before `x`, although all salts are the same: the
   * `_sd` array inside the hidden value comes out in a different order.
   */
  lemma OrderCanShow(sc: Scheme)
    requires Lawful(sc.pf)
    requires sc.Digest(Disclosure("1", "x", Null)) != sc.Digest(Disclosure("2", "y", Null))
    ensures var a, b := ExampleRun([VISIT_X, VISIT_Y]), ExampleRun([VISIT_Y, VISIT_X]);
            && IsRun(a, ExampleClaims(), {"a"}) && IsRun(b, ExampleClaims(), {"a"})
            && Unordered(a) == Unordered(b)
            && multiset(Texts(sc, AllEntries(sc, a))) != multiset(Texts(sc, AllEntries(sc, b)))
  {
    var a, b := ExampleRun([VISIT_X, VISIT_Y]), ExampleRun([VISIT_Y, VISIT_X]);
    ExampleIsRun([VISIT_X, VISIT_Y]);
    ExampleIsRun([VISIT_Y, VISIT_X]);
    var xy, yx := [VISIT_X, VISIT_Y], [VISIT_Y, VISIT_X];
    SameUnordered();
    assert "x"[0] != "y"[0] && "1"[0] != "2"[0] && "2"[0] != "3"[0] && "1"[0] != "3"[0];
    ExampleEntries(sc, VISIT_X, VISIT_Y);
    ExampleEntries(sc, VISIT_Y, VISIT_X);
    PairEntries(sc, VISIT_X, VISIT_Y, [], []);
    PairEntries(sc, VISIT_Y, VISIT_X, [], []);
    GroupDisclosure(sc, a[0]);
    GroupDisclosure(sc, b[0]);
    var d, e := Entry([], [], VisitDisclosure(sc, a[0])), Entry([], [], VisitDisclosure(sc, b[0]));
    assert BuiltObject(sc, xy)[SD].items[0] == Str(sc.Digest(VisitDisclosure(sc, VISIT_X)));
    assert BuiltObject(sc, yx)[SD].items[0] == Str(sc.Digest(VisitDisclosure(sc, VISIT_Y)));
    assert AllEntries(sc, a)[2] == d && AllEntries(sc, b)[2] == e;
    ClashIsVisible(sc, a, b, d, e);
  }
}
