/** Where the issuer's disclosures and digests end up. */
module Accounting {
  import opened JsonModel
  import opened Platform
  import opened Disclosures
  import opened Claims

  /** Claims the library can round-trip: no member is called `_sd` or has an empty name, and no
      plain value contains an `_sd` member of its own. */
  ghost predicate TidyClaim(c: Claim) {
    match c
    case Leaf(j) => NoSd(j)
    case Structured(fields, _) => forall k | k in fields :: k != SD && k != "" && TidyClaim(fields[k])
  }

  /** The same, said of a run. */
  ghost predicate Tidy(run: seq<Visit>)
    decreases run, 1
  {
    DistinctNames(run) && TidyVisits(run)
  }

  ghost predicate TidyVisits(run: seq<Visit>)
    decreases run, 0
  {
    run == [] || (TidyVisits(run[..|run| - 1]) && TidyVisit(run[|run| - 1]))
  }

  ghost predicate TidyVisit(v: Visit)
    decreases v, 0
  {
    && v.name != SD && v.name != ""
    && match v.body
       case Plain(j) => NoSd(j)
       case Group(visits) => Tidy(visits)
  }

  lemma {:induction false} TidyAt(run: seq<Visit>, i: nat)
    requires TidyVisits(run) && i < |run|
    ensures TidyVisit(run[i])
  {
    if i < |run| - 1 {
      TidyAt(run[..|run| - 1], i);
    }
  }

  lemma {:induction false} TidyRun(run: seq<Visit>, fields: Fields, selective: set<string>)
    requires IsRun(run, fields, selective)
    requires forall k | k in fields :: k != SD && k != "" && TidyClaim(fields[k])
    ensures Tidy(run)
    decreases run, 1
  {
    TidyFollows(run, fields, selective);
  }

  lemma {:induction false} TidyFollows(run: seq<Visit>, fields: Fields, selective: set<string>)
    requires Follows(run, fields, selective)
    requires forall k | k in fields :: k != SD && k != "" && TidyClaim(fields[k])
    ensures TidyVisits(run)
    decreases run, 0
  {
    if run != [] {
      TidyFollows(run[..|run| - 1], fields, selective);
      var v := run[|run| - 1];
      match fields[v.name]
      case Leaf(j) =>
      case Structured(below, nested) => TidyRun(v.body.visits, below, AsSet(nested));
    }
  }

  /** Each string occurs in the JSON array as often as in the list. */
  lemma {:induction false} Relabelled(a: seq<string>)
    ensures forall j: Json :: multiset(StringArray(a).items)[j] == if j.Str? then multiset(a)[j.s] else 0
  {
    var items := StringArray(a).items;
    if a != [] {
      var n := |a| - 1;
      Relabelled(a[..n]);
      assert a == a[..n] + [a[n]];
      assert items == StringArray(a[..n]).items + [Str(a[n])];
    }
  }

  /** The `_sd` of a built object lists exactly its own digests, each as often as it has members
      with that digest. */
  lemma BuiltSd(sc: Scheme, run: seq<Visit>)
    requires Tidy(run)
    ensures forall d :: Listings(BuiltObject(sc, run), d) == multiset(OwnDigests(sc, run))[d]
    ensures SdStrings(BuiltObject(sc, run)) == set d | d in OwnDigests(sc, run)
    ensures SD in BuiltObject(sc, run) ==> !BuiltObject(sc, run)[SD].Obj?
  {
    var digests := OwnDigests(sc, run);
    if SD in OpenMembers(sc, run) {
      var i := OpenMemberFrom(sc, run, SD);
      TidyAt(run, i);
    }
    Relabelled(digests);
    if digests != [] {
      var items := StringArray(digests).items;
      forall d | d in digests
        ensures d in SdStrings(BuiltObject(sc, run))
      {
        var i :| 0 <= i < |digests| && digests[i] == d;
        assert items[i] == Str(d);
      }
    }
  }

  /** A digest held somewhere inside a built object, other than in a hidden value, is that of an
      entry which belongs to the object holding it. */
  lemma {:induction false} HeldIsEntry(sc: Scheme, run: seq<Visit>, path: Path, base: Path, q: Path, d: string)
    returns (e: Entry)
    requires Tidy(run) && base <= path
    requires Holds(BuiltObject(sc, run), q, d)
    ensures e in Entries(sc, run, path, base)
    ensures e.base == base && e.path == path + q && sc.Digest(e.disclosure) == d
    decreases |q|
  {
    BuiltSd(sc, run);
    if q == [] {
      var i := OwnDigestFrom(sc, run, d);
      e := Entry(path, base, VisitDisclosure(sc, run[i]));
      EntryIn(sc, run, i, path, base, e);
      assert path + q == path;
    } else {
      var k := q[0];
      var i := OpenMemberFrom(sc, run, k);
      TidyAt(run, i);
      match run[i].body
      case Plain(j) => NoSdHoldsNothing(j, q[1..], d);
      case Group(visits) =>
        e := HeldIsEntry(sc, visits, path + [k], base, q[1..], d);
        EntryIn(sc, run, i, path, base, e);
        assert path + [k] + q[1..] == path + q;
    }
  }

  /** An entry's digest is held by the object it belongs to, and its key is not a member there. */
  lemma {:induction false} EntryIsHeld(sc: Scheme, run: seq<Visit>, path: Path, base: Path, e: Entry)
    requires Tidy(run) && base <= path
    requires e in Entries(sc, run, path, base) && e.base == base
    ensures path <= e.path
    ensures Holds(BuiltObject(sc, run), e.path[|path|..], sc.Digest(e.disclosure))
    ensures e.disclosure.key !in ObjectAt(BuiltObject(sc, run), e.path[|path|..]).value
    decreases run
  {
    var i := EntryFrom(sc, run, path, base, e);
    var v := run[i];
    EntryOfBelow(sc, v, path, base, e);
    BuiltSd(sc, run);
    TidyAt(run, i);
    if e.path == path {
      OwnDigestIn(sc, run, i);
      if v.name in OpenMembers(sc, run) {
        var j := OpenMemberFrom(sc, run, v.name);
        NamesDiffer(run, i, j);
      }
    } else {
      var below := path + [v.name];
      if v.selective {
        EntryBelow(sc, v.body.visits, below, below, e);
      }
      EntryIsHeld(sc, v.body.visits, below, base, e);
      OpenMemberIn(sc, run, i);
      var q := e.path[|path|..];
      assert q[0] == v.name && q[1..] == e.path[|below|..];
    }
  }

  /** The member a position starts with, seen from `path`. */
  function FirstName(path: Path, e: Entry): string
    requires path <= e.path
  {
    if e.path == path then e.disclosure.key else e.path[|path|]
  }

  lemma EntryOfName(sc: Scheme, v: Visit, path: Path, base: Path, e: Entry)
    requires base <= path && e in EntriesOf(sc, v, path, base)
    ensures path <= e.path && FirstName(path, e) == v.name
  {
    EntryOfBelow(sc, v, path, base, e);
    if e.path != path {
      assert e.path[..|path| + 1] == path + [v.name];
    }
  }

  /** No two disclosures stand for the same member. */
  lemma {:induction false} PositionsDiffer(sc: Scheme, run: seq<Visit>, path: Path, base: Path, i: nat, j: nat)
    requires Tidy(run) && base <= path
    requires var es := Entries(sc, run, path, base);
             && i < j < |es| && es[i].path == es[j].path
             && es[i].disclosure.key == es[j].disclosure.key
    ensures false
    decreases run, 1
  {
    var init, v := run[..|run| - 1], run[|run| - 1];
    var before := Entries(sc, init, path, base);
    var last := EntriesOf(sc, v, path, base);
    if j < |before| {
      PositionsDiffer(sc, init, path, base, i, j);
    } else {
      var a, b := Entries(sc, run, path, base)[i], Entries(sc, run, path, base)[j];
      assert b == last[j - |before|];
      EntryOfName(sc, v, path, base, b);
      if i < |before| {
        assert a == before[i];
        var n := EntryFrom(sc, init, path, base, a);
        EntryOfName(sc, init[n], path, base, a);
        NameIn(init, n);
      } else {
        assert a == last[i - |before|];
        PositionsDifferAt(sc, v, path, base, i - |before|, j - |before|);
      }
    }
  }

  lemma {:induction false} PositionsDifferAt(sc: Scheme, v: Visit, path: Path, base: Path, i: nat, j: nat)
    requires TidyVisit(v) && base <= path
    requires var es := EntriesOf(sc, v, path, base);
             && i < j < |es| && es[i].path == es[j].path
             && es[i].disclosure.key == es[j].disclosure.key
    ensures false
    decreases v, 0
  {
    var es := EntriesOf(sc, v, path, base);
    assert v.body.Group?;
    var below := if v.selective then path + [v.name] else base;
    var inner := Entries(sc, v.body.visits, path + [v.name], below);
    assert es[i] == inner[i];
    EntryBelow(sc, v.body.visits, path + [v.name], below, inner[i]);
    assert j < |inner| && es[j] == inner[j];
    PositionsDiffer(sc, v.body.visits, path + [v.name], below, i, j);
  }

  /** Member `k` of the object at `p` of the claim tree is marked selective, and exists. */
  ghost predicate SelectiveAt(fields: Fields, selective: set<string>, p: Path, k: string)
    decreases |p|
  {
    if p == [] then k in fields && k in selective
    else
      && p[0] in fields && fields[p[0]].Structured?
      && SelectiveAt(fields[p[0]].fields, AsSet(fields[p[0]].selectiveFields), p[1..], k)
  }

  /** Every selective member that exists got a disclosure, ... */
  lemma {:induction false} SelectiveHasEntry(sc: Scheme, run: seq<Visit>, fields: Fields, selective: set<string>,
                                             path: Path, base: Path, q: Path, k: string)
    returns (e: Entry)
    requires IsRun(run, fields, selective) && SelectiveAt(fields, selective, q, k)
    ensures e in Entries(sc, run, path, base) && e.path == path + q && e.disclosure.key == k
    decreases |q|
  {
    var i := NameFrom(run, if q == [] then k else q[0]);
    FollowsAt(run, fields, selective, i);
    if q == [] {
      e := Entry(path, base, VisitDisclosure(sc, run[i]));
      assert path + q == path;
    } else {
      var c, below := fields[q[0]], path + [q[0]];
      e := SelectiveHasEntry(sc, run[i].body.visits, c.fields, AsSet(c.selectiveFields), below,
                             if run[i].selective then below else base, q[1..], k);
      assert below + q[1..] == path + q;
    }
    EntryIn(sc, run, i, path, base, e);
  }

  /** ... and nothing else did. */
  lemma {:induction false} EntryIsSelective(sc: Scheme, run: seq<Visit>, fields: Fields, selective: set<string>,
                                            path: Path, base: Path, e: Entry)
    requires IsRun(run, fields, selective) && base <= path && e in Entries(sc, run, path, base)
    ensures path <= e.path && SelectiveAt(fields, selective, e.path[|path|..], e.disclosure.key)
    decreases run
  {
    var i := EntryFrom(sc, run, path, base, e);
    var v := run[i];
    EntryOfBelow(sc, v, path, base, e);
    FollowsAt(run, fields, selective, i);
    if e.path != path {
      var c, below := fields[v.name], path + [v.name];
      EntryIsSelective(sc, v.body.visits, c.fields, AsSet(c.selectiveFields), below,
                       if v.selective then below else base, e);
      var q := e.path[|path|..];
      assert q[0] == v.name && q[1..] == e.path[|below|..];
    }
  }

  /** Finds the visit behind an entry. The entries that belong to its value are the entries
      collected below it. */
  lemma {:induction false} VisitOf(sc: Scheme, run: seq<Visit>, path: Path, base: Path, a: Entry) returns (v: Visit)
    requires Tidy(run) && base <= path && a in Entries(sc, run, path, base)
    ensures TidyVisit(v) && v.selective && a.disclosure == VisitDisclosure(sc, v)
    ensures v.body.Plain? ==>
              forall e | e in Entries(sc, run, path, base) :: e.base != a.path + [a.disclosure.key]
    ensures v.body.Group? ==>
              var at := a.path + [a.disclosure.key];
              && (forall e: Entry | e.base == at ::
                    e in Entries(sc, run, path, base) <==> e in Entries(sc, v.body.visits, at, at))
              && (DigestsDistinct(sc, Entries(sc, run, path, base)) ==>
                    DigestsDistinct(sc, Entries(sc, v.body.visits, at, at)))
    decreases run
  {
    var i := EntryFrom(sc, run, path, base, a);
    EntryOfBelow(sc, run[i], path, base, a);
    EntryOfName(sc, run[i], path, base, a);
    TidyAt(run, i);
    var at := a.path + [a.disclosure.key];
    var name := run[i].name;
    var below, inner := path + [name], if run[i].selective then path + [name] else base;
    if DigestsDistinct(sc, Entries(sc, run, path, base)) {
      DistinctInside(sc, run, i, path, base);
    }
    if a.path == path {
      v := run[i];
    } else {
      v := VisitOf(sc, run[i].body.visits, below, inner, a);
    }
    forall e: Entry | e.base == at && e in Entries(sc, run, path, base)
      ensures run[i].body.Group? && e in Entries(sc, run[i].body.visits, below, inner)
    {
      var j := EntryFrom(sc, run, path, base, e);
      EntryOfBelow(sc, run[j], path, base, e);
      EntryOfName(sc, run[j], path, base, e);
      assert e.path[|path|] == name;
      NamesDiffer(run, i, j);
    }
    if run[i].body.Group? {
      forall e | e in Entries(sc, run[i].body.visits, below, inner)
        ensures e in Entries(sc, run, path, base)
      {
        EntryIn(sc, run, i, path, base, e);
      }
    }
  }

  /** No two disclosures of a list have the same digest. */
  ghost predicate DigestsDistinct(sc: Scheme, es: seq<Entry>) {
    forall i, j | 0 <= i < j < |es| :: sc.Digest(es[i].disclosure) != sc.Digest(es[j].disclosure)
  }

  lemma SameDigestSameEntry(sc: Scheme, es: seq<Entry>, a: Entry, b: Entry)
    requires DigestsDistinct(sc, es) && a in es && b in es
    requires sc.Digest(a.disclosure) == sc.Digest(b.disclosure)
    ensures a == b
  {
  }

  /** The digest function does not collide on the texts of `es`. */
  ghost predicate CollisionFree(sc: Scheme, es: seq<Entry>) {
    forall i, j | 0 <= i < |es| && 0 <= j < |es| ::
      sc.Digest(es[i].disclosure) == sc.Digest(es[j].disclosure) ==>
      sc.Text(es[i].disclosure) == sc.Text(es[j].disclosure)
  }

  ghost predicate FreshSalts(es: seq<Entry>) {
    forall i, j | 0 <= i < j < |es| :: es[i].disclosure.salt != es[j].disclosure.salt
  }

  /** Fresh salts and a collision-free hash make digests as distinct as disclosures. */
  lemma FreshSaltsGiveDistinctDigests(sc: Scheme, es: seq<Entry>)
    requires Lawful(sc.pf) && FreshSalts(es) && CollisionFree(sc, es)
    ensures DigestsDistinct(sc, es)
  {
    forall i, j | 0 <= i < j < |es|
      ensures sc.Digest(es[i].disclosure) != sc.Digest(es[j].disclosure)
    {
      EncodeIsInjective(sc.pf, es[i].disclosure, es[j].disclosure);
    }
  }

  /** An entry with something hidden around it belongs to an object that an entry hides. */
  lemma {:induction false} EnclosingEntry(sc: Scheme, run: seq<Visit>, path: Path, base: Path, e: Entry)
    returns (a: Entry)
    requires base <= path && e in Entries(sc, run, path, base) && e.base != base
    ensures a in Entries(sc, run, path, base)
    ensures a.path + [a.disclosure.key] == e.base && a.disclosure.value.Obj?
    decreases run
  {
    var i := EntryFrom(sc, run, path, base, e);
    var v := run[i];
    EntryOfBelow(sc, v, path, base, e);
    var below := path + [v.name];
    if v.selective && e.base == below {
      a := Entry(path, base, VisitDisclosure(sc, v));
      assert BodyJson(sc, v.body) == Obj(BuiltObject(sc, v.body.visits));
    } else {
      a := EnclosingEntry(sc, v.body.visits, below, if v.selective then below else base, e);
    }
    EntryIn(sc, run, i, path, base, a);
  }

  /** The disclosures of a run hide different positions. */
  lemma SamePositionSameEntry(sc: Scheme, run: seq<Visit>, a: Entry, b: Entry)
    requires Tidy(run) && a in AllEntries(sc, run) && b in AllEntries(sc, run)
    requires a.path == b.path && a.disclosure.key == b.disclosure.key
    ensures a == b
  {
    var es := AllEntries(sc, run);
    var i, j :| 0 <= i < |es| && 0 <= j < |es| && es[i] == a && es[j] == b;
    if i < j {
      PositionsDiffer(sc, run, [], [], i, j);
    } else if j < i {
      PositionsDiffer(sc, run, [], [], j, i);
    }
  }

  lemma {:induction false} OwnDigestsOnce(sc: Scheme, run: seq<Visit>, path: Path, base: Path, d: string)
    requires DigestsDistinct(sc, Entries(sc, run, path, base))
    ensures multiset(OwnDigests(sc, run))[d] <= 1
    decreases run
  {
    if run != [] {
      var n := |run| - 1;
      var before, whole, v := Entries(sc, run[..n], path, base), Entries(sc, run, path, base), run[n];
      assert whole[..|before|] == before;
      DistinctPrefix(sc, before, whole[|before|..]);
      assert whole == before + whole[|before|..];
      OwnDigestsOnce(sc, run[..n], path, base, d);
      if v.selective && d in OwnDigests(sc, run[..n]) {
        var j := OwnDigestFrom(sc, run[..n], d);
        var other := Entry(path, base, VisitDisclosure(sc, run[j]));
        EntryIn(sc, run[..n], j, path, base, other);
        var at :| 0 <= at < |before| && before[at] == other;
        var last := EntriesOf(sc, v, path, base);
        assert whole == before + last && last[|last| - 1] == Entry(path, base, VisitDisclosure(sc, v));
        assert whole[at] == other && whole[|whole| - 1] == last[|last| - 1];
        assert sc.Digest(VisitDisclosure(sc, v)) != d;
      }
    }
  }

  /** Distinct digests stay distinct in the part of the list one member contributes. */
  lemma {:induction false} DistinctInside(sc: Scheme, run: seq<Visit>, i: nat, path: Path, base: Path)
    requires DigestsDistinct(sc, Entries(sc, run, path, base)) && i < |run|
    ensures DigestsDistinct(sc, EntriesOf(sc, run[i], path, base))
    ensures run[i].body.Group? ==>
              var below := path + [run[i].name];
              DigestsDistinct(sc, Entries(sc, run[i].body.visits, below, if run[i].selective then below else base))
    decreases |run|
  {
    var n := |run| - 1;
    var before, last := Entries(sc, run[..n], path, base), EntriesOf(sc, run[n], path, base);
    assert Entries(sc, run, path, base) == before + last;
    if i < n {
      DistinctPrefix(sc, before, last);
      DistinctInside(sc, run[..n], i, path, base);
    } else {
      DistinctSuffix(sc, before, last);
      if run[i].body.Group? {
        var below := path + [run[i].name];
        var visits := Entries(sc, run[i].body.visits, below, if run[i].selective then below else base);
        DistinctPrefix(sc, visits, last[|visits|..]);
        assert last == visits + last[|visits|..];
      }
    }
  }

  lemma DistinctPrefix(sc: Scheme, a: seq<Entry>, b: seq<Entry>)
    requires DigestsDistinct(sc, a + b)
    ensures DigestsDistinct(sc, a)
  {
    forall i, j | 0 <= i < j < |a|
      ensures sc.Digest(a[i].disclosure) != sc.Digest(a[j].disclosure)
    {
      assert (a + b)[i] == a[i] && (a + b)[j] == a[j];
    }
  }

  lemma DistinctSuffix(sc: Scheme, a: seq<Entry>, b: seq<Entry>)
    requires DigestsDistinct(sc, a + b)
    ensures DigestsDistinct(sc, b)
  {
    forall i, j | 0 <= i < j < |b|
      ensures sc.Digest(b[i].disclosure) != sc.Digest(b[j].disclosure)
    {
      assert (a + b)[|a| + i] == b[i] && (a + b)[|a| + j] == b[j];
    }
  }

  /** No object of what is built lists a digest twice. */
  lemma {:induction false} ListedOnce(sc: Scheme, run: seq<Visit>, path: Path, base: Path, q: Path, d: string)
    requires Tidy(run) && DigestsDistinct(sc, Entries(sc, run, path, base))
    ensures Copies(BuiltObject(sc, run), q, d) <= 1
    decreases |q|
  {
    BuiltSd(sc, run);
    if q == [] {
      OwnDigestsOnce(sc, run, path, base, d);
    } else if q[0] in OpenMembers(sc, run) {
      var i := OpenMemberFrom(sc, run, q[0]);
      TidyAt(run, i);
      match run[i].body
      case Plain(j) =>
        if j.Obj? {
          NoSdHoldsNothing(j, q[1..], d);
          CopiesHold(j.members, q[1..], d);
        }
      case Group(visits) =>
        DistinctInside(sc, run, i, path, base);
        ListedOnce(sc, visits, path + [q[0]], base, q[1..], d);
    }
  }

  /**
   * Where a digest sits in the built object: once at the entry's own object, if nothing around
   * that is hidden, and nowhere otherwise.
   */
  lemma DigestInPayload(sc: Scheme, run: seq<Visit>, e: Entry, q: Path)
    requires Tidy(run) && DigestsDistinct(sc, AllEntries(sc, run)) && e in AllEntries(sc, run)
    ensures Holds(BuiltObject(sc, run), q, sc.Digest(e.disclosure)) <==> e.base == [] && e.path == q
    ensures Copies(BuiltObject(sc, run), q, sc.Digest(e.disclosure)) == if e.base == [] && e.path == q then 1 else 0
  {
    var d := sc.Digest(e.disclosure);
    if Holds(BuiltObject(sc, run), q, d) {
      var e' := HeldIsEntry(sc, run, [], [], q, d);
      SameDigestSameEntry(sc, AllEntries(sc, run), e, e');
    }
    if e.base == [] && e.path == q {
      EntryIsHeld(sc, run, [], [], e);
      assert q[0..] == q;
    }
    CopiesHold(BuiltObject(sc, run), q, d);
    ListedOnce(sc, run, [], [], q, d);
  }

  /**
   * In a disclosed value: once at the entry's own object, if the value is that of the nearest
   * hidden member around it, and nowhere otherwise. `EnclosingEntry` says that there is one.
   */
  lemma DigestInDisclosure(sc: Scheme, run: seq<Visit>, a: Entry, e: Entry, q: Path)
    requires Tidy(run) && DigestsDistinct(sc, AllEntries(sc, run))
    requires a in AllEntries(sc, run) && e in AllEntries(sc, run) && a.disclosure.value.Obj?
    ensures var m, d := a.disclosure.value.members, sc.Digest(e.disclosure);
            && (Holds(m, q, d) <==> e.base == a.path + [a.disclosure.key] && e.path == e.base + q)
            && Copies(m, q, d) == if e.base == a.path + [a.disclosure.key] && e.path == e.base + q then 1 else 0
  {
    var d, at := sc.Digest(e.disclosure), a.path + [a.disclosure.key];
    var v := VisitOf(sc, run, [], [], a);
    CopiesHold(a.disclosure.value.members, q, d);
    match v.body
    case Plain(j) => NoSdHoldsNothing(j, q, d);
    case Group(visits) =>
      if Holds(BuiltObject(sc, visits), q, d) {
        var e' := HeldIsEntry(sc, visits, at, at, q, d);
        SameDigestSameEntry(sc, AllEntries(sc, run), e, e');
      }
      if e.base == at && e.path == e.base + q {
        EntryIsHeld(sc, visits, at, at, e);
        assert e.path[|at|..] == q;
      }
      ListedOnce(sc, visits, at, at, q, d);
  }
}
