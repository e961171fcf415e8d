/** How the issuer's output depends on the order in which Go walks its maps. */
module IssueOrder {
  import opened JsonModel
  import opened Claims
  import opened Accounting

  /** A run without its order: the members visited, with the salt of each hidden one. */
  datatype Salted = Salted(selective: bool, salt: string, body: SaltedBody)

  datatype SaltedBody = SaltedPlain(value: Json) | SaltedGroup(members: map<string, Salted>)

  function Unordered(run: seq<Visit>): map<string, Salted>
    decreases run, 0
  {
    if run == [] then map[]
    else
      var v := run[|run| - 1];
      Unordered(run[..|run| - 1])[v.name := UnorderedVisit(v)]
  }

  function UnorderedVisit(v: Visit): Salted
    decreases v, 0
  {
    Salted(v.selective, if v.selective then v.salt else "",
           match v.body
           case Plain(j) => SaltedPlain(j)
           case Group(visits) => SaltedGroup(Unordered(visits)))
  }

  /** Two runs that visit the same members, with the same salts, in any order at any level. */
  ghost predicate Reordered(a: seq<Visit>, b: seq<Visit>) {
    Tidy(a) && Tidy(b) && Unordered(a) == Unordered(b)
  }

  lemma {:induction false} UnorderedAt(run: seq<Visit>, i: nat)
    requires DistinctNames(run) && i < |run|
    ensures run[i].name in Unordered(run) && Unordered(run)[run[i].name] == UnorderedVisit(run[i])
  {
    if i < |run| - 1 {
      UnorderedAt(run[..|run| - 1], i);
      NameIn(run[..|run| - 1], i);
    }
  }

  lemma {:induction false} UnorderedNames(run: seq<Visit>)
    ensures Unordered(run).Keys == Names(run)
  {
    if run != [] {
      UnorderedNames(run[..|run| - 1]);
    }
  }

  /** The visit of `b` to the member visited at `a[i]`. */
  lemma Counterpart(a: seq<Visit>, i: nat, b: seq<Visit>) returns (j: nat)
    requires Reordered(a, b) && i < |a|
    ensures j < |b| && b[j].name == a[i].name && UnorderedVisit(b[j]) == UnorderedVisit(a[i])
    ensures TidyVisit(a[i]) && TidyVisit(b[j])
    ensures a[i].body.Group? ==> b[j].body.Group? && Reordered(a[i].body.visits, b[j].body.visits)
    ensures a[i].body.Plain? ==> b[j].body == a[i].body
  {
    UnorderedAt(a, i);
    UnorderedNames(b);
    j := NameFrom(b, a[i].name);
    UnorderedAt(b, j);
    TidyAt(a, i);
    TidyAt(b, j);
  }

  /** Reordering a run of some claims gives a run of the same claims. */
  lemma {:induction false} ReorderedIsRun(a: seq<Visit>, b: seq<Visit>, fields: Fields, selective: set<string>)
    requires Reordered(a, b) && IsRun(a, fields, selective)
    ensures IsRun(b, fields, selective)
    decreases a
  {
    UnorderedNames(a);
    UnorderedNames(b);
    forall j | 0 <= j < |b|
      ensures b[j].name in fields && b[j].selective == (b[j].name in selective)
      ensures Matches(b[j].body, fields[b[j].name])
    {
      var i := Counterpart(b, j, a);
      FollowsAt(a, fields, selective, i);
      match fields[b[j].name]
      case Leaf(_) =>
      case Structured(below, nested) =>
        ReorderedIsRun(a[i].body.visits, b[j].body.visits, below, AsSet(nested));
    }
    FollowsFrom(b, fields, selective);
  }

  lemma {:induction false} FollowsFrom(run: seq<Visit>, fields: Fields, selective: set<string>)
    requires forall j | 0 <= j < |run| ::
               && run[j].name in fields && run[j].selective == (run[j].name in selective)
               && Matches(run[j].body, fields[run[j].name])
    ensures Follows(run, fields, selective)
  {
    if run != [] {
      FollowsFrom(run[..|run| - 1], fields, selective);
    }
  }

  // ----- Sums that do not depend on order -----

  /** One summand per name. */
  type Part = (string, multiset<string>)

  function Sum(parts: seq<Part>): multiset<string> {
    if parts == [] then multiset{} else Sum(parts[..|parts| - 1]) + parts[|parts| - 1].1
  }

  ghost predicate NamedApart(parts: seq<Part>) {
    forall i, j | 0 <= i < j < |parts| :: parts[i].0 != parts[j].0
  }

  lemma {:induction false} SumWithout(parts: seq<Part>, i: nat)
    requires i < |parts|
    ensures Sum(parts) == Sum(parts[..i] + parts[i + 1..]) + parts[i].1
  {
    var n := |parts| - 1;
    var rest := parts[..i] + parts[i + 1..];
    if i == n {
      assert rest == parts[..n];
    } else {
      SumWithout(parts[..n], i);
      assert rest[..|rest| - 1] == parts[..n][..i] + parts[..n][i + 1..];
      assert rest[|rest| - 1] == parts[n];
    }
  }

  lemma WithoutOne(a: seq<Part>, b: seq<Part>, j: nat, init: seq<Part>, rest: seq<Part>)
    requires a != [] && NamedApart(a) && NamedApart(b)
    requires forall x :: x in a <==> x in b
    requires j < |b| && b[j] == a[|a| - 1]
    requires init == a[..|a| - 1] && rest == b[..j] + b[j + 1..]
    ensures NamedApart(init) && NamedApart(rest)
    ensures forall y :: y in init <==> y in rest
  {
    var n := |a| - 1;
    forall y
      ensures y in init <==> y in rest
    {
      if y in init {
        var i :| 0 <= i < n && a[i] == y;
        assert y in a && y.0 != a[n].0;
        var i' :| 0 <= i' < |b| && b[i'] == y;
        assert i' != j && (if i' < j then rest[i'] == y else rest[i' - 1] == y);
      }
      if y in rest {
        var i :| 0 <= i < |rest| && rest[i] == y;
        var i' := if i < j then i else i + 1;
        assert b[i'] == y && y.0 != b[j].0 && y in b;
      }
    }
  }

  lemma {:induction false} SumOfSameParts(a: seq<Part>, b: seq<Part>)
    requires NamedApart(a) && NamedApart(b)
    requires forall x :: x in a <==> x in b
    ensures Sum(a) == Sum(b)
  {
    assert forall i | 0 <= i < |b| :: b[i] in b;
    if a != [] {
      var n := |a| - 1;
      assert a[n] in a;
      var j :| 0 <= j < |b| && b[j] == a[n];
      var rest := b[..j] + b[j + 1..];
      WithoutOne(a, b, j, a[..n], rest);
      SumOfSameParts(a[..n], rest);
      SumWithout(b, j);
    }
  }

  // ----- Disclosure texts as a bag -----

  function TextBag(sc: Scheme, run: seq<Visit>): multiset<string>
    decreases run, 1
  {
    Sum(TextParts(sc, run))
  }

  function TextParts(sc: Scheme, run: seq<Visit>): seq<Part>
    decreases run, 0
  {
    if run == [] then []
    else TextParts(sc, run[..|run| - 1]) + [(run[|run| - 1].name, VisitBag(sc, run[|run| - 1]))]
  }

  function VisitBag(sc: Scheme, v: Visit): multiset<string>
    decreases v, 0
  {
    (match v.body
     case Plain(_) => multiset{}
     case Group(visits) => TextBag(sc, visits))
    + (if v.selective then multiset{sc.Text(VisitDisclosure(sc, v))} else multiset{})
  }

  /** The texts of the entries, wherever the entries are counted from. */
  lemma {:induction false} TextsAreBag(sc: Scheme, run: seq<Visit>, path: Path, base: Path)
    ensures multiset(Texts(sc, Entries(sc, run, path, base))) == TextBag(sc, run)
    decreases run, 1
  {
    if run != [] {
      var n := |run| - 1;
      TextsAreBag(sc, run[..n], path, base);
      VisitTextsAreBag(sc, run[n], path, base);
      assert Texts(sc, Entries(sc, run, path, base)) ==
             Texts(sc, Entries(sc, run[..n], path, base)) + Texts(sc, EntriesOf(sc, run[n], path, base));
      var parts := TextParts(sc, run);
      assert parts[..|parts| - 1] == TextParts(sc, run[..n]);
    }
  }

  lemma {:induction false} VisitTextsAreBag(sc: Scheme, v: Visit, path: Path, base: Path)
    ensures multiset(Texts(sc, EntriesOf(sc, v, path, base))) == VisitBag(sc, v)
    decreases v, 0
  {
    var below: seq<Entry> := [];
    if v.body.Group? {
      var inner := if v.selective then path + [v.name] else base;
      TextsAreBag(sc, v.body.visits, path + [v.name], inner);
      below := Entries(sc, v.body.visits, path + [v.name], inner);
    }
    if v.selective {
      var own := Entry(path, base, VisitDisclosure(sc, v));
      assert Texts(sc, below + [own]) == Texts(sc, below) + [sc.Text(own.disclosure)];
    }
  }

  /** The parts of a run, by position. */
  lemma {:induction false} TextPartsAt(sc: Scheme, run: seq<Visit>)
    ensures |TextParts(sc, run)| == |run|
    ensures forall i | 0 <= i < |run| :: TextParts(sc, run)[i] == (run[i].name, VisitBag(sc, run[i]))
  {
    if run != [] {
      TextPartsAt(sc, run[..|run| - 1]);
    }
  }
}
