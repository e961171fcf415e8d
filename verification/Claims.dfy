/** Claim trees, and what one run of the issuer makes of them. */
module Claims {
  import opened Wrappers
  import opened JsonModel
  import opened Platform
  import opened Disclosures

  /** A claim value: ordinary JSON, or an object whose members can be hidden one by one. */
  datatype Claim =
    | Leaf(value: Json)
    | Structured(fields: map<string, Claim>, selectiveFields: seq<string>)

  type Fields = map<string, Claim>

  function AsSet(names: seq<string>): set<string> {
    set n | n in names
  }

  /** The fields reached by following structured claims, hidden or not. */
  function GroupAt(fields: Fields, p: Path): Option<Fields>
    decreases |p|
  {
    if p == [] then Some(fields)
    else if p[0] in fields && fields[p[0]].Structured? then GroupAt(fields[p[0]].fields, p[1..])
    else None
  }

  /**
   * One iteration of the issuer's loop over a map: the member it met, whether it hides it,
   * and the salt it drew if so. A sequence of visits fixes everything that is left open by
   * the map and the random source: the iteration order at each level and the salts.
   */
  datatype Visit = Visit(name: string, selective: bool, salt: string, body: Body)

  datatype Body = Plain(value: Json) | Group(visits: seq<Visit>)

  /** The names met so far. */
  function Names(run: seq<Visit>): set<string> {
    if run == [] then {} else Names(run[..|run| - 1]) + {run[|run| - 1].name}
  }

  ghost predicate DistinctNames(run: seq<Visit>) {
    run == [] ||
    (DistinctNames(run[..|run| - 1]) && run[|run| - 1].name !in Names(run[..|run| - 1]))
  }

  /** `run` meets every member of `fields` exactly once. */
  ghost predicate IsRun(run: seq<Visit>, fields: Fields, selective: set<string>)
    decreases run, 1
  {
    && DistinctNames(run)
    && Names(run) == fields.Keys
    && Follows(run, fields, selective)
  }

  /** Every visit of `run` is a visit to a member of `fields`. */
  ghost predicate Follows(run: seq<Visit>, fields: Fields, selective: set<string>)
    decreases run, 0
  {
    run == [] ||
    (&& Follows(run[..|run| - 1], fields, selective)
     && var v := run[|run| - 1];
        && v.name in fields
        && v.selective == (v.name in selective)
        && Matches(v.body, fields[v.name]))
  }

  ghost predicate Matches(body: Body, claim: Claim)
    decreases body, 0
  {
    match claim
    case Leaf(j) => body == Plain(j)
    case Structured(fields, selective) => body.Group? && IsRun(body.visits, fields, AsSet(selective))
  }

  /** How the issuer turns disclosures into text and text into digests. */
  datatype Scheme = Scheme(pf: Suite, alg: HashAlg) {
    function Text(d: Disclosure): string {
      Encode(pf, d)
    }

    function Digest(d: Disclosure): string {
      pf.digest(alg, Encode(pf, d))
    }
  }

  function StringArray(ss: seq<string>): Json {
    Arr(seq(|ss|, i requires 0 <= i < |ss| => Str(ss[i])))
  }

  /** The JSON a claim becomes, hidden or not. */
  function BodyJson(sc: Scheme, body: Body): Json
    decreases body, 0
  {
    match body
    case Plain(j) => j
    case Group(visits) => Obj(BuiltObject(sc, visits))
  }

  function VisitDisclosure(sc: Scheme, v: Visit): Disclosure
    decreases v, 0
  {
    Disclosure(v.salt, v.name, BodyJson(sc, v.body))
  }

  /** The members left in the clear. */
  function OpenMembers(sc: Scheme, run: seq<Visit>): Object
    decreases run, 0
  {
    if run == [] then map[]
    else
      var rest, v := OpenMembers(sc, run[..|run| - 1]), run[|run| - 1];
      if v.selective then rest else rest[v.name := BodyJson(sc, v.body)]
  }

  /** The digests of the members hidden at this level. */
  function OwnDigests(sc: Scheme, run: seq<Visit>): seq<string>
    decreases run, 0
  {
    if run == [] then []
    else
      var rest, v := OwnDigests(sc, run[..|run| - 1]), run[|run| - 1];
      if v.selective then rest + [sc.Digest(VisitDisclosure(sc, v))] else rest
  }

  /** The object built for one level. */
  function BuiltObject(sc: Scheme, run: seq<Visit>): Object
    decreases run, 1
  {
    var digests := OwnDigests(sc, run);
    if digests == [] then OpenMembers(sc, run)
    else OpenMembers(sc, run)[SD := StringArray(digests)]
  }

  /**
   * A disclosure with its origin: `path` is the position, in the claim tree, of the object
   * it belongs to; `base` is the position of the nearest enclosing object that is itself
   * hidden, or `[]` when there is none, so that the object stands in the signed payload.
   */
  datatype Entry = Entry(path: Path, base: Path, disclosure: Disclosure) {
    predicate Visible() {
      base == []
    }
  }

  /** Every disclosure of a run, in the order in which the issuer appends them. */
  function Entries(sc: Scheme, run: seq<Visit>, path: Path, base: Path): seq<Entry>
    decreases run, 1
  {
    if run == [] then []
    else Entries(sc, run[..|run| - 1], path, base) + EntriesOf(sc, run[|run| - 1], path, base)
  }

  function EntriesOf(sc: Scheme, v: Visit, path: Path, base: Path): seq<Entry>
    decreases v, 1
  {
    var below :=
      match v.body
      case Plain(_) => []
      case Group(visits) =>
        Entries(sc, visits, path + [v.name], if v.selective then path + [v.name] else base);
    if v.selective then below + [Entry(path, base, VisitDisclosure(sc, v))] else below
  }

  /** The disclosure strings of a list of entries. */
  function Texts(sc: Scheme, es: seq<Entry>): seq<string> {
    seq(|es|, i requires 0 <= i < |es| => sc.Text(es[i].disclosure))
  }

  /** All entries of a whole credential. */
  function AllEntries(sc: Scheme, run: seq<Visit>): seq<Entry> {
    Entries(sc, run, [], [])
  }

  // ----- Looking things up in a run -----

  lemma {:induction false} NameIn(run: seq<Visit>, i: nat)
    requires i < |run|
    ensures run[i].name in Names(run)
  {
    if i < |run| - 1 {
      NameIn(run[..|run| - 1], i);
    }
  }

  lemma {:induction false} NameFrom(run: seq<Visit>, k: string) returns (i: nat)
    requires k in Names(run)
    ensures i < |run| && run[i].name == k
  {
    if run[|run| - 1].name == k {
      i := |run| - 1;
    } else {
      i := NameFrom(run[..|run| - 1], k);
    }
  }

  lemma {:induction false} NamesDiffer(run: seq<Visit>, i: nat, j: nat)
    requires DistinctNames(run) && i < |run| && j < |run| && run[i].name == run[j].name
    ensures i == j
  {
    var n := |run| - 1;
    if i < n && j < n {
      NamesDiffer(run[..n], i, j);
    } else if i < n {
      NameIn(run[..n], i);
    } else if j < n {
      NameIn(run[..n], j);
    }
  }

  lemma {:induction false} FollowsAt(run: seq<Visit>, fields: Fields, selective: set<string>, i: nat)
    requires Follows(run, fields, selective) && i < |run|
    ensures run[i].name in fields
    ensures run[i].selective == (run[i].name in selective)
    ensures Matches(run[i].body, fields[run[i].name])
  {
    if i < |run| - 1 {
      FollowsAt(run[..|run| - 1], fields, selective, i);
    }
  }

  lemma {:induction false} OpenMemberIn(sc: Scheme, run: seq<Visit>, i: nat)
    requires DistinctNames(run) && i < |run| && !run[i].selective
    ensures run[i].name in OpenMembers(sc, run)
    ensures OpenMembers(sc, run)[run[i].name] == BodyJson(sc, run[i].body)
  {
    if i < |run| - 1 {
      OpenMemberIn(sc, run[..|run| - 1], i);
      NameIn(run[..|run| - 1], i);
    }
  }

  lemma {:induction false} OpenMemberFrom(sc: Scheme, run: seq<Visit>, k: string) returns (i: nat)
    requires k in OpenMembers(sc, run)
    ensures i < |run| && run[i].name == k && !run[i].selective
    ensures OpenMembers(sc, run)[k] == BodyJson(sc, run[i].body)
  {
    var v := run[|run| - 1];
    if !v.selective && v.name == k {
      i := |run| - 1;
    } else {
      i := OpenMemberFrom(sc, run[..|run| - 1], k);
    }
  }

  lemma {:induction false} OwnDigestIn(sc: Scheme, run: seq<Visit>, i: nat)
    requires i < |run| && run[i].selective
    ensures sc.Digest(VisitDisclosure(sc, run[i])) in OwnDigests(sc, run)
  {
    if i < |run| - 1 {
      OwnDigestIn(sc, run[..|run| - 1], i);
    }
  }

  lemma {:induction false} OwnDigestFrom(sc: Scheme, run: seq<Visit>, d: string) returns (i: nat)
    requires d in OwnDigests(sc, run)
    ensures i < |run| && run[i].selective && sc.Digest(VisitDisclosure(sc, run[i])) == d
  {
    var v := run[|run| - 1];
    if v.selective && sc.Digest(VisitDisclosure(sc, v)) == d {
      i := |run| - 1;
    } else {
      i := OwnDigestFrom(sc, run[..|run| - 1], d);
    }
  }

  lemma {:induction false} EntryIn(sc: Scheme, run: seq<Visit>, i: nat, path: Path, base: Path, e: Entry)
    requires i < |run| && e in EntriesOf(sc, run[i], path, base)
    ensures e in Entries(sc, run, path, base)
  {
    if i < |run| - 1 {
      EntryIn(sc, run[..|run| - 1], i, path, base, e);
    }
  }

  lemma {:induction false} EntryFrom(sc: Scheme, run: seq<Visit>, path: Path, base: Path, e: Entry)
    returns (i: nat)
    requires e in Entries(sc, run, path, base)
    ensures i < |run| && e in EntriesOf(sc, run[i], path, base)
  {
    if e in EntriesOf(sc, run[|run| - 1], path, base) {
      i := |run| - 1;
    } else {
      i := EntryFrom(sc, run[..|run| - 1], path, base, e);
    }
  }

  /** Entries lie at or below the position they were collected from, and at or below the
      hidden object they belong to. */
  lemma {:induction false} EntryBelow(sc: Scheme, run: seq<Visit>, path: Path, base: Path, e: Entry)
    requires base <= path
    requires e in Entries(sc, run, path, base)
    ensures path <= e.path && e.base <= e.path
    ensures e.base == base || (|path| < |e.base| && path < e.base)
    decreases run, 1
  {
    var i := EntryFrom(sc, run, path, base, e);
    EntryOfBelow(sc, run[i], path, base, e);
  }

  /** An entry met at a visit is the visited member itself or lies under its name. */
  lemma {:induction false} EntryOfBelow(sc: Scheme, v: Visit, path: Path, base: Path, e: Entry)
    requires base <= path
    requires e in EntriesOf(sc, v, path, base)
    ensures path <= e.path && e.base <= e.path
    ensures e.base == base || (|path| < |e.base| && path < e.base)
    ensures e.path == path ==> v.selective && e == Entry(path, base, VisitDisclosure(sc, v))
    ensures e.path != path ==>
              && v.body.Group? && path + [v.name] <= e.path
              && e in Entries(sc, v.body.visits, path + [v.name], if v.selective then path + [v.name] else base)
    decreases v, 0
  {
    var here := Entry(path, base, VisitDisclosure(sc, v));
    if !(v.selective && e == here) {
      var below := if v.selective then path + [v.name] else base;
      assert v.body.Group? && e in Entries(sc, v.body.visits, path + [v.name], below);
      EntryBelow(sc, v.body.visits, path + [v.name], below, e);
    }
  }
}
