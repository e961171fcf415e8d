/** What `collectDigests` can return, and when what it returns does not matter. */
module Collecting {
  import opened Wrappers
  import opened JsonModel
  import opened Platform
  import opened Disclosures
  import opened Reconstruct
  import opened DisclosureStage

  /** The digests an object lists itself. */
  ghost function Own(o: Object): map<string, Path> {
    map d | d in SdStrings(o) :: []
  }

  /** What was collected from member `k`, seen from the object that has the member. */
  ghost function Lift(k: string, index: map<string, Path>): map<string, Path> {
    map d | d in index :: [k] + index[d]
  }

  /** `order` meets every member of `o` once. */
  ghost predicate MeetsAll(o: Object, order: seq<string>) {
    && (forall k :: k in order <==> k in o)
    && (forall i, j | 0 <= i < j < |order| :: order[i] != order[j])
  }

  /** `collectDigests` can return `index` for `o`: it does so for some order of the members. */
  ghost predicate Collected(o: Object, index: map<string, Path>)
    decreases Obj(o), 2, 0
  {
    exists order :: MeetsAll(o, order) && CollectedAlong(o, order, index)
  }

  /** Its own digests first, then those of each member, which replace what was collected before. */
  ghost predicate CollectedAlong(o: Object, order: seq<string>, index: map<string, Path>)
    decreases Obj(o), 1, |order|
  {
    if order == [] then index == Own(o)
    else
      var k := order[|order| - 1];
      exists before :: CollectedAlong(o, order[..|order| - 1], before) && CollectedNext(o, k, before, index)
  }

  /** One member more. */
  ghost predicate CollectedNext(o: Object, k: string, before: map<string, Path>, index: map<string, Path>)
    decreases Obj(o), 0, 0
  {
    if k in o && o[k].Obj? then
      exists below :: Collected(o[k].members, below) && index == before + Lift(k, below)
    else index == before
  }

  // ----- It is an index -----

  lemma HoldsBelow(o: Object, k: string, q: Path, d: string)
    requires k in o && o[k].Obj?
    ensures Holds(o, [k] + q, d) <==> Holds(o[k].members, q, d)
  {
    assert ([k] + q)[1..] == q;
  }

  /** Every digest in `index` is at an object that holds it, and no object inside that one does. */
  ghost predicate Innermost(o: Object, index: map<string, Path>) {
    && (forall d | d in index :: Holds(o, index[d], d))
    && (forall d, q | d in index && Holds(o, q, d) && index[d] <= q :: q == index[d])
  }

  /** The same for an index to which only the members `done` have contributed, for one digest. */
  ghost predicate PartialAt(o: Object, done: set<string>, index: map<string, Path>, d: string) {
    && (d in index ==> Holds(o, index[d], d) && (index[d] != [] ==> index[d][0] in done))
    && (d in SdStrings(o) ==> d in index)
    && (forall k, q | k in done && Holds(o, [k] + q, d) ::
          d in index && (index[d] <= [k] + q ==> [k] + q == index[d]))
  }

  ghost predicate Partial(o: Object, done: set<string>, index: map<string, Path>) {
    forall d :: PartialAt(o, done, index, d)
  }

  lemma PartialGrowsAt(o: Object, done: set<string>, k: string, before: map<string, Path>, below: map<string, Path>,
                       d: string)
    requires PartialAt(o, done, before, d) && k in o && k !in done && o[k].Obj?
    requires IsIndex(o[k].members, below) && Innermost(o[k].members, below)
    ensures PartialAt(o, done + {k}, before + Lift(k, below), d)
  {
    var index := before + Lift(k, below);
    if d in below {
      HoldsBelow(o, k, below[d], d);
    }
    forall k', q | k' in done + {k} && Holds(o, [k'] + q, d)
      ensures d in index && (index[d] <= [k'] + q ==> [k'] + q == index[d])
    {
      if k' == k {
        HoldsBelow(o, k, q, d);
        assert index[d] == [k] + below[d];
        assert index[d] <= [k] + q ==> below[d] <= q;
      } else if d in below {
        assert index[d][0] == k && ([k'] + q)[0] == k';
      }
    }
  }

  lemma PartialSkips(o: Object, done: set<string>, k: string, index: map<string, Path>, d: string)
    requires PartialAt(o, done, index, d) && (k in o ==> !o[k].Obj?)
    ensures PartialAt(o, done + {k}, index, d)
  {
    forall k', q | k' in done + {k} && Holds(o, [k'] + q, d)
      ensures k' in done
    {
      assert ([k'] + q)[0] == k';
    }
  }

  lemma PartialGrows(o: Object, done: set<string>, k: string, before: map<string, Path>, index: map<string, Path>)
    requires Partial(o, done, before) && k in o && k !in done
    requires CollectedNext(o, k, before, index)
    requires o[k].Obj? ==> forall below | Collected(o[k].members, below) ::
               IsIndex(o[k].members, below) && Innermost(o[k].members, below)
    ensures Partial(o, done + {k}, index)
  {
    if o[k].Obj? {
      var below :| Collected(o[k].members, below) && index == before + Lift(k, below);
      forall d {
        PartialGrowsAt(o, done, k, before, below, d);
      }
    } else {
      forall d {
        PartialSkips(o, done, k, index, d);
      }
    }
  }

  lemma {:induction false} AlongIsPartial(o: Object, order: seq<string>, index: map<string, Path>)
    requires (forall k | k in order :: k in o) && forall i, j | 0 <= i < j < |order| :: order[i] != order[j]
    requires CollectedAlong(o, order, index)
    ensures Partial(o, (set k | k in order), index)
    decreases Obj(o), 1, |order|
  {
    if order != [] {
      var n := |order| - 1;
      var k := order[n];
      var before :| CollectedAlong(o, order[..n], before) && CollectedNext(o, k, before, index);
      AlongIsPartial(o, order[..n], before);
      if o[k].Obj? {
        forall below | Collected(o[k].members, below)
          ensures IsIndex(o[k].members, below) && Innermost(o[k].members, below)
        {
          CollectedIsIndex(o[k].members, below);
        }
      }
      PartialGrows(o, (set k' | k' in order[..n]), k, before, index);
      assert (set k' | k' in order) == (set k' | k' in order[..n]) + {k};
    }
  }

  lemma {:induction false} CollectedIsIndex(o: Object, index: map<string, Path>)
    requires Collected(o, index)
    ensures IsIndex(o, index) && Innermost(o, index)
    decreases Obj(o), 2, 0
  {
    var order :| MeetsAll(o, order) && CollectedAlong(o, order, index);
    AlongIsPartial(o, order, index);
    forall d | d in index
      ensures Holds(o, index[d], d)
    {
      assert PartialAt(o, (set k | k in order), index, d);
    }
    forall p, d | Holds(o, p, d)
      ensures d in index && (index[d] <= p ==> p == index[d])
    {
      assert PartialAt(o, (set k | k in order), index, d);
      if p != [] {
        assert p == [p[0]] + p[1..] && p[0] in order;
      }
    }
  }

  // ----- Every choice is possible -----

  /** An order of the members `todo`. */
  lemma {:induction false} SomeOrder(todo: set<string>) returns (order: seq<string>)
    ensures forall k :: k in order <==> k in todo
    ensures forall i, j | 0 <= i < j < |order| :: order[i] != order[j]
  {
    if todo == {} {
      order := [];
    } else {
      var k :| k in todo;
      var before := SomeOrder(todo - {k});
      order := before + [k];
    }
  }

  lemma {:induction false} SomeNext(o: Object, k: string, before: map<string, Path>) returns (index: map<string, Path>)
    ensures CollectedNext(o, k, before, index)
    decreases Obj(o), 0, 0
  {
    index := before;
    if k in o && o[k].Obj? {
      var below := SomeIndex(o[k].members);
      index := before + Lift(k, below);
    }
  }

  lemma {:induction false} SomeAlong(o: Object, order: seq<string>) returns (index: map<string, Path>)
    ensures CollectedAlong(o, order, index)
    decreases Obj(o), 1, |order|
  {
    if order == [] {
      index := Own(o);
    } else {
      var n := |order| - 1;
      var before := SomeAlong(o, order[..n]);
      index := SomeNext(o, order[n], before);
    }
  }

  lemma {:induction false} SomeIndex(o: Object) returns (index: map<string, Path>)
    ensures Collected(o, index)
    decreases Obj(o), 2, 0
  {
    var order := SomeOrder(o.Keys);
    index := SomeAlong(o, order);
  }

  /** Visiting one member last. */
  lemma LastVisited(o: Object, rest: seq<string>, k: string, before: map<string, Path>, below: map<string, Path>)
    requires k in o && o[k].Obj? && MeetsAll(o, rest + [k])
    requires CollectedAlong(o, rest, before) && Collected(o[k].members, below)
    ensures Collected(o, before + Lift(k, below))
  {
    var order := rest + [k];
    assert order[..|order| - 1] == rest && order[|order| - 1] == k;
    assert CollectedNext(o, k, before, before + Lift(k, below));
    assert CollectedAlong(o, order, before + Lift(k, below));
  }

  lemma AllButLast(o: Object, k: string) returns (rest: seq<string>)
    requires k in o
    ensures MeetsAll(o, rest + [k])
  {
    rest := SomeOrder(o.Keys - {k});
  }

  /** Whatever object holds a digest, some order makes the digest map to it, or to one inside. */
  lemma {:induction false} Steered(o: Object, p: Path, d: string) returns (index: map<string, Path>)
    requires Holds(o, p, d)
    ensures Collected(o, index) && d in index && p <= index[d]
    decreases |p|
  {
    if p == [] {
      index := SomeIndex(o);
      CollectedIsIndex(o, index);
    } else {
      var k := p[0];
      var rest := AllButLast(o, k);
      var before := SomeAlong(o, rest);
      var below := Steered(o[k].members, p[1..], d);
      LastVisited(o, rest, k, before, below);
      index := before + Lift(k, below);
      assert index[d] == [k] + below[d] && p == [k] + p[1..];
    }
  }

  /** Of any two objects that hold `d`, one lies inside the other. */
  ghost predicate Nested(m: Object, d: string) {
    forall p, q | Holds(m, p, d) && Holds(m, q, d) :: p <= q || q <= p
  }

  /** Where `d` is found does not depend on the order in which members are visited. */
  ghost predicate FoundOnce(m: Object, d: string) {
    forall a, b | Collected(m, a) && Collected(m, b) ::
      (d in a <==> d in b) && (d in a ==> a[d] == b[d])
  }

  /** Two objects, neither inside the other, make two indexes. */
  lemma TwoPlaces(m: Object, d: string) returns (a: map<string, Path>, b: map<string, Path>)
    requires !Nested(m, d)
    ensures Collected(m, a) && Collected(m, b) && d in a && d in b && a[d] != b[d]
  {
    var p, q :| Holds(m, p, d) && Holds(m, q, d) && !(p <= q) && !(q <= p);
    a := Steered(m, p, d);
    b := Steered(m, q, d);
    assert p == a[d][..|p|] && q == b[d][..|q|];
  }

  /** Where a digest is found is determined if and only if its objects lie inside one another;
      it is then the innermost of them. */
  lemma FoundOnceIffNested(m: Object, d: string)
    ensures FoundOnce(m, d) <==> Nested(m, d)
  {
    if !Nested(m, d) {
      var a, b := TwoPlaces(m, d);
    } else {
      forall a, b | Collected(m, a) && Collected(m, b)
        ensures (d in a <==> d in b) && (d in a ==> a[d] == b[d])
      {
        CollectedIsIndex(m, a);
        CollectedIsIndex(m, b);
        if d in a {
          assert Holds(m, a[d], d) && Holds(m, b[d], d);
        }
      }
    }
  }

  /** Every order in which members are visited leads to the same index. */
  ghost predicate IndexIsUnique(m: Object) {
    forall a, b | Collected(m, a) && Collected(m, b) :: a == b
  }

  /** The whole index is determined if and only if every digest is found in one place. */
  lemma IndexIsUniqueIffNested(m: Object)
    ensures IndexIsUnique(m) <==> forall d :: Nested(m, d)
  {
    if IndexIsUnique(m) {
      forall d
        ensures Nested(m, d)
      {
        assert FoundOnce(m, d);
        FoundOnceIffNested(m, d);
      }
    }
    if forall d :: Nested(m, d) {
      forall a, b | Collected(m, a) && Collected(m, b)
        ensures a == b
      {
        NestedMeansEqual(m, a, b);
      }
    }
  }

  lemma NestedMeansEqual(m: Object, a: map<string, Path>, b: map<string, Path>)
    requires Collected(m, a) && Collected(m, b) && forall d :: Nested(m, d)
    ensures a == b
  {
    forall d
      ensures (d in a <==> d in b) && (d in a ==> a[d] == b[d])
    {
      FoundOnceIffNested(m, d);
    }
  }

  // ----- When the disclosure loop does not depend on it -----

  /** The same values under the same keys, perhaps in other objects. */
  ghost predicate SameButPlaces(v: Writes, w: Writes) {
    v.Keys == w.Keys && forall k | k in v :: v[k].value == w[k].value
  }

  lemma IndexesKnowTheSame(m: Object, a: map<string, Path>, b: map<string, Path>)
    requires IsIndex(m, a) && IsIndex(m, b)
    ensures a.Keys == b.Keys
  {
    forall d
      ensures d in a <==> d in b
    {
      if d in a {
        assert Holds(m, a[d], d);
      }
      if d in b {
        assert Holds(m, b[d], d);
      }
    }
  }

  ghost predicate SameVerdict(r: Result<Writes, VerifyError>, s: Result<Writes, VerifyError>) {
    match r
    case Err(e) => s == Err(e)
    case Ok(v) => s.Ok? && SameButPlaces(v, s.value)
  }

  lemma AcceptIgnoresIndex(pf: Suite, alg: HashAlg, a: map<string, Path>, b: map<string, Path>,
                           v: Writes, w: Writes, text: string)
    requires a.Keys == b.Keys && SameButPlaces(v, w)
    ensures SameVerdict(Accept(pf, alg, a, v, text), Accept(pf, alg, b, w, text))
  {
    assert pf.digest(alg, text) in a <==> pf.digest(alg, text) in b;
  }

  /** Acceptance, the error and the flat view of what is revealed do not depend on the index. */
  lemma {:induction false} VerdictIgnoresIndex(pf: Suite, alg: HashAlg, a: map<string, Path>, b: map<string, Path>,
                                               ds: seq<string>)
    requires a.Keys == b.Keys
    ensures SameVerdict(Process(pf, alg, a, ds), Process(pf, alg, b, ds))
  {
    if ds != [] {
      var n := |ds| - 1;
      VerdictIgnoresIndex(pf, alg, a, b, ds[..n]);
      if Process(pf, alg, a, ds[..n]).Ok? {
        AcceptIgnoresIndex(pf, alg, a, b, Process(pf, alg, a, ds[..n]).value, Process(pf, alg, b, ds[..n]).value,
                           ds[n]);
      }
    }
  }

  /** Every order in which members are visited leads to the same values in the same objects. */
  ghost predicate Determined(pf: Suite, alg: HashAlg, m: Object, ds: seq<string>) {
    forall a, b | Collected(m, a) && Collected(m, b) :: Process(pf, alg, a, ds) == Process(pf, alg, b, ds)
  }

  /** For each keyed disclosure, the objects that hold its digest lie inside one another. */
  ghost predicate Settled(pf: Suite, alg: HashAlg, m: Object, ds: seq<string>) {
    forall i | 0 <= i < |ds| && KeyOf(pf, ds[i]) != "" :: Nested(m, pf.digest(alg, ds[i]))
  }

  /** Indexes that agree on the keyed disclosures write alike. */
  lemma {:induction false} AgreeingIndexes(pf: Suite, alg: HashAlg, a: map<string, Path>, b: map<string,
                                           Path>, ds: seq<string>)
    requires a.Keys == b.Keys
    requires forall i | 0 <= i < |ds| && KeyOf(pf, ds[i]) != "" ::
               var d := pf.digest(alg, ds[i]);
               d in a ==> a[d] == b[d]
    ensures Process(pf, alg, a, ds) == Process(pf, alg, b, ds)
  {
    if ds != [] {
      AgreeingIndexes(pf, alg, a, b, ds[..|ds| - 1]);
    }
  }

  lemma SettledIsDetermined(pf: Suite, alg: HashAlg, m: Object, a: map<string, Path>, b: map<string,
                            Path>, ds: seq<string>)
    requires Settled(pf, alg, m, ds) && Collected(m, a) && Collected(m, b)
    ensures Process(pf, alg, a, ds) == Process(pf, alg, b, ds)
  {
    CollectedIsIndex(m, a);
    CollectedIsIndex(m, b);
    IndexesKnowTheSame(m, a, b);
    forall i | 0 <= i < |ds| && KeyOf(pf, ds[i]) != ""
      ensures var d := pf.digest(alg, ds[i]);
              d in a ==> a[d] == b[d]
    {
      FoundOnceIffNested(m, pf.digest(alg, ds[i]));
    }
    AgreeingIndexes(pf, alg, a, b, ds);
  }

  /**
   * When the code's result is well defined although map iteration is not. A rejected list is
   * rejected with the same error in every order; an accepted list always reveals the same
   * values, and it puts them into the same objects in every order if and only if no keyed
   * disclosure has its digest in two objects of which neither contains the other.
   */
  lemma DeterminedIffSettled(pf: Suite, alg: HashAlg, m: Object, index: map<string, Path>, ds: seq<string>)
    requires Collected(m, index)
    ensures Process(pf, alg, index, ds).Err? ==> Determined(pf, alg, m, ds)
    ensures Process(pf, alg, index, ds).Ok? ==> (Determined(pf, alg, m, ds) <==> Settled(pf, alg, m, ds))
  {
    CollectedIsIndex(m, index);
    if Process(pf, alg, index, ds).Err? {
      forall a | Collected(m, a)
        ensures Process(pf, alg, a, ds) == Process(pf, alg, index, ds)
      {
        CollectedIsIndex(m, a);
        IndexesKnowTheSame(m, index, a);
        VerdictIgnoresIndex(pf, alg, index, a, ds);
      }
    } else if Settled(pf, alg, m, ds) {
      forall a, b | Collected(m, a) && Collected(m, b)
        ensures Process(pf, alg, a, ds) == Process(pf, alg, b, ds)
      {
        SettledIsDetermined(pf, alg, m, a, b, ds);
      }
    } else {
      var i :| 0 <= i < |ds| && KeyOf(pf, ds[i]) != "" && !Nested(m, pf.digest(alg, ds[i]));
      ScatteredIsUndetermined(pf, alg, m, index, ds, i);
    }
  }

  lemma CollectedKnowsTheSame(m: Object, index: map<string, Path>, a: map<string, Path>)
    requires IsIndex(m, index) && Collected(m, a)
    ensures index.Keys == a.Keys
  {
    CollectedIsIndex(m, a);
    IndexesKnowTheSame(m, index, a);
  }

  lemma ScatteredIsUndetermined(pf: Suite, alg: HashAlg, m: Object, index: map<string, Path>, ds: seq<string>, i: nat)
    requires IsIndex(m, index) && Process(pf, alg, index, ds).Ok?
    requires i < |ds| && KeyOf(pf, ds[i]) != "" && !Nested(m, pf.digest(alg, ds[i]))
    ensures !Determined(pf, alg, m, ds)
  {
    var d := pf.digest(alg, ds[i]);
    var a, b := TwoPlaces(m, d);
    CollectedKnowsTheSame(m, index, a);
    CollectedKnowsTheSame(m, index, b);
    VerdictIgnoresIndex(pf, alg, index, a, ds);
    VerdictIgnoresIndex(pf, alg, index, b, ds);
    ElsewhereIsDifferent(pf, alg, a, b, ds, i);
  }

  /** Indexes that disagree on a keyed disclosure write differently. */
  lemma ElsewhereIsDifferent(pf: Suite, alg: HashAlg, a: map<string, Path>, b: map<string, Path>,
                             ds: seq<string>, i: nat)
    requires Process(pf, alg, a, ds).Ok? && Process(pf, alg, b, ds).Ok?
    requires i < |ds| && KeyOf(pf, ds[i]) != ""
    requires var d := pf.digest(alg, ds[i]);
             d in a && d in b && a[d] != b[d]
    ensures Process(pf, alg, a, ds) != Process(pf, alg, b, ds)
  {
    AcceptedMeaning(pf, alg, a, ds);
    AcceptedMeaning(pf, alg, b, ds);
    assert Expected(pf, alg, a, ds[i]) && Expected(pf, alg, b, ds[i]);
    assert Placement(pf, alg, a, ds[i]) != Placement(pf, alg, b, ds[i]);
  }

  /** What is found at the root is found there in every order. */
  lemma RootStaysRoot(m: Object, a: map<string, Path>, b: map<string, Path>, d: string)
    requires Collected(m, a) && Collected(m, b) && d in a && a[d] == []
    ensures d in b && b[d] == []
  {
    CollectedIsIndex(m, a);
    CollectedIsIndex(m, b);
    assert Holds(m, a[d], d) && Holds(m, b[d], d);
  }

  /** So what is written at the root does not depend on the order. */
  lemma SameAtRoot(pf: Suite, alg: HashAlg, m: Object, a: map<string, Path>, b: map<string, Path>, ds: seq<string>,
                   k: string)
    requires Collected(m, a) && Collected(m, b) && Process(pf, alg, a, ds).Ok? && Process(pf, alg, b, ds).Ok?
    ensures var v, w := Process(pf, alg, a, ds).value, Process(pf, alg, b, ds).value;
            WrittenAt(v, [], k) ==> WrittenAt(w, [], k) && w[k] == v[k]
  {
    var v := Process(pf, alg, a, ds).value;
    AcceptedMeaning(pf, alg, a, ds);
    AcceptedMeaning(pf, alg, b, ds);
    if WrittenAt(v, [], k) {
      var i :| 0 <= i < |ds| && KeyOf(pf, ds[i]) == k;
      assert Expected(pf, alg, a, ds[i]);
      RootStaysRoot(m, a, b, pf.digest(alg, ds[i]));
    }
  }

  /** An object with nothing but the listing of one digest. */
  function Home(d: string): Object {
    map[SD := Arr([Str(d)])]
  }

  lemma HomeHolds(d: string, p: Path, e: string)
    ensures Holds(Home(d), p, e) <==> p == [] && e == d
  {
    assert Home(d)[SD].items[0] == Str(d);
    assert SdStrings(Home(d)) == {d};
    assert ObjectAt(Home(d), p) == if p == [] then Some(Home(d)) else None;
  }

  /** A payload in which two objects list one digest, side by side. */
  function TwoHomes(d: string): Object {
    map["a" := Obj(Home(d)), "b" := Obj(Home(d))]
  }

  lemma HomesOf(d: string, p: Path, e: string)
    ensures Holds(TwoHomes(d), p, e) <==> (p == ["a"] || p == ["b"]) && e == d
  {
    assert "a"[0] != "_sd"[0] && "b"[0] != "_sd"[0];
    assert SD !in TwoHomes(d);
    if p != [] && p[0] in TwoHomes(d) {
      assert p == [p[0]] + p[1..];
      HomeHolds(d, p[1..], e);
    }
  }

  /** It can happen: the one disclosure is accepted, and the order in which the members of the
      payload are visited decides where its value goes. */
  lemma DuplicateDigestIsUndetermined(pf: Suite, alg: HashAlg, text: string, salt: string, v: Json)
    returns (a: map<string, Path>, b: map<string, Path>)
    requires ParseDisclosure(pf, text) == Some(Disclosure(salt, "k", v))
    ensures var m := TwoHomes(pf.digest(alg, text));
            && Collected(m, a) && Collected(m, b)
            && Process(pf, alg, a, [text]) == Ok(map["k" := Placed(["a"], v)])
            && Process(pf, alg, b, [text]) == Ok(map["k" := Placed(["b"], v)])
            && Rebuild(Obj(m), [], map["k" := Placed(["a"], v)]) != Rebuild(Obj(m), [], map["k" := Placed(["b"], v)])
  {
    var d := pf.digest(alg, text);
    var m := TwoHomes(d);
    HomesOf(d, ["a"], d);
    HomesOf(d, ["b"], d);
    a := Steered(m, ["a"], d);
    b := Steered(m, ["b"], d);
    CollectedIsIndex(m, a);
    CollectedIsIndex(m, b);
    HomesOf(d, a[d], d);
    HomesOf(d, b[d], d);
    ProcessOfOne(pf, alg, a, text, Disclosure(salt, "k", v));
    ProcessOfOne(pf, alg, b, text, Disclosure(salt, "k", v));
    WritesDiffer(m, d, v);
  }

  lemma WritesDiffer(m: Object, d: string, v: Json)
    requires m == TwoHomes(d)
    ensures Rebuild(Obj(m), [], map["k" := Placed(["a"], v)]) != Rebuild(Obj(m), [], map["k" := Placed(["b"], v)])
  {
    var x, y := Rebuild(Obj(m), [], map["k" := Placed(["a"], v)]), Rebuild(Obj(m), [], map["k" := Placed(["b"], v)]);
    assert [] + ["a"] == ["a"] && "k"[0] != "_sd"[0];
    assert x.members["a"] == Rebuild(m["a"], ["a"], map["k" := Placed(["a"], v)]);
    assert y.members["a"] == Rebuild(m["a"], ["a"], map["k" := Placed(["b"], v)]);
    assert "k" in x.members["a"].members && "k" !in y.members["a"].members;
  }
}
