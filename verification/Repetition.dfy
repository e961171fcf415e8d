/** Step 4 of the algorithm of section 7.1 of RFC 9901: no digest may be met twice. */
module Repetition {
  import opened Wrappers
  import opened JsonModel
  import opened Platform
  import opened Reconstruct
  import opened Rebuilding
  import opened Rfc

  /** Where, inside a value, a digest is met: in its own listing, inside a member or an array
      element, or inside the value that an own digest stands for. */
  datatype Source = Own(i: nat) | Below(k: string) | Inner(i: nat) | Via(i: nat)

  /** The digest at place `i` of the `_sd` array of an object, or in slot `i` of an array. */
  function Listing(j: Json, i: nat): Option<string> {
    match j
    case Obj(m) =>
      if SD in m && m[SD].Arr? && i < |m[SD].items| && m[SD].items[i].Str? then Some(m[SD].items[i].s) else None
    case Arr(items) => if i < |items| then Slot(items[i]) else None
    case _ => None
  }

  /** Looking through `j` and the disclosures `ps`, the digest `d` is met at `s`. */
  ghost predicate MetAt(j: Json, ps: Presented, s: Source, d: string)
    decreases ps.Keys, j, 0
  {
    match s
    case Own(i) => Listing(j, i) == Some(d)
    case Below(k) => j.Obj? && k in j.members && Met(j.members[k], ps, d)
    case Inner(i) => j.Arr? && i < |j.items| && Met(j.items[i], ps, d)
    case Via(i) =>
      match Listing(j, i)
      case None => false
      case Some(e) => e in ps && Met(ps[e].value, ps - {e}, d)
  }

  ghost predicate Met(j: Json, ps: Presented, d: string)
    decreases ps.Keys, j, 1
  {
    exists s :: MetAt(j, ps, s, d)
  }

  /** The digest is met in two ways. */
  ghost predicate MetTwice(j: Json, ps: Presented, d: string)
    decreases ps.Keys, j, 1
  {
    || (exists s, t :: s != t && MetAt(j, ps, s, d) && MetAt(j, ps, t, d))
    || exists s :: MetTwiceAt(j, ps, s, d)
  }

  /** Both ways start at `s`. */
  ghost predicate MetTwiceAt(j: Json, ps: Presented, s: Source, d: string)
    decreases ps.Keys, j, 0
  {
    match s
    case Own(_) => false
    case Below(k) => j.Obj? && k in j.members && MetTwice(j.members[k], ps, d)
    case Inner(i) => j.Arr? && i < |j.items| && MetTwice(j.items[i], ps, d)
    case Via(i) =>
      match Listing(j, i)
      case None => false
      case Some(e) => e in ps && MetTwice(ps[e].value, ps - {e}, d)
  }

  /** Without looking through any disclosure. */
  ghost predicate Inside(j: Json, d: string) {
    Met(j, map[], d)
  }

  ghost predicate InsideTwice(j: Json, d: string) {
    MetTwice(j, map[], d)
  }

  /**
   * Some digest is listed twice, in the payload or in the values of the disclosures: a condition on
   * each of these and on any two of them, with nothing to look through.
   */
  ghost predicate Repeated(j: Json, ps: Presented) {
    || (exists d :: InsideTwice(j, d))
    || (exists d, e | e in ps :: InsideTwice(ps[e].value, d))
    || (exists d, e | e in ps :: Inside(ps[e].value, d) && Inside(j, d))
    || (exists d, e, f | e in ps && f in ps :: e != f && Inside(ps[e].value, d) && Inside(ps[f].value, d))
  }

  lemma SourceOf(j: Json, ps: Presented, d: string) returns (s: Source)
    requires Met(j, ps, d)
    ensures MetAt(j, ps, s, d)
  {
    s :| MetAt(j, ps, s, d);
  }

  /** The two ways in which a digest is met: they part at `j`, or start alike. */
  lemma SourcesOf(j: Json, ps: Presented, d: string) returns (parted: bool, s: Source, t: Source)
    requires MetTwice(j, ps, d)
    ensures if parted then s != t && MetAt(j, ps, s, d) && MetAt(j, ps, t, d) else MetTwiceAt(j, ps, s, d)
  {
    if x :| MetTwiceAt(j, ps, x, d) {
      parted, s, t := false, x, x;
    } else {
      parted := true;
      s, t :| s != t && MetAt(j, ps, s, d) && MetAt(j, ps, t, d);
    }
  }

  // ----- What is listed is met -----

  /** What is met inside is met, or is met through a member, an element or a disclosure. */
  lemma {:induction false} MetMore(j: Json, ps: Presented, s: Source, d: string)
    requires MetAt(j, map[], s, d)
    ensures !s.Via? && MetAt(j, ps, s, d) && Met(j, ps, d)
    decreases j, 0
  {
    match s {
      case Own(_) =>
      case Below(k) => InsideIsMet(j.members[k], ps, d);
      case Inner(i) => InsideIsMet(j.items[i], ps, d);
    }
    assert MetAt(j, ps, s, d);
  }

  lemma {:induction false} InsideIsMet(j: Json, ps: Presented, d: string)
    requires Inside(j, d)
    ensures Met(j, ps, d)
    decreases j, 1
  {
    var s := SourceOf(j, map[], d);
    MetMore(j, ps, s, d);
  }

  lemma {:induction false} InsideTwiceIsMetTwice(j: Json, ps: Presented, d: string)
    requires InsideTwice(j, d)
    ensures MetTwice(j, ps, d)
    decreases j
  {
    var parted, s, t := SourcesOf(j, map[], d);
    if parted {
      MetMore(j, ps, s, d);
      MetMore(j, ps, t, d);
    } else {
      match s {
        case Below(k) => InsideTwiceIsMetTwice(j.members[k], ps, d);
        case Inner(i) => InsideTwiceIsMetTwice(j.items[i], ps, d);
      }
      assert MetTwiceAt(j, ps, s, d);
    }
  }

  /** Where the value behind `e` is looked through, if `e` is listed at `s`. */
  function Through(s: Source): Source {
    match s
    case Own(i) => Via(i)
    case _ => s
  }

  /** What the value behind a listed digest lists is met there. */
  lemma {:induction false} MetThrough(j: Json, ps: Presented, s: Source, e: string, d: string)
    requires e in ps && Inside(ps[e].value, d) && MetAt(j, map[], s, e)
    ensures MetAt(j, ps, Through(s), d) && Met(j, ps, d)
    decreases j, 0
  {
    match s {
      case Own(i) => InsideIsMet(ps[e].value, ps - {e}, d);
      case Below(k) => InsideThrough(j.members[k], ps, e, d);
      case Inner(i) => InsideThrough(j.items[i], ps, e, d);
    }
    assert MetAt(j, ps, Through(s), d);
  }

  lemma {:induction false} InsideThrough(j: Json, ps: Presented, e: string, d: string)
    requires e in ps && Inside(ps[e].value, d) && Inside(j, e)
    ensures Met(j, ps, d)
    decreases j, 1
  {
    var s := SourceOf(j, map[], e);
    MetThrough(j, ps, s, e, d);
  }

  // ----- What is listed twice is met twice -----

  /** ... in a value and outside it. */
  lemma {:induction false} OnceMore(j: Json, ps: Presented, e: string, d: string)
    requires e in ps && Inside(j, e) && Inside(ps[e].value, d) && Inside(j, d)
    ensures MetTwice(j, ps, d)
    decreases j
  {
    var s := SourceOf(j, map[], e);
    var t := SourceOf(j, map[], d);
    MetThrough(j, ps, s, e, d);
    MetMore(j, ps, t, d);
    if Through(s) == t {
      match s {
        case Below(k) => OnceMore(j.members[k], ps, e, d);
        case Inner(i) => OnceMore(j.items[i], ps, e, d);
      }
      assert MetTwiceAt(j, ps, s, d);
    }
  }

  /** ... in two values. */
  lemma {:induction false} InTwoValues(j: Json, ps: Presented, e: string, f: string, d: string)
    requires e in ps && f in ps && e != f && Inside(j, e) && Inside(j, f)
    requires Inside(ps[e].value, d) && Inside(ps[f].value, d)
    ensures MetTwice(j, ps, d)
    decreases j
  {
    var s := SourceOf(j, map[], e);
    var t := SourceOf(j, map[], f);
    MetThrough(j, ps, s, e, d);
    MetThrough(j, ps, t, f, d);
    if Through(s) == Through(t) {
      match s {
        case Below(k) => InTwoValues(j.members[k], ps, e, f, d);
        case Inner(i) => InTwoValues(j.items[i], ps, e, f, d);
      }
      assert MetTwiceAt(j, ps, s, d);
    }
  }

  /** ... in one value. */
  lemma {:induction false} InOneValue(j: Json, ps: Presented, e: string, d: string)
    requires e in ps && Inside(j, e) && InsideTwice(ps[e].value, d)
    ensures MetTwice(j, ps, d)
    decreases j
  {
    var s := SourceOf(j, map[], e);
    match s {
      case Own(i) => InsideTwiceIsMetTwice(ps[e].value, ps - {e}, d);
      case Below(k) => InOneValue(j.members[k], ps, e, d);
      case Inner(i) => InOneValue(j.items[i], ps, e, d);
    }
    assert MetTwiceAt(j, ps, Through(s), d);
  }

  /** Given that each presented digest is listed in the payload. */
  lemma RepeatedIsMetTwice(j: Json, ps: Presented)
    requires Repeated(j, ps) && forall e | e in ps :: Inside(j, e)
    ensures exists d :: MetTwice(j, ps, d)
  {
    if d :| InsideTwice(j, d) {
      InsideTwiceIsMetTwice(j, ps, d);
    } else if d, e :| e in ps && InsideTwice(ps[e].value, d) {
      InOneValue(j, ps, e, d);
    } else if d, e :| e in ps && Inside(ps[e].value, d) && Inside(j, d) {
      OnceMore(j, ps, e, d);
    } else {
      var d, e, f :| e in ps && f in ps && e != f && Inside(ps[e].value, d) && Inside(ps[f].value, d);
      InTwoValues(j, ps, e, f, d);
    }
  }

  // ----- Without repetition, nothing is nested -----

  lemma HeldIsInside(m: Object, p: Path, d: string)
    requires Holds(m, p, d)
    ensures Inside(Obj(m), d)
    decreases |p|
  {
    var s := HeldAt(m, p, d);
  }

  /** Where an object position that holds `d` makes it listed. */
  lemma {:induction false} HeldAt(m: Object, p: Path, d: string) returns (s: Source)
    requires Holds(m, p, d)
    ensures MetAt(Obj(m), map[], s, d)
    ensures if p == [] then s.Own? else s == Below(p[0])
    decreases |p|
  {
    if p == [] {
      var i :| 0 <= i < |m[SD].items| && m[SD].items[i].Str? && m[SD].items[i].s == d;
      s := Own(i);
    } else {
      s := Below(p[0]);
      var t := HeldAt(m[p[0]].members, p[1..], d);
      assert Met(m[p[0]], map[], d);
    }
  }

  lemma {:induction false} HeldTwice(m: Object, p: Path, q: Path, d: string)
    requires Holds(m, p, d) && Holds(m, q, d) && p != q
    ensures InsideTwice(Obj(m), d)
    decreases |p|
  {
    var s := HeldAt(m, p, d);
    var t := HeldAt(m, q, d);
    if s == t {
      assert p == [p[0]] + p[1..] && q == [q[0]] + q[1..];
      HeldTwice(m[p[0]].members, p[1..], q[1..], d);
      assert MetTwiceAt(Obj(m), map[], s, d);
    }
  }

  /** What is not clear lists a presented digest. */
  lemma {:induction false} Unclear(j: Json, ps: Presented) returns (d: string)
    requires !Clear(j, ps)
    ensures d in ps && Inside(j, d)
    decreases j
  {
    match j
    case Obj(m) =>
      if k :| k in m && !Clear(m[k], ps) {
        d := Unclear(m[k], ps);
        assert MetAt(j, map[], Below(k), d);
      } else {
        d :| d in SdStrings(m) && d in ps;
        assert Holds(m, [], d);
        HeldIsInside(m, [], d);
      }
    case Arr(items) =>
      if i :| 0 <= i < |items| && !Clear(items[i], ps) {
        d := Unclear(items[i], ps);
        assert MetAt(j, map[], Inner(i), d);
      } else {
        var i :| 0 <= i < |items| && Slot(items[i]).Some? && Slot(items[i]).value in ps;
        d := Slot(items[i]).value;
        assert MetAt(j, map[], Own(i), d);
      }
  }

  /** Finds an array that lists a presented digest. */
  lemma {:induction false} UnclearArray(m: Object, whole: Object, at: Path, ps: Presented)
    returns (p: Path, k: string, d: string)
    requires ObjectAt(whole, at) == Some(m) && !ArraysClear(Obj(m), ps)
    ensures ObjectAt(whole, p).Some? && k in ObjectAt(whole, p).value && ObjectAt(whole, p).value[k].Arr?
    ensures d in ps && Inside(ObjectAt(whole, p).value[k], d)
    decreases Obj(m)
  {
    k :| k in m && !ArraysClear(m[k], ps);
    if m[k].Arr? {
      p := at;
      d := Unclear(m[k], ps);
    } else {
      ObjectAtChild(whole, at, k);
      p, k, d := UnclearArray(m[k].members, whole, at + [k], ps);
    }
  }

  /** Listed in an array and by an object that is not inside one: listed twice. */
  lemma {:induction false} ArrayAndObject(m: Object, p: Path, k: string, q: Path, d: string)
    requires ObjectAt(m, p).Some? && k in ObjectAt(m, p).value && ObjectAt(m, p).value[k].Arr?
    requires Inside(ObjectAt(m, p).value[k], d) && Holds(m, q, d)
    ensures InsideTwice(Obj(m), d)
    decreases |p|
  {
    var t := HeldAt(m, q, d);
    var s := InArray(m, p, k, d);
    if p == [] {
      assert q != [] ==> m[q[0]].Obj?;
    } else if s == t {
      ArrayAndObject(m[p[0]].members, p[1..], k, q[1..], d);
      assert MetTwiceAt(Obj(m), map[], s, d);
    }
  }

  lemma {:induction false} InArray(m: Object, p: Path, k: string, d: string) returns (s: Source)
    requires ObjectAt(m, p).Some? && k in ObjectAt(m, p).value && Inside(ObjectAt(m, p).value[k], d)
    ensures MetAt(Obj(m), map[], s, d) && s == Below(if p == [] then k else p[0])
    decreases |p|
  {
    s := Below(if p == [] then k else p[0]);
    if p != [] {
      var t := InArray(m[p[0]].members, p[1..], k, d);
      assert Met(m[p[0]], map[], d);
    }
  }

  /** Every presented digest is listed by an object of the payload. */
  ghost predicate AllHeld(m: Object, ps: Presented) {
    forall e | e in ps :: exists p :: Holds(m, p, e)
  }

  /** Where no digest is listed twice, nothing but objects of the payload lists a presented one. */
  lemma UnrepeatedIsFlat(m: Object, ps: Presented)
    requires !Repeated(Obj(m), ps) && AllHeld(m, ps)
    ensures UniqueDigests(m) && NothingInside(m, ps)
  {
    forall p, q, d | Holds(m, p, d) && Holds(m, q, d)
      ensures p == q
    {
      if p != q {
        HeldTwice(m, p, q, d);
      }
    }
    forall e | e in ps
      ensures Clear(ps[e].value, ps)
    {
      if !Clear(ps[e].value, ps) {
        var d := Unclear(ps[e].value, ps);
        var p :| Holds(m, p, d);
        HeldIsInside(m, p, d);
      }
    }
    if !ArraysClear(Obj(m), ps) {
      var p, k, d := UnclearArray(m, m, [], ps);
      var q :| Holds(m, q, d);
      ArrayAndObject(m, p, k, q, d);
    }
  }

  // ----- Without repetition, nothing is met twice -----

  lemma NothingBehind(j: Json, ps: Presented)
    requires Clear(j, ps)
    ensures forall i | Listing(j, i).Some? :: Listing(j, i).value !in ps
  {
    forall i: nat | Listing(j, i).Some?
      ensures Listing(j, i).value !in ps
    {
      if j.Obj? {
        assert Listing(j, i).value in SdStrings(j.members);
      }
    }
  }

  /** In a clear value there is nothing to look through. */
  lemma {:induction false} ClearIsMetInside(j: Json, ps: Presented, s: Source, d: string)
    requires Clear(j, ps) && MetAt(j, ps, s, d)
    ensures MetAt(j, map[], s, d)
    decreases j, 0
  {
    NothingBehind(j, ps);
    match s {
      case Own(_) =>
      case Below(k) => ClearMet(j.members[k], ps, d);
      case Inner(i) => ClearMet(j.items[i], ps, d);
      case Via(i) =>
    }
  }

  lemma {:induction false} ClearMet(j: Json, ps: Presented, d: string)
    requires Clear(j, ps) && Met(j, ps, d)
    ensures Inside(j, d)
    decreases j, 1
  {
    var s := SourceOf(j, ps, d);
    ClearIsMetInside(j, ps, s, d);
  }

  lemma {:induction false} ClearMetTwice(j: Json, ps: Presented, d: string)
    requires Clear(j, ps) && MetTwice(j, ps, d)
    ensures InsideTwice(j, d)
    decreases j
  {
    var parted, s, t := SourcesOf(j, ps, d);
    if parted {
      ClearIsMetInside(j, ps, s, d);
      ClearIsMetInside(j, ps, t, d);
    } else {
      NothingBehind(j, ps);
      match s {
        case Below(k) => ClearMetTwice(j.members[k], ps, d);
        case Inner(i) => ClearMetTwice(j.items[i], ps, d);
        case Via(i) =>
      }
      assert MetTwiceAt(j, map[], s, d);
    }
  }

  /** Where a digest is listed whose value is looked through at `s`. */
  function Root(s: Source): Source {
    match s
    case Via(i) => Own(i)
    case _ => s
  }

  /** Why `d` is met at `s`: it is listed there, or in the value behind a digest listed there. */
  lemma {:induction false} Cause(o: Object, ps: Presented, s: Source, d: string) returns (listed: bool, e: string)
    requires NothingInside(o, ps) && MetAt(Obj(o), ps, s, d)
    ensures if listed then MetAt(Obj(o), map[], s, d)
            else !s.Own? && e in ps && Inside(ps[e].value, d) && MetAt(Obj(o), map[], Root(s), e)
    decreases Obj(o)
  {
    listed, e := true, "";
    match s {
      case Own(_) =>
      case Below(k) =>
        assert ArraysClear(o[k], ps);
        if o[k].Obj? {
          var t := SourceOf(o[k], ps, d);
          listed, e := Cause(o[k].members, ps, t, d);
          if listed {
            assert Met(o[k], map[], d);
          } else {
            assert Met(o[k], map[], e);
          }
        } else {
          ClearMet(o[k], ps, d);
        }
      case Via(i) =>
        listed, e := false, Listing(Obj(o), i).value;
        ClearOfFewer(ps[e].value, ps, ps - {e});
        ClearMet(ps[e].value, ps - {e}, d);
    }
  }

  lemma {:induction false} MetTwiceIsRepeated(o: Object, ps: Presented, d: string)
    requires NothingInside(o, ps) && MetTwice(Obj(o), ps, d)
    ensures Repeated(Obj(o), ps)
    decreases Obj(o)
  {
    var parted, s, t := SourcesOf(Obj(o), ps, d);
    if parted {
      PartedIsRepeated(o, ps, s, t, d);
    } else {
      match s {
        case Below(k) =>
          assert ArraysClear(o[k], ps);
          if o[k].Obj? {
            MetTwiceIsRepeated(o[k].members, ps, d);
            RepeatedBelow(o, ps, k);
          } else {
            ClearMetTwice(o[k], ps, d);
            assert MetTwiceAt(Obj(o), map[], s, d);
            assert InsideTwice(Obj(o), d);
          }
        case Via(i) =>
          var e := Listing(Obj(o), i).value;
          ClearOfFewer(ps[e].value, ps, ps - {e});
          ClearMetTwice(ps[e].value, ps - {e}, d);
      }
    }
  }

  lemma PartedIsRepeated(o: Object, ps: Presented, s: Source, t: Source, d: string)
    requires NothingInside(o, ps) && s != t && MetAt(Obj(o), ps, s, d) && MetAt(Obj(o), ps, t, d)
    ensures Repeated(Obj(o), ps)
  {
    var here, e := Cause(o, ps, s, d);
    var there, f := Cause(o, ps, t, d);
    if here && there {
      assert InsideTwice(Obj(o), d);
    } else if here {
      assert Inside(Obj(o), d) && Inside(ps[f].value, d);
    } else if there {
      assert Inside(Obj(o), d) && Inside(ps[e].value, d);
    } else if e == f {
      assert Root(s) != Root(t) && InsideTwice(Obj(o), e);
    }
  }

  lemma RepeatedBelow(o: Object, ps: Presented, k: string)
    requires k in o && Repeated(o[k], ps)
    ensures Repeated(Obj(o), ps)
  {
    forall d
      ensures Inside(o[k], d) ==> Inside(Obj(o), d)
      ensures InsideTwice(o[k], d) ==> InsideTwice(Obj(o), d)
    {
      assert Inside(o[k], d) ==> MetAt(Obj(o), map[], Below(k), d);
      assert InsideTwice(o[k], d) ==> MetTwiceAt(Obj(o), map[], Below(k), d);
    }
  }

  // ----- The verdict of the standard -----

  /** Step 3 refuses to insert a claim, or step 4 meets a digest twice, or step 5 finds a
      disclosure that was not referred to. */
  ghost predicate StandardRejects(pf: Suite, alg: HashAlg, m: Object, ds: seq<string>) {
    var ps := ByDigest(pf, alg, ds);
    Rejects(Obj(m), ps) || MeetsTwice(Obj(m), ps) || !AllMet(pf, alg, Obj(m), ps, ds)
  }

  ghost predicate MeetsTwice(j: Json, ps: Presented) {
    exists d :: MetTwice(j, ps, d)
  }

  ghost predicate AllMet(pf: Suite, alg: HashAlg, j: Json, ps: Presented, ds: seq<string>) {
    forall i | 0 <= i < |ds| :: Met(j, ps, pf.digest(alg, ds[i]))
  }

  lemma PresentedAreHeld(pf: Suite, alg: HashAlg, m: Object, index: map<string, Path>, ds: seq<string>)
    requires IsIndex(m, index) && Process(pf, alg, index, ds).Ok?
    ensures AllHeld(m, ByDigest(pf, alg, ds))
    ensures AllMet(pf, alg, Obj(m), ByDigest(pf, alg, ds), ds)
  {
    var ps := ByDigest(pf, alg, ds);
    forall d | d in ps
      ensures exists p :: Holds(m, p, d)
    {
      var i := AcceptedItem(pf, alg, m, index, ds, d);
    }
    forall i | 0 <= i < |ds|
      ensures Met(Obj(m), ps, pf.digest(alg, ds[i]))
    {
      ByDigestHas(pf, alg, ds, i);
      var p :| Holds(m, p, pf.digest(alg, ds[i]));
      HeldIsInside(m, p, pf.digest(alg, ds[i]));
      InsideIsMet(Obj(m), ps, pf.digest(alg, ds[i]));
    }
  }

  /** A digest is met twice exactly if some digest is listed twice. */
  lemma MetTwiceIffRepeated(m: Object, ps: Presented)
    requires AllHeld(m, ps)
    ensures MeetsTwice(Obj(m), ps) <==> Repeated(Obj(m), ps)
  {
    if Repeated(Obj(m), ps) {
      forall e | e in ps
        ensures Inside(Obj(m), e)
      {
        var p :| Holds(m, p, e);
        HeldIsInside(m, p, e);
      }
      RepeatedIsMetTwice(Obj(m), ps);
    } else {
      UnrepeatedIsFlat(m, ps);
      if d :| MetTwice(Obj(m), ps, d) {
        MetTwiceIsRepeated(m, ps, d);
      }
    }
  }

  /**
   * The standard is stricter than the code. Of the disclosures the code accepts for any payload,
   * it rejects exactly those lists with which a digest is listed twice, or a disclosure carries no
   * claim name, is named `...`, or has a name that is taken in its object.
   */
  lemma StandardIsStricter(pf: Suite, alg: HashAlg, m: Object, index: map<string, Path>, ds: seq<string>)
    requires IsIndex(m, index) && Process(pf, alg, index, ds).Ok? && TextsApart(pf, alg, ds)
    ensures var ps := ByDigest(pf, alg, ds);
            StandardRejects(pf, alg, m, ds) <==>
            || Repeated(Obj(m), ps) || Unnamed(pf, ds)
            || !Fresh(m, Process(pf, alg, index, ds).value) || EmptyNameTaken(m, ps)
  {
    var ps := ByDigest(pf, alg, ds);
    PresentedAreHeld(pf, alg, m, index, ds);
    MetTwiceIffRepeated(m, ps);
    if !Repeated(Obj(m), ps) {
      UnrepeatedIsFlat(m, ps);
      StepThreeIsStricter(pf, alg, m, index, ds);
    }
  }

  /** Whenever the standard does not reject what the code accepts, both reconstruct the same claims,
      if and only if no disclosure has an empty name. */
  lemma WriteBackMeetsTheStandard(pf: Suite, alg: HashAlg, m: Object, index: map<string, Path>, ds: seq<string>)
    requires IsIndex(m, index) && Process(pf, alg, index, ds).Ok? && TextsApart(pf, alg, ds)
    requires !StandardRejects(pf, alg, m, ds)
    ensures Rebuild(Obj(m), [], Process(pf, alg, index, ds).value) == Reveal(Obj(m), ByDigest(pf, alg, ds)) <==>
            NoEmptyNames(ByDigest(pf, alg, ds))
  {
    var ps := ByDigest(pf, alg, ds);
    PresentedAreHeld(pf, alg, m, index, ds);
    MetTwiceIffRepeated(m, ps);
    UnrepeatedIsFlat(m, ps);
    WriteBackIsRfc(pf, alg, m, index, ds);
  }
}
