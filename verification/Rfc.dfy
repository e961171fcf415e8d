/** The recursive algorithm of section 7.1 of RFC 9901, and its agreement with the write-back. */
module Rfc {
  import opened Wrappers
  import opened JsonModel
  import opened Platform
  import opened Disclosures
  import opened Reconstruct
  import opened DisclosureStage
  import opened Rebuilding

  /** A disclosure as the standard reads it: for an object if it is an array of three elements with
      a name in the middle, which may be empty; for an array if it is one of two elements. */
  datatype Item = Claim(claimName: string, value: Json) | Element(value: Json) | Malformed(value: Json)
  {
    function Name(): Option<string> {
      match this
      case Claim(claimName, _) => Some(claimName)
      case _ => None
    }
  }

  function ReadItem(pf: Suite, text: string): Item {
    match pf.decode(text)
    case Some(Arr(items)) =>
      if |items| == 3 && items[1].Str? then Claim(items[1].s, items[2])
      else if |items| == 2 then Element(items[1])
      else Malformed(Null)
    case _ => Malformed(Null)
  }

  function NameOf(pf: Suite, text: string): Option<string> {
    ReadItem(pf, text).Name()
  }

  /** The digest an array element stands for: that of an object with the one member `...`. */
  function Slot(j: Json): Option<string> {
    if j.Obj? && j.members.Keys == {"..."} && j.members["..."].Str? then Some(j.members["..."].s) else None
  }

  /** The code takes an empty name for none, and otherwise reads names as the standard does. */
  lemma NamesAgree(pf: Suite, text: string)
    requires ParseDisclosure(pf, text).Some?
    ensures KeyOf(pf, text) == "" <==> NameOf(pf, text) == None || NameOf(pf, text) == Some("")
    ensures KeyOf(pf, text) != "" ==> NameOf(pf, text) == Some(KeyOf(pf, text))
    ensures NameOf(pf, text).Some? ==>
              ReadItem(pf, text).value == ParseDisclosure(pf, text).value.value
  {
  }

  /** The presented disclosures by digest. */
  type Presented = map<string, Item>

  /**
   * What step 3 of the algorithm inserts, without the removal of `_sd` and of unmatched array
   * elements: each object gets the claims whose digests it lists, each array the elements for
   * which it has a slot, and inserted values are processed in turn, using each digest once. What
   * the step rejects is `Rejects` below.
   */
  function Reveal(j: Json, ps: Presented): Json
    decreases ps.Keys, j, 1
  {
    match j
    case Obj(m) =>
      var kept := RevealMembers(j, ps);
      if SD in m && m[SD].Arr? then Obj(Insert(kept, m[SD].items, ps)) else Obj(kept)
    case Arr(items) =>
      Arr(seq(|items|, i requires 0 <= i < |items| =>
        match Slot(items[i])
        case None => Reveal(items[i], ps)
        case Some(d) =>
          if d in ps && ps[d].Element? then Reveal(ps[d].value, ps - {d}) else Reveal(items[i], ps)))
    case _ => j
  }

  function RevealMembers(j: Json, ps: Presented): Object
    requires j.Obj?
    decreases ps.Keys, j, 0
  {
    map k | k in j.members :: Reveal(j.members[k], ps)
  }

  /** Inserts the claims behind the digests of one `_sd` array, one after the other. */
  function Insert(kept: Object, items: seq<Json>, ps: Presented): Object
    decreases ps.Keys, items
  {
    if items == [] then kept
    else
      var before, last := Insert(kept, items[..|items| - 1], ps), items[|items| - 1];
      if last.Str? && last.s in ps && ps[last.s].Name().Some? then
        before[ps[last.s].Name().value := Reveal(ps[last.s].value, ps - {last.s})]
      else before
  }

  /** No object or array anywhere in `j` lists a digest of `ps`. */
  ghost predicate Clear(j: Json, ps: Presented) {
    match j
    case Obj(m) => SdStrings(m) !! ps.Keys && forall k | k in m :: Clear(m[k], ps)
    case Arr(items) =>
      forall i | 0 <= i < |items| ::
        Clear(items[i], ps) && (Slot(items[i]).Some? ==> Slot(items[i]).value !in ps)
    case _ => true
  }

  /** Arrays of `j` are clear; objects reached through members may list digests. */
  ghost predicate ArraysClear(j: Json, ps: Presented) {
    match j
    case Obj(m) => forall k | k in m :: ArraysClear(m[k], ps)
    case Arr(_) => Clear(j, ps)
    case _ => true
  }

  lemma {:induction false} ClearOfFewer(j: Json, ps: Presented, fewer: Presented)
    requires Clear(j, ps) && fewer.Keys <= ps.Keys
    ensures Clear(j, fewer)
    decreases j
  {
    match j
    case Obj(m) =>
      forall k | k in m {
        ClearOfFewer(m[k], ps, fewer);
      }
    case Arr(items) =>
      forall i | 0 <= i < |items| {
        ClearOfFewer(items[i], ps, fewer);
      }
    case _ =>
  }

  lemma {:induction false} InsertNothing(kept: Object, items: seq<Json>, ps: Presented)
    requires forall i | 0 <= i < |items| && items[i].Str? :: items[i].s !in ps
    ensures Insert(kept, items, ps) == kept
    decreases items
  {
    if items != [] {
      InsertNothing(kept, items[..|items| - 1], ps);
    }
  }

  lemma {:induction false} RevealNothing(j: Json, ps: Presented)
    requires Clear(j, ps)
    ensures Reveal(j, ps) == j
    decreases j
  {
    match j
    case Obj(m) =>
      var kept := RevealMembers(j, ps);
      forall k | k in m
        ensures Reveal(m[k], ps) == m[k]
      {
        RevealNothing(m[k], ps);
      }
      assert kept == m;
      if SD in m && m[SD].Arr? {
        var items := m[SD].items;
        forall i | 0 <= i < |items| && items[i].Str?
          ensures items[i].s !in ps
        {
          assert items[i].s in SdStrings(m);
        }
        InsertNothing(kept, items, ps);
      }
    case Arr(items) =>
      forall i | 0 <= i < |items|
        ensures Reveal(items[i], ps) == items[i]
      {
        RevealNothing(items[i], ps);
      }
      assert Reveal(j, ps).items == items;
    case _ =>
  }

  /** Digests stand for different names. */
  ghost predicate NamesApart(ps: Presented) {
    forall d, e | d in ps && e in ps && ps[d].Name() == ps[e].Name() :: ps[d].Name() in {None, Some("")} || d == e
  }

  /** The object gets a member for each name that is listed. */
  lemma {:induction false} InsertHas(kept: Object, items: seq<Json>, ps: Presented, k: string)
    ensures k in Insert(kept, items, ps) <==>
            k in kept || exists d | d in ps :: Str(d) in items && ps[d].Name() == Some(k)
    decreases items
  {
    if items != [] {
      var n := |items| - 1;
      InsertHas(kept, items[..n], ps, k);
      assert items == items[..n] + [items[n]];
    }
  }

  /** One claim per listed and presented name; the rest stays. */
  lemma {:induction false} InsertMeaning(kept: Object, items: seq<Json>, ps: Presented, k: string)
    requires NamesApart(ps)
    ensures var r := Insert(kept, items, ps);
            if exists d | d in ps :: Str(d) in items && ps[d].Name() == Some(k)
            then k in r && (k != "" ==>
                              forall d | d in ps && ps[d].Name() == Some(k) :: r[k] == Reveal(ps[d].value, ps - {d}))
            else (k in r <==> k in kept) && (k in r ==> r[k] == kept[k])
    decreases items
  {
    if items != [] {
      var n := |items| - 1;
      InsertMeaning(kept, items[..n], ps, k);
      assert items == items[..n] + [items[n]];
    }
  }

  /** What the writes say about the object at `p`, in terms of digests. */
  ghost predicate WritesFollow(m: Object, ps: Presented, w: Writes) {
    && (forall k | k in w ::
          k != "" && exists d | d in ps :: ps[d] == Claim(k, w[k].value) && Holds(m, w[k].path, d))
    && (forall d, p | d in ps && Holds(m, p, d) && ps[d].Name().Some? && ps[d].Name() != Some("") ::
          ps[d].Name().value in w && w[ps[d].Name().value] == Placed(p, ps[d].value))
  }

  /** No disclosure has an empty name. */
  ghost predicate NoEmptyNames(ps: Presented) {
    forall d | d in ps :: ps[d].Name() != Some("")
  }

  /** The claims inserted into the object at `p` are the values written there. */
  lemma InsertedAreWritten(m: Object, ps: Presented, w: Writes, p: Path, o: Object, kept: Object, k: string)
    requires ObjectAt(m, p) == Some(o) && NamesApart(ps) && WritesFollow(m, ps, w) && NoEmptyNames(ps)
    requires forall d | d in ps :: Clear(ps[d].value, ps)
    ensures var r := if SD in o && o[SD].Arr? then Insert(kept, o[SD].items, ps) else kept;
            if WrittenAt(w, p, k) then k in r && r[k] == w[k].value
            else (k in r <==> k in kept) && (k in r ==> r[k] == kept[k])
  {
    if WrittenAt(w, p, k) {
      var d :| d in ps && ps[d] == Claim(k, w[k].value) && Holds(m, w[k].path, d);
      ClearOfFewer(ps[d].value, ps, ps - {d});
      RevealNothing(ps[d].value, ps - {d});
      var items := o[SD].items;
      var i :| 0 <= i < |items| && items[i].Str? && items[i].s == d;
      assert Str(d) in items;
      InsertMeaning(kept, items, ps, k);
    } else if SD in o && o[SD].Arr? {
      var items := o[SD].items;
      forall d | d in ps && Str(d) in items && ps[d].Name() == Some(k)
        ensures false
      {
        var i :| 0 <= i < |items| && items[i] == Str(d);
        assert items[i].s in SdStrings(o);
        assert Holds(m, p, d);
      }
      InsertMeaning(kept, items, ps, k);
    }
  }

  lemma {:induction false} RevealIsRebuild(m: Object, ps: Presented, w: Writes, p: Path, o: Object)
    requires ObjectAt(m, p) == Some(o) && NamesApart(ps) && WritesFollow(m, ps, w) && NoEmptyNames(ps)
    requires forall d | d in ps :: Clear(ps[d].value, ps)
    requires ArraysClear(Obj(o), ps)
    ensures Reveal(Obj(o), ps) == Rebuild(Obj(o), p, w)
    decreases Obj(o), 2
  {
    var got, want := Reveal(Obj(o), ps).members, Rebuild(Obj(o), p, w).members;
    forall k
      ensures k in got <==> k in want
      ensures k in got ==> got[k] == want[k]
    {
      RevealedKey(m, ps, w, p, o, k);
    }
    assert got == want;
  }

  /** The same for one name. */
  lemma {:induction false} RevealedKey(m: Object, ps: Presented, w: Writes, p: Path, o: Object, k: string)
    requires ObjectAt(m, p) == Some(o) && NamesApart(ps) && WritesFollow(m, ps, w) && NoEmptyNames(ps)
    requires forall d | d in ps :: Clear(ps[d].value, ps)
    requires ArraysClear(Obj(o), ps)
    ensures var got := Reveal(Obj(o), ps).members;
            && (k in got <==> k in o || WrittenAt(w, p, k))
            && (k in got ==> got[k] == if WrittenAt(w, p, k) then w[k].value else Rebuild(o[k], p + [k], w))
    decreases Obj(o), 1
  {
    var kept := RevealMembers(Obj(o), ps);
    InsertedAreWritten(m, ps, w, p, o, kept, k);
    if k in o && !WrittenAt(w, p, k) {
      RevealMemberIsRebuild(m, ps, w, p, o, k);
      assert kept[k] == Reveal(o[k], ps);
    }
  }

  lemma {:induction false} RevealMemberIsRebuild(m: Object, ps: Presented, w: Writes, p: Path, o: Object, k: string)
    requires ObjectAt(m, p) == Some(o) && NamesApart(ps) && WritesFollow(m, ps, w) && NoEmptyNames(ps)
    requires forall d | d in ps :: Clear(ps[d].value, ps)
    requires ArraysClear(Obj(o), ps) && k in o
    ensures Reveal(o[k], ps) == Rebuild(o[k], p + [k], w)
    decreases Obj(o), 0
  {
    assert ArraysClear(o[k], ps);
    match o[k]
    case Obj(below) =>
      ObjectAtChild(m, p, k);
      RevealIsRebuild(m, ps, w, p + [k], below);
    case Arr(_) =>
      RevealNothing(o[k], ps);
    case _ =>
  }

  /** The presented texts by digest. */
  function ByDigest(pf: Suite, alg: HashAlg, ds: seq<string>): Presented {
    if ds == [] then map[]
    else ByDigest(pf, alg, ds[..|ds| - 1])[pf.digest(alg, ds[|ds| - 1]) := ReadItem(pf, ds[|ds| - 1])]
  }

  /** Different texts of `ds` have different digests. */
  ghost predicate TextsApart(pf: Suite, alg: HashAlg, ds: seq<string>) {
    forall i, j | 0 <= i < |ds| && 0 <= j < |ds| && pf.digest(alg, ds[i]) == pf.digest(alg, ds[j]) :: ds[i] == ds[j]
  }

  lemma {:induction false} ByDigestFrom(pf: Suite, alg: HashAlg, ds: seq<string>, d: string) returns (i: nat)
    requires d in ByDigest(pf, alg, ds)
    ensures i < |ds| && pf.digest(alg, ds[i]) == d && ByDigest(pf, alg, ds)[d] == ReadItem(pf, ds[i])
  {
    var n := |ds| - 1;
    if pf.digest(alg, ds[n]) == d {
      i := n;
    } else {
      i := ByDigestFrom(pf, alg, ds[..n], d);
    }
  }

  lemma {:induction false} ByDigestHas(pf: Suite, alg: HashAlg, ds: seq<string>, i: nat)
    requires i < |ds|
    ensures pf.digest(alg, ds[i]) in ByDigest(pf, alg, ds)
  {
    if i < |ds| - 1 {
      ByDigestHas(pf, alg, ds[..|ds| - 1], i);
    }
  }

  /** The standard finds each text under its digest. */
  lemma ItemOf(pf: Suite, alg: HashAlg, ds: seq<string>, i: nat)
    requires i < |ds| && TextsApart(pf, alg, ds)
    ensures var ps, d := ByDigest(pf, alg, ds), pf.digest(alg, ds[i]);
            d in ps && ps[d] == ReadItem(pf, ds[i])
  {
    ByDigestHas(pf, alg, ds, i);
    var j := ByDigestFrom(pf, alg, ds, pf.digest(alg, ds[i]));
  }

  /** An accepted disclosure, as the code and as the standard see it. */
  lemma AcceptedItem(pf: Suite, alg: HashAlg, m: Object, index: map<string, Path>, ds: seq<string>, d: string)
    returns (i: nat)
    requires IsIndex(m, index) && Process(pf, alg, index, ds).Ok?
    requires d in ByDigest(pf, alg, ds)
    ensures i < |ds| && pf.digest(alg, ds[i]) == d && d in index && Holds(m, index[d], d)
    ensures ByDigest(pf, alg, ds)[d] == ReadItem(pf, ds[i])
    ensures var ps, w := ByDigest(pf, alg, ds), Process(pf, alg, index, ds).value;
            && (KeyOf(pf, ds[i]) == "" <==> ps[d].Name() == None || ps[d].Name() == Some(""))
            && (KeyOf(pf, ds[i]) != "" ==>
                  ps[d].Name() == Some(KeyOf(pf, ds[i])) && KeyOf(pf, ds[i]) in w &&
                  w[KeyOf(pf, ds[i])] == Placed(index[d], ps[d].value))
  {
    AcceptedMeaning(pf, alg, index, ds);
    i := ByDigestFrom(pf, alg, ds, d);
    assert Expected(pf, alg, index, ds[i]);
    NamesAgree(pf, ds[i]);
  }

  /** Accepted disclosures with different digests have different names, unless these are empty. */
  lemma PresentedApart(pf: Suite, alg: HashAlg, m: Object, index: map<string, Path>, ds: seq<string>)
    requires IsIndex(m, index) && Process(pf, alg, index, ds).Ok?
    ensures NamesApart(ByDigest(pf, alg, ds))
  {
    var ps := ByDigest(pf, alg, ds);
    AcceptedMeaning(pf, alg, index, ds);
    forall d, e | d in ps && e in ps && ps[d].Name() == ps[e].Name() && ps[d].Name().Some? && ps[d].Name() != Some("")
      ensures d == e
    {
      var i := AcceptedItem(pf, alg, m, index, ds, d);
      var j := AcceptedItem(pf, alg, m, index, ds, e);
      assert KeyOf(pf, ds[i]) == KeyOf(pf, ds[j]) && KeyOf(pf, ds[i]) != "";
      assert i == j;
    }
  }

  /** A value that was written belongs to a presented digest of the object it was written into. */
  lemma WrittenFromDigest(pf: Suite, alg: HashAlg, m: Object, index: map<string, Path>, ds: seq<string>, k: string)
    returns (d: string)
    requires IsIndex(m, index) && Process(pf, alg, index, ds).Ok? && TextsApart(pf, alg, ds)
    requires k in Process(pf, alg, index, ds).value
    ensures var ps, w := ByDigest(pf, alg, ds), Process(pf, alg, index, ds).value;
            k != "" && d in ps && ps[d] == Claim(k, w[k].value) && Holds(m, w[k].path, d)
  {
    AcceptedMeaning(pf, alg, index, ds);
    var i :| 0 <= i < |ds| && KeyOf(pf, ds[i]) == k;
    d := pf.digest(alg, ds[i]);
    assert Expected(pf, alg, index, ds[i]);
    ItemOf(pf, alg, ds, i);
    NamesAgree(pf, ds[i]);
    assert Holds(m, index[d], d);
  }

  lemma PresentedFollow(pf: Suite, alg: HashAlg, m: Object, index: map<string, Path>, ds: seq<string>)
    requires UniqueDigests(m) && IsIndex(m, index)
    requires Process(pf, alg, index, ds).Ok? && TextsApart(pf, alg, ds)
    ensures WritesFollow(m, ByDigest(pf, alg, ds), Process(pf, alg, index, ds).value)
  {
    var ps, w := ByDigest(pf, alg, ds), Process(pf, alg, index, ds).value;
    forall k | k in w
      ensures k != "" && exists d | d in ps :: ps[d] == Claim(k, w[k].value) && Holds(m, w[k].path, d)
    {
      var d := WrittenFromDigest(pf, alg, m, index, ds, k);
    }
    forall d, p | d in ps && Holds(m, p, d) && ps[d].Name().Some? && ps[d].Name() != Some("")
      ensures ps[d].Name().value in w && w[ps[d].Name().value] == Placed(p, ps[d].value)
    {
      var i := AcceptedItem(pf, alg, m, index, ds, d);
    }
  }

  // ----- What step 3 rejects -----

  /** The claim behind `d` must not be inserted into `m`: it has no name, or a reserved one, or one
      that is taken by a member or by another listed claim. (`_sd` is reserved, too; it is a member
      of every object that lists digests.) */
  ghost predicate Improper(ps: Presented, m: Object, d: string)
    requires d in ps
  {
    || ps[d].Name().None? || ps[d].Name() == Some("...") || ps[d].Name().value in m
    || exists e | e in ps && e in SdStrings(m) :: e != d && ps[e].Name() == ps[d].Name()
  }

  /** Step 3 meets a listed digest whose claim must not be inserted, or a slot whose disclosure is
      not for an array: there, in a member, in an element, or in a value it inserted. */
  ghost predicate Rejects(j: Json, ps: Presented)
    decreases ps.Keys, j
  {
    match j
    case Obj(m) =>
      || (exists k | k in m :: Rejects(m[k], ps))
      || exists d | d in ps && d in SdStrings(m) :: Improper(ps, m, d) || Rejects(ps[d].value, ps - {d})
    case Arr(items) =>
      exists i | 0 <= i < |items| ::
        || Rejects(items[i], ps)
        || (match Slot(items[i])
            case None => false
            case Some(d) => d in ps && (!ps[d].Element? || Rejects(ps[d].value, ps - {d})))
    case _ => false
  }

  /** A presented digest is held at `p` and its claim must not be inserted there. */
  ghost predicate Offends(m: Object, ps: Presented, p: Path, d: string) {
    d in ps && Holds(m, p, d) && Improper(ps, ObjectAt(m, p).value, d)
  }

  lemma {:induction false} ClearIsNotRejected(j: Json, ps: Presented)
    requires Clear(j, ps)
    ensures !Rejects(j, ps)
    decreases j
  {
    match j
    case Obj(m) =>
      forall k | k in m {
        ClearIsNotRejected(m[k], ps);
      }
    case Arr(items) =>
      forall i | 0 <= i < |items| {
        ClearIsNotRejected(items[i], ps);
      }
    case _ =>
  }

  lemma OffendsBelow(m: Object, ps: Presented, k: string, p: Path, d: string)
    requires k in m && m[k].Obj?
    ensures Offends(m, ps, [k] + p, d) <==> Offends(m[k].members, ps, p, d)
  {
    assert ([k] + p)[0] == k && ([k] + p)[1..] == p;
  }

  /** Step 3 rejects exactly when some object lists an offending digest. */
  lemma {:induction false} RejectsMeaning(m: Object, ps: Presented)
    requires ArraysClear(Obj(m), ps) && forall d | d in ps :: Clear(ps[d].value, ps)
    ensures Rejects(Obj(m), ps) <==> exists p, d :: Offends(m, ps, p, d)
    decreases Obj(m)
  {
    if Rejects(Obj(m), ps) {
      var p, d := FindOffence(m, ps);
    }
    if p, d :| Offends(m, ps, p, d) {
      if p == [] {
        assert d in SdStrings(m);
      } else {
        assert ArraysClear(m[p[0]], ps) && p == [p[0]] + p[1..];
        OffendsBelow(m, ps, p[0], p[1..], d);
        RejectsMeaning(m[p[0]].members, ps);
      }
    }
  }

  lemma {:induction false} FindOffence(m: Object, ps: Presented) returns (p: Path, d: string)
    requires ArraysClear(Obj(m), ps) && forall d | d in ps :: Clear(ps[d].value, ps)
    requires Rejects(Obj(m), ps)
    ensures Offends(m, ps, p, d)
    decreases Obj(m)
  {
    if k :| k in m && Rejects(m[k], ps) {
      assert ArraysClear(m[k], ps);
      if m[k].Arr? {
        ClearIsNotRejected(m[k], ps);
        assert false;
      }
      p, d := FindOffence(m[k].members, ps);
      OffendsBelow(m, ps, k, p, d);
      p := [k] + p;
    } else {
      d :| d in ps && d in SdStrings(m) && (Improper(ps, m, d) || Rejects(ps[d].value, ps - {d}));
      ClearOfFewer(ps[d].value, ps, ps - {d});
      ClearIsNotRejected(ps[d].value, ps - {d});
      p := [];
    }
  }

  /** An array element with the one member `...` is filled by a disclosure of two elements, and
      makes the standard reject any other one. */
  lemma SlotMeaning(items: seq<Json>, i: nat, d: string, ps: Presented)
    requires i < |items| && items[i] == Obj(map["..." := Str(d)]) && d in ps && Clear(ps[d].value, ps)
    ensures ps[d].Element? ==> Reveal(Arr(items), ps).items[i] == ps[d].value
    ensures !ps[d].Element? ==> Rejects(Arr(items), ps)
  {
    assert items[i].members["..."] == Str(d);
    assert Slot(items[i]) == Some(d);
    ClearOfFewer(ps[d].value, ps, ps - {d});
    RevealNothing(ps[d].value, ps - {d});
  }

  // ----- The comparison -----

  /** Neither a disclosed value nor an array of the payload lists a presented digest. */
  ghost predicate NothingInside(m: Object, ps: Presented) {
    ArraysClear(Obj(m), ps) && forall d | d in ps :: Clear(ps[d].value, ps)
  }

  /** An empty name that step 3 does not reject is inserted by it, and left out by the code. */
  lemma {:induction false} EmptyNameShows(m: Object, ps: Presented, w: Writes, p: Path, o: Object, q: Path, d: string)
    requires ObjectAt(m, p) == Some(o) && WritesFollow(m, ps, w) && !Rejects(Obj(o), ps)
    requires d in ps && ps[d].Name() == Some("") && Holds(o, q, d)
    ensures Reveal(Obj(o), ps) != Rebuild(Obj(o), p, w)
    decreases Obj(o)
  {
    var got, want, kept := Reveal(Obj(o), ps).members, Rebuild(Obj(o), p, w).members, RevealMembers(Obj(o), ps);
    if q == [] {
      var items := o[SD].items;
      var i :| 0 <= i < |items| && items[i] == Str(d);
      InsertHas(kept, items, ps, "");
      assert !Improper(ps, o, d);
      assert "" in got && "" !in want;
    } else {
      var k := q[0];
      ObjectAtChild(m, p, k);
      EmptyNameShows(m, ps, w, p + [k], o[k].members, q[1..], d);
      NotInserted(m, ps, w, p, o, k);
      assert got[k] == Reveal(o[k], ps) && want[k] == Rebuild(o[k], p + [k], w);
    }
  }

  /** Where step 3 does not reject, a member that is there is neither inserted nor written. */
  lemma NotInserted(m: Object, ps: Presented, w: Writes, p: Path, o: Object, k: string)
    requires ObjectAt(m, p) == Some(o) && WritesFollow(m, ps, w) && !Rejects(Obj(o), ps) && k in o
    ensures !WrittenAt(w, p, k)
    ensures k in Reveal(Obj(o), ps).members && Reveal(Obj(o), ps).members[k] == Reveal(o[k], ps)
  {
    forall d | d in ps && d in SdStrings(o)
      ensures ps[d].Name() != Some(k)
    {
      assert !Improper(ps, o, d);
    }
    var kept := RevealMembers(Obj(o), ps);
    if SD in o && o[SD].Arr? {
      forall d | d in ps && Str(d) in o[SD].items
        ensures ps[d].Name() != Some(k)
      {
        var i :| 0 <= i < |o[SD].items| && o[SD].items[i] == Str(d);
        assert o[SD].items[i].s in SdStrings(o);
        assert !Improper(ps, o, d);
      }
      InsertKeeps(kept, o[SD].items, ps, k);
    }
  }

  lemma {:induction false} InsertKeeps(kept: Object, items: seq<Json>, ps: Presented, k: string)
    requires k in kept && forall d | d in ps && Str(d) in items :: ps[d].Name() != Some(k)
    ensures k in Insert(kept, items, ps) && Insert(kept, items, ps)[k] == kept[k]
    decreases items
  {
    if items != [] {
      assert items == items[..|items| - 1] + [items[|items| - 1]];
      InsertKeeps(kept, items[..|items| - 1], ps, k);
    }
  }

  /**
   * The write-back is the algorithm of the standard. For any payload with unique digests and any
   * accepted disclosures, provided no text collides with another, and neither a disclosed value
   * nor an array of the payload lists a presented digest: both give the same object if no
   * disclosure has an empty name, and, unless step 3 rejects, only then.
   */
  lemma WriteBackIsRfc(pf: Suite, alg: HashAlg, m: Object, index: map<string, Path>, ds: seq<string>)
    requires UniqueDigests(m) && IsIndex(m, index)
    requires Process(pf, alg, index, ds).Ok? && TextsApart(pf, alg, ds)
    requires NothingInside(m, ByDigest(pf, alg, ds))
    ensures var ps, rebuilt := ByDigest(pf, alg, ds), Rebuild(Obj(m), [], Process(pf, alg, index, ds).value);
            && (NoEmptyNames(ps) ==> rebuilt == Reveal(Obj(m), ps))
            && (!Rejects(Obj(m), ps) ==> (rebuilt == Reveal(Obj(m), ps) <==> NoEmptyNames(ps)))
  {
    var ps, w := ByDigest(pf, alg, ds), Process(pf, alg, index, ds).value;
    PresentedApart(pf, alg, m, index, ds);
    PresentedFollow(pf, alg, m, index, ds);
    if NoEmptyNames(ps) {
      RevealIsRebuild(m, ps, w, [], m);
    } else if !Rejects(Obj(m), ps) {
      var d :| d in ps && ps[d].Name() == Some("");
      var i := AcceptedItem(pf, alg, m, index, ds, d);
      EmptyNameShows(m, ps, w, [], m, index[d], d);
    }
  }

  /** Some disclosure has no name, or the name `...`. */
  ghost predicate Unnamed(pf: Suite, ds: seq<string>) {
    exists i | 0 <= i < |ds| :: NameOf(pf, ds[i]) == None || NameOf(pf, ds[i]) == Some("...")
  }

  /** An empty name is taken already, by a member of its object or by another disclosure there. */
  ghost predicate EmptyNameTaken(m: Object, ps: Presented) {
    exists p, d | d in ps && ps[d].Name() == Some("") && Holds(m, p, d) ::
      || "" in ObjectAt(m, p).value
      || exists e | e in ps && Holds(m, p, e) :: e != d && ps[e].Name() == Some("")
  }

  /**
   * Step 3 is stricter than the loop. Of the disclosures the loop accepts, it rejects exactly
   * those lists in which some disclosure carries no claim name, is named `...`, or has a name
   * that is taken in its object.
   */
  lemma StepThreeIsStricter(pf: Suite, alg: HashAlg, m: Object, index: map<string, Path>, ds: seq<string>)
    requires UniqueDigests(m) && IsIndex(m, index)
    requires Process(pf, alg, index, ds).Ok? && TextsApart(pf, alg, ds)
    requires NothingInside(m, ByDigest(pf, alg, ds))
    ensures var ps := ByDigest(pf, alg, ds);
            Rejects(Obj(m), ps) <==>
            Unnamed(pf, ds) || !Fresh(m, Process(pf, alg, index, ds).value) || EmptyNameTaken(m, ps)
  {
    var ps, w := ByDigest(pf, alg, ds), Process(pf, alg, index, ds).value;
    RejectsMeaning(m, ps);
    if p, d :| Offends(m, ps, p, d) {
      OffenceShows(pf, alg, m, index, ds, p, d);
    }
    if Unnamed(pf, ds) {
      UnnamedOffends(pf, alg, m, index, ds);
    }
    if k :| k in w && Overwrites(m, w, w[k].path, k) {
      var d := WrittenFromDigest(pf, alg, m, index, ds, k);
      assert Offends(m, ps, w[k].path, d);
    }
    if EmptyNameTaken(m, ps) {
      EmptyNameOffends(m, ps);
    }
  }

  lemma EmptyNameOffends(m: Object, ps: Presented)
    requires EmptyNameTaken(m, ps)
    ensures exists p, d :: Offends(m, ps, p, d)
  {
    var p, d :| d in ps && ps[d].Name() == Some("") && Holds(m, p, d) &&
      ("" in ObjectAt(m, p).value || exists e | e in ps && Holds(m, p, e) :: e != d && ps[e].Name() == Some(""));
    if "" !in ObjectAt(m, p).value {
      var e :| e in ps && Holds(m, p, e) && e != d && ps[e].Name() == Some("");
      assert e in SdStrings(ObjectAt(m, p).value);
    }
    assert Offends(m, ps, p, d);
  }

  lemma OffenceShows(pf: Suite, alg: HashAlg, m: Object, index: map<string, Path>, ds: seq<string>, p: Path, d: string)
    requires UniqueDigests(m) && IsIndex(m, index)
    requires Process(pf, alg, index, ds).Ok? && TextsApart(pf, alg, ds)
    requires Offends(m, ByDigest(pf, alg, ds), p, d)
    ensures Unnamed(pf, ds) || !Fresh(m, Process(pf, alg, index, ds).value) || EmptyNameTaken(m, ByDigest(pf, alg, ds))
  {
    var ps, w, o := ByDigest(pf, alg, ds), Process(pf, alg, index, ds).value, ObjectAt(m, p).value;
    var i := AcceptedItem(pf, alg, m, index, ds, d);
    assert index[d] == p;
    if NameOf(pf, ds[i]) == None || NameOf(pf, ds[i]) == Some("...") {
      assert Unnamed(pf, ds);
    } else if ps[d].Name().value in o {
      if ps[d].Name().value != "" {
        assert Overwrites(m, w, p, ps[d].Name().value);
      }
    } else {
      var e :| e in ps && e in SdStrings(o) && e != d && ps[e].Name() == ps[d].Name();
      PresentedApart(pf, alg, m, index, ds);
      assert Holds(m, p, e) && ps[d].Name() == Some("");
    }
  }

  lemma UnnamedOffends(pf: Suite, alg: HashAlg, m: Object, index: map<string, Path>, ds: seq<string>)
    requires IsIndex(m, index) && Process(pf, alg, index, ds).Ok? && TextsApart(pf, alg, ds)
    requires Unnamed(pf, ds)
    ensures exists p, d :: Offends(m, ByDigest(pf, alg, ds), p, d)
  {
    var i :| 0 <= i < |ds| && (NameOf(pf, ds[i]) == None || NameOf(pf, ds[i]) == Some("..."));
    var d := pf.digest(alg, ds[i]);
    ItemOf(pf, alg, ds, i);
    var j := AcceptedItem(pf, alg, m, index, ds, d);
    assert Offends(m, ByDigest(pf, alg, ds), index[d], d);
  }
}
