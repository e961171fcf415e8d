/** How the rebuilt payload depends on what was revealed. */
module Rebuilding {
  import opened Wrappers
  import opened JsonModel
  import opened Platform
  import opened Disclosures
  import opened Reconstruct
  import opened DisclosureStage

  /** Takes the members `dropped` out of the objects they were written into. */
  function Erase(j: Json, p: Path, dropped: Writes): Json
    decreases j
  {
    match j
    case Obj(m) => Obj(map k | k in m && !WrittenAt(dropped, p, k) :: Erase(m[k], p + [k], dropped))
    case _ => j
  }

  /** `a` is `b` with some object members left out. */
  ghost predicate PrunedFrom(a: Json, b: Json)
    decreases b
  {
    if a.Obj? && b.Obj? then
      a.members.Keys <= b.members.Keys &&
      forall k | k in b.members && k in a.members :: PrunedFrom(a.members[k], b.members[k])
    else a == b
  }

  lemma {:induction false} ErasePrunes(j: Json, p: Path, dropped: Writes)
    ensures PrunedFrom(Erase(j, p, dropped), j)
    decreases j
  {
    if j.Obj? {
      forall k | k in j.members && !WrittenAt(dropped, p, k)
        ensures PrunedFrom(Erase(j.members[k], p + [k], dropped), j.members[k])
      {
        ErasePrunes(j.members[k], p + [k], dropped);
      }
    }
  }

  /** The writes of `w` that `v` does without. */
  function Dropped(v: Writes, w: Writes): Writes {
    map k | k in w && k !in v :: w[k]
  }

  /** Every write goes to an object of the payload. */
  ghost predicate InPayload(m: Object, w: Writes) {
    forall k | k in w :: ObjectAt(m, w[k].path).Some?
  }

  /** The object at `p` already has a member `k` when `k` is written there. */
  ghost predicate Overwrites(m: Object, w: Writes, p: Path, k: string) {
    WrittenAt(w, p, k) && ObjectAt(m, p).Some? && k in ObjectAt(m, p).value
  }

  /** No revealed claim has the name of a member its object already has. */
  ghost predicate Fresh(m: Object, w: Writes) {
    forall k | k in w :: !Overwrites(m, w, w[k].path, k)
  }

  /** Nothing is erased where nothing was dropped. */
  lemma {:induction false} EraseNothing(j: Json, p: Path, dropped: Writes)
    requires forall k | k in dropped :: !(p <= dropped[k].path)
    ensures Erase(j, p, dropped) == j
    decreases j
  {
    if j.Obj? {
      forall k | k in j.members
        ensures !WrittenAt(dropped, p, k)
        ensures Erase(j.members[k], p + [k], dropped) == j.members[k]
      {
        assert forall k' | k' in dropped :: p + [k] <= dropped[k'].path ==> p <= dropped[k'].path;
        EraseNothing(j.members[k], p + [k], dropped);
      }
      assert Erase(j, p, dropped).members == j.members;
    }
  }

  /** A member that is no object of the payload has no positions below it. */
  lemma NothingBelow(m: Object, p: Path, o: Object, k: string, w: Writes)
    requires ObjectAt(m, p) == Some(o) && InPayload(m, w) && (k !in o || !o[k].Obj?)
    ensures forall k' | k' in w :: !(p + [k] <= w[k'].path)
  {
    forall k' | k' in w
      ensures !(p + [k] <= w[k'].path)
    {
      var q := w[k'].path;
      if p + [k] <= q {
        ObjectAtChild(m, p, k);
        assert p + [k] + q[|p| + 1..] == q;
        ObjectAtAppend(m, p + [k], q[|p| + 1..]);
      }
    }
  }

  /** Revealing less is revealing more and erasing the difference, when nothing is overwritten. */
  lemma {:induction false} RebuildLess(m: Object, v: Writes, w: Writes, p: Path, o: Object)
    requires ObjectAt(m, p) == Some(o) && InPayload(m, w) && Fresh(m, w) && SubWrites(v, w)
    ensures Rebuild(Obj(o), p, v) == Erase(Rebuild(Obj(o), p, w), p, Dropped(v, w))
    decreases Obj(o), 2
  {
    var less := Rebuild(Obj(o), p, v).members;
    var want := Erase(Rebuild(Obj(o), p, w), p, Dropped(v, w)).members;
    forall k
      ensures k in less <==> k in want
      ensures k in less ==> less[k] == want[k]
    {
      RebuildLessKey(m, v, w, p, o, k);
    }
    assert less == want;
  }

  lemma {:induction false} RebuildLessKey(m: Object, v: Writes, w: Writes, p: Path, o: Object, k: string)
    requires ObjectAt(m, p) == Some(o) && InPayload(m, w) && Fresh(m, w) && SubWrites(v, w)
    ensures var less := Rebuild(Obj(o), p, v).members;
            var want := Erase(Rebuild(Obj(o), p, w), p, Dropped(v, w)).members;
            (k in less <==> k in want) && (k in less ==> less[k] == want[k])
    decreases Obj(o), 1
  {
    if WrittenAt(w, p, k) {
      assert !Overwrites(m, w, p, k);
      RebuildLessWritten(m, v, w, p, o, k);
    } else {
      if k in o {
        RebuildLessMember(m, v, w, p, o, k);
      }
      RebuildLessKept(v, w, p, o, k);
    }
  }

  lemma RebuildLessKept(v: Writes, w: Writes, p: Path, o: Object, k: string)
    requires SubWrites(v, w) && !WrittenAt(w, p, k)
    requires k in o ==> Rebuild(o[k], p + [k], v) == Erase(Rebuild(o[k], p + [k], w), p + [k], Dropped(v, w))
    ensures var less := Rebuild(Obj(o), p, v).members;
            var want := Erase(Rebuild(Obj(o), p, w), p, Dropped(v, w)).members;
            (k in less <==> k in want) && (k in less ==> less[k] == want[k])
  {
    assert !WrittenAt(v, p, k) && !WrittenAt(Dropped(v, w), p, k);
    var whole := Rebuild(Obj(o), p, w).members;
    if k in o {
      assert whole[k] == Rebuild(o[k], p + [k], w);
    } else {
      assert k !in whole;
    }
  }

  lemma RebuildLessWritten(m: Object, v: Writes, w: Writes, p: Path, o: Object, k: string)
    requires ObjectAt(m, p) == Some(o) && InPayload(m, w) && SubWrites(v, w)
    requires WrittenAt(w, p, k) && k !in o
    ensures var less := Rebuild(Obj(o), p, v).members;
            var want := Erase(Rebuild(Obj(o), p, w), p, Dropped(v, w)).members;
            (k in less <==> k in want) && (k in less ==> less[k] == want[k])
  {
    var whole := Rebuild(Obj(o), p, w).members;
    assert k in whole && whole[k] == w[k].value;
    if k in v {
      NothingBelow(m, p, o, k, Dropped(v, w));
      EraseNothing(w[k].value, p + [k], Dropped(v, w));
      assert !WrittenAt(Dropped(v, w), p, k);
    } else {
      assert WrittenAt(Dropped(v, w), p, k);
    }
  }

  lemma {:induction false} RebuildLessMember(m: Object, v: Writes, w: Writes, p: Path, o: Object, k: string)
    requires ObjectAt(m, p) == Some(o) && InPayload(m, w) && Fresh(m, w) && SubWrites(v, w)
    requires k in o
    ensures Rebuild(o[k], p + [k], v) == Erase(Rebuild(o[k], p + [k], w), p + [k], Dropped(v, w))
    decreases Obj(o), 0
  {
    match o[k]
    case Obj(below) =>
      ObjectAtChild(m, p, k);
      RebuildLess(m, v, w, p + [k], below);
    case _ =>
  }

  /** No write lies on the way from the root to `p`. */
  ghost predicate OpenTo(w: Writes, p: Path) {
    forall i | 0 <= i < |p| :: !WrittenAt(w, p[..i], p[i])
  }

  /** The object at an open position of the rebuilt payload is the one of the payload, rebuilt. */
  lemma {:induction false} ObjectOfRebuilt(m: Object, w: Writes, p: Path, n: nat, o: Object)
    requires n <= |p| && OpenTo(w, p) && ObjectAt(m, p).Some? && ObjectAt(m, p[..n]) == Some(o)
    ensures ObjectAt(Rebuild(Obj(o), p[..n], w).members, p[n..]) ==
            Some(Rebuild(Obj(ObjectAt(m, p).value), p, w).members)
    decreases |p| - n
  {
    if n == |p| {
      assert p[..n] == p && p[n..] == [];
    } else {
      var k := p[n];
      assert p[..n + 1] == p[..n] + [k] && p[n..][0] == k && p[n..][1..] == p[n + 1..];
      ObjectAtChild(m, p[..n], k);
      ObjectAtAppend(m, p[..n + 1], p[n + 1..]);
      assert p[..n + 1] + p[n + 1..] == p;
      ObjectOfRebuilt(m, w, p, n + 1, o[k].members);
    }
  }

  /** Likewise for an object that is erased from. */
  lemma {:induction false} ObjectOfErased(j: Json, dropped: Writes, p: Path, n: nat)
    requires n <= |p| && OpenTo(dropped, p) && j.Obj? && ObjectAt(j.members, p[n..]).Some?
    ensures ObjectAt(Erase(j, p[..n], dropped).members, p[n..]) ==
            Some(Erase(Obj(ObjectAt(j.members, p[n..]).value), p, dropped).members)
    decreases |p| - n
  {
    if n == |p| {
      assert p[..n] == p && p[n..] == [];
    } else {
      var k := p[n];
      assert p[..n + 1] == p[..n] + [k] && p[n..][0] == k && p[n..][1..] == p[n + 1..];
      ObjectOfErased(j.members[k], dropped, p, n + 1);
    }
  }

  /** Among overwriting writes there is one whose object is still in place. */
  lemma {:induction false} OutermostOverwrite(m: Object, w: Writes, p: Path, k: string)
    returns (q: Path, k': string)
    requires Overwrites(m, w, p, k)
    ensures Overwrites(m, w, q, k') && OpenTo(w, q)
    decreases |p|
  {
    if OpenTo(w, p) {
      q, k' := p, k;
    } else {
      var i :| 0 <= i < |p| && WrittenAt(w, p[..i], p[i]);
      ObjectAtAppend(m, p[..i], p[i..]);
      assert p[..i] + p[i..] == p && p[i..][0] == p[i];
      q, k' := OutermostOverwrite(m, w, p[..i], p[i]);
    }
  }

  /** If something is overwritten, leaving that one claim out does not just remove it. */
  lemma OverwriteShows(m: Object, w: Writes, p: Path, k: string)
    requires Overwrites(m, w, p, k) && OpenTo(w, p)
    ensures var v := map k' | k' in w && k' != k :: w[k'];
            Rebuild(Obj(m), [], v) != Erase(Rebuild(Obj(m), [], w), [], Dropped(v, w))
  {
    var v := map k' | k' in w && k' != k :: w[k'];
    var dropped := Dropped(v, w);
    var o := ObjectAt(m, p).value;
    assert OpenTo(v, p) && OpenTo(dropped, p) by {
      forall i | 0 <= i < |p|
        ensures !WrittenAt(v, p[..i], p[i]) && !WrittenAt(dropped, p[..i], p[i])
      {
        assert !WrittenAt(w, p[..i], p[i]);
      }
    }
    assert p[..0] == [] && p[0..] == p;
    ObjectOfRebuilt(m, v, p, 0, m);
    ObjectOfRebuilt(m, w, p, 0, m);
    ObjectOfErased(Rebuild(Obj(m), [], w), dropped, p, 0);
    assert k in Rebuild(Obj(o), p, v).members;
    assert k !in Erase(Rebuild(Obj(o), p, w), p, dropped).members;
  }

  /** All ways of revealing less than `w` only take members away. */
  ghost predicate ShrinksCleanly(m: Object, w: Writes) {
    forall v: Writes | SubWrites(v, w) ::
      Rebuild(Obj(m), [], v) == Erase(Rebuild(Obj(m), [], w), [], Dropped(v, w))
  }

  /**
   * Withholding part of what could be revealed removes exactly the withheld members, whatever
   * the part, if and only if no revealed claim replaces a member that is already there.
   */
  lemma ShrinksCleanlyIffFresh(m: Object, w: Writes)
    requires InPayload(m, w)
    ensures ShrinksCleanly(m, w) <==> Fresh(m, w)
  {
    if Fresh(m, w) {
      forall v: Writes | SubWrites(v, w) {
        RebuildLess(m, v, w, [], m);
      }
    } else {
      var k :| k in w && Overwrites(m, w, w[k].path, k);
      var q, k' := OutermostOverwrite(m, w, w[k].path, k);
      OverwriteShows(m, w, q, k');
      var v := map k'' | k'' in w && k'' != k' :: w[k''];
      assert SubWrites(v, w);
    }
  }

  /** An object with nothing but values and one digest is indexed by that digest alone. */
  lemma OneDigestIndex(m: Object, digest: string)
    requires m == map["a" := Null, SD := Arr([Str(digest)])]
    ensures IsIndex(m, map[digest := []])
  {
    assert m[SD].items[0] == Str(digest);
    assert SdStrings(m) == {digest};
    assert Holds(m, [], digest);
  }

  /** It can happen: the loop accepts a disclosure for a claim that is already there. */
  lemma DisclosureCanOverwrite(pf: Suite, alg: HashAlg, text: string, salt: string, v: Json)
    requires ParseDisclosure(pf, text) == Some(Disclosure(salt, "a", v))
    ensures var digest := pf.digest(alg, text);
            var m: Object := map["a" := Null, SD := Arr([Str(digest)])];
            var index: map<string, Path> := map[digest := []];
            && IsIndex(m, index)
            && Process(pf, alg, index, [text]) == Ok(map["a" := Placed([], v)])
            && !ShrinksCleanly(m, map["a" := Placed([], v)])
  {
    var digest := pf.digest(alg, text);
    var m: Object := map["a" := Null, SD := Arr([Str(digest)])];
    var index: map<string, Path> := map[digest := []];
    var w: Writes := map["a" := Placed([], v)];
    OneDigestIndex(m, digest);
    ProcessOfOne(pf, alg, index, text, Disclosure(salt, "a", v));
    assert Overwrites(m, w, [], "a");
    ShrinksCleanlyIffFresh(m, w);
  }
}
