/** The disclosure loop as a whole: what it accepts, whatever the order, and what it leaves. */
module DisclosureStage {
  import opened Wrappers
  import opened JsonModel
  import opened Platform
  import opened Disclosures
  import opened Reconstruct
  import opened Sublists

  /** The key a disclosure text carries; empty when it has none or does not parse. */
  function KeyOf(pf: Suite, text: string): string {
    match ParseDisclosure(pf, text)
    case None => ""
    case Some(d) => d.key
  }

  /** On its own, this text would be accepted. */
  predicate Expected(pf: Suite, alg: HashAlg, index: map<string, Path>, text: string) {
    ParseDisclosure(pf, text).Some? && pf.digest(alg, text) in index
  }

  /** Where the value of an expected, keyed text belongs. */
  function Placement(pf: Suite, alg: HashAlg, index: map<string, Path>, text: string): Placed
    requires Expected(pf, alg, index, text)
  {
    Placed(index[pf.digest(alg, text)], ParseDisclosure(pf, text).value.value)
  }

  /** No key is used twice. */
  ghost predicate KeysDistinct(pf: Suite, ds: seq<string>) {
    forall i, j | 0 <= i < j < |ds| :: KeyOf(pf, ds[i]) == KeyOf(pf, ds[j]) ==> KeyOf(pf, ds[i]) == ""
  }

  ghost predicate AllExpected(pf: Suite, alg: HashAlg, index: map<string, Path>, ds: seq<string>) {
    forall i | 0 <= i < |ds| :: Expected(pf, alg, index, ds[i])
  }

  /** `w` holds exactly the keyed texts of `ds`, each at its place. */
  ghost predicate Collects(pf: Suite, alg: HashAlg, index: map<string, Path>, ds: seq<string>, w: Writes)
    requires AllExpected(pf, alg, index, ds)
  {
    && (forall i | 0 <= i < |ds| && KeyOf(pf, ds[i]) != "" ::
          KeyOf(pf, ds[i]) in w && w[KeyOf(pf, ds[i])] == Placement(pf, alg, index, ds[i]))
    && (forall k | k in w :: k != "" && exists i | 0 <= i < |ds| :: KeyOf(pf, ds[i]) == k)
  }

  lemma Prefixes(pf: Suite, alg: HashAlg, index: map<string, Path>, ds: seq<string>, n: nat)
    requires n <= |ds|
    ensures AllExpected(pf, alg, index, ds) ==> AllExpected(pf, alg, index, ds[..n])
    ensures KeysDistinct(pf, ds) ==> KeysDistinct(pf, ds[..n])
  {
  }

  lemma ExpectedSnoc(pf: Suite, alg: HashAlg, index: map<string, Path>, ds: seq<string>)
    requires ds != [] && AllExpected(pf, alg, index, ds[..|ds| - 1]) && Expected(pf, alg, index, ds[|ds| - 1])
    ensures AllExpected(pf, alg, index, ds)
  {
    forall i | 0 <= i < |ds|
      ensures Expected(pf, alg, index, ds[i])
    {
      if i < |ds| - 1 {
        assert ds[..|ds| - 1][i] == ds[i];
      }
    }
  }

  lemma {:induction false} AcceptedMeaning(pf: Suite, alg: HashAlg, index: map<string, Path>, ds: seq<string>)
    requires Process(pf, alg, index, ds).Ok?
    ensures AllExpected(pf, alg, index, ds) && KeysDistinct(pf, ds)
    ensures Collects(pf, alg, index, ds, Process(pf, alg, index, ds).value)
  {
    if ds != [] {
      var n := |ds| - 1;
      var before, last := ds[..n], ds[n];
      AcceptedMeaning(pf, alg, index, before);
      var done := Process(pf, alg, index, before).value;
      ExpectedSnoc(pf, alg, index, ds);
      assert before + [last] == ds;
      KeysStayDistinct(pf, before, last, done.Keys);
      CollectsOneMore(pf, alg, index, ds, done, Process(pf, alg, index, ds).value);
    }
  }

  lemma {:induction false} DistinctAccepted(pf: Suite, alg: HashAlg, index: map<string, Path>, ds: seq<string>)
    requires AllExpected(pf, alg, index, ds) && KeysDistinct(pf, ds)
    ensures Process(pf, alg, index, ds).Ok?
  {
    if ds != [] {
      var n := |ds| - 1;
      Prefixes(pf, alg, index, ds, n);
      DistinctAccepted(pf, alg, index, ds[..n]);
      AcceptedMeaning(pf, alg, index, ds[..n]);
      assert KeyOf(pf, ds[n]) != "" ==> KeyOf(pf, ds[n]) !in Process(pf, alg, index, ds[..n]).value;
    }
  }

  /** The loop accepts exactly the lists of expected texts without a repeated key, and collects
      the value of each. */
  lemma ProcessMeaning(pf: Suite, alg: HashAlg, index: map<string, Path>, ds: seq<string>)
    ensures Process(pf, alg, index, ds).Ok? <==> AllExpected(pf, alg, index, ds) && KeysDistinct(pf, ds)
    ensures Process(pf, alg, index, ds).Ok? ==> Collects(pf, alg, index, ds, Process(pf, alg, index, ds).value)
  {
    if Process(pf, alg, index, ds).Ok? {
      AcceptedMeaning(pf, alg, index, ds);
    } else if AllExpected(pf, alg, index, ds) && KeysDistinct(pf, ds) {
      DistinctAccepted(pf, alg, index, ds);
    }
  }

  /** A single keyed disclosure whose digest is listed is accepted and placed there. */
  lemma ProcessOfOne(pf: Suite, alg: HashAlg, index: map<string, Path>, text: string, d: Disclosure)
    requires ParseDisclosure(pf, text) == Some(d) && d.key != ""
    requires pf.digest(alg, text) in index
    ensures Process(pf, alg, index, [text]) ==
            Ok(map[d.key := Placed(index[pf.digest(alg, text)], d.value)])
  {
    assert [text][..0] == [];
    assert Process(pf, alg, index, []) == Ok(map[]);
  }

  lemma KeysStayDistinct(pf: Suite, ds: seq<string>, last: string, keys: set<string>)
    requires KeysDistinct(pf, ds)
    requires forall i | 0 <= i < |ds| && KeyOf(pf, ds[i]) != "" :: KeyOf(pf, ds[i]) in keys
    requires KeyOf(pf, last) == "" || KeyOf(pf, last) !in keys
    ensures KeysDistinct(pf, ds + [last])
  {
  }

  lemma CollectsOneMore(pf: Suite, alg: HashAlg, index: map<string, Path>, ds: seq<string>, done: Writes, w: Writes)
    requires ds != [] && AllExpected(pf, alg, index, ds)
    requires Collects(pf, alg, index, ds[..|ds| - 1], done)
    requires Accept(pf, alg, index, done, ds[|ds| - 1]) == Ok(w)
    ensures Collects(pf, alg, index, ds, w)
  {
    var n := |ds| - 1;
    forall k | k in w
      ensures k != "" && exists i | 0 <= i < |ds| :: KeyOf(pf, ds[i]) == k
    {
      if k in done {
        var i :| 0 <= i < n && KeyOf(pf, ds[..n][i]) == k;
        assert KeyOf(pf, ds[i]) == k;
      } else {
        assert KeyOf(pf, ds[n]) == k;
      }
    }
    forall i | 0 <= i < |ds| && KeyOf(pf, ds[i]) != ""
      ensures KeyOf(pf, ds[i]) in w && w[KeyOf(pf, ds[i])] == Placement(pf, alg, index, ds[i])
    {
      if i < n {
        assert ds[..n][i] == ds[i];
      }
    }
  }

  /** A rejected list is rejected for its first offender: the list is fine up to there. */
  lemma {:induction false} FirstOffender(pf: Suite, alg: HashAlg, index: map<string, Path>, ds: seq<string>)
    returns (n: nat)
    requires Process(pf, alg, index, ds).Err?
    ensures n < |ds|
    ensures AllExpected(pf, alg, index, ds[..n]) && KeysDistinct(pf, ds[..n])
    ensures var key := KeyOf(pf, ds[n]);
            Process(pf, alg, index, ds) ==
            if ParseDisclosure(pf, ds[n]).None? then Err(DisclosureUnparsable)
            else if pf.digest(alg, ds[n]) !in index then Err(DisclosureMismatch(key))
            else Err(DisclosureDuplicate(key))
    ensures Expected(pf, alg, index, ds[n]) ==>
              KeyOf(pf, ds[n]) != "" && exists i | 0 <= i < n :: KeyOf(pf, ds[i]) == KeyOf(pf, ds[n])
  {
    n := |ds| - 1;
    var before := ds[..n];
    ProcessMeaning(pf, alg, index, before);
    if Process(pf, alg, index, before).Err? {
      n := FirstOffender(pf, alg, index, before);
      assert ds[..n] == before[..n];
    } else if Expected(pf, alg, index, ds[n]) {
      var i :| 0 <= i < |before| && KeyOf(pf, before[i]) == KeyOf(pf, ds[n]);
      assert ds[i] == before[i];
    }
  }

  // ----- Order -----

  lemma {:induction false} TwiceIsTwo<T>(s: seq<T>, i: nat, j: nat)
    requires i < j < |s| && s[i] == s[j]
    ensures multiset(s)[s[i]] >= 2
  {
    assert s == s[..j] + s[j..];
    assert s[..j][i] == s[i] && s[j..][0] == s[j];
  }

  lemma TwoIsTwice<T>(s: seq<T>, x: T) returns (i: nat, j: nat)
    requires multiset(s)[x] >= 2
    ensures i < j < |s| && s[i] == x && s[j] == x
  {
    assert x in s;
    var a :| 0 <= a < |s| && s[a] == x;
    var rest := s[..a] + s[a + 1..];
    assert s == s[..a] + [s[a]] + s[a + 1..];
    assert multiset(rest)[x] >= 1;
    assert x in rest;
    var b :| 0 <= b < |rest| && rest[b] == x;
    if b < a {
      i, j := b, a;
    } else {
      i, j := a, b + 1;
    }
  }

  /** Acceptance looks at which texts are present and how often, not at their order. */
  lemma OrderFree(pf: Suite, alg: HashAlg, index: map<string, Path>, a: seq<string>, b: seq<string>)
    requires multiset(a) == multiset(b)
    requires AllExpected(pf, alg, index, a) && KeysDistinct(pf, a)
    ensures AllExpected(pf, alg, index, b) && KeysDistinct(pf, b)
  {
    forall i | 0 <= i < |b|
      ensures Expected(pf, alg, index, b[i])
    {
      assert b[i] in multiset(a);
    }
    forall i, j | 0 <= i < j < |b| && KeyOf(pf, b[i]) == KeyOf(pf, b[j])
      ensures KeyOf(pf, b[i]) == ""
    {
      assert b[i] in multiset(a) && b[j] in multiset(a);
      if b[i] == b[j] {
        TwiceIsTwo(b, i, j);
        var i', j' := TwoIsTwice(a, b[i]);
      } else {
        var i' :| 0 <= i' < |a| && a[i'] == b[i];
        var j' :| 0 <= j' < |a| && a[j'] == b[j];
        if i' < j' {
          assert KeyOf(pf, a[i']) == "";
        } else {
          assert KeyOf(pf, a[j']) == "";
        }
      }
    }
  }

  lemma CollectsSame(pf: Suite, alg: HashAlg, index: map<string, Path>, a: seq<string>, b: seq<string>,
                     v: Writes, w: Writes)
    requires AllExpected(pf, alg, index, a) && AllExpected(pf, alg, index, b)
    requires Collects(pf, alg, index, a, v) && Collects(pf, alg, index, b, w)
    requires forall x | x in a :: x in b
    ensures v.Keys <= w.Keys && forall k | k in v :: w[k] == v[k]
  {
    forall k | k in v
      ensures k in w && w[k] == v[k]
    {
      var i :| 0 <= i < |a| && KeyOf(pf, a[i]) == k;
      assert a[i] in b;
      var j :| 0 <= j < |b| && b[j] == a[i];
    }
  }

  /** Permuting the disclosures changes neither acceptance nor what is written. */
  lemma ProcessPermuted(pf: Suite, alg: HashAlg, index: map<string, Path>, a: seq<string>, b: seq<string>)
    requires multiset(a) == multiset(b)
    requires Process(pf, alg, index, a).Ok?
    ensures Process(pf, alg, index, b) == Process(pf, alg, index, a)
  {
    AcceptedMeaning(pf, alg, index, a);
    OrderFree(pf, alg, index, a, b);
    DistinctAccepted(pf, alg, index, b);
    AcceptedMeaning(pf, alg, index, b);
    forall x
      ensures x in a <==> x in b
    {
      assert x in multiset(a) <==> x in multiset(b);
    }
    var v, w := Process(pf, alg, index, a).value, Process(pf, alg, index, b).value;
    CollectsSame(pf, alg, index, a, b, v, w);
    CollectsSame(pf, alg, index, b, a, w, v);
    assert v.Keys == w.Keys;
    assert v == w;
  }

  // ----- Sub-lists -----

  /** `v` is `w` with some keys left out. */
  ghost predicate SubWrites(v: Writes, w: Writes) {
    v.Keys <= w.Keys && forall k | k in v :: v[k] == w[k]
  }

  /** Dropping disclosures from an accepted list leaves an accepted list, and drops writes. */
  lemma ProcessSublist(pf: Suite, alg: HashAlg, index: map<string, Path>, a: seq<string>, b: seq<string>)
    requires Sublist(a, b) && Process(pf, alg, index, b).Ok?
    ensures Process(pf, alg, index, a).Ok?
    ensures SubWrites(Process(pf, alg, index, a).value, Process(pf, alg, index, b).value)
  {
    ProcessMeaning(pf, alg, index, a);
    ProcessMeaning(pf, alg, index, b);
    var at := SublistPositions(a, b);
    forall i, j | 0 <= i < j < |a| && KeyOf(pf, a[i]) == KeyOf(pf, a[j])
      ensures KeyOf(pf, a[i]) == ""
    {
      assert at[i] < at[j] && b[at[i]] == a[i] && b[at[j]] == a[j];
    }
    forall i | 0 <= i < |a|
      ensures Expected(pf, alg, index, a[i]) && a[i] in b
    {
      assert b[at[i]] == a[i];
    }
    CollectsSame(pf, alg, index, a, b, Process(pf, alg, index, a).value, Process(pf, alg, index, b).value);
  }
}
