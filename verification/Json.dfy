/** JSON values as `encoding/json` produces them, and positions inside them. */
module JsonModel {
  import opened Wrappers

  /** A number is its decimal text: `mantissa / 10^scale`. */
  datatype Json =
    | Null
    | Bool(b: bool)
    | Num(mantissa: int, scale: nat)
    | Str(s: string)
    | Arr(items: seq<Json>)
    | Obj(members: map<string, Json>)

  type Object = map<string, Json>

  /** A position: the member names on the way down from the root object. */
  type Path = seq<string>

  const SD := "_sd"
  const SD_ALG := "_sd_alg"

  /** The comma-ok type assertion `m[k].(string)`, which yields "" on failure. */
  function StringMember(m: Object, k: string): string {
    if k in m && m[k].Str? then m[k].s else ""
  }

  function Pow10(n: nat): (r: nat)
    ensures r > 0
  {
    if n == 0 then 1 else 10 * Pow10(n - 1)
  }

  /** The conversion `int64(f)` of a JSON number: rounding towards zero. */
  function Truncate(mantissa: int, scale: nat): int {
    if mantissa >= 0 then mantissa / Pow10(scale) else -(-mantissa / Pow10(scale))
  }

  /** `whole` is the number `mantissa / 10^scale` without its fraction. */
  predicate IsWholePart(mantissa: int, scale: nat, whole: int) {
    var p := Pow10(scale);
    if mantissa >= 0 then whole * p <= mantissa < whole * p + p
    else whole * p - p < mantissa <= whole * p
  }

  lemma Pow10Meaning(n: nat)
    ensures Pow10(0) == 1 && Pow10(n + 1) == 10 * Pow10(n)
  {
  }

  lemma TruncateMeaning(mantissa: int, scale: nat, whole: int)
    ensures Truncate(mantissa, scale) == whole <==> IsWholePart(mantissa, scale, whole)
  {
    var p := Pow10(scale);
    if mantissa >= 0 {
      Quotient(mantissa, p, whole);
    } else {
      Quotient(-mantissa, p, -whole);
      assert -whole * p == -(whole * p);
    }
  }

  lemma Quotient(n: nat, p: nat, q: int)
    requires p > 0
    ensures n / p == q <==> q * p <= n < q * p + p
  {
    var r := n / p;
    assert r * p <= n < r * p + p;
    if q < r {
      assert q * p + p == (q + 1) * p <= r * p;
    } else if r < q {
      assert r * p + p == (r + 1) * p <= q * p;
    }
  }

  /** What a comma-ok assertion to a string leaves in the variable. */
  ghost predicate ReadsText(m: Object, k: string, s: string) {
    if exists x :: k in m && m[k] == Str(x) then m[k] == Str(s) else s == ""
  }

  lemma StringMemberMeaning(m: Object, k: string, s: string)
    ensures StringMember(m, k) == s <==> ReadsText(m, k, s)
  {
    if k in m && m[k].Str? {
      assert m[k] == Str(m[k].s);
    }
  }

  /** The object reached from `m` by following the members named in `p`. */
  function ObjectAt(m: Object, p: Path): Option<Object>
    decreases |p|
  {
    if p == [] then Some(m)
    else if p[0] in m && m[p[0]].Obj? then ObjectAt(m[p[0]].members, p[1..])
    else None
  }

  lemma {:induction false} ObjectAtAppend(m: Object, p: Path, q: Path)
    ensures ObjectAt(m, p + q) ==
            if ObjectAt(m, p).Some? then ObjectAt(ObjectAt(m, p).value, q) else None
    decreases |p|
  {
    if p == [] {
      assert p + q == q;
    } else {
      assert (p + q)[0] == p[0] && (p + q)[1..] == p[1..] + q;
      if p[0] in m && m[p[0]].Obj? {
        ObjectAtAppend(m[p[0]].members, p[1..], q);
      }
    }
  }

  /** One step further down from a position. */
  lemma ObjectAtChild(m: Object, p: Path, k: string)
    requires ObjectAt(m, p).Some?
    ensures var o := ObjectAt(m, p).value;
            ObjectAt(m, p + [k]) == if k in o && o[k].Obj? then Some(o[k].members) else None
  {
    ObjectAtAppend(m, p, [k]);
    var o := ObjectAt(m, p).value;
    if k in o && o[k].Obj? {
      assert [k][1..] == [];
      assert ObjectAt(o[k].members, []) == Some(o[k].members);
    }
  }

  /** The strings listed in the `_sd` array of an object; other elements are ignored. */
  function SdStrings(m: Object): set<string> {
    if SD in m && m[SD].Arr? then
      set i | 0 <= i < |m[SD].items| && m[SD].items[i].Str? :: m[SD].items[i].s
    else {}
  }

  /** The array is the member `_sd`; what is no string in it does not matter. */
  lemma SdStringsMeaning(m: Object, d: string)
    ensures d in SdStrings(m) <==> "_sd" in m && m["_sd"].Arr? && Str(d) in m["_sd"].items
  {
    if "_sd" in m && m["_sd"].Arr? && Str(d) in m["_sd"].items {
      var i :| 0 <= i < |m["_sd"].items| && m["_sd"].items[i] == Str(d);
      assert m["_sd"].items[i].s == d;
    }
  }

  /** The object at `p` lists digest `d` in its `_sd`. */
  ghost predicate Holds(m: Object, p: Path, d: string) {
    ObjectAt(m, p).Some? && d in SdStrings(ObjectAt(m, p).value)
  }

  /** How often the `_sd` array of an object lists digest `d`. */
  ghost function Listings(m: Object, d: string): nat {
    if SD in m && m[SD].Arr? then multiset(m[SD].items)[Str(d)] else 0
  }

  /** How often the object at `p` does. */
  ghost function Copies(m: Object, p: Path, d: string): nat {
    if ObjectAt(m, p).Some? then Listings(ObjectAt(m, p).value, d) else 0
  }

  lemma CopiesHold(m: Object, p: Path, d: string)
    ensures Copies(m, p, d) > 0 <==> Holds(m, p, d)
  {
    if ObjectAt(m, p).Some? {
      var o := ObjectAt(m, p).value;
      if SD in o && o[SD].Arr? {
        assert Str(d) in multiset(o[SD].items) <==> Str(d) in o[SD].items;
      }
    }
  }

  /** No object reachable through object members has a member `_sd`. */
  ghost predicate NoSd(j: Json) {
    j.Obj? ==> SD !in j.members && forall k | k in j.members :: NoSd(j.members[k])
  }

  lemma {:induction false} NoSdHoldsNothing(j: Json, p: Path, d: string)
    requires j.Obj? && NoSd(j)
    ensures !Holds(j.members, p, d)
    decreases |p|
  {
    if p != [] && p[0] in j.members && j.members[p[0]].Obj? {
      NoSdHoldsNothing(j.members[p[0]], p[1..], d);
    }
  }

  /** Removes every `_sd` member reachable through object members. */
  function StripSd(j: Json): Json {
    match j
    case Obj(m) => Obj(map k | k in m && k != SD :: StripSd(m[k]))
    case _ => j
  }

  lemma {:induction false} StripSdOfClean(j: Json)
    requires NoSd(j)
    ensures StripSd(j) == j
  {
    match j
    case Obj(m) =>
      forall k | k in m
        ensures StripSd(m[k]) == m[k]
      {
        StripSdOfClean(m[k]);
      }
      assert StripSd(j).members == m;
    case _ =>
  }

  /** What remains of a credential once the bookkeeping members are removed. */
  function StripRoot(m: Object): Object {
    map k | k in m && k != SD && k != SD_ALG :: StripSd(m[k])
  }
}
