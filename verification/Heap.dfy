/** verifier.go, step 6, on the objects it works on: the digest index and the write-back. */
module Heap {
  import opened Wrappers
  import opened JsonModel
  import opened Platform
  import opened Disclosures
  import opened Reconstruct
  import opened Collecting

  /** A Go `map[string]any` of the decoded payload. Only objects reached through members can
      be aliased by the index; arrays and what they hold are plain values. */
  class Node {
    var members: map<string, Member>

    constructor ()
      ensures members == map[]
    {
      members := map[];
    }
  }

  datatype Member = Plain(value: Json) | Child(node: Node)

  /** The value an object denotes, seen within the objects `nodes`. */
  function Contents(n: Node, nodes: set<Node>): Json
    reads nodes
    decreases nodes
  {
    if n !in nodes then Null
    else
      Obj(map k | k in n.members ::
            match n.members[k]
            case Plain(v) => v
            case Child(c) => Contents(c, nodes - {n}))
  }

  /** Which heap object stands at which position of the payload. */
  type Layout = map<Path, Node>

  ghost predicate Injective(l: Layout) {
    forall p, q | p in l && q in l && l[p] == l[q] :: p == q
  }

  /** Member `k` of the heap object that stands for `o`, at position `p`, after the writes `w`. */
  ghost function Cell(l: Layout, o: Object, w: Writes, p: Path, k: string): Member
    requires k in o || WrittenAt(w, p, k)
  {
    if WrittenAt(w, p, k) then Plain(w[k].value)
    else if o[k].Obj? && p + [k] in l then Child(l[p + [k]])
    else Plain(o[k])
  }

  ghost predicate Shows(members: map<string, Member>, l: Layout, o: Object, w: Writes, p: Path) {
    && (forall k :: k in members <==> k in o || WrittenAt(w, p, k))
    && (forall k | k in members :: members[k] == Cell(l, o, w, p, k))
  }

  /** `l` holds exactly the objects of `m` that are reached through members, one heap object
      each. */
  ghost predicate Covers(l: Layout, m: Object) {
    && (forall q :: q in l <==> ObjectAt(m, q).Some?)
    && Injective(l)
  }

  /** The heap objects of `l` represent payload `m` after the writes `w`. */
  ghost predicate Represents(l: Layout, m: Object, w: Writes)
    reads l.Values
  {
    forall p | p in l :: ObjectAt(m, p).Some? && Shows(l[p].members, l, ObjectAt(m, p).value, w, p)
  }

  /** Reading the objects back gives the rebuilt payload. */
  lemma {:induction false} ContentsAreRebuilt(l: Layout, m: Object, w: Writes, p: Path, o: Object, nodes: set<Node>)
    requires Covers(l, m) && Represents(l, m, w)
    requires p in l && ObjectAt(m, p) == Some(o)
    requires forall q | q in l && p <= q :: l[q] in nodes
    ensures Contents(l[p], nodes) == Rebuild(Obj(o), p, w)
    decreases Obj(o), 1
  {
    var got, want := Contents(l[p], nodes), Rebuild(Obj(o), p, w);
    assert Shows(l[p].members, l, o, w, p);
    forall k | k in l[p].members
      ensures got.members[k] == want.members[k]
    {
      MemberIsRebuilt(l, m, w, p, o, nodes, k);
    }
    assert got.members == want.members;
  }

  lemma {:induction false} MemberIsRebuilt(l: Layout, m: Object, w: Writes, p: Path, o: Object,
                                           nodes: set<Node>, k: string)
    requires Covers(l, m) && Represents(l, m, w)
    requires p in l && ObjectAt(m, p) == Some(o)
    requires forall q | q in l && p <= q :: l[q] in nodes
    requires k in l[p].members
    ensures k in o || WrittenAt(w, p, k)
    ensures (match l[p].members[k]
             case Plain(v) => v
             case Child(c) => Contents(c, nodes - {l[p]})) ==
            if WrittenAt(w, p, k) then w[k].value else Rebuild(o[k], p + [k], w)
    decreases Obj(o), 0
  {
    assert Shows(l[p].members, l, o, w, p);
    if !WrittenAt(w, p, k) && o[k].Obj? {
      ObjectAtChild(m, p, k);
      assert p + [k] in l;
      ContentsAreRebuilt(l, m, w, p + [k], o[k].members, nodes - {l[p]});
    }
  }

  // ----- Decoding into objects -----

  /** The positions of `o`, which stands at `p`, and of all objects below it. */
  function ObjectPaths(o: Object, p: Path): set<Path>
    decreases Obj(o)
  {
    {p} + set k, q | k in o && o[k].Obj? && q in ObjectPaths(o[k].members, p + [k]) :: q
  }

  lemma {:induction false} ObjectPathsMeaning(o: Object, p: Path, q: Path)
    ensures q in ObjectPaths(o, p) <==> p <= q && ObjectAt(o, q[|p|..]).Some?
    decreases Obj(o)
  {
    forall k | k in o && o[k].Obj?
      ensures q in ObjectPaths(o[k].members, p + [k]) <==>
              p + [k] <= q && ObjectAt(o[k].members, q[|p| + 1..]).Some?
    {
      ObjectPathsMeaning(o[k].members, p + [k], q);
    }
    if p <= q && q != p {
      var k := q[|p|];
      assert q[|p|..][0] == k && q[|p|..][1..] == q[|p| + 1..];
      assert q[..|p| + 1] == p + [k];
    }
  }

  /** One new heap object per position. */
  method Allocate(paths: set<Path>) returns (l: Layout)
    ensures l.Keys == paths && Injective(l)
    ensures forall q | q in l :: fresh(l[q])
  {
    l := map[];
    var todo := paths;
    while todo != {}
      invariant todo <= paths && l.Keys == paths - todo && Injective(l)
      invariant forall q | q in l :: fresh(l[q])
    {
      var q :| q in todo;
      var n := new Node();
      l := l[q := n];
      todo := todo - {q};
    }
  }

  /** `json.Unmarshal` of a payload: one new heap object for each object that is reached through
      members, filled in afterwards. */
  method Decode(m: Object) returns (l: Layout)
    ensures forall q | q in l :: fresh(l[q])
    ensures Covers(l, m) && Represents(l, m, map[])
  {
    var paths := ObjectPaths(m, []);
    forall q
      ensures q in paths <==> ObjectAt(m, q).Some?
    {
      ObjectPathsMeaning(m, [], q);
    }
    l := Allocate(paths);
    var todo := paths;
    while todo != {}
      invariant todo <= paths
      invariant forall q | q in paths - todo :: Shows(l[q].members, l, ObjectAt(m, q).value, map[], q)
      modifies l.Values
    {
      var q :| q in todo;
      var o := ObjectAt(m, q).value;
      l[q].members := map k | k in o :: if o[k].Obj? && q + [k] in l then Child(l[q + [k]]) else Plain(o[k]);
      todo := todo - {q};
    }
  }

  // ----- Pass 1: the digest index -----

  /** A heap index and an index by position agree. Positions are relative to `p`. */
  ghost predicate SameIndex(heap: map<string, Node>, index: map<string, Path>, l: Layout, p: Path) {
    && heap.Keys == index.Keys
    && forall d | d in index :: p + index[d] in l && heap[d] == l[p + index[d]]
  }

  lemma SameIndexUnion(heap: map<string, Node>, index: map<string, Path>, l: Layout, p: Path, k: string,
                       sub: map<string, Node>, below: map<string, Path>)
    requires SameIndex(heap, index, l, p) && SameIndex(sub, below, l, p + [k])
    ensures SameIndex(heap + sub, index + Lift(k, below), l, p)
  {
    forall d | d in below
      ensures p + Lift(k, below)[d] == p + [k] + below[d]
    {
    }
  }

  /** The strings of one `_sd` array, all pointing at the object that has it. */
  method CollectOwn(items: seq<Json>, obj: Node) returns (out: map<string, Node>)
    ensures out.Keys == set i | 0 <= i < |items| && items[i].Str? :: items[i].s
    ensures forall d | d in out :: out[d] == obj
  {
    out := map[];
    for i := 0 to |items|
      invariant out.Keys == set j | 0 <= j < i && items[j].Str? :: items[j].s
      invariant forall d | d in out :: out[d] == obj
    {
      if items[i].Str? {
        out := out[items[i].s := obj];
      }
    }
  }

  /** Digests collected at one level, before its members are visited. */
  method CollectHere(obj: Node, ghost m: Object, ghost l: Layout, ghost p: Path, ghost o: Object)
    returns (out: map<string, Node>, ghost index: map<string, Path>)
    requires Represents(l, m, map[]) && ObjectAt(m, p) == Some(o) && p in l && l[p] == obj
    ensures index == Own(o) && SameIndex(out, index, l, p)
  {
    assert Shows(obj.members, l, o, map[], p);
    out := map[];
    if SD in obj.members && obj.members[SD].Plain? && obj.members[SD].value.Arr? {
      out := CollectOwn(obj.members[SD].value.items, obj);
    }
    assert out.Keys == SdStrings(o);
    index := Own(o);
    assert p + [] == p;
  }

  /** One member of an object, in `collectDigests`: nested objects contribute their digests. */
  method CollectMember(member: Member, out: map<string, Node>, depth: nat, ghost m: Object, ghost l: Layout,
                       ghost p: Path, ghost o: Object, ghost k: string, ghost index: map<string, Path>)
    returns (r: Result<map<string, Node>, VerifyError>, ghost index': map<string, Path>)
    requires Covers(l, m) && Represents(l, m, map[])
    requires ObjectAt(m, p) == Some(o) && k in o && member == Cell(l, o, map[], p, k)
    requires SameIndex(out, index, l, p)
    requires depth <= MAX_VERIFY_DEPTH
    ensures r.Err? <==> Deep(o[k], depth + 1)
    ensures r.Err? ==> r.error == PayloadTooDeep
    ensures r.Ok? ==> CollectedNext(o, k, index, index') && SameIndex(r.value, index', l, p)
    decreases MAX_VERIFY_DEPTH + 1 - depth, 0
  {
    index' := index;
    ObjectAtChild(m, p, k);
    assert o[k].Obj? ==> p + [k] in l;
    match member {
      case Plain(_) =>
        return Ok(out), index';
      case Child(nested) =>
        var sub, below := CollectDigests(nested, depth + 1, m, l, p + [k], o[k].members);
        if sub.Err? {
          return Err(PayloadTooDeep), index';
        }
        SameIndexUnion(out, index, l, p, k, sub.value, below);
        return Ok(out + sub.value), index + Lift(k, below);
    }
  }

  /** `order` are the members that are not left to visit. */
  ghost predicate Visited(o: Object, todo: set<string>, order: seq<string>) {
    && (forall k :: k in order <==> k in o && k !in todo)
    && (forall i, j | 0 <= i < j < |order| :: order[i] != order[j])
  }

  lemma VisitedNext(o: Object, todo: set<string>, order: seq<string>, k: string,
                    index: map<string, Path>, index': map<string, Path>)
    requires Visited(o, todo, order) && k in o && k in todo
    requires CollectedAlong(o, order, index) && CollectedNext(o, k, index, index')
    ensures Visited(o, todo - {k}, order + [k]) && CollectedAlong(o, order + [k], index')
  {
    var longer := order + [k];
    assert longer[..|longer| - 1] == order && longer[|longer| - 1] == k;
    assert CollectedAlong(o, longer[..|longer| - 1], index) && CollectedNext(o, k, index, index');
  }

  /** The members seen so far are not too deep. */
  ghost predicate NoneDeep(o: Object, order: seq<string>, depth: nat) {
    forall k | k in order && k in o :: !Deep(o[k], depth + 1)
  }

  lemma DeepMember(o: Object, k: string, depth: nat)
    requires k in o && Deep(o[k], depth + 1)
    ensures Deep(Obj(o), depth)
  {
  }

  lemma AllShallow(o: Object, order: seq<string>, depth: nat)
    requires (forall k | k in o :: k in order) && NoneDeep(o, order, depth) && depth <= MAX_VERIFY_DEPTH
    ensures !Deep(Obj(o), depth)
  {
  }

  /**
   * `collectDigests`. It fails exactly when an object lies too deep, and otherwise returns the
   * index collected in some order of the members.
   */
  method CollectDigests(obj: Node, depth: nat, ghost m: Object, ghost l: Layout, ghost p: Path, ghost o: Object)
    returns (r: Result<map<string, Node>, VerifyError>, ghost index: map<string, Path>)
    requires Covers(l, m) && Represents(l, m, map[])
    requires ObjectAt(m, p) == Some(o) && p in l && l[p] == obj
    requires depth <= MAX_VERIFY_DEPTH + 1
    ensures r.Err? <==> Deep(Obj(o), depth)
    ensures r.Err? ==> r.error == PayloadTooDeep
    ensures r.Ok? ==> Collected(o, index) && SameIndex(r.value, index, l, p)
    decreases MAX_VERIFY_DEPTH + 1 - depth, 1
  {
    index := map[];
    if depth > MAX_VERIFY_DEPTH {
      return Err(PayloadTooDeep), index;
    }
    var out;
    out, index := CollectHere(obj, m, l, p, o);
    assert Shows(obj.members, l, o, map[], p);
    var todo := obj.members.Keys;
    ghost var order: seq<string> := [];
    while todo != {}
      invariant todo <= o.Keys && Visited(o, todo, order)
      invariant CollectedAlong(o, order, index) && SameIndex(out, index, l, p)
      invariant NoneDeep(o, order, depth)
    {
      var k :| k in todo;
      var r', index' := CollectMember(obj.members[k], out, depth, m, l, p, o, k, index);
      if r'.Err? {
        DeepMember(o, k, depth);
        return Err(PayloadTooDeep), index;
      }
      VisitedNext(o, todo, order, k, index, index');
      out, index := r'.value, index';
      todo, order := todo - {k}, order + [k];
    }
    AllShallow(o, order, depth);
    assert MeetsAll(o, order);
    return Ok(out), index;
  }

  // ----- Pass 2: the write-back -----

  lemma WriteHere(members: map<string, Member>, l: Layout, o: Object, w: Writes, p: Path, k: string, v: Json)
    requires Shows(members, l, o, w, p) && k !in w
    ensures Shows(members[k := Plain(v)], l, o, w[k := Placed(p, v)], p)
  {
  }

  lemma WriteElsewhere(members: map<string, Member>, l: Layout, o: Object, w: Writes, q: Path,
                       p: Path, k: string, v: Json)
    requires Shows(members, l, o, w, q) && k !in w && p != q
    ensures Shows(members, l, o, w[k := Placed(p, v)], q)
  {
  }

  /** `loc.container[key] = value`, through the alias found in the index. */
  method Write(container: Node, k: string, v: Json, ghost l: Layout, ghost m: Object, ghost w: Writes, ghost p: Path)
    requires Injective(l) && Represents(l, m, w) && p in l && l[p] == container && k !in w
    modifies container
    ensures Represents(l, m, w[k := Placed(p, v)])
  {
    ghost var before := container.members;
    container.members := container.members[k := Plain(v)];
    forall q | q in l
      ensures Shows(l[q].members, l, ObjectAt(m, q).value, w[k := Placed(p, v)], q)
    {
      if q == p {
        WriteHere(before, l, ObjectAt(m, q).value, w, p, k, v);
      } else {
        WriteElsewhere(l[q].members, l, ObjectAt(m, q).value, w, q, p, k, v);
      }
    }
  }

  /** The flat view of what was revealed. */
  function Values(w: Writes): Object {
    map k | k in w :: w[k].value
  }

  /** What the disclosure loop has gathered. */
  datatype Gathered = Gathered(seenKeys: set<string>, disclosedClaims: Object)

  function Gather(w: Writes): Gathered {
    Gathered(w.Keys, Values(w))
  }

  lemma GatherMore(w: Writes, k: string, at: Placed)
    ensures Gather(w[k := at]) == Gathered(w.Keys + {k}, Values(w)[k := at.value])
  {
    assert Values(w[k := at]) == Values(w)[k := at.value];
  }

  /** One round of the disclosure loop. */
  method ApplyOne(pf: Suite, alg: HashAlg, text: string, digestMap: map<string, Node>, g: Gathered,
                  ghost l: Layout, ghost m: Object, ghost index: map<string, Path>, ghost w: Writes)
    returns (r: Result<Gathered, VerifyError>, ghost w': Writes)
    requires Covers(l, m) && Represents(l, m, w) && g == Gather(w)
    requires SameIndex(digestMap, index, l, [])
    modifies l.Values
    ensures Accept(pf, alg, index, w, text).Err? ==> r == Err(Accept(pf, alg, index, w, text).error)
    ensures Accept(pf, alg, index, w, text).Ok? ==>
              && w' == Accept(pf, alg, index, w, text).value
              && r == Ok(Gather(w')) && Represents(l, m, w')
  {
    w' := w;
    var d := ParseDisclosure(pf, text);
    if d.None? {
      return Err(DisclosureUnparsable), w;
    }
    var key, value := d.value.key, d.value.value;
    var digest := pf.digest(alg, text);
    if digest !in digestMap {
      return Err(DisclosureMismatch(key)), w;
    }
    if key == "" {
      return Ok(g), w;
    }
    if key in g.seenKeys {
      return Err(DisclosureDuplicate(key)), w;
    }
    assert [] + index[digest] == index[digest];
    Write(digestMap[digest], key, value, l, m, w, index[digest]);
    w' := w[key := Placed(index[digest], value)];
    GatherMore(w, key, Placed(index[digest], value));
    return Ok(Gathered(g.seenKeys + {key}, g.disclosedClaims[key := value])), w';
  }

  /**
   * The disclosure loop: it accepts or rejects like its model on values, and when it accepts,
   * the objects of the payload hold the accepted values.
   */
  method ApplyDisclosures(pf: Suite, alg: HashAlg, ds: seq<string>, digestMap: map<string, Node>,
                          ghost l: Layout, ghost m: Object, ghost index: map<string, Path>)
    returns (r: Result<Object, VerifyError>, ghost w: Writes)
    requires Covers(l, m) && Represents(l, m, map[])
    requires SameIndex(digestMap, index, l, [])
    modifies l.Values
    ensures Process(pf, alg, index, ds).Err? ==> r == Err(Process(pf, alg, index, ds).error)
    ensures Process(pf, alg, index, ds).Ok? ==>
              && w == Process(pf, alg, index, ds).value
              && r == Ok(Values(w)) && Represents(l, m, w)
  {
    var g := Gathered({}, map[]);
    w := map[];
    assert g == Gather(w);
    for i := 0 to |ds|
      invariant Process(pf, alg, index, ds[..i]) == Ok(w)
      invariant Represents(l, m, w) && g == Gather(w)
    {
      assert ds[..i + 1][..i] == ds[..i];
      var next;
      next, w := ApplyOne(pf, alg, ds[i], digestMap, g, l, m, index, w);
      if next.Err? {
        FirstErrorStands(pf, alg, index, ds, i + 1);
        return Err(next.error), w;
      }
      g := next.value;
    }
    assert ds[..|ds|] == ds;
    return Ok(g.disclosedClaims), w;
  }
}
