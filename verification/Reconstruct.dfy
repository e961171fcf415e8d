/** verifier.go, steps 6: matching disclosures against digests, on values. */
module Reconstruct {
  import opened Wrappers
  import opened JsonModel
  import opened Platform
  import opened Disclosures

  const MAX_VERIFY_DEPTH := 16

  /** What a verification can fail with: the stage, and the key a disclosure error names. */
  datatype VerifyError =
    | BadFormat
    | IssuerJwtUndecodable
    | IssuerMissing
    | KeyResolutionFailed
    | SignatureInvalid
    | TokenExpired
    | TokenNotYetValid
    | UnsupportedHashAlgorithm
    | PayloadTooDeep
    | DisclosureUnparsable
    | DisclosureMismatch(key: string)
    | DisclosureDuplicate(key: string)
    | KbJwtRequired
    | CnfMissing
    | KbJwtUndecodable
    | KbJwtKeyInvalid
    | KbJwtSignatureInvalid
    | KbJwtNonceMismatch
    | KbJwtAudMismatch
    | KbJwtHashMismatch
    | VctMismatch

  /** A revealed value and the position of the object it was written into. */
  datatype Placed = Placed(path: Path, value: Json)

  /** The revealed values by key. Keys are unique over the whole credential. */
  type Writes = map<string, Placed>

  /** `j` is an object `depth` levels down, and it or one inside it lies too deep. Every object
      reached through members counts. */
  ghost predicate Deep(j: Json, depth: nat)
    decreases j
  {
    j.Obj? && (depth > MAX_VERIFY_DEPTH || exists k | k in j.members :: Deep(j.members[k], depth + 1))
  }

  /** The limit in terms of positions: an object 17 members down. */
  lemma {:induction false} DeepMeaning(j: Json, depth: nat)
    requires j.Obj? && depth <= MAX_VERIFY_DEPTH + 1
    ensures Deep(j, depth) <==>
            exists p: Path :: depth + |p| == MAX_VERIFY_DEPTH + 1 && ObjectAt(j.members, p).Some?
    decreases MAX_VERIFY_DEPTH + 1 - depth
  {
    var m := j.members;
    if depth > MAX_VERIFY_DEPTH {
      assert ObjectAt(m, []).Some?;
    } else {
      forall k | k in m && m[k].Obj? {
        DeepMeaning(m[k], depth + 1);
      }
      if Deep(j, depth) {
        var k :| k in m && Deep(m[k], depth + 1);
        var p: Path :| depth + 1 + |p| == MAX_VERIFY_DEPTH + 1 && ObjectAt(m[k].members, p).Some?;
        assert ([k] + p)[1..] == p;
        assert ObjectAt(m, [k] + p).Some?;
      }
      if p: Path :| depth + |p| == MAX_VERIFY_DEPTH + 1 && ObjectAt(m, p).Some? {
        assert ObjectAt(m[p[0]].members, p[1..]).Some?;
      }
    }
  }

  /** From the root, the limit is 16: an object 17 members down is too deep. */
  lemma DeepFromRoot(m: Object)
    ensures Deep(Obj(m), 0) <==> exists p: Path :: |p| == 17 && ObjectAt(m, p).Some?
  {
    DeepMeaning(Obj(m), 0);
    assert forall p: Path :: 0 + |p| == 17 <==> |p| == 17;
  }

  /**
   * What the digest index may be: its keys are exactly the digests held by objects of the
   * payload, each mapped to an object that holds it.
   */
  ghost predicate IsIndex(m: Object, index: map<string, Path>) {
    && (forall d | d in index :: Holds(m, index[d], d))
    && (forall p, d | Holds(m, p, d) :: d in index)
  }

  /** No digest is held by two objects. */
  ghost predicate UniqueDigests(m: Object) {
    forall p, q, d | Holds(m, p, d) && Holds(m, q, d) :: p == q
  }

  /** One round of the disclosure loop. */
  function Accept(pf: Suite, alg: HashAlg, index: map<string, Path>, done: Writes, text: string)
    : Result<Writes, VerifyError>
  {
    match ParseDisclosure(pf, text)
    case None => Err(DisclosureUnparsable)
    case Some(d) =>
      var digest := pf.digest(alg, text);
      if digest !in index then Err(DisclosureMismatch(d.key))
      else if d.key == "" then Ok(done)
      else if d.key in done then Err(DisclosureDuplicate(d.key))
      else Ok(done[d.key := Placed(index[digest], d.value)])
  }

  /** The disclosure loop: the values accepted, or the first error. */
  function Process(pf: Suite, alg: HashAlg, index: map<string, Path>, ds: seq<string>)
    : Result<Writes, VerifyError>
  {
    if ds == [] then Ok(map[])
    else
      match Process(pf, alg, index, ds[..|ds| - 1])
      case Err(e) => Err(e)
      case Ok(done) => Accept(pf, alg, index, done, ds[|ds| - 1])
  }

  /** The first error stands, whatever follows. */
  lemma {:induction false} FirstErrorStands(pf: Suite, alg: HashAlg, index: map<string, Path>, ds: seq<string>, n: nat)
    requires n <= |ds| && Process(pf, alg, index, ds[..n]).Err?
    ensures Process(pf, alg, index, ds) == Process(pf, alg, index, ds[..n])
    decreases |ds| - n
  {
    if n < |ds| {
      assert ds[..n + 1][..n] == ds[..n];
      FirstErrorStands(pf, alg, index, ds, n + 1);
    } else {
      assert ds[..n] == ds;
    }
  }

  predicate WrittenAt(w: Writes, p: Path, k: string) {
    k in w && w[k].path == p
  }

  /** The payload once every revealed value has been stored in its object. */
  function Rebuild(j: Json, p: Path, w: Writes): Json
    decreases j
  {
    match j
    case Obj(m) =>
      Obj(map k | k in m.Keys + w.Keys && (k in m || WrittenAt(w, p, k)) ::
            if WrittenAt(w, p, k) then w[k].value else Rebuild(m[k], p + [k], w))
    case _ => j
  }
}
