/** issuer.go: building and signing a credential. */
module Issuers {
  import opened Wrappers
  import opened JsonModel
  import opened Platform
  import opened Disclosures
  import opened Claims
  import opened Tokens
  import Jwt

  const MAX_NESTING_DEPTH := 16
  datatype IssueError =
    | VctRequired
    | HashUnsupported
    | SelectiveFieldNotFound(name: string)
    | NestingTooDeep
    | SigningFailed

  /** The random source. `stream(n)` is the n-th value drawn from it. */
  class Entropy {
    const stream: nat -> string
    var drawn: nat

    constructor (stream: nat -> string)
      ensures this.stream == stream && drawn == 0
    {
      this.stream := stream;
      drawn := 0;
    }

    method RandomSalt() returns (salt: string)
      modifies this
      ensures salt == stream(old(drawn)) && drawn == old(drawn) + 1
    {
      salt := stream(drawn);
      drawn := drawn + 1;
    }
  }

  /** The list of disclosures that all levels of the recursion append to. */
  class DisclosureLog {
    var texts: seq<string>

    constructor ()
      ensures texts == []
    {
      texts := [];
    }

    method Append(text: string)
      modifies this
      ensures texts == old(texts) + [text]
    {
      texts := texts + [text];
    }
  }

  /** `c` is a structured claim `depth` levels down, and it or one inside it lies too deep. */
  ghost predicate TooDeep(c: Claim, depth: nat)
    decreases c
  {
    c.Structured? &&
    (depth > MAX_NESTING_DEPTH || exists k | k in c.fields :: TooDeep(c.fields[k], depth + 1))
  }

  /** The limit in terms of positions: some object lies more than 16 structured claims down,
      hidden ones included. */
  lemma {:induction false} TooDeepMeaning(c: Claim, depth: nat)
    requires c.Structured? && depth <= MAX_NESTING_DEPTH + 1
    ensures TooDeep(c, depth) <==>
            exists p: Path :: depth + |p| == MAX_NESTING_DEPTH + 1 && GroupAt(c.fields, p).Some?
    decreases MAX_NESTING_DEPTH + 1 - depth
  {
    if depth > MAX_NESTING_DEPTH {
      assert GroupAt(c.fields, []).Some?;
    } else {
      forall k | k in c.fields && c.fields[k].Structured? {
        TooDeepMeaning(c.fields[k], depth + 1);
      }
      if TooDeep(c, depth) {
        var k :| k in c.fields && TooDeep(c.fields[k], depth + 1);
        var p: Path :| depth + 1 + |p| == MAX_NESTING_DEPTH + 1 && GroupAt(c.fields[k].fields, p).Some?;
        assert ([k] + p)[1..] == p;
        assert GroupAt(c.fields, [k] + p).Some?;
      }
      if p: Path :| depth + |p| == MAX_NESTING_DEPTH + 1 && GroupAt(c.fields, p).Some? {
        assert GroupAt(c.fields[p[0]].fields, p[1..]).Some?;
      }
    }
  }

  /** From the root, the limit is 16: 17 structured claims inside one another are too many. */
  lemma TooDeepFromRoot(fields: Fields, selective: seq<string>)
    ensures TooDeep(Structured(fields, selective), 0) <==> exists p: Path :: |p| == 17 && GroupAt(fields, p).Some?
  {
    TooDeepMeaning(Structured(fields, selective), 0);
    assert forall p: Path :: 0 + |p| == 17 <==> |p| == 17;
  }

  /** The salts of `es` are the values drawn from position `from` on, in order. */
  ghost predicate SaltsFrom(stream: nat -> string, from: nat, es: seq<Entry>) {
    es == [] ||
    (&& SaltsFrom(stream, from, es[..|es| - 1])
     && es[|es| - 1].disclosure.salt == stream(from + |es| - 1))
  }

  lemma TextsAppend(sc: Scheme, a: seq<Entry>, b: seq<Entry>)
    ensures Texts(sc, a + b) == Texts(sc, a) + Texts(sc, b)
  {
  }

  lemma RunGrows(sc: Scheme, run: seq<Visit>, v: Visit, path: Path, base: Path)
    ensures Entries(sc, run + [v], path, base) == Entries(sc, run, path, base) + EntriesOf(sc, v, path, base)
    ensures OpenMembers(sc, run + [v]) ==
            if v.selective then OpenMembers(sc, run)
            else OpenMembers(sc, run)[v.name := BodyJson(sc, v.body)]
    ensures OwnDigests(sc, run + [v]) ==
            if v.selective then OwnDigests(sc, run) + [sc.Digest(VisitDisclosure(sc, v))]
            else OwnDigests(sc, run)
    ensures Names(run + [v]) == Names(run) + {v.name}
    ensures DistinctNames(run + [v]) <==> DistinctNames(run) && v.name !in Names(run)
  {
    assert (run + [v])[..|run|] == run;
  }

  lemma {:induction false} SaltsAppend(stream: nat -> string, from: nat, a: seq<Entry>, b: seq<Entry>)
    requires SaltsFrom(stream, from, a) && SaltsFrom(stream, from + |a|, b)
    ensures SaltsFrom(stream, from, a + b)
  {
    if b == [] {
      assert a + b == a;
    } else {
      SaltsAppend(stream, from, a, b[..|b| - 1]);
      assert (a + b)[..|a + b| - 1] == a + b[..|b| - 1];
    }
  }

  /** The log and the random source, observed at one moment. */
  datatype Mark = Mark(texts: seq<string>, drawn: nat)

  /** Between two moments exactly the entries `es` were logged and salted, in this order. */
  ghost predicate Recorded(sc: Scheme, stream: nat -> string, before: Mark, after: Mark, es: seq<Entry>) {
    && after.texts == before.texts + Texts(sc, es)
    && SaltsFrom(stream, before.drawn, es)
    && after.drawn == before.drawn + |es|
  }

  lemma RecordedThen(sc: Scheme, stream: nat -> string, m0: Mark, m1: Mark, m2: Mark, a: seq<Entry>, b: seq<Entry>)
    requires Recorded(sc, stream, m0, m1, a) && Recorded(sc, stream, m1, m2, b)
    ensures Recorded(sc, stream, m0, m2, a + b)
  {
    TextsAppend(sc, a, b);
    assert m0.texts + Texts(sc, a) + Texts(sc, b) == m0.texts + (Texts(sc, a) + Texts(sc, b));
    SaltsAppend(stream, m0.drawn, a, b);
  }

  lemma RecordedNothing(sc: Scheme, stream: nat -> string, m: Mark)
    ensures Recorded(sc, stream, m, m, [])
  {
  }

  /** `NewDisclosure` and `Digest`: salts a value, logs its disclosure, returns the digest. */
  method Hide(sc: Scheme, name: string, value: Json, log: DisclosureLog, rng: Entropy)
    returns (digest: string, ghost d: Disclosure)
    modifies log, rng
    ensures d == Disclosure(rng.stream(old(rng.drawn)), name, value)
    ensures digest == sc.Digest(d)
    ensures log.texts == old(log.texts) + [sc.Text(d)]
    ensures rng.drawn == old(rng.drawn) + 1
  {
    var salt := rng.RandomSalt();
    var salted := Disclosure(salt, name, value);
    log.Append(sc.Text(salted));
    digest, d := sc.Digest(salted), salted;
  }

  /** An object and the digests listed in its `_sd`, which is absent when there are none. */
  datatype Built = Built(members: Object, digests: seq<string>)

  /** What one member contributes: its value in the clear, or the digest standing for it. */
  datatype Part = Open(value: Json) | Hidden(digest: string)

  /** What `buildClaimsObject` does with the value of one member. Arrays and plain values are
      treated alike there. */
  method BuildMember(sc: Scheme, name: string, claim: Claim, selective: bool,
                     log: DisclosureLog, rng: Entropy, depth: nat,
                     ghost path: Path, ghost base: Path)
    returns (r: Result<Part, IssueError>, ghost v: Visit)
    requires depth <= MAX_NESTING_DEPTH
    modifies log, rng
    ensures r.Err? <==> TooDeep(claim, depth + 1)
    ensures r.Err? ==> r.error == NestingTooDeep
    ensures r.Ok? ==> v.name == name && v.selective == selective && Matches(v.body, claim)
    ensures r.Ok? ==> r.value == if selective then Hidden(sc.Digest(VisitDisclosure(sc, v)))
                                 else Open(BodyJson(sc, v.body))
    ensures r.Ok? ==> Recorded(sc, rng.stream, old(Mark(log.texts, rng.drawn)), Mark(log.texts, rng.drawn),
                               EntriesOf(sc, v, path, base))
    decreases MAX_NESTING_DEPTH + 1 - depth, 0
  {
    v := Visit(name, selective, "", Plain(Null));
    ghost var start := Mark(log.texts, rng.drawn);
    RecordedNothing(sc, rng.stream, start);
    var value: Json;
    ghost var below: seq<Entry> := [];
    match claim {
      case Structured(fields, nestedSelective) =>
        ghost var nestedBase := if selective then path + [name] else base;
        var nested, run :=
          BuildClaimsObject(sc, fields, nestedSelective, log, rng, depth + 1, path + [name], nestedBase);
        if nested.Err? {
          return Err(NestingTooDeep), v;
        }
        value := Obj(nested.value.members);
        v := v.(body := Group(run));
        below := Entries(sc, run, path + [name], nestedBase);
      case Leaf(j) =>
        value := j;
        v := v.(body := Plain(j));
    }
    if !selective {
      return Ok(Open(value)), v;
    }
    ghost var middle := Mark(log.texts, rng.drawn);
    var digest, d := Hide(sc, name, value, log, rng);
    v := v.(salt := d.salt);
    RecordedThen(sc, rng.stream, start, middle, Mark(log.texts, rng.drawn), below, [Entry(path, base, d)]);
    return Ok(Hidden(digest)), v;
  }

  /** The part of a level that has been built once the members `done` were visited. */
  ghost predicate BuiltSoFar(sc: Scheme, claims: Fields, selective: set<string>, done: set<string>,
                             built: Built, run: seq<Visit>)
  {
    && DistinctNames(run) && Names(run) == done && Follows(run, claims, selective)
    && built == Built(OpenMembers(sc, run), OwnDigests(sc, run))
  }

  lemma BuiltFurther(sc: Scheme, claims: Fields, selective: set<string>, done: set<string>,
                     built: Built, run: seq<Visit>, v: Visit, built': Built)
    requires BuiltSoFar(sc, claims, selective, done, built, run)
    requires v.name in claims && v.name !in done && v.selective == (v.name in selective)
    requires Matches(v.body, claims[v.name])
    requires built' == if v.selective then built.(digests := built.digests + [sc.Digest(VisitDisclosure(sc, v))])
                       else built.(members := built.members[v.name := BodyJson(sc, v.body)])
    ensures BuiltSoFar(sc, claims, selective, done + {v.name}, built', run + [v])
  {
    RunGrows(sc, run, v, [], []);
    assert (run + [v])[..|run|] == run;
  }

  /** One iteration of the loop in `buildClaimsObject`, for a member not visited before. */
  method AddMember(sc: Scheme, claims: Fields, selective: set<string>, k: string, built: Built,
                   log: DisclosureLog, rng: Entropy, depth: nat,
                   ghost path: Path, ghost base: Path, ghost done: set<string>, ghost run: seq<Visit>)
    returns (r: Result<Built, IssueError>, ghost v: Visit)
    requires depth <= MAX_NESTING_DEPTH && k in claims && k !in done
    requires BuiltSoFar(sc, claims, selective, done, built, run)
    modifies log, rng
    ensures r.Err? <==> TooDeep(claims[k], depth + 1)
    ensures r.Err? ==> r.error == NestingTooDeep
    ensures r.Ok? ==> BuiltSoFar(sc, claims, selective, done + {k}, r.value, run + [v])
    ensures r.Ok? ==> Recorded(sc, rng.stream, old(Mark(log.texts, rng.drawn)), Mark(log.texts, rng.drawn),
                               EntriesOf(sc, v, path, base))
    decreases MAX_NESTING_DEPTH + 1 - depth, 1
  {
    var part;
    part, v := BuildMember(sc, k, claims[k], k in selective, log, rng, depth, path, base);
    if part.Err? {
      return Err(NestingTooDeep), v;
    }
    var built' := built;
    match part.value {
      case Hidden(digest) => built' := built.(digests := built.digests + [digest]);
      case Open(value) => built' := built.(members := built.members[k := value]);
    }
    BuiltFurther(sc, claims, selective, done, built, run, v, built');
    return Ok(built'), v;
  }

  method SetOf(names: seq<string>) returns (s: set<string>)
    ensures s == AsSet(names)
  {
    s := {};
    for i := 0 to |names|
      invariant s == AsSet(names[..i])
    {
      s := s + {names[i]};
    }
    assert names[..|names|] == names;
  }

  /**
   * `buildClaimsObject`. Whatever order the members are met in, the outcome is the pure
   * function of a run that meets each of them once; it fails exactly when structured claims
   * nest beyond the limit, in hidden branches too.
   */
  method BuildClaimsObject(sc: Scheme, claims: Fields, selectiveFields: seq<string>,
                           log: DisclosureLog, rng: Entropy, depth: nat,
                           ghost path: Path, ghost base: Path)
    returns (r: Result<Built, IssueError>, ghost run: seq<Visit>)
    requires depth <= MAX_NESTING_DEPTH + 1
    modifies log, rng
    ensures r.Err? <==> TooDeep(Structured(claims, selectiveFields), depth)
    ensures depth == 0 ==> (r.Err? <==> exists p: Path :: |p| == 17 && GroupAt(claims, p).Some?)
    ensures r.Err? ==> r.error == NestingTooDeep
    ensures r.Ok? ==> IsRun(run, claims, AsSet(selectiveFields))
    ensures r.Ok? ==> r.value == Built(BuiltObject(sc, run), OwnDigests(sc, run))
    ensures r.Ok? ==> Recorded(sc, rng.stream, old(Mark(log.texts, rng.drawn)), Mark(log.texts, rng.drawn),
                               Entries(sc, run, path, base))
    decreases MAX_NESTING_DEPTH + 1 - depth, 2
  {
    run := [];
    ghost var start := Mark(log.texts, rng.drawn);
    RecordedNothing(sc, rng.stream, start);
    TooDeepFromRoot(claims, selectiveFields);
    if depth > MAX_NESTING_DEPTH {
      return Err(NestingTooDeep), run;
    }
    var selective := SetOf(selectiveFields);
    var built := Built(map[], []);
    var todo := claims.Keys;
    ghost var done: set<string> := {};
    while todo != {}
      invariant claims.Keys == done + todo && done !! todo
      invariant BuiltSoFar(sc, claims, selective, done, built, run)
      invariant Recorded(sc, rng.stream, start, Mark(log.texts, rng.drawn), Entries(sc, run, path, base))
      invariant forall k | k in done :: !TooDeep(claims[k], depth + 1)
    {
      var k :| k in todo;
      ghost var middle := Mark(log.texts, rng.drawn);
      var next, v := AddMember(sc, claims, selective, k, built, log, rng, depth, path, base, done, run);
      if next.Err? {
        return Err(NestingTooDeep), run;
      }
      RunGrows(sc, run, v, path, base);
      RecordedThen(sc, rng.stream, start, middle, Mark(log.texts, rng.drawn),
                   Entries(sc, run, path, base), EntriesOf(sc, v, path, base));
      built, run := next.value, run + [v];
      todo, done := todo - {k}, done + {k};
    }
    if |built.digests| > 0 {
      built := built.(members := built.members[SD := StringArray(built.digests)]);
    }
    return Ok(built), run;
  }

  datatype IssuerConfig = IssuerConfig(
    id: string,
    hashAlg: HashAlg,
    decoyCount: int,
    schemaUri: string,
    tokenTtl: int        // nanoseconds
  )

  /** Times are nanoseconds since the epoch; `None` is the zero time. */
  datatype IssueRequest = IssueRequest(
    vct: string,
    subject: string,
    claims: Fields,
    selectiveFields: seq<string>,
    holderJwk: Option<Object>,
    notBefore: Option<int>,
    expiresAt: Option<int>
  )

  /** `time.Time.Unix`. */
  function UnixSeconds(t: int): Json {
    Num(ToSeconds(t), 0)
  }

  function Or(t: Option<int>, default: int): int {
    match t
    case Some(x) => x
    case None => default
  }

  /** The members every credential gets, whatever its claims. */
  function Registered(cfg: IssuerConfig, sdAlg: string, req: IssueRequest, now: int): Object {
    var r := map["iss" := Str(cfg.id)];
    var r := r["iat" := UnixSeconds(now)];
    var r := r["nbf" := UnixSeconds(Or(req.notBefore, now))];
    var r := r["exp" := UnixSeconds(Or(req.expiresAt, now + cfg.tokenTtl))];
    var r := r["vct" := Str(req.vct)];
    var r := r[SD_ALG := Str(sdAlg)];
    var r := if req.subject != "" then r["sub" := Str(req.subject)] else r;
    var r := if cfg.schemaUri != "" then r["vct#integrity" := Str(cfg.schemaUri)] else r;
    if req.holderJwk.Some? then r["cnf" := Obj(map["jwk" := Obj(req.holderJwk.value)])] else r
  }

  /** `j` is the time `t` in whole seconds. */
  ghost predicate IsTime(j: Json, t: int) {
    exists s :: j == Num(s, 0) && s * 1_000_000_000 <= t < s * 1_000_000_000 + 1_000_000_000
  }

  /** The registered claims: these and no others. */
  ghost predicate IsRegistered(r: Object, cfg: IssuerConfig, sdAlg: string, req: IssueRequest, now: int) {
    && r.Keys == {"iss", "iat", "nbf", "exp", "vct", "_sd_alg"}
                 + (if req.subject != "" then {"sub"} else {})
                 + (if cfg.schemaUri != "" then {"vct#integrity"} else {})
                 + (if req.holderJwk != None then {"cnf"} else {})
    && r["iss"] == Str(cfg.id) && r["vct"] == Str(req.vct) && r["_sd_alg"] == Str(sdAlg)
    && IsTime(r["iat"], now)
    && IsTime(r["nbf"], match req.notBefore case Some(t) => t case None => now)
    && IsTime(r["exp"], match req.expiresAt case Some(t) => t case None => now + cfg.tokenTtl)
    && (req.subject != "" ==> r["sub"] == Str(req.subject))
    && (cfg.schemaUri != "" ==> r["vct#integrity"] == Str(cfg.schemaUri))
    && (req.holderJwk != None ==> r["cnf"] == Obj(map["jwk" := Obj(req.holderJwk.value)]))
  }

  lemma UnixSecondsMeaning(t: int)
    ensures IsTime(UnixSeconds(t), t)
  {
    SecondsMeaning(t, ToSeconds(t));
    assert UnixSeconds(t) == Num(ToSeconds(t), 0);
  }

  lemma RegisteredMeaning(cfg: IssuerConfig, sdAlg: string, req: IssueRequest, now: int)
    ensures IsRegistered(Registered(cfg, sdAlg, req, now), cfg, sdAlg, req, now)
  {
    UnixSecondsMeaning(now);
    UnixSecondsMeaning(Or(req.notBefore, now));
    UnixSecondsMeaning(Or(req.expiresAt, now + cfg.tokenTtl));
    NamesOfRegistered(cfg, sdAlg, req, now);
  }

  lemma NamesOfRegistered(cfg: IssuerConfig, sdAlg: string, req: IssueRequest, now: int)
    ensures Registered(cfg, sdAlg, req, now).Keys ==
            {"iss", "iat", "nbf", "exp", "vct", "_sd_alg"}
            + (if req.subject != "" then {"sub"} else {})
            + (if cfg.schemaUri != "" then {"vct#integrity"} else {})
            + (if req.holderJwk != None then {"cnf"} else {})
  {
  }

  /** Decoys join the digests of the root; a claim that happens to be called `_sd` gives way. */
  function WithDecoys(built: Built, decoys: seq<string>): Object {
    if decoys == [] then built.members else built.members[SD := StringArray(built.digests + decoys)]
  }

  function Payload(sc: Scheme, cfg: IssuerConfig, sdAlg: string, req: IssueRequest, now: int,
                   run: seq<Visit>, decoys: seq<string>): Object
  {
    WithDecoys(Built(BuiltObject(sc, run), OwnDigests(sc, run)), decoys) + Registered(cfg, sdAlg, req, now)
  }

  /** Why a request is turned down before anything is signed, if it is. */
  ghost function Refusal(cfg: IssuerConfig, req: IssueRequest): Option<IssueError> {
    if req.vct == "" then Some(VctRequired)
    else if SdAlgFromHash(cfg.hashAlg).None? then Some(HashUnsupported)
    else
      match FirstMissing(req.selectiveFields, req.claims)
      case Some(name) => Some(SelectiveFieldNotFound(name))
      case None => if TooDeep(Structured(req.claims, req.selectiveFields), 0) then Some(NestingTooDeep) else None
  }

  function FirstMissing(names: seq<string>, fields: Fields): Option<string> {
    if names == [] then None
    else if names[0] !in fields then Some(names[0])
    else FirstMissing(names[1..], fields)
  }

  /** `name` is listed, but is no claim, and all names listed before it are claims. */
  ghost predicate IsFirstMissing(names: seq<string>, fields: Fields, name: string) {
    exists i | 0 <= i < |names| ::
      names[i] == name && name !in fields && forall j | 0 <= j < i :: names[j] in fields
  }

  lemma {:induction false} FirstMissingMeaning(names: seq<string>, fields: Fields)
    ensures match FirstMissing(names, fields)
            case None => forall n | n in names :: n in fields
            case Some(name) => IsFirstMissing(names, fields, name)
  {
    if names != [] && names[0] in fields {
      FirstMissingMeaning(names[1..], fields);
      if FirstMissing(names, fields).Some? {
        var name := FirstMissing(names, fields).value;
        var i :| 0 <= i < |names[1..]| && names[1..][i] == name && forall j | 0 <= j < i :: names[1..][j] in fields;
        assert forall j | 0 <= j < i + 1 :: names[j] == if j == 0 then names[0] else names[1..][j - 1];
        assert names[i + 1] == name;
      }
    }
  }

  /** There is only one first one. */
  lemma FirstMissingIsUnique(names: seq<string>, fields: Fields, a: string, b: string)
    requires IsFirstMissing(names, fields, a) && IsFirstMissing(names, fields, b)
    ensures a == b
  {
    var i :| 0 <= i < |names| && names[i] == a && a !in fields && forall j | 0 <= j < i :: names[j] in fields;
    var k :| 0 <= k < |names| && names[k] == b && b !in fields && forall j | 0 <= j < k :: names[j] in fields;
    assert !(i < k) && !(k < i);
  }

  /**
   * What a request is turned down for, read off the request: the first of an empty type, an
   * unsupported hash, a selective name that is no claim, and 17 levels of structured claims.
   */
  lemma RefusalMeaning(cfg: IssuerConfig, req: IssueRequest)
    ensures var named, tooDeep := (forall n | n in req.selectiveFields :: n in req.claims),
                                  (exists p: Path :: |p| == 17 && GroupAt(req.claims, p).Some?);
            var r := Refusal(cfg, req);
            && (r == Some(VctRequired) <==> req.vct == "")
            && (r == Some(HashUnsupported) <==> req.vct != "" && cfg.hashAlg !in {Sha256, Sha384, Sha512})
            && (forall name :: r == Some(SelectiveFieldNotFound(name)) <==>
                  req.vct != "" && cfg.hashAlg in {Sha256, Sha384, Sha512} &&
                  IsFirstMissing(req.selectiveFields, req.claims, name))
            && (r == Some(NestingTooDeep) <==>
                  req.vct != "" && cfg.hashAlg in {Sha256, Sha384, Sha512} && named && tooDeep)
            && (r == None <==>
                  req.vct != "" && cfg.hashAlg in {Sha256, Sha384, Sha512} && named && !tooDeep)
  {
    TooDeepFromRoot(req.claims, req.selectiveFields);
    FirstMissingMeaning(req.selectiveFields, req.claims);
    forall name | IsFirstMissing(req.selectiveFields, req.claims, name)
      ensures FirstMissing(req.selectiveFields, req.claims) == Some(name)
    {
      var first := FirstMissing(req.selectiveFields, req.claims);
      if first.Some? {
        FirstMissingIsUnique(req.selectiveFields, req.claims, first.value, name);
      }
    }
  }

  method FindMissing(names: seq<string>, fields: Fields) returns (missing: Option<string>)
    ensures missing == FirstMissing(names, fields)
    ensures match missing
            case None => forall n | n in names :: n in fields
            case Some(name) => IsFirstMissing(names, fields, name)
  {
    FirstMissingMeaning(names, fields);
    for i := 0 to |names|
      invariant FirstMissing(names, fields) == FirstMissing(names[i..], fields)
    {
      if names[i] !in fields {
        return Some(names[i]);
      }
    }
    return None;
  }

  /** What was issued: a signed payload and all disclosures, for some run and some decoys. */
  ghost predicate Issued(pf: Suite, cfg: IssuerConfig, signer: Signer, req: IssueRequest, now: int,
                         run: seq<Visit>, decoys: seq<string>, token: Token)
  {
    var sc := Scheme(pf, cfg.hashAlg);
    && Refusal(cfg, req).None?
    && IsRun(run, req.claims, AsSet(req.selectiveFields))
    && |decoys| == (if cfg.decoyCount > 0 then cfg.decoyCount else 0)
    && Some(token.issuerJwt) == Jwt.Signed(pf, signer, "vc+sd-jwt",
         Payload(sc, cfg, SdAlgFromHash(cfg.hashAlg).value, req, now, run, decoys))
    && token.disclosures == Texts(sc, AllEntries(sc, run))
    && token.kbJwt == ""
  }

  /** The signer did not sign the payload of this run. */
  ghost predicate Unsigned(pf: Suite, cfg: IssuerConfig, signer: Signer, req: IssueRequest, now: int,
                           run: seq<Visit>, decoys: seq<string>)
  {
    && IsRun(run, req.claims, AsSet(req.selectiveFields))
    && SdAlgFromHash(cfg.hashAlg).Some?
    && Jwt.Signed(pf, signer, "vc+sd-jwt",
         Payload(Scheme(pf, cfg.hashAlg), cfg, SdAlgFromHash(cfg.hashAlg).value, req, now, run, decoys)) == None
  }

  /** `ss` are the values drawn from position `from` on, in order. */
  ghost predicate DrawnFrom(stream: nat -> string, from: nat, ss: seq<string>) {
    ss == [] ||
    (DrawnFrom(stream, from, ss[..|ss| - 1]) && ss[|ss| - 1] == stream(from + |ss| - 1))
  }

  /** Adds the decoys to the digests of the root object. */
  method AddDecoys(built: Built, count: int, rng: Entropy)
    returns (payload: Object, ghost decoys: seq<string>)
    modifies rng
    ensures |decoys| == if count > 0 then count else 0
    ensures Obj(payload) == Obj(WithDecoys(built, decoys))
    ensures rng.drawn == old(rng.drawn) + |decoys|
    ensures DrawnFrom(rng.stream, old(rng.drawn), decoys)
  {
    payload, decoys := built.members, [];
    if count > 0 {
      var existing := built.digests;
      for i := 0 to count
        invariant existing == built.digests + decoys && |decoys| == i
        invariant rng.drawn == old(rng.drawn) + i
        invariant DrawnFrom(rng.stream, old(rng.drawn), decoys)
      {
        var decoy := rng.RandomSalt();
        assert built.digests + decoys + [decoy] == built.digests + (decoys + [decoy]);
        existing := existing + [decoy];
        assert (decoys + [decoy])[..|decoys|] == decoys;
        decoys := decoys + [decoy];
      }
      payload := payload[SD := StringArray(existing)];
    }
  }

  lemma PutOver<K, V>(a: map<K, V>, b: map<K, V>, k: K, v: V)
    ensures (a + b)[k := v] == a + b[k := v]
  {
  }

  /** Sets a member of the payload; `registered` is what has been set so far. */
  method Put(payload: Object, k: string, v: Json, ghost built: Object, ghost registered: Object)
    returns (payload': Object, ghost registered': Object)
    requires Obj(payload) == Obj(built + registered)
    ensures Obj(registered') == Obj(registered[k := v])
    ensures Obj(payload') == Obj(built + registered')
  {
    PutOver(built, registered, k, v);
    payload', registered' := payload[k := v], registered[k := v];
  }

  /** Sets the registered claims one by one, over whatever claims have the same name. */
  method Register(built: Object, cfg: IssuerConfig, sdAlg: string, req: IssueRequest, now: int)
    returns (payload: Object)
    ensures Obj(payload) == Obj(built + Registered(cfg, sdAlg, req, now))
  {
    payload := built;
    ghost var reg: Object := map[];
    assert payload == built + reg;
    assert Obj(payload) == Obj(built + reg);
    payload, reg := Put(payload, "iss", Str(cfg.id), built, reg);
    payload, reg := Put(payload, "iat", UnixSeconds(now), built, reg);
    payload, reg := Put(payload, "nbf", UnixSeconds(Or(req.notBefore, now)), built, reg);
    payload, reg := Put(payload, "exp", UnixSeconds(Or(req.expiresAt, now + cfg.tokenTtl)), built, reg);
    payload, reg := Put(payload, "vct", Str(req.vct), built, reg);
    payload, reg := Put(payload, SD_ALG, Str(sdAlg), built, reg);
    if req.subject != "" {
      payload, reg := Put(payload, "sub", Str(req.subject), built, reg);
    }
    if cfg.schemaUri != "" {
      payload, reg := Put(payload, "vct#integrity", Str(cfg.schemaUri), built, reg);
    }
    if req.holderJwk.Some? {
      payload, reg := Put(payload, "cnf", Obj(map["jwk" := Obj(req.holderJwk.value)]), built, reg);
    }
  }

  method Issue(pf: Suite, cfg: IssuerConfig, signer: Signer, req: IssueRequest, now: int, rng: Entropy)
    returns (r: Result<Token, IssueError>, ghost run: seq<Visit>, ghost decoys: seq<string>)
    modifies rng
    ensures Refusal(cfg, req).Some? ==> r == Err(Refusal(cfg, req).value)
    ensures Refusal(cfg, req).None? ==> r.Ok? || r == Err(SigningFailed)
    ensures Refusal(cfg, req).None? && r.Err? ==> Unsigned(pf, cfg, signer, req, now, run, decoys)
    ensures r.Ok? ==> Issued(pf, cfg, signer, req, now, run, decoys, r.value)
    ensures r.Ok? ==>
              var es := AllEntries(Scheme(pf, cfg.hashAlg), run);
              && SaltsFrom(rng.stream, old(rng.drawn), es)
              && rng.drawn == old(rng.drawn) + |es| + |decoys|
              && DrawnFrom(rng.stream, old(rng.drawn) + |es|, decoys)
  {
    run, decoys := [], [];
    if req.vct == "" {
      return Err(VctRequired), run, decoys;
    }
    var sdAlg := SdAlgFromHash(cfg.hashAlg);
    if sdAlg.None? {
      return Err(HashUnsupported), run, decoys;
    }
    var missing := FindMissing(req.selectiveFields, req.claims);
    if missing.Some? {
      return Err(SelectiveFieldNotFound(missing.value)), run, decoys;
    }
    var sc := Scheme(pf, cfg.hashAlg);
    var allDisclosures := new DisclosureLog();
    var built;
    built, run := BuildClaimsObject(sc, req.claims, req.selectiveFields, allDisclosures, rng, 0, [], []);
    if built.Err? {
      return Err(built.error), run, decoys;
    }
    var payload;
    payload, decoys := AddDecoys(built.value, cfg.decoyCount, rng);
    payload := Register(payload, cfg, sdAlg.value, req, now);
    // The source drops an empty `_sd` here; neither step above leaves one.
    assert Obj(payload) == Obj(Payload(sc, cfg, sdAlg.value, req, now, run, decoys));

    var issuerJwt := Jwt.Signed(pf, signer, "vc+sd-jwt", payload);
    if issuerJwt.None? {
      return Err(SigningFailed), run, decoys;
    }
    assert allDisclosures.texts == Texts(sc, AllEntries(sc, run));
    return Ok(Token(issuerJwt.value, allDisclosures.texts, "")), run, decoys;
  }
}
