/** holder.go: choosing what to reveal and binding it to a verifier. */
module Holders {
  import opened Wrappers
  import opened JsonModel
  import opened Platform
  import opened Disclosures
  import opened Tokens
  import opened Sublists
  import Jwt

  datatype HolderError =
    | DisclosureInvalid
    | NoSigner
    | NonceRequired
    | AudienceRequired
    | SigningFailed

  datatype PresentOptions = PresentOptions(
    revealClaims: seq<string>,
    nonce: string,
    audience: string,
    keyBinding: bool
  )

  /** Disclosures without a key cannot be named, so they always stay. */
  predicate Wanted(d: Disclosure, wanted: set<string>) {
    d.key == "" || d.key in wanted
  }

  /** The disclosures kept by a filter; `None` as soon as one of them does not parse. */
  function Kept(pf: Suite, ds: seq<string>, wanted: set<string>): Option<seq<string>> {
    if ds == [] then Some([])
    else
      var last := ds[|ds| - 1];
      match Kept(pf, ds[..|ds| - 1], wanted)
      case None => None
      case Some(kept) =>
        match ParseDisclosure(pf, last)
        case None => None
        case Some(d) => Some(if Wanted(d, wanted) then kept + [last] else kept)
  }

  /** `selectDisclosures`: an empty reveal list means everything. */
  function Selection(pf: Suite, ds: seq<string>, names: seq<string>): Option<seq<string>> {
    if names == [] then Some(ds) else Kept(pf, ds, (set k | k in names))
  }

  /** `kept` is `ds` with the disclosures that are neither key-less nor named left out. */
  ghost predicate Filters(pf: Suite, ds: seq<string>, kept: seq<string>, wanted: set<string>) {
    && Sublist(kept, ds)
    && forall x :: multiset(kept)[x] ==
         match ParseDisclosure(pf, x)
         case Some(d) => if d.key == "" || d.key in wanted then multiset(ds)[x] else 0
         case None => 0
  }

  lemma {:induction false} KeptFailsForPrefix(pf: Suite, ds: seq<string>, n: nat, wanted: set<string>)
    requires n <= |ds| && Kept(pf, ds[..n], wanted).None?
    ensures Kept(pf, ds, wanted).None?
    decreases |ds| - n
  {
    if n < |ds| {
      assert ds[..n + 1][..n] == ds[..n];
      KeptFailsForPrefix(pf, ds, n + 1, wanted);
    } else {
      assert ds[..n] == ds;
    }
  }

  /** An empty list keeps everything, even what does not parse; any other one filters. */
  lemma SelectionMeaning(pf: Suite, ds: seq<string>, names: seq<string>)
    ensures names == [] ==> Selection(pf, ds, names) == Some(ds)
    ensures names != [] ==> (Selection(pf, ds, names).None? <==> exists x | x in ds :: ParseDisclosure(pf, x).None?)
    ensures names != [] && Selection(pf, ds, names).Some? ==>
              Filters(pf, ds, Selection(pf, ds, names).value, (set k | k in names))
  {
    KeptMeaning(pf, ds, (set k | k in names));
  }

  method SelectDisclosures(pf: Suite, t: Token, names: seq<string>) returns (r: Option<seq<string>>)
    ensures r == Selection(pf, t.disclosures, names)
    ensures names != [] && r.Some? ==> Filters(pf, t.disclosures, r.value, (set k | k in names))
  {
    SelectionMeaning(pf, t.disclosures, names);
    if |names| == 0 {
      return Some(t.disclosures);
    }
    var wanted: set<string> := {};
    for i := 0 to |names|
      invariant wanted == (set k | k in names[..i])
    {
      wanted := wanted + {names[i]};
    }
    assert names[..|names|] == names;
    var ds := t.disclosures;
    var selected: seq<string> := [];
    for i := 0 to |ds|
      invariant Kept(pf, ds[..i], wanted) == Some(selected)
    {
      assert ds[..i + 1][..i] == ds[..i];
      var d := ParseDisclosure(pf, ds[i]);
      if d.None? {
        KeptFailsForPrefix(pf, ds, i + 1, wanted);
        return None;
      }
      if Wanted(d.value, wanted) {
        selected := selected + [ds[i]];
      }
    }
    assert ds[..|ds|] == ds;
    return Some(selected);
  }

  /**
   * What filtering means: it fails exactly when some disclosure does not parse; otherwise the
   * result is a sub-list that keeps every occurrence of every key-less or named disclosure
   * and no occurrence of any other.
   */
  lemma {:induction false} KeptMeaning(pf: Suite, ds: seq<string>, wanted: set<string>)
    ensures Kept(pf, ds, wanted).None? <==> exists x | x in ds :: ParseDisclosure(pf, x).None?
    ensures Kept(pf, ds, wanted).Some? ==> Filters(pf, ds, Kept(pf, ds, wanted).value, wanted)
  {
    if ds != [] {
      var init, last := ds[..|ds| - 1], ds[|ds| - 1];
      assert ds == init + [last];
      KeptMeaning(pf, init, wanted);
      if Kept(pf, init, wanted).Some? && ParseDisclosure(pf, last).Some? {
        SublistExtends(Kept(pf, init, wanted).value, init, last);
      }
    }
  }

  /** Filtering twice is filtering once by what both filters name. */
  lemma {:induction false} KeptTwice(pf: Suite, ds: seq<string>, w1: set<string>, w2: set<string>)
    requires Kept(pf, ds, w1).Some?
    ensures Kept(pf, Kept(pf, ds, w1).value, w2) == Kept(pf, ds, w1 * w2)
  {
    if ds != [] {
      var init, last := ds[..|ds| - 1], ds[|ds| - 1];
      KeptTwice(pf, init, w1, w2);
      var kept := Kept(pf, init, w1).value;
      if Wanted(ParseDisclosure(pf, last).value, w1) {
        assert (kept + [last])[..|kept|] == kept;
      }
    }
  }

  /**
   * Two successive selections with non-empty reveal lists equal one selection by a list of
   * their common names, provided such a list is non-empty. If they share no name, the two
   * selections together keep only key-less disclosures, whereas the empty list keeps all.
   */
  lemma SelectionTwice(pf: Suite, ds: seq<string>, r1: seq<string>, r2: seq<string>, both: seq<string>)
    requires r1 != [] && r2 != []
    requires forall k :: k in both <==> k in r1 && k in r2
    requires Selection(pf, ds, r1).Some?
    ensures var twice := Selection(pf, Selection(pf, ds, r1).value, r2);
            if both != [] then twice == Selection(pf, ds, both)
            else twice == Kept(pf, ds, {})
  {
    var w1, w2, w := (set k | k in r1), (set k | k in r2), (set k | k in both);
    assert w1 * w2 == w;
    KeptTwice(pf, ds, w1, w2);
  }

  /** The members a KB-JWT signs. */
  function KbPayload(pf: Suite, presented: Token, nonce: string, audience: string, now: int): Object {
    map[
      "iat" := Num(ToSeconds(now), 0),
      "nonce" := Str(nonce),
      "aud" := Str(audience),
      "sd_hash" := Str(pf.digest(Sha256, presented.Prefix()))
    ]
  }

  /** `buildKBJWT`. */
  function BuildKbJwt(pf: Suite, signer: Signer, presented: Token, nonce: string, audience: string, now: int)
    : Option<string>
  {
    Jwt.Signed(pf, signer, "kb+jwt", KbPayload(pf, presented, nonce, audience, now))
  }

  /** `Present`: filter first, then bind what is left. */
  function Presentation(pf: Suite, signer: Option<Signer>, now: int, t: Token, opts: PresentOptions)
    : Result<Token, HolderError>
  {
    match Selection(pf, t.disclosures, opts.revealClaims)
    case None => Err(DisclosureInvalid)
    case Some(selected) =>
      var presented := Token(t.issuerJwt, selected, "");
      if !opts.keyBinding then Ok(presented)
      else if signer.None? then Err(NoSigner)
      else if opts.nonce == "" then Err(NonceRequired)
      else if opts.audience == "" then Err(AudienceRequired)
      else
        match BuildKbJwt(pf, signer.value, presented, opts.nonce, opts.audience, now)
        case None => Err(SigningFailed)
        case Some(kb) => Ok(presented.(kbJwt := kb))
  }

  method Present(pf: Suite, signer: Option<Signer>, now: int, t: Token, opts: PresentOptions)
    returns (r: Result<Token, HolderError>)
    ensures r == Presentation(pf, signer, now, t, opts)
    ensures r.Ok? ==> r.value.issuerJwt == t.issuerJwt && Sublist(r.value.disclosures, t.disclosures)
    ensures r.Ok? ==> r.value.Prefix() == Token(t.issuerJwt, r.value.disclosures, "").Prefix()
  {
    if Presentation(pf, signer, now, t, opts).Ok? {
      PresentationKeeps(pf, signer, now, t, opts);
    }
    var selected := SelectDisclosures(pf, t, opts.revealClaims);
    if selected.None? {
      return Err(DisclosureInvalid);
    }
    var presented := Token(t.issuerJwt, selected.value, "");
    if !opts.keyBinding {
      return Ok(presented);
    }
    if signer.None? {
      return Err(NoSigner);
    }
    if opts.nonce == "" {
      return Err(NonceRequired);
    }
    if opts.audience == "" {
      return Err(AudienceRequired);
    }
    var kbJwt := BuildKbJwt(pf, signer.value, presented, opts.nonce, opts.audience, now);
    if kbJwt.None? {
      return Err(SigningFailed);
    }
    presented := presented.(kbJwt := kbJwt.value);
    return Ok(presented);
  }

  /** The payload of a KB-JWT: these members and no others. */
  ghost predicate IsKbPayload(pf: Suite, payload: Object, prefix: string, nonce: string, audience: string, now: int) {
    && payload.Keys == {"iat", "nonce", "aud", "sd_hash"}
    && (exists s :: payload["iat"] == Num(s, 0) && s * 1_000_000_000 <= now < s * 1_000_000_000 + 1_000_000_000)
    && payload["nonce"] == Str(nonce) && payload["aud"] == Str(audience)
    && payload["sd_hash"] == Str(pf.digest(Sha256, prefix))
  }

  lemma KbPayloadMeaning(pf: Suite, presented: Token, nonce: string, audience: string, now: int)
    ensures IsKbPayload(pf, KbPayload(pf, presented, nonce, audience, now), presented.Prefix(), nonce, audience, now)
  {
    assert "iat"[0] != "nonce"[0] && "iat"[0] != "aud"[0] && "iat"[0] != "sd_hash"[0];
    assert "nonce"[0] != "aud"[0] && "nonce"[0] != "sd_hash"[0] && "aud"[0] != "sd_hash"[0];
    var payload := KbPayload(pf, presented, nonce, audience, now);
    SecondsMeaning(now, ToSeconds(now));
    assert payload["iat"] == Num(ToSeconds(now), 0);
  }

  /** The disclosures of a presentation: all, or those that the reveal list lets through. */
  ghost predicate Presents(pf: Suite, t: Token, opts: PresentOptions, p: Token) {
    && p.issuerJwt == t.issuerJwt
    && if opts.revealClaims == [] then p.disclosures == t.disclosures
       else Filters(pf, t.disclosures, p.disclosures, (set k | k in opts.revealClaims))
  }

  /**
   * What presenting means, error by error. It fails over the disclosures only if one has to be
   * looked at and does not parse; without key binding in no other way; and with it, if there is
   * no signer, no nonce, no audience, or no signature, in this order.
   */
  lemma PresentationMeaning(pf: Suite, signer: Option<Signer>, now: int, t: Token, opts: PresentOptions)
    returns (p: Token, header: Object, payload: Object)
    ensures (opts.revealClaims != [] && exists x | x in t.disclosures :: ParseDisclosure(pf, x).None?) <==>
            Presentation(pf, signer, now, t, opts) == Err(DisclosureInvalid)
    ensures Presentation(pf, signer, now, t, opts) != Err(DisclosureInvalid) ==>
              && Presents(pf, t, opts, p) && p.kbJwt == ""
              && (!opts.keyBinding ==> Presentation(pf, signer, now, t, opts) == Ok(p))
              && (opts.keyBinding ==>
                    Binding(pf, signer, now, p, opts, header, payload, Presentation(pf, signer, now, t, opts)))
  {
    SelectionMeaning(pf, t.disclosures, opts.revealClaims);
    p, header, payload := t, map[], map[];
    if Selection(pf, t.disclosures, opts.revealClaims).Some? {
      p := Token(t.issuerJwt, Selection(pf, t.disclosures, opts.revealClaims).value, "");
      if opts.keyBinding && signer.Some? {
        payload := KbPayload(pf, p, opts.nonce, opts.audience, now);
        header := Jwt.SignedMeaning(pf, signer.value, "kb+jwt", payload);
        KbPayloadMeaning(pf, p, opts.nonce, opts.audience, now);
      }
    }
  }

  /** Once the disclosures are chosen. */
  lemma PresentingSelected(pf: Suite, signer: Option<Signer>, now: int, t: Token, opts: PresentOptions)
    requires Selection(pf, t.disclosures, opts.revealClaims).Some?
    ensures var r := Presentation(pf, signer, now, t, opts);
            if !opts.keyBinding then r.Ok?
            else if signer == None then r == Err(NoSigner)
            else if opts.nonce == "" then r == Err(NonceRequired)
            else if opts.audience == "" then r == Err(AudienceRequired)
            else r.Ok? || (r == Err(HolderError.SigningFailed) && CanFail(signer.value))
  {
    if opts.keyBinding && signer.Some? {
      var presented := Token(t.issuerJwt, Selection(pf, t.disclosures, opts.revealClaims).value, "");
      var payload := KbPayload(pf, presented, opts.nonce, opts.audience, now);
      var header := Jwt.SignedMeaning(pf, signer.value, "kb+jwt", payload);
    }
  }

  /** The outcome `r` of binding `p` to a holder. */
  ghost predicate Binding(pf: Suite, signer: Option<Signer>, now: int, p: Token, opts: PresentOptions,
                          header: Object, payload: Object, r: Result<Token, HolderError>)
  {
    if signer == None then r == Err(NoSigner)
    else if opts.nonce == "" then r == Err(NonceRequired)
    else if opts.audience == "" then r == Err(AudienceRequired)
    else
      var input := pf.encode(Obj(header)) + "." + pf.encode(Obj(payload));
      && Jwt.IsHeader(header, "kb+jwt", signer.value)
      && IsKbPayload(pf, payload, p.Prefix(), opts.nonce, opts.audience, now)
      && match signer.value.sign(input)
         case None => r == Err(SigningFailed)
         case Some(signature) => r == Ok(p.(kbJwt := input + "." + pf.encodeBytes(signature)))
  }

  /** A presentation keeps the issuer JWT, and attaching a KB-JWT leaves the prefix that was
      hashed into it unchanged. */
  lemma PresentationKeeps(pf: Suite, signer: Option<Signer>, now: int, t: Token, opts: PresentOptions)
    requires Presentation(pf, signer, now, t, opts).Ok?
    ensures var p := Presentation(pf, signer, now, t, opts).value;
            && p.issuerJwt == t.issuerJwt
            && Sublist(p.disclosures, t.disclosures)
            && p.Prefix() == Token(t.issuerJwt, p.disclosures, "").Prefix()
            && (p.HasKeyBinding() ==> opts.keyBinding)
  {
    if opts.revealClaims == [] {
      SublistOfItself(t.disclosures);
    } else {
      KeptMeaning(pf, t.disclosures, (set k | k in opts.revealClaims));
    }
  }

  /** One call of `Present` in a chain of them. */
  datatype Call = Call(signer: Option<Signer>, now: int, opts: PresentOptions)

  /** Presents the outcome of each call again with the next one. */
  function Chain(pf: Suite, t: Token, calls: seq<Call>): Result<Token, HolderError> {
    if calls == [] then Ok(t)
    else
      var last := calls[|calls| - 1];
      match Chain(pf, t, calls[..|calls| - 1])
      case Err(e) => Err(e)
      case Ok(before) => Presentation(pf, last.signer, last.now, before, last.opts)
  }

  /** However often a token is presented again, the issuer JWT stays and disclosures are only
      ever lost. */
  lemma {:induction false} ChainNeverWidens(pf: Suite, t: Token, calls: seq<Call>)
    requires Chain(pf, t, calls).Ok?
    ensures var p := Chain(pf, t, calls).value;
            p.issuerJwt == t.issuerJwt && Sublist(p.disclosures, t.disclosures)
  {
    if calls == [] {
      SublistOfItself(t.disclosures);
    } else {
      var last := calls[|calls| - 1];
      ChainNeverWidens(pf, t, calls[..|calls| - 1]);
      var before := Chain(pf, t, calls[..|calls| - 1]).value;
      PresentationKeeps(pf, last.signer, last.now, before, last.opts);
      SublistTransitive(Chain(pf, t, calls).value.disclosures, before.disclosures, t.disclosures);
    }
  }
}
