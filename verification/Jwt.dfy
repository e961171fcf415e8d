/** The compact serialisation of signed objects: `signJWT`, `decodeJWT`, `verifyJWTSignature`. */
module Jwt {
  import opened Wrappers
  import opened JsonModel
  import opened Platform
  import Text

  datatype Parts = Parts(header: string, payload: string, signature: string)

  datatype Decoded = Decoded(header: Object, payload: Object)

  /** `strings.SplitN(token, ".", 3)`, required to give three parts. */
  function SplitJwt(token: string): Option<Parts> {
    match Text.Cut(token, '.')
    case None => None
    case Some((header, rest)) =>
      match Text.Cut(rest, '.')
      case None => None
      case Some((payload, signature)) => Some(Parts(header, payload, signature))
  }

  /** `json.Unmarshal` into a map variable: `null` leaves the map nil. */
  function AsObject(j: Json): Option<Object> {
    match j
    case Obj(m) => Some(m)
    case Null => Some(map[])
    case _ => None
  }

  function DecodePart(pf: Suite, part: string): Option<Object> {
    match pf.decode(part)
    case None => None
    case Some(j) => AsObject(j)
  }

  /** `decodeJWT`: the header and the payload, without a signature check. */
  function DecodeJwt(pf: Suite, token: string): Option<Decoded> {
    match SplitJwt(token)
    case None => None
    case Some(parts) =>
      match (DecodePart(pf, parts.header), DecodePart(pf, parts.payload))
      case (Some(header), Some(payload)) => Some(Decoded(header, payload))
      case _ => None
  }

  /** `verifyJWTSignature`. */
  predicate SignatureValid(pf: Suite, token: string, key: PublicKey, alg: string) {
    match SplitJwt(token)
    case None => false
    case Some(parts) =>
      match pf.decodeBytes(parts.signature)
      case None => false
      case Some(signature) => pf.checkSignature(key, alg, parts.header + "." + parts.payload, signature)
  }

  // ----- The same, read off the characters -----

  /** `token` is `h.p.s`, cut at its first two dots. */
  ghost predicate ThreeParts(token: string, h: string, p: string, s: string) {
    token == h + "." + p + "." + s && '.' !in h && '.' !in p
  }

  lemma SplitMeaning(token: string, h: string, p: string, s: string)
    ensures SplitJwt(token) == Some(Parts(h, p, s)) <==> ThreeParts(token, h, p, s)
  {
    Text.CutMeaning(token, '.');
    if Text.Cut(token, '.').Some? {
      var (a, rest) := Text.Cut(token, '.').value;
      Text.CutMeaning(rest, '.');
      if Text.Cut(rest, '.').Some? {
        var (b, c) := Text.Cut(rest, '.').value;
        assert a + ['.'] + (b + ['.'] + c) == a + "." + b + "." + c;
      }
    }
    if ThreeParts(token, h, p, s) {
      assert token == h + ['.'] + (p + ['.'] + s);
      Text.CutAtFirst(h, '.', p + ['.'] + s);
      Text.CutAtFirst(p, '.', s);
    }
  }

  /** The encoded `part` holds the object `o`; `null` counts as an empty one. */
  ghost predicate Reads(pf: Suite, part: string, o: Object) {
    pf.decode(part) == Some(Obj(o)) || (pf.decode(part) == Some(Null) && o == map[])
  }

  /** `token` has three parts, of which the first two hold `header` and `payload`. */
  ghost predicate Carries(pf: Suite, token: string, header: Object, payload: Object) {
    exists h, p, s :: ThreeParts(token, h, p, s) && Reads(pf, h, header) && Reads(pf, p, payload)
  }

  lemma DecodeMeaning(pf: Suite, token: string, header: Object, payload: Object)
    ensures DecodeJwt(pf, token) == Some(Decoded(header, payload)) <==> Carries(pf, token, header, payload)
  {
    if SplitJwt(token).Some? {
      var parts := SplitJwt(token).value;
      SplitMeaning(token, parts.header, parts.payload, parts.signature);
    }
    forall h, p, s | ThreeParts(token, h, p, s)
      ensures SplitJwt(token) == Some(Parts(h, p, s))
    {
      SplitMeaning(token, h, p, s);
    }
  }

  /** The third part of `token` holds a signature of the other two under `key`. */
  ghost predicate SignedBy(pf: Suite, token: string, key: PublicKey, alg: string) {
    exists h, p, s, signature ::
      && ThreeParts(token, h, p, s) && pf.decodeBytes(s) == Some(signature)
      && pf.checkSignature(key, alg, h + "." + p, signature)
  }

  /** A signature is accepted if and only if it decodes and the key verifies it. */
  lemma SignatureMeaning(pf: Suite, token: string, key: PublicKey, alg: string)
    ensures SignatureValid(pf, token, key, alg) <==> SignedBy(pf, token, key, alg)
  {
    if SplitJwt(token).Some? {
      var parts := SplitJwt(token).value;
      SplitMeaning(token, parts.header, parts.payload, parts.signature);
    }
    forall h, p, s | ThreeParts(token, h, p, s)
      ensures SplitJwt(token) == Some(Parts(h, p, s))
    {
      SplitMeaning(token, h, p, s);
    }
  }

  /** The header both kinds of token carry. */
  function Header(typ: string, signer: Signer): Object {
    var base := map["typ" := Str(typ), "alg" := Str(signer.alg)];
    if signer.keyId != "" then base["kid" := Str(signer.keyId)] else base
  }

  /** Signs `payload`; `None` when the signer fails. */
  function Signed(pf: Suite, signer: Signer, typ: string, payload: Object): Option<string> {
    var input := pf.encode(Obj(Header(typ, signer))) + "." + pf.encode(Obj(payload));
    match signer.sign(input)
    case None => None
    case Some(signature) => Some(input + "." + pf.encodeBytes(signature))
  }

  /** A signed object decodes to what was signed, verifies under the signer's key, and can
      stand between tildes. */
  lemma SignedDecodes(pf: Suite, signer: Signer, typ: string, payload: Object)
    requires Lawful(pf)
    requires Signed(pf, signer, typ, payload).Some?
    ensures var token := Signed(pf, signer, typ, payload).value;
            && DecodeJwt(pf, token) == Some(Decoded(Header(typ, signer), payload))
            && token != "" && '~' !in token
            && forall key | SignsFor(pf, signer, key) :: SignatureValid(pf, token, key, signer.alg)
  {
    var h, p := pf.encode(Obj(Header(typ, signer))), pf.encode(Obj(payload));
    var raw := signer.sign(h + "." + p).value;
    var signature := pf.encodeBytes(raw);
    var token := h + "." + p + "." + signature;
    assert Signed(pf, signer, typ, payload) == Some(token);
    assert token == h + ['.'] + (p + ['.'] + signature);
    Text.CutAtFirst(h, '.', p + ['.'] + signature);
    Text.CutAtFirst(p, '.', signature);
    assert SplitJwt(token) == Some(Parts(h, p, signature));
  }

  /** What is in a header, and nothing else. */
  ghost predicate IsHeader(header: Object, typ: string, signer: Signer) {
    && header.Keys == {"typ", "alg"} + (if signer.keyId != "" then {"kid"} else {})
    && header["typ"] == Str(typ) && header["alg"] == Str(signer.alg)
    && (signer.keyId != "" ==> header["kid"] == Str(signer.keyId))
  }

  lemma HeaderMeaning(typ: string, signer: Signer)
    ensures IsHeader(Header(typ, signer), typ, signer)
  {
    assert "typ"[0] != "alg"[0] && "typ"[0] != "kid"[0] && "alg"[0] != "kid"[0];
  }

  /** Signing fails exactly when the signer does, on the text that would be signed. Otherwise the
      token is that text, with the encoded signature as its third part. */
  lemma SignedMeaning(pf: Suite, signer: Signer, typ: string, payload: Object) returns (header: Object)
    ensures IsHeader(header, typ, signer)
    ensures var input := pf.encode(Obj(header)) + "." + pf.encode(Obj(payload));
            match signer.sign(input)
            case None => Signed(pf, signer, typ, payload) == None
            case Some(signature) => Signed(pf, signer, typ, payload) == Some(input + "." + pf.encodeBytes(signature))
  {
    header := Header(typ, signer);
    HeaderMeaning(typ, signer);
  }

  /** The header members a verifier reads back. */
  lemma HeaderMembers(typ: string, signer: Signer)
    ensures StringMember(Header(typ, signer), "alg") == signer.alg
    ensures StringMember(Header(typ, signer), "kid") == signer.keyId
  {
  }
}
