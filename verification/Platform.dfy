/** What the library takes from outside: serialisation, hashing, keys and signatures. */
module Platform {
  import opened Wrappers
  import opened JsonModel

  /** `crypto.Hash`: the three supported algorithms and all the others. */
  datatype HashAlg = Sha256 | Sha384 | Sha512 | OtherHash

  datatype PublicKey = PublicKey(id: nat)

  newtype byte = b: int | 0 <= b < 256

  type Bytes = seq<byte>

  /** Instants and durations are counted in nanoseconds. This is `time.Unix`. */
  function FromSeconds(s: int): int {
    s * 1_000_000_000
  }

  /** `Time.Unix`. */
  function ToSeconds(t: int): int {
    t / 1_000_000_000
  }

  datatype Suite = Suite(
    encode: Json -> string,                    // json.Marshal, then unpadded base64url
    decode: string -> Option<Json>,            // unpadded base64url, then json.Unmarshal
    encodeBytes: Bytes -> string,              // unpadded base64url
    decodeBytes: string -> Option<Bytes>,
    digest: (HashAlg, string) -> string,       // base64url of the digest
    resolveKey: (string, string) -> Option<PublicKey>,
    jwkKey: Object -> Option<PublicKey>,
    checkSignature: (PublicKey, string, string, Bytes) -> bool
  )

  /** A private key: its JWA name, its key id and its signing operation. */
  datatype Signer = Signer(alg: string, keyId: string, sign: string -> Option<Bytes>)

  /** Decoding undoes encoding, and encoded text is free of separators. */
  ghost predicate Lawful(pf: Suite) {
    && (forall j: Json ::
          && pf.decode(pf.encode(j)) == Some(j)
          && pf.encode(j) != []
          && '~' !in pf.encode(j)
          && '.' !in pf.encode(j))
    && (forall bytes: Bytes ::
          && pf.decodeBytes(pf.encodeBytes(bytes)) == Some(bytes)
          && '~' !in pf.encodeBytes(bytes))
  }

  /** What `s` signs verifies under `key`. */
  ghost predicate SignsFor(pf: Suite, s: Signer, key: PublicKey) {
    forall input: string ::
      s.sign(input).Some? ==> pf.checkSignature(key, s.alg, input, s.sign(input).value)
  }

  /** The signer does not sign everything. */
  ghost predicate CanFail(signer: Signer) {
    exists input :: signer.sign(input) == None
  }

  /** `hashutil.SDAlgFromHash`. */
  function SdAlgFromHash(h: HashAlg): Option<string> {
    match h
    case Sha256 => Some("sha-256")
    case Sha384 => Some("sha-384")
    case Sha512 => Some("sha-512")
    case OtherHash => None
  }

  /** `hashutil.AlgorithmFromSDAlg`. */
  function AlgorithmFromSdAlg(alg: string): Option<HashAlg> {
    if alg == "sha-256" then Some(Sha256)
    else if alg == "sha-384" then Some(Sha384)
    else if alg == "sha-512" then Some(Sha512)
    else None
  }

  /** The names, in both directions, and no others. */
  lemma SdAlgNames(h: HashAlg, alg: string)
    ensures SdAlgFromHash(h) == Some(alg) <==>
            (h, alg) == (Sha256, "sha-256") || (h, alg) == (Sha384, "sha-384") || (h, alg) == (Sha512, "sha-512")
    ensures AlgorithmFromSdAlg(alg) == Some(h) <==>
            (h, alg) == (Sha256, "sha-256") || (h, alg) == (Sha384, "sha-384") || (h, alg) == (Sha512, "sha-512")
  {
    assert "sha-256"[4] == '2' && "sha-384"[4] == '3' && "sha-512"[4] == '5';
  }

  /** Whole seconds, rounded down. */
  lemma SecondsMeaning(t: int, s: int)
    ensures ToSeconds(t) == s <==> s * 1_000_000_000 <= t < s * 1_000_000_000 + 1_000_000_000
    ensures FromSeconds(s) == 1_000_000_000 * s
  {
  }

  /** The two tables are inverse to each other on what they accept. */
  lemma SdAlgTablesAgree(h: HashAlg, alg: string)
    ensures SdAlgFromHash(h) == Some(alg) <==> AlgorithmFromSdAlg(alg) == Some(h)
  {
    assert "sha-256"[4] == '2' && "sha-384"[4] == '3' && "sha-512"[4] == '5';
  }
}
