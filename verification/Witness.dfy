/** The hypotheses on the platform can be met: JSON values have a reversible encoding into
    non-empty text without tildes and dots. */
module Witness {
  import opened Wrappers
  import opened JsonModel
  import opened Platform
  import opened Pipeline
  import opened Protocol

  function Unary(n: nat): string {
    if n == 0 then ";" else "i" + Unary(n - 1)
  }

  function EncodeString(s: string): string {
    if s == [] then "]" else "u" + Unary(s[0] as int) + EncodeString(s[1..])
  }

  ghost function EncodeJson(j: Json): string
    decreases j, 0
  {
    match j
    case Null => "n"
    case Bool(b) => if b then "t" else "f"
    case Num(m, scale) => (if m >= 0 then "+" + Unary(m) else "-" + Unary(-m)) + Unary(scale)
    case Str(s) => "s" + EncodeString(s)
    case Arr(items) => "a" + EncodeItems(items)
    case Obj(m) => "o" + EncodeMembers(j, m)
  }

  ghost function EncodeItems(items: seq<Json>): string
    decreases items, 0
  {
    if items == [] then "]" else "," + EncodeJson(items[0]) + EncodeItems(items[1..])
  }

  ghost function EncodeMembers(j: Json, m: Object): string
    requires j.Obj? && forall k | k in m :: k in j.members && m[k] == j.members[k]
    decreases j, 0, |m|
  {
    if m == map[] then "]"
    else
      var k :| k in m;
      "," + EncodeString(k) + EncodeJson(m[k]) + EncodeMembers(j, m - {k})
  }

  // Each encoding can be told from what follows it.

  lemma {:induction false} UnaryEnds(a: nat, b: nat, x: string, y: string)
    requires Unary(a) + x == Unary(b) + y
    ensures a == b && x == y
  {
    var s, t := Unary(a) + x, Unary(b) + y;
    assert s[0] == (if a == 0 then ';' else 'i') && t[0] == (if b == 0 then ';' else 'i');
    if a == 0 {
      assert s[1..] == x && t[1..] == y;
    } else {
      assert s[1..] == Unary(a - 1) + x && t[1..] == Unary(b - 1) + y;
      UnaryEnds(a - 1, b - 1, x, y);
    }
  }

  lemma {:induction false} StringEnds(a: string, b: string, x: string, y: string)
    requires EncodeString(a) + x == EncodeString(b) + y
    ensures a == b && x == y
  {
    var s, t := EncodeString(a) + x, EncodeString(b) + y;
    assert s[0] == (if a == [] then ']' else 'u') && t[0] == (if b == [] then ']' else 'u');
    if a == [] {
      assert s[1..] == x && t[1..] == y;
    } else {
      var a', b' := EncodeString(a[1..]) + x, EncodeString(b[1..]) + y;
      assert s[1..] == Unary(a[0] as int) + a' && t[1..] == Unary(b[0] as int) + b';
      UnaryEnds(a[0] as int, b[0] as int, a', b');
      StringEnds(a[1..], b[1..], x, y);
      assert a == [a[0]] + a[1..] && b == [b[0]] + b[1..];
    }
  }

  /** The first character tells the kind. */
  function Kind(j: Json): char {
    match j
    case Null => 'n'
    case Bool(b) => if b then 't' else 'f'
    case Num(m, _) => if m >= 0 then '+' else '-'
    case Str(_) => 's'
    case Arr(_) => 'a'
    case Obj(_) => 'o'
  }

  /** What follows the first character. */
  ghost function Rest(j: Json): string {
    match j
    case Null => ""
    case Bool(_) => ""
    case Num(m, scale) => Unary(if m >= 0 then m else -m) + Unary(scale)
    case Str(s) => EncodeString(s)
    case Arr(items) => EncodeItems(items)
    case Obj(m) => EncodeMembers(j, m)
  }

  lemma KindAndRest(j: Json)
    ensures EncodeJson(j) == [Kind(j)] + Rest(j)
  {
  }

  lemma SameHeads(c: char, e: string, x: string, d: char, f: string, y: string)
    requires [c] + e + x == [d] + f + y
    ensures c == d && e + x == f + y
  {
    assert ([c] + e + x)[0] == c && ([d] + f + y)[0] == d;
    assert ([c] + e + x)[1..] == e + x && ([d] + f + y)[1..] == f + y;
  }

  lemma Associates(a: string, b: string, c: string)
    ensures a + b + c == a + (b + c)
  {
  }

  lemma SameKind(a: Json, b: Json, x: string, y: string)
    requires EncodeJson(a) + x == EncodeJson(b) + y
    ensures Kind(a) == Kind(b) && Rest(a) + x == Rest(b) + y
  {
    KindAndRest(a);
    KindAndRest(b);
    SameHeads(Kind(a), Rest(a), x, Kind(b), Rest(b), y);
  }

  lemma NumbersEnd(a: Json, b: Json, x: string, y: string)
    requires a.Num? && b.Num? && Kind(a) == Kind(b) && Rest(a) + x == Rest(b) + y
    ensures a == b && x == y
  {
    var m := if a.mantissa >= 0 then a.mantissa else -a.mantissa;
    var n := if b.mantissa >= 0 then b.mantissa else -b.mantissa;
    Associates(Unary(m), Unary(a.scale), x);
    Associates(Unary(n), Unary(b.scale), y);
    UnaryEnds(m, n, Unary(a.scale) + x, Unary(b.scale) + y);
    UnaryEnds(a.scale, b.scale, x, y);
  }

  lemma {:induction false} JsonEnds(a: Json, b: Json, x: string, y: string)
    requires EncodeJson(a) + x == EncodeJson(b) + y
    ensures a == b && x == y
    decreases a, 0
  {
    SameKind(a, b, x, y);
    match a
    case Null =>
      assert [] + x == x && [] + y == y;
    case Bool(_) =>
      assert [] + x == x && [] + y == y;
    case Num(_, _) =>
      NumbersEnd(a, b, x, y);
    case Str(u) =>
      StringEnds(u, b.s, x, y);
    case Arr(items) =>
      ItemsEnd(items, b.items, x, y);
    case Obj(m) =>
      MembersEnd(a, m, b, b.members, x, y);
  }

  lemma ItemsAre(a: seq<Json>, x: string)
    requires a != []
    ensures EncodeItems(a) + x == "," + EncodeJson(a[0]) + (EncodeItems(a[1..]) + x)
  {
    Associates("," + EncodeJson(a[0]), EncodeItems(a[1..]), x);
  }

  lemma {:induction false} ItemsEnd(a: seq<Json>, b: seq<Json>, x: string, y: string)
    requires EncodeItems(a) + x == EncodeItems(b) + y
    ensures a == b && x == y
    decreases a, 0
  {
    var s, t := EncodeItems(a) + x, EncodeItems(b) + y;
    assert s[0] == (if a == [] then ']' else ',') && t[0] == (if b == [] then ']' else ',');
    if a == [] {
      assert s[1..] == x && t[1..] == y;
    } else {
      var a', b' := EncodeItems(a[1..]) + x, EncodeItems(b[1..]) + y;
      ItemsAre(a, x);
      ItemsAre(b, y);
      SameHeads(',', EncodeJson(a[0]), a', ',', EncodeJson(b[0]), b');
      JsonEnds(a[0], b[0], a', b');
      ItemsEnd(a[1..], b[1..], x, y);
      assert a == [a[0]] + a[1..] && b == [b[0]] + b[1..];
    }
  }

  /** The member an encoding of members starts with. */
  lemma FirstMember(j: Json, m: Object, x: string) returns (k: string)
    requires j.Obj? && forall k | k in m :: k in j.members && m[k] == j.members[k]
    requires m != map[]
    ensures k in m && m == (m - {k})[k := m[k]] && |m - {k}| < |m|
    ensures EncodeMembers(j, m) + x ==
            "," + (EncodeString(k) + (EncodeJson(m[k]) + (EncodeMembers(j, m - {k}) + x)))
  {
    k :| k in m && EncodeMembers(j, m) == "," + EncodeString(k) + EncodeJson(m[k]) + EncodeMembers(j, m - {k});
    assert m == (m - {k})[k := m[k]];
    var a, b, c := EncodeString(k), EncodeJson(m[k]), EncodeMembers(j, m - {k});
    Associates("," + a + b, c, x);
    Associates("," + a, b, c + x);
    Associates(",", a, b + (c + x));
  }

  lemma {:induction false} MembersEnd(j: Json, m: Object, l: Json, n: Object, x: string, y: string)
    requires j.Obj? && forall k | k in m :: k in j.members && m[k] == j.members[k]
    requires l.Obj? && forall k | k in n :: k in l.members && n[k] == l.members[k]
    requires EncodeMembers(j, m) + x == EncodeMembers(l, n) + y
    ensures m == n && x == y
    decreases j, 0, |m|
  {
    var s, t := EncodeMembers(j, m) + x, EncodeMembers(l, n) + y;
    assert s[0] == (if m == map[] then ']' else ',') && t[0] == (if n == map[] then ']' else ',');
    if m == map[] {
      assert s[1..] == x && t[1..] == y;
    } else {
      var k := FirstMember(j, m, x);
      var i := FirstMember(l, n, y);
      var p, q := EncodeMembers(j, m - {k}) + x, EncodeMembers(l, n - {i}) + y;
      assert s[1..] == EncodeString(k) + (EncodeJson(m[k]) + p);
      assert t[1..] == EncodeString(i) + (EncodeJson(n[i]) + q);
      StringEnds(k, i, EncodeJson(m[k]) + p, EncodeJson(n[i]) + q);
      JsonEnds(m[k], n[i], p, q);
      MembersEnd(j, m - {k}, l, n - {i}, x, y);
    }
  }

  // No encoding contains a tilde or a dot.

  ghost predicate CleanText(s: string) {
    '~' !in s && '.' !in s
  }

  lemma {:induction false} UnaryClean(n: nat)
    ensures CleanText(Unary(n))
  {
    if n > 0 {
      UnaryClean(n - 1);
    }
  }

  lemma {:induction false} StringClean(s: string)
    ensures CleanText(EncodeString(s))
  {
    if s != [] {
      UnaryClean(s[0] as int);
      StringClean(s[1..]);
    }
  }

  lemma {:induction false} JsonClean(j: Json)
    ensures CleanText(EncodeJson(j))
    decreases j, 0
  {
    match j
    case Null =>
    case Bool(_) =>
    case Num(m, scale) =>
      UnaryClean(if m >= 0 then m else -m);
      UnaryClean(scale);
    case Str(s) => StringClean(s);
    case Arr(items) => ItemsClean(items);
    case Obj(m) => MembersClean(j, m);
  }

  lemma {:induction false} ItemsClean(items: seq<Json>)
    ensures CleanText(EncodeItems(items))
    decreases items, 0
  {
    if items != [] {
      JsonClean(items[0]);
      ItemsClean(items[1..]);
    }
  }

  lemma {:induction false} MembersClean(j: Json, m: Object)
    requires j.Obj? && forall k | k in m :: k in j.members && m[k] == j.members[k]
    ensures CleanText(EncodeMembers(j, m))
    decreases j, 0, |m|
  {
    if m != map[] {
      var k :| k in m && EncodeMembers(j, m) ==
                 "," + EncodeString(k) + EncodeJson(m[k]) + EncodeMembers(j, m - {k});
      StringClean(k);
      JsonClean(m[k]);
      MembersClean(j, m - {k});
    }
  }

  ghost function Decode(s: string): Option<Json> {
    if exists j :: EncodeJson(j) == s then
      var j :| EncodeJson(j) == s;
      Some(j)
    else None
  }

  function AsText(bytes: Bytes): string {
    seq(|bytes|, i requires 0 <= i < |bytes| => (bytes[i] as int) as char)
  }

  lemma SameText(a: Bytes, b: Bytes)
    requires AsText(a) == AsText(b)
    ensures a == b
  {
    assert |a| == |AsText(a)| && |b| == |AsText(b)|;
    forall i | 0 <= i < |a|
      ensures a[i] == b[i]
    {
      assert AsText(a)[i] == AsText(b)[i];
    }
  }

  function EncodeBytes(bytes: Bytes): string {
    EncodeString(AsText(bytes))
  }

  ghost function DecodeBytes(s: string): Option<Bytes> {
    if exists bytes :: EncodeBytes(bytes) == s then
      var bytes :| EncodeBytes(bytes) == s;
      Some(bytes)
    else None
  }

  /** There is a platform of the kind all results about encoded tokens assume, with any hash,
      key lookup and signature check. */
  lemma LawfulPlatformExists(digest: (HashAlg, string) -> string, resolveKey: (string, string) -> Option<PublicKey>,
                             jwkKey: Object -> Option<PublicKey>,
                             checkSignature: (PublicKey, string, string, Bytes) -> bool)
    returns (pf: Suite)
    ensures Lawful(pf)
    ensures pf.digest == digest && pf.resolveKey == resolveKey && pf.jwkKey == jwkKey
    ensures pf.checkSignature == checkSignature
  {
    pf := Suite((j: Json) => EncodeJson(j), (s: string) => Decode(s),
                (bytes: Bytes) => EncodeBytes(bytes), (s: string) => DecodeBytes(s),
                digest, resolveKey, jwkKey, checkSignature);
    forall j: Json
      ensures Decode(EncodeJson(j)) == Some(j) && EncodeJson(j) != [] && CleanText(EncodeJson(j))
    {
      var d := Decode(EncodeJson(j));
      JsonEnds(d.value, j, "", "");
      KindAndRest(j);
      JsonClean(j);
    }
    forall bytes: Bytes
      ensures DecodeBytes(EncodeBytes(bytes)) == Some(bytes) && CleanText(EncodeBytes(bytes))
    {
      var back := DecodeBytes(EncodeBytes(bytes));
      StringEnds(AsText(back.value), AsText(bytes), "", "");
      SameText(back.value, bytes);
      StringClean(AsText(bytes));
    }
  }

  /** Likewise for the hypotheses on randomness and signatures. */
  lemma IdealPlatformExists(key: PublicKey)
    returns (pf: Suite, stream: nat -> string, signer: Signer)
    ensures Lawful(pf) && NeverRepeats(stream) && SignsFor(pf, signer, key)
    ensures forall alg :: IdealHash(pf, alg, stream)
    ensures forall iss, kid :: pf.resolveKey(iss, kid) == Some(key)
    ensures forall jwk :: pf.jwkKey(jwk) == Some(key)
    ensures exists input :: signer.sign(input).Some?
  {
    pf := LawfulPlatformExists((alg, text) => "#" + text, (iss, kid) => Some(key), jwk => Some(key),
                               (k, alg, input, sig) => sig == [1]);
    stream := (n: nat) => Unary(n);
    signer := Signer("ES256", "", input => Some([1]));
    forall i: nat, j: nat | stream(i) == stream(j)
      ensures i == j
    {
      assert Unary(i) + "" == Unary(i) && Unary(j) + "" == Unary(j);
      UnaryEnds(i, j, "", "");
    }
    forall a: string, b: string | "#" + a == "#" + b
      ensures a == b
    {
      assert ("#" + a)[1..] == a && ("#" + b)[1..] == b;
    }
    forall i: nat, a: string
      ensures stream(i) != "#" + a
    {
      assert stream(i)[0] != '#';
    }
    assert signer.sign("").Some?;
  }
}
