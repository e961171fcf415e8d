/** disclosure.go: the salted text form of one hidden claim. */
module Disclosures {
  import opened Wrappers
  import opened JsonModel
  import opened Platform

  /** `key` is empty for the array-element form. */
  datatype Disclosure = Disclosure(salt: string, key: string, value: Json)

  /** The JSON array a disclosure is written as. */
  function ToArray(d: Disclosure): Json {
    if d.key != "" then Arr([Str(d.salt), Str(d.key), d.value]) else Arr([Str(d.salt), d.value])
  }

  function Encode(pf: Suite, d: Disclosure): string {
    pf.encode(ToArray(d))
  }

  /** `json.Unmarshal` into a string variable: `null` leaves it empty. */
  function AsString(j: Json): Option<string> {
    match j
    case Str(s) => Some(s)
    case Null => Some("")
    case _ => None
  }

  /** Only a three-element array carries a key; every other length of at least two does not. */
  function FromArray(items: seq<Json>): Option<Disclosure> {
    if |items| < 2 || AsString(items[0]).None? then None
    else if |items| == 3 then
      match AsString(items[1])
      case None => None
      case Some(key) => Some(Disclosure(AsString(items[0]).value, key, items[2]))
    else Some(Disclosure(AsString(items[0]).value, "", items[1]))
  }

  /** `ParseDisclosure`. `None` stands for `ErrDisclosureInvalid`. */
  function ParseDisclosure(pf: Suite, encoded: string): Option<Disclosure> {
    match pf.decode(encoded)
    case Some(Arr(items)) => FromArray(items)
    case _ => None
  }

  /** A string, or `null`, which reads as the empty one. */
  ghost predicate ReadsString(j: Json, s: string) {
    j == Str(s) || (j == Null && s == "")
  }

  /** What a text stands for: three elements are salt, key and value; of any other number from two
      on, the first is the salt and the second the value. */
  lemma ParseMeaning(pf: Suite, text: string, salt: string, key: string, value: Json)
    ensures ParseDisclosure(pf, text) == Some(Disclosure(salt, key, value)) <==>
            exists items ::
              && pf.decode(text) == Some(Arr(items)) && |items| >= 2 && ReadsString(items[0], salt)
              && if |items| == 3 then ReadsString(items[1], key) && items[2] == value
                 else key == "" && items[1] == value
  {
    match pf.decode(text)
    case Some(Arr(items)) =>
      assert pf.decode(text) == Some(Arr(items));
    case _ =>
  }

  /** What a disclosure is written as. */
  lemma EncodedArray(pf: Suite, d: Disclosure)
    requires Lawful(pf)
    ensures pf.decode(Encode(pf, d)) ==
            Some(Arr(if d.key == "" then [Str(d.salt), d.value] else [Str(d.salt), Str(d.key), d.value]))
  {
    assert pf.decode(pf.encode(ToArray(d))) == Some(ToArray(d));
  }

  /** Parsing gives back the salt, the key and the value that were encoded. */
  lemma ParseOfEncode(pf: Suite, d: Disclosure)
    requires Lawful(pf)
    ensures ParseDisclosure(pf, Encode(pf, d)) == Some(d)
  {
    assert pf.decode(pf.encode(ToArray(d))) == Some(ToArray(d));
  }

  /**
   * Whatever text parses, its canonical re-encoding parses to the same disclosure: also
   * when the text had an empty key, a null salt or more than three elements.
   */
  lemma ParseIsStable(pf: Suite, encoded: string)
    requires Lawful(pf)
    requires ParseDisclosure(pf, encoded).Some?
    ensures var d := ParseDisclosure(pf, encoded).value;
            ParseDisclosure(pf, Encode(pf, d)) == Some(d)
  {
    ParseOfEncode(pf, ParseDisclosure(pf, encoded).value);
  }

  lemma EncodeIsInjective(pf: Suite, a: Disclosure, b: Disclosure)
    requires Lawful(pf)
    ensures Encode(pf, a) == Encode(pf, b) <==> a == b
  {
    ParseOfEncode(pf, a);
    ParseOfEncode(pf, b);
  }

  /** Exactly the arrays that parse: two or more elements, a string or null salt, and a
      string or null key when there are exactly three. */
  lemma ParseAccepts(pf: Suite, j: Json)
    requires Lawful(pf)
    ensures ParseDisclosure(pf, pf.encode(j)).Some? <==>
            && j.Arr? && |j.items| >= 2
            && (j.items[0].Str? || j.items[0].Null?)
            && (|j.items| == 3 ==> j.items[1].Str? || j.items[1].Null?)
  {
    assert pf.decode(pf.encode(j)) == Some(j);
  }
}
