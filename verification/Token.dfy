/** token.go: the tilde-separated wire format. */
module Tokens {
  import opened Wrappers
  import Text

  const TILDE := '~'

  /** `kbJwt` is empty when the token carries no key binding. */
  datatype Token = Token(issuerJwt: string, disclosures: seq<string>, kbJwt: string) {
    function ToString(): string {
      Text.Join([issuerJwt] + disclosures + [kbJwt], TILDE)
    }

    /** What `sd_hash` commits to: everything up to the KB-JWT. */
    function Prefix(): string {
      Text.Join([issuerJwt] + disclosures, TILDE) + [TILDE]
    }

    predicate HasKeyBinding() {
      kbJwt != ""
    }
  }

  /** Parts that survive a round trip over the wire. */
  ghost predicate WellFormed(t: Token) {
    && t.issuerJwt != "" && TILDE !in t.issuerJwt && TILDE !in t.kbJwt
    && forall i | 0 <= i < |t.disclosures| :: t.disclosures[i] != "" && TILDE !in t.disclosures[i]
  }

  /** The token a presentation string stands for; `None` is `ErrInvalidFormat`. */
  function ParseToken(raw: string): Option<Token> {
    var parts := Text.Split(raw, TILDE);
    if |parts| < 2 || parts[0] == "" then None
    else
      var middle := parts[1..|parts| - 1];
      if exists i | 0 <= i < |middle| :: middle[i] == "" then None
      else Some(Token(parts[0], middle, parts[|parts| - 1]))
  }

  method Parse(raw: string) returns (r: Option<Token>)
    ensures r == ParseToken(raw)
  {
    if raw == "" {
      return None;
    }
    var parts := Text.Split(raw, TILDE);
    if |parts| < 2 {
      return None;
    }
    var issuerJwt := parts[0];
    if issuerJwt == "" {
      return None;
    }
    var last := parts[|parts| - 1];
    var middle := parts[1..|parts| - 1];
    var t := Token(issuerJwt, [], last);
    for i := 0 to |middle|
      invariant t == Token(issuerJwt, middle[..i], last)
      invariant forall j | 0 <= j < i :: middle[j] != ""
    {
      if middle[i] == "" {
        return None;
      }
      t := t.(disclosures := t.disclosures + [middle[i]]);
    }
    assert middle[..|middle|] == middle;
    return Some(t);
  }

  /**
   * Exactly the accepted strings, read off the characters: there is a tilde, none in front,
   * and no two next to each other. In particular appending a tilde to a string that already
   * ends in one makes it unacceptable.
   */
  lemma ParseAcceptsExactly(raw: string)
    ensures ParseToken(raw).Some? <==>
            TILDE in raw && raw[0] != TILDE && !Text.Doubled(raw, TILDE)
  {
    Text.SplitShape(raw, TILDE);
    var parts := Text.Split(raw, TILDE);
    if |parts| >= 2 {
      var middle := parts[1..|parts| - 1];
      assert forall i | 0 <= i < |middle| :: middle[i] == parts[i + 1];
      assert (exists i | 0 <= i < |middle| :: middle[i] == "") <==> Text.Doubled(raw, TILDE) by {
        if Text.Doubled(raw, TILDE) {
          var i :| 1 <= i < |parts| - 1 && parts[i] == [];
          assert middle[i - 1] == "";
        }
      }
    }
  }

  /** Serialising what was parsed gives the text back, and the parts are well formed. */
  lemma StringOfParse(raw: string)
    requires ParseToken(raw).Some?
    ensures ParseToken(raw).value.ToString() == raw
    ensures WellFormed(ParseToken(raw).value)
  {
    var parts, t := Text.Split(raw, TILDE), ParseToken(raw).value;
    Text.SplitPartsAreFree(raw, TILDE);
    assert [t.issuerJwt] + t.disclosures + [t.kbJwt] == parts;
    Text.JoinOfSplit(raw, TILDE);
    assert forall i | 0 <= i < |t.disclosures| :: t.disclosures[i] == parts[i + 1];
  }

  lemma ParseOfString(t: Token)
    requires WellFormed(t)
    ensures ParseToken(t.ToString()) == Some(t)
  {
    var parts := [t.issuerJwt] + t.disclosures + [t.kbJwt];
    Text.SplitOfJoin(parts, TILDE);
    assert parts[1..|parts| - 1] == t.disclosures;
  }

  /** Text that ends in a tilde already is not made acceptable by another one. */
  lemma ExtraTildeIsRejected(t: Token)
    requires !t.HasKeyBinding()
    ensures ParseToken(t.ToString() + [TILDE]).None?
  {
    StringIsPrefixPlusKb(t);
    var raw := t.ToString() + [TILDE];
    var n := |t.ToString()| - 1;
    assert raw[n] == TILDE && raw[n + 1] == TILDE;
    ParseAcceptsExactly(raw);
  }

  /** The text of a token is its prefix followed by the KB-JWT. */
  lemma StringIsPrefixPlusKb(t: Token)
    ensures t.ToString() == t.Prefix() + t.kbJwt
  {
    Text.JoinSnoc([t.issuerJwt] + t.disclosures, TILDE, t.kbJwt);
  }

  /** The prefix of a parsed string is its text up to and including the last tilde. */
  lemma PrefixLaw(raw: string)
    requires ParseToken(raw).Some?
    ensures var t := ParseToken(raw).value;
            && raw == t.Prefix() + t.kbJwt
            && t.Prefix()[|t.Prefix()| - 1] == TILDE
            && TILDE !in t.kbJwt
            && (t.HasKeyBinding() <==> raw[|raw| - 1] != TILDE)
  {
    StringOfParse(raw);
    StringIsPrefixPlusKb(ParseToken(raw).value);
  }

  /** Well-formed tokens with the same prefix have the same issuer JWT and the same
      disclosures in the same order; the KB-JWT plays no part. */
  lemma PrefixIsInjective(a: Token, b: Token)
    requires WellFormed(a) && WellFormed(b)
    ensures a.Prefix() == b.Prefix() <==> a.issuerJwt == b.issuerJwt && a.disclosures == b.disclosures
  {
    if a.Prefix() == b.Prefix() {
      var a0, b0 := a.(kbJwt := ""), b.(kbJwt := "");
      StringIsPrefixPlusKb(a0);
      StringIsPrefixPlusKb(b0);
      ParseOfString(a0);
      ParseOfString(b0);
    }
  }
}
