/** The parts of Go's `strings` package that the wire format relies on. */
module Text {
  import opened Wrappers

  /** `strings.Split(s, c)`. */
  function Split(s: string, c: char): (r: seq<string>)
    ensures |r| >= 1
  {
    if s == [] then [[]]
    else
      var rest := Split(s[1..], c);
      if s[0] == c then [[]] + rest else [[s[0]] + rest[0]] + rest[1..]
  }

  /** `strings.Join(parts, c)`. */
  function Join(parts: seq<string>, c: char): string {
    if parts == [] then []
    else if |parts| == 1 then parts[0]
    else parts[0] + [c] + Join(parts[1..], c)
  }

  /** Splits at the first `c`, if there is one. */
  function Cut(s: string, c: char): Option<(string, string)> {
    if s == [] then None
    else if s[0] == c then Some(([], s[1..]))
    else
      match Cut(s[1..], c)
      case None => None
      case Some((a, b)) => Some(([s[0]] + a, b))
  }

  lemma {:induction false} CutAtFirst(a: string, c: char, b: string)
    requires c !in a
    ensures Cut(a + [c] + b, c) == Some((a, b))
  {
    var s := a + [c] + b;
    if a == [] {
      assert s[1..] == b;
    } else {
      assert s[1..] == a[1..] + [c] + b;
      CutAtFirst(a[1..], c, b);
      assert [a[0]] + a[1..] == a;
    }
  }

  /** There is a first `c`, and what stands on either side of it; or there is none. */
  lemma {:induction false} CutMeaning(s: string, c: char)
    ensures match Cut(s, c)
            case None => c !in s
            case Some((a, b)) => c !in a && s == a + [c] + b
  {
    if s != [] && s[0] != c {
      CutMeaning(s[1..], c);
      assert s == [s[0]] + s[1..];
    }
  }

  lemma {:induction false} SplitPartsAreFree(s: string, c: char)
    ensures forall i | 0 <= i < |Split(s, c)| :: c !in Split(s, c)[i]
  {
    if s != [] {
      SplitPartsAreFree(s[1..], c);
    }
  }

  lemma {:induction false} JoinOfSplit(s: string, c: char)
    ensures Join(Split(s, c), c) == s
  {
    if s == [] {
    } else {
      JoinOfSplit(s[1..], c);
      var rest := Split(s[1..], c);
      assert Split(s, c)[1..] == if s[0] == c then rest else rest[1..];
      assert s == [s[0]] + s[1..];
    }
  }

  lemma {:induction false} SplitOfFree(s: string, c: char)
    requires c !in s
    ensures Split(s, c) == [s]
  {
    if s == [] {
    } else {
      SplitOfFree(s[1..], c);
      assert [s[0]] + s[1..] == s;
    }
  }

  lemma {:induction false} SplitAtFirst(a: string, c: char, b: string)
    requires c !in a
    ensures Split(a + [c] + b, c) == [a] + Split(b, c)
  {
    var s := a + [c] + b;
    if a == [] {
      assert s[1..] == b;
    } else {
      assert s[1..] == a[1..] + [c] + b;
      SplitAtFirst(a[1..], c, b);
      assert [a[0]] + a[1..] == a;
    }
  }

  lemma {:induction false} SplitOfJoin(parts: seq<string>, c: char)
    requires parts != []
    requires forall i | 0 <= i < |parts| :: c !in parts[i]
    ensures Split(Join(parts, c), c) == parts
  {
    if |parts| == 1 {
      SplitOfFree(parts[0], c);
    } else {
      SplitOfJoin(parts[1..], c);
      SplitAtFirst(parts[0], c, Join(parts[1..], c));
    }
  }

  lemma {:induction false} JoinSnoc(parts: seq<string>, c: char, last: string)
    requires parts != []
    ensures Join(parts + [last], c) == Join(parts, c) + [c] + last
  {
    if |parts| == 1 {
      assert (parts + [last])[1..] == [last];
    } else {
      assert (parts + [last])[1..] == parts[1..] + [last];
      JoinSnoc(parts[1..], c, last);
    }
  }

  /** Two neighbouring separators. */
  ghost predicate Doubled(s: string, c: char) {
    exists i :: 0 <= i < |s| - 1 && s[i] == c && s[i + 1] == c
  }

  /** Reads the shape of a split off the characters themselves. */
  lemma {:induction false} SplitShape(s: string, c: char)
    ensures |Split(s, c)| >= 2 <==> c in s
    ensures Split(s, c)[0] == [] <==> (s == [] || s[0] == c)
    ensures (exists i :: 1 <= i < |Split(s, c)| - 1 && Split(s, c)[i] == []) <==> Doubled(s, c)
  {
    if s == [] {
    } else {
      var t := s[1..];
      SplitShape(t, c);
      var rest, parts := Split(t, c), Split(s, c);
      assert s == [s[0]] + t;
      assert Doubled(s, c) <==> Doubled(t, c) || (s[0] == c && t != [] && t[0] == c) by {
        if Doubled(t, c) {
          var i :| 0 <= i < |t| - 1 && t[i] == c && t[i + 1] == c;
          assert s[i + 1] == c && s[i + 2] == c;
        }
        if s[0] == c && t != [] && t[0] == c {
          assert s[0] == c && s[0 + 1] == c;
        }
        if Doubled(s, c) {
          var i :| 0 <= i < |s| - 1 && s[i] == c && s[i + 1] == c;
          if i > 0 {
            assert t[i - 1] == c && t[i - 1 + 1] == c;
          }
        }
      }
      if s[0] == c {
        assert parts == [[]] + rest;
        assert forall i | 1 <= i < |parts| :: parts[i] == rest[i - 1];
        if exists i :: 1 <= i < |rest| - 1 && rest[i] == [] {
          var i :| 1 <= i < |rest| - 1 && rest[i] == [];
          assert parts[i + 1] == [];
        }
        if t != [] && t[0] == c {
          assert parts[1] == [];
        }
      } else {
        assert forall i | 1 <= i < |parts| :: parts[i] == rest[i];
        if exists i :: 1 <= i < |rest| - 1 && rest[i] == [] {
          var i :| 1 <= i < |rest| - 1 && rest[i] == [];
          assert parts[i] == [];
        }
      }
    }
  }
}
