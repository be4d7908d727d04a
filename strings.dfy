/**
  The functions of Go's strings package that the core calls. Case mapping
  is ASCII only: Go maps every Unicode letter, the model maps 'a'..'z' and
  'A'..'Z' and leaves every other character as it is.
 */
module GoStrings {

  function UpperChar(c: char): char {
    if 'a' <= c <= 'z' then ((c as int) - 32) as char else c
  }

  function LowerChar(c: char): char {
    if 'A' <= c <= 'Z' then ((c as int) + 32) as char else c
  }

  /** strings.ToUpper */
  function ToUpper(s: string): (r: string)
    ensures |r| == |s|
    ensures forall i :: 0 <= i < |s| ==> r[i] == UpperChar(s[i])
  {
    seq(|s|, i requires 0 <= i < |s| => UpperChar(s[i]))
  }

  /** strings.ToLower */
  function ToLower(s: string): (r: string)
    ensures |r| == |s|
    ensures forall i :: 0 <= i < |s| ==> r[i] == LowerChar(s[i])
  {
    seq(|s|, i requires 0 <= i < |s| => LowerChar(s[i]))
  }

  lemma ToLowerConcat(a: string, b: string)
    ensures ToLower(a + b) == ToLower(a) + ToLower(b)
  {
  }

  /** strings.HasPrefix */
  predicate HasPrefix(s: string, prefix: string) {
    |prefix| <= |s| && s[..|prefix|] == prefix
  }

  /** strings.Contains: `sub` occurs in `s` at some position. */
  predicate Contains(s: string, sub: string)
    decreases |s|
  {
    HasPrefix(s, sub) || (|s| > 0 && Contains(s[1..], sub))
  }

  /** A string does not contain a pattern whose first character it lacks. */
  lemma {:induction false} NotContainsLead(s: string, sub: string)
    requires |sub| > 0 && sub[0] !in s
    ensures !Contains(s, sub)
    decreases |s|
  {
    if |s| > 0 {
      assert s == [s[0]] + s[1..];
      NotContainsLead(s[1..], sub);
    }
  }

  /** A character that occurs only once, between two pieces, is never doubled. */
  lemma {:induction false} NotContainsDoubled(p: string, c: char, q: string)
    requires c !in p && c !in q
    ensures !Contains(p + [c] + q, [c, c])
    decreases |p|
  {
    var s := p + [c] + q;
    if p == [] {
      assert s == [c] + q;
      if |q| > 0 {
        assert s[..2][1] == q[0];
      }
      assert s[1..] == q;
      NotContainsLead(q, [c, c]);
    } else {
      assert s[0] == p[0];
      assert s[1..] == p[1..] + [c] + q;
      NotContainsDoubled(p[1..], c, q);
    }
  }

  /** strings.TrimPrefix: removes one copy of `prefix` if `s` starts with it. */
  function TrimPrefix(s: string, prefix: string): (r: string)
    ensures HasPrefix(s, prefix) ==> prefix + r == s
    ensures !HasPrefix(s, prefix) ==> r == s
  {
    if HasPrefix(s, prefix) then s[|prefix|..] else s
  }

  /**
    strings.Split for a non-empty separator: the pieces between the
    non-overlapping occurrences of `sep`, found from the left. There is
    always at least one piece.
   */
  function Split(s: string, sep: string): (parts: seq<string>)
    requires |sep| > 0
    ensures |parts| > 0
    decreases |s|
  {
    if |s| < |sep| then [s]
    else if s[..|sep|] == sep then [""] + Split(s[|sep|..], sep)
    else
      var rest := Split(s[1..], sep);
      [[s[0]] + rest[0]] + rest[1..]
  }

  /** strings.Join */
  function Join(parts: seq<string>, sep: string): string {
    if |parts| == 0 then ""
    else if |parts| == 1 then parts[0]
    else parts[0] + sep + Join(parts[1..], sep)
  }

  lemma JoinConsHead(c: char, parts: seq<string>, sep: string)
    requires |parts| > 0
    ensures Join([[c] + parts[0]] + parts[1..], sep) == [c] + Join(parts, sep)
  {
    var ps := [[c] + parts[0]] + parts[1..];
    assert ps[1..] == parts[1..];
  }

  lemma JoinConsEmpty(parts: seq<string>, sep: string)
    requires |parts| > 0
    ensures Join([""] + parts, sep) == sep + Join(parts, sep)
  {
    assert ([""] + parts)[1..] == parts;
  }

  /** Splitting and joining again with the same separator gives the string back. */
  lemma {:induction false} JoinSplit(s: string, sep: string)
    requires |sep| > 0
    ensures Join(Split(s, sep), sep) == s
    decreases |s|
  {
    if |s| < |sep| {
    } else if s[..|sep|] == sep {
      JoinSplit(s[|sep|..], sep);
      JoinConsEmpty(Split(s[|sep|..], sep), sep);
      assert s == sep + s[|sep|..];
    } else {
      var rest := Split(s[1..], sep);
      JoinSplit(s[1..], sep);
      JoinConsHead(s[0], rest, sep);
      assert s == [s[0]] + s[1..];
    }
  }

  /** Splitting a string that does not contain the separator gives the string itself. */
  lemma {:induction false} SplitWithoutSeparator(s: string, sep: string)
    requires |sep| > 0
    requires !Contains(s, sep)
    ensures Split(s, sep) == [s]
    decreases |s|
  {
    if |s| >= |sep| {
      SplitWithoutSeparator(s[1..], sep);
      assert [s[0]] + s[1..] == s;
    }
  }

  /** Every character of every piece occurs in the split string. */
  lemma {:induction false} SplitPiecesFromInput(s: string, sep: string)
    requires |sep| > 0
    ensures forall p, c :: p in Split(s, sep) && c in p ==> c in s
    decreases |s|
  {
    if |s| < |sep| {
    } else if s[..|sep|] == sep {
      SplitPiecesFromInput(s[|sep|..], sep);
      forall p, c | p in Split(s, sep) && c in p
        ensures c in s
      {
        assert p in Split(s[|sep|..], sep);
        assert c in s[|sep|..];
      }
    } else {
      var rest := Split(s[1..], sep);
      SplitPiecesFromInput(s[1..], sep);
      forall p, c | p in Split(s, sep) && c in p
        ensures c in s
      {
        if p == [s[0]] + rest[0] {
          if c != s[0] {
            assert c in rest[0];
            assert rest[0] in rest;
            assert c in s[1..];
          }
        } else {
          assert p in rest[1..];
          assert p in rest;
          assert c in s[1..];
        }
      }
    }
  }

  /**
    If a piece does not contain the separator's first character, the first
    occurrence of the separator after it ends that piece.
   */
  lemma {:induction false} SplitAtFirst(p: string, sep: string, rest: string)
    requires |sep| > 0 && sep[0] !in p
    ensures Split(p + sep + rest, sep) == [p] + Split(rest, sep)
    decreases |p|
  {
    var s := p + sep + rest;
    if p == [] {
      assert s[..|sep|] == sep;
      assert s[|sep|..] == rest;
    } else {
      assert s[0] == p[0];
      assert s[..|sep|][0] == s[0];
      assert s[1..] == p[1..] + sep + rest;
      SplitAtFirst(p[1..], sep, rest);
      assert [p[0]] + p[1..] == p;
    }
  }

  /**
    Joining pieces that do not contain a one-character separator and
    splitting the result again gives the pieces back.
   */
  lemma {:induction false} SplitJoin(parts: seq<string>, c: char)
    requires |parts| > 0
    requires forall i :: 0 <= i < |parts| ==> c !in parts[i]
    ensures Split(Join(parts, [c]), [c]) == parts
    decreases |parts|
  {
    if |parts| == 1 {
      NotContainsLead(parts[0], [c]);
      SplitWithoutSeparator(parts[0], [c]);
    } else {
      SplitJoin(parts[1..], c);
      SplitAtFirst(parts[0], [c], Join(parts[1..], [c]));
      assert [parts[0]] + parts[1..] == parts;
    }
  }
}
