/** The string operations the protocol code takes from its runtimes' libraries. */
module Strings {

  /** The index of the first character of a set, or -1. */
  function IndexAny(s: string, set_: set<char>): (i: int)
    ensures -1 <= i < |s|
    ensures i >= 0 ==> s[i] in set_
    ensures forall k | 0 <= k < (if i < 0 then |s| else i) :: s[k] !in set_
  {
    if s == "" then -1
    else if s[0] in set_ then 0
    else
      var i := IndexAny(s[1..], set_);
      if i < 0 then -1 else i + 1
  }

  /** The index of the last occurrence of a character, or -1. */
  function LastIndex(s: string, c: char): (i: int)
    ensures -1 <= i < |s|
    ensures i >= 0 ==> s[i] == c
    ensures forall k | i < k < |s| :: s[k] != c
  {
    if s == "" then -1
    else if s[|s| - 1] == c then |s| - 1
    else LastIndex(s[..|s| - 1], c)
  }

  /** The pieces between the occurrences of a separator. */
  function Split(s: string, sep: char): (parts: seq<string>)
    ensures |parts| >= 1
  {
    if s == "" then [""]
    else
      var rest := Split(s[1..], sep);
      if s[0] == sep then [""] + rest else [[s[0]] + rest[0]] + rest[1..]
  }

  function Join(parts: seq<string>, sep: string): string
  {
    if parts == [] then ""
    else if |parts| == 1 then parts[0]
    else parts[0] + sep + Join(parts[1..], sep)
  }

  lemma {:induction false} SplitFirst(a: string, sep: char, b: string)
    requires sep !in a
    ensures Split(a + [sep] + b, sep) == [a] + Split(b, sep)
  {
    var s := a + [sep] + b;
    if a == "" {
      assert s[1..] == b;
    } else {
      assert s[1..] == a[1..] + [sep] + b;
      SplitFirst(a[1..], sep, b);
      assert a == [a[0]] + a[1..];
    }
  }

  lemma {:induction false} SplitNone(a: string, sep: char)
    requires sep !in a
    ensures Split(a, sep) == [a]
  {
    if a != "" {
      SplitNone(a[1..], sep);
      assert a == [a[0]] + a[1..];
    }
  }

  /** Splitting cuts exactly at the separators: the pieces carry none and join back to the text. */
  lemma {:induction false} SplitJoins(s: string, sep: char)
    ensures Join(Split(s, sep), [sep]) == s
    ensures forall p | p in Split(s, sep) :: sep !in p
  {
    if s != "" {
      var rest := Split(s[1..], sep);
      SplitJoins(s[1..], sep);
      if s[0] != sep {
        var parts := [[s[0]] + rest[0]] + rest[1..];
        assert parts[1..] == rest[1..];
        assert Join(parts, [sep]) == [s[0]] + Join(rest, [sep]);
      } else {
        assert ([""] + rest)[1..] == rest;
      }
    }
  }

  /** Splitting the other way: text put together from pieces without separators is cut into them. */
  lemma {:induction false} JoinSplits(parts: seq<string>, sep: char)
    requires parts != [] && forall p | p in parts :: sep !in p
    ensures Split(Join(parts, [sep]), sep) == parts
  {
    if |parts| == 1 {
      SplitNone(parts[0], sep);
    } else {
      JoinSplits(parts[1..], sep);
      SplitFirst(parts[0], sep, Join(parts[1..], [sep]));
    }
  }

  /** Three pieces without separators, and the text they are cut from. */
  lemma SplitThree(a: string, b: string, c: string, sep: char)
    requires sep !in a && sep !in b && sep !in c
    ensures Split(a + [sep] + b + [sep] + c, sep) == [a, b, c]
  {
    RegroupThree(a, [sep], b, c);
    SplitFirst(a, sep, b + [sep] + c);
    SplitFirst(b, sep, c);
    SplitNone(c, sep);
  }

  lemma RegroupThree(a: string, sep: string, b: string, c: string)
    ensures a + sep + b + sep + c == a + sep + (b + sep + c)
  {
  }

  lemma ThreeJoin(s: string, a: string, b: string, c: string, sep: char)
    requires Split(s, sep) == [a, b, c]
    ensures s == a + [sep] + b + [sep] + c
    ensures sep !in a && sep !in b && sep !in c
  {
    SplitJoins(s, sep);
    JoinThree(a, b, c, [sep]);
    assert a == [a, b, c][0] && b == [a, b, c][1] && c == [a, b, c][2];
  }

  lemma JoinThree(a: string, b: string, c: string, sep: string)
    ensures Join([a, b, c], sep) == a + sep + b + sep + c
  {
    assert [a, b, c][1..] == [b, c] && [b, c][1..] == [c];
    assert Join([b, c], sep) == b + sep + c;
    RegroupThree(a, sep, b, c);
  }

  lemma {:induction false} SplitConcat(a: string, sep: char, b: string)
    ensures Split(a + [sep] + b, sep) == Split(a, sep) + Split(b, sep)
  {
    var s := a + [sep] + b;
    if a == "" {
      assert s[1..] == b;
    } else {
      SplitConcat(a[1..], sep, b);
      assert s[1..] == a[1..] + [sep] + b && s[0] == a[0];
      PiecesFollow(a[0], a[0] == sep, Split(a[1..], sep), Split(b, sep));
    }
  }

  /** A character joins the first piece, or starts a piece before it, whatever pieces follow. */
  lemma PiecesFollow(c: char, starts: bool, rest: seq<string>, tail: seq<string>)
    requires rest != []
    ensures var all := rest + tail;
            (if starts then [""] + all else [[c] + all[0]] + all[1..]) ==
            (if starts then [""] + rest else [[c] + rest[0]] + rest[1..]) + tail
  {
  }

  lemma IndexAnyIs(s: string, set_: set<char>, i: nat)
    requires i < |s| && s[i] in set_ && forall k | 0 <= k < i :: s[k] !in set_
    ensures IndexAny(s, set_) == i
  {
    assert IndexAny(s, set_) >= 0;
  }

  lemma IndexAnyNone(s: string, set_: set<char>)
    requires forall c | c in s :: c !in set_
    ensures IndexAny(s, set_) == -1
  {
  }

  /** The first character of a set, when the text before it has none. */
  lemma IndexAnyAfter(a: string, set_: set<char>, b: string)
    requires (forall c | c in a :: c !in set_) && b != "" && b[0] in set_
    ensures IndexAny(a + b, set_) == |a|
  {
    assert (a + b)[|a|] == b[0];
    IndexAnyIs(a + b, set_, |a|);
  }

  lemma LastIndexBefore(a: string, c: char, b: string)
    requires c !in b
    ensures LastIndex(a + [c] + b, c) == |a|
  {
    LastIndexAfter(a + [c], c, |a|, b);
  }

  lemma {:induction false} LastIndexAfter(s: string, c: char, i: nat, b: string)
    requires c !in b && i == |s| - 1 && s[i] == c
    ensures LastIndex(s + b, c) == i
    decreases |b|
  {
    var t := s + b;
    if b == "" {
      assert t == s;
    } else {
      var front := b[..|b| - 1];
      assert t[..|t| - 1] == s + front && t[|t| - 1] == b[|b| - 1];
      assert b[|b| - 1] in b && forall x | x in front :: x in b;
      LastIndexAfter(s, c, i, front);
    }
  }

  lemma LastIndexNone(s: string, c: char)
    requires c !in s
    ensures LastIndex(s, c) == -1
  {
  }
}
