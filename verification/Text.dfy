/** Go's strings.Split on a one-byte separator, string reversal, and how the two meet.
    A char stands for one byte of the log file. */
module Text {

  const NL: char := '\n'

  /** strings.Split(s, sep) for a one-byte separator. */
  function Split(s: string, sep: char): (ps: seq<string>)
    ensures |ps| >= 1
  {
    if s == "" then [""] else Longer(s[0], Split(s[1..], sep), sep)
  }

  /** The pieces of a text with one more character in front. */
  function Longer(c: char, ps: seq<string>, sep: char): (qs: seq<string>)
    requires |ps| >= 1
    ensures |qs| >= 1
  {
    if c == sep then [""] + ps else [[c] + ps[0]] + ps[1..]
  }

  lemma LongerBoth(c: char, ps: seq<string>, qs: seq<string>, sep: char)
    requires |ps| >= 1
    ensures Longer(c, ps + qs, sep) == Longer(c, ps, sep) + qs
  {
    assert (ps + qs)[1..] == ps[1..] + qs;
  }

  /** The inverse: pieces glued together with the separator. */
  function Join(ps: seq<string>, sep: char): string
    requires |ps| >= 1
  {
    if |ps| == 1 then ps[0] else ps[0] + [sep] + Join(ps[1..], sep)
  }

  ghost predicate SepFree(ps: seq<string>, sep: char) {
    forall i :: 0 <= i < |ps| ==> sep !in ps[i]
  }

  lemma {:induction false} SplitAt(s: string, i: nat, sep: char)
    requires i < |s| && s[i] == sep
    ensures Split(s, sep) == Split(s[..i], sep) + Split(s[i + 1..], sep)
  {
    if i > 0 {
      var head, tail := s[..i], s[i + 1..];
      SplitAt(s[1..], i - 1, sep);
      assert s[1..][..i - 1] == head[1..] && s[1..][i..] == tail && head[0] == s[0];
      LongerBoth(s[0], Split(head[1..], sep), Split(tail, sep), sep);
    }
  }

  lemma {:induction false} SplitConcat(a: string, b: string, sep: char)
    ensures Split(a + [sep] + b, sep) == Split(a, sep) + Split(b, sep)
  {
    var s := a + [sep] + b;
    assert s[..|a|] == a && s[|a| + 1..] == b;
    SplitAt(s, |a|, sep);
  }

  lemma {:induction false} SplitNone(s: string, sep: char)
    requires sep !in s
    ensures Split(s, sep) == [s]
  {
    if s != "" {
      SplitNone(s[1..], sep);
      assert [s[0]] + s[1..] == s;
    }
  }

  /** Split cuts at separators only and loses nothing. */
  lemma {:induction false} JoinSplit(s: string, sep: char)
    ensures SepFree(Split(s, sep), sep)
    ensures Join(Split(s, sep), sep) == s
  {
    if s != "" {
      JoinSplit(s[1..], sep);
      var rest := Split(s[1..], sep);
      if s[0] == sep {
        assert Split(s, sep)[1..] == rest;
      } else {
        assert Split(s, sep)[1..] == rest[1..];
      }
    }
  }

  /** Split is the only way to cut a string into separator-free pieces. */
  lemma {:induction false} SplitJoin(ps: seq<string>, sep: char)
    requires |ps| >= 1 && SepFree(ps, sep)
    ensures Split(Join(ps, sep), sep) == ps
  {
    SplitNone(ps[0], sep);
    if |ps| > 1 {
      SplitJoin(ps[1..], sep);
      SplitConcat(ps[0], Join(ps[1..], sep), sep);
    }
  }

  /** Position of the first separator. */
  function First(s: string, sep: char): (i: nat)
    requires sep in s
    ensures i < |s| && s[i] == sep && sep !in s[..i]
  {
    if s[0] == sep then 0 else 1 + First(s[1..], sep)
  }

  /** Position of the last separator. */
  function Last(s: string, sep: char): (i: nat)
    requires sep in s
    ensures i < |s| && s[i] == sep && sep !in s[i + 1..]
  {
    if s[|s| - 1] == sep then |s| - 1 else Last(s[..|s| - 1], sep)
  }

  lemma {:induction false} SplitAtLast(s: string, sep: char)
    requires sep in s
    ensures Split(s, sep) == Split(s[..Last(s, sep)], sep) + [s[Last(s, sep) + 1..]]
  {
    SplitAt(s, Last(s, sep), sep);
    SplitNone(s[Last(s, sep) + 1..], sep);
  }

  function Rev<T>(s: seq<T>): (r: seq<T>)
  {
    seq(|s|, i requires 0 <= i < |s| => s[|s| - 1 - i])
  }

  lemma RevConcat<T>(a: seq<T>, b: seq<T>)
    ensures Rev(a + b) == Rev(b) + Rev(a)
  {
  }

  lemma RevSnoc<T>(s: seq<T>, x: T)
    ensures Rev(s + [x]) == [x] + Rev(s)
  {
  }

  lemma RevRev<T>(s: seq<T>)
    ensures Rev(Rev(s)) == s
  {
  }

  /** Reversed text is split at the same separators. */
  lemma {:induction false} SplitRevAt(s: string, i: nat, sep: char)
    requires i < |s| && s[i] == sep
    ensures Split(Rev(s), sep) == Split(Rev(s[i + 1..]), sep) + Split(Rev(s[..i]), sep)
  {
    assert Rev(s)[..|s| - 1 - i] == Rev(s[i + 1..]);
    assert Rev(s)[|s| - i..] == Rev(s[..i]);
    SplitAt(Rev(s), |s| - 1 - i, sep);
  }

  function RevEach(ps: seq<string>): (rs: seq<string>)
    ensures |rs| == |ps|
    ensures forall i :: 0 <= i < |ps| ==> rs[i] == Rev(ps[i])
  {
    seq(|ps|, i requires 0 <= i < |ps| => Rev(ps[i]))
  }

  lemma MirrorFirst(a: string, ps: seq<string>)
    ensures Rev(RevEach([a] + ps)) == Rev(RevEach(ps)) + [Rev(a)]
  {
    assert RevEach([a] + ps) == [Rev(a)] + RevEach(ps);
    assert Rev([Rev(a)]) == [Rev(a)];
    RevConcat([Rev(a)], RevEach(ps));
  }

  /** Splitting backwards mirrors splitting forwards: the same pieces, each reversed, last one first. */
  lemma {:induction false} SplitRev(s: string, sep: char)
    ensures Split(Rev(s), sep) == Rev(RevEach(Split(s, sep)))
    decreases |s|
  {
    if sep !in s {
      SplitNone(s, sep);
      SplitNone(Rev(s), sep);
    } else {
      var i := First(s, sep);
      SplitRev(s[i + 1..], sep);
      SplitRevFirst(s, sep, i, s[..i], s[i + 1..]);
    }
  }

  lemma {:induction false} SplitRevFirst(s: string, sep: char, i: nat, a: string, b: string)
    requires i < |s| && s[i] == sep && a == s[..i] && b == s[i + 1..] && sep !in a
    requires Split(Rev(b), sep) == Rev(RevEach(Split(b, sep)))
    ensures Split(Rev(s), sep) == Rev(RevEach(Split(s, sep)))
  {
    SplitAt(s, i, sep);
    SplitRevAt(s, i, sep);
    SplitNone(a, sep);
    assert sep !in Rev(a);
    SplitNone(Rev(a), sep);
    MirrorFirst(a, Split(b, sep));
  }

  /** The in-place rune reversal of read.go: swap the ends, move inwards. */
  method ReverseInPlace(runes: array<char>)
    modifies runes
    ensures runes[..] == Rev(old(runes[..]))
  {
    var i, j := 0, runes.Length - 1;
    while i < j
      invariant 0 <= i <= j + 1 <= runes.Length && i + j == runes.Length - 1
      invariant forall k :: 0 <= k < i || j < k < runes.Length ==> runes[k] == old(runes[runes.Length - 1 - k])
      invariant forall k :: i <= k <= j ==> runes[k] == old(runes[k])
    {
      runes[i], runes[j] := runes[j], runes[i];
      i, j := i + 1, j - 1;
    }
  }

  method Reverse(s: string) returns (r: string)
    ensures r == Rev(s)
  {
    var runes := new char[|s|](i requires 0 <= i < |s| => s[i]);
    assert runes[..] == s;
    ReverseInPlace(runes);
    r := runes[..];
  }
}
