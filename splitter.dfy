/**
  The behaviour of Guava's `Splitter.on(c).splitToList(s)` with no further
  configuration (no trimming, empty segments kept): the string is cut at
  EVERY occurrence of the separator, so a string with n separators yields
  n + 1 segments, possibly empty ones.
 */
module Splitter {

  /** Number of occurrences of `sep` in `s`. */
  function Count(s: string, sep: char): nat
  {
    if s == [] then 0 else (if s[0] == sep then 1 else 0) + Count(s[1..], sep)
  }

  /** Concatenation of `parts` with `sep` between neighbours (Guava's `Joiner.on(sep)`). */
  function Join(parts: seq<string>, sep: char): string
  {
    if parts == [] then []
    else if |parts| == 1 then parts[0]
    else parts[0] + [sep] + Join(parts[1..], sep)
  }

  /** The segments of `s` between occurrences of `sep`. */
  function Split(s: string, sep: char): (parts: seq<string>)
    ensures |parts| == Count(s, sep) + 1
    ensures forall i :: 0 <= i < |parts| ==> sep !in parts[i]
    ensures Join(parts, sep) == s
    decreases |s|
  {
    if s == [] then [[]]
    else
      var rest := Split(s[1..], sep);
      if s[0] == sep then
        [[]] + rest
      else
        assert s == [s[0]] + s[1..];
        assert Join([[s[0]] + rest[0]] + rest[1..], sep) == [s[0]] + Join(rest, sep) by {
          if |rest| > 1 {
            assert ([[s[0]] + rest[0]] + rest[1..])[1..] == rest[1..];
          }
        }
        [[s[0]] + rest[0]] + rest[1..]
  }

  /** The longest prefix of `s` free of `sep`: everything before the first `sep`. */
  function Before(s: string, sep: char): (r: string)
    ensures r <= s && sep !in r
    ensures |r| < |s| <==> sep in s
    ensures |r| < |s| ==> s[|r|] == sep
  {
    if s == [] || s[0] == sep then [] else [s[0]] + Before(s[1..], sep)
  }

  /** Everything after the first `sep` of `s` (empty if there is none). */
  function After(s: string, sep: char): (r: string)
    ensures sep in s ==> s == Before(s, sep) + [sep] + r
    ensures sep !in s ==> r == []
  {
    if s == [] then []
    else if s[0] == sep then s[1..]
    else
      assert s == [s[0]] + s[1..];
      After(s[1..], sep)
  }

  /** Splitting peels off the part before the first separator and splits the rest. */
  lemma {:induction false} SplitFirst(s: string, sep: char)
    ensures Split(s, sep) == [Before(s, sep)] + (if sep in s then Split(After(s, sep), sep) else [])
    decreases |s|
  {
    if s != [] && s[0] != sep {
      SplitFirst(s[1..], sep);
      assert sep in s <==> sep in s[1..] by { assert s == [s[0]] + s[1..]; }
    }
  }

  /**
    The segments a reader of `Split` indexes: segment 0 is the text before
    the first separator; segment 1 exists exactly when there is a separator,
    and is the text between the first and the second one.
   */
  lemma SplitSegments(s: string, sep: char)
    ensures Split(s, sep)[0] == Before(s, sep)
    ensures |Split(s, sep)| >= 2 <==> sep in s
    ensures sep in s ==> Split(s, sep)[1] == Before(After(s, sep), sep)
  {
    SplitFirst(s, sep);
    if sep in s {
      SplitFirst(After(s, sep), sep);
    }
  }

  /** `Split` inverts `Join` on separator-free segments, so the two are each other's partner. */
  lemma {:induction false} SplitJoin(parts: seq<string>, sep: char)
    requires |parts| >= 1
    requires forall i :: 0 <= i < |parts| ==> sep !in parts[i]
    ensures Split(Join(parts, sep), sep) == parts
  {
    if |parts| == 1 {
      SplitOfSeparatorFree(parts[0], sep);
    } else {
      var s := Join(parts, sep);
      assert s == parts[0] + [sep] + Join(parts[1..], sep);
      PrefixBeforeSeparator(parts[0], Join(parts[1..], sep), sep);
      SplitFirst(s, sep);
      SplitJoin(parts[1..], sep);
    }
  }

  /** A separator-free string is one segment. */
  lemma SplitOfSeparatorFree(s: string, sep: char)
    requires sep !in s
    ensures Split(s, sep) == [s]
  {
    SplitFirst(s, sep);
  }

  /** Cutting `a + [sep] + b` at its first separator, when `a` has none, yields `a` and `b`. */
  lemma {:induction false} PrefixBeforeSeparator(a: string, b: string, sep: char)
    requires sep !in a
    ensures Before(a + [sep] + b, sep) == a
    ensures sep in a + [sep] + b
    ensures After(a + [sep] + b, sep) == b
  {
    var s := a + [sep] + b;
    assert s[|a|] == sep;
    assert After(s, sep) == s[|a| + 1..] == b;
  }
}
