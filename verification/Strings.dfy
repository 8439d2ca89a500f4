/** The few operations of Go's `strings` package that the parsers use. */
module Strings {
  /** strings.Split with a separator of one character. */
  function Split(s: string, sep: char): (parts: seq<string>)
    ensures |parts| >= 1 && (|parts| > 1 ==> |parts[0]| < |s|)
  {
    if s == "" then [""]
    else if s[0] == sep then [""] + Split(s[1..], sep)
    else
      var parts := Split(s[1..], sep);
      [[s[0]] + parts[0]] + parts[1..]
  }

  /** strings.SplitN with a separator of one character and at most two parts. */
  function SplitInTwo(s: string, sep: char): (parts: seq<string>)
    ensures 1 <= |parts| <= 2
  {
    var parts := Split(s, sep);
    if |parts| == 1 then [s] else [parts[0], s[|parts[0]| + 1..]]
  }

  /** strings.TrimPrefix with a prefix of one character. */
  function TrimPrefix(s: string, c: char): string {
    if s != "" && s[0] == c then s[1..] else s
  }

  /** strings.TrimSuffix with a suffix of one character. */
  function TrimSuffix(s: string, c: char): string {
    if s != "" && s[|s| - 1] == c then s[..|s| - 1] else s
  }

  lemma {:induction false} SplitNone(s: string, sep: char)
    requires sep !in s
    ensures Split(s, sep) == [s]
  {
    if s != "" {
      SplitNone(s[1..], sep);
      assert [s[0]] + s[1..] == s;
    }
  }

  /** A separator ends the first part. */
  lemma {:induction false} SplitFirst(a: string, sep: char, b: string)
    requires sep !in a
    ensures Split(a + [sep] + b, sep) == [a] + Split(b, sep)
  {
    var s := a + [sep] + b;
    if a == "" {
      assert s[1..] == b;
    } else {
      assert s[1..] == a[1..] + [sep] + b;
      SplitFirst(a[1..], sep, b);
      assert [a[0]] + a[1..] == a;
    }
  }

  /** Only a string without separators stays in one part. */
  lemma {:induction false} SplitSome(s: string, sep: char)
    requires sep in s
    ensures |Split(s, sep)| >= 2
  {
    if s[0] != sep {
      SplitSome(s[1..], sep);
    }
  }

  lemma SplitInTwoAt(a: string, sep: char, b: string)
    requires sep !in a
    ensures SplitInTwo(a + [sep] + b, sep) == [a, b]
  {
    SplitFirst(a, sep, b);
    assert (a + [sep] + b)[|a| + 1..] == b;
  }
}
