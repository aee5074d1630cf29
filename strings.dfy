/** Splitting a string at a separator character, with the semantics shared
    by Python's str.split(sep) and JavaScript's String.prototype.split(sep)
    for a one-character separator: empty segments are kept, and the empty
    string splits into one empty segment. */
module Strings {

  /** Position of the first occurrence of c in s. */
  function IndexOf(s: string, c: char): (i: nat)
    requires c in s
    ensures i < |s| && s[i] == c && c !in s[..i]
  {
    if s[0] == c then 0
    else
      var i := 1 + IndexOf(s[1..], c);
      assert s[..i] == [s[0]] + s[1..][..i - 1];
      i
  }

  /** The parts glued back together with sep between neighbours. */
  function Join(parts: seq<string>, sep: char): string
    requires |parts| >= 1
  {
    if |parts| == 1 then parts[0] else parts[0] + [sep] + Join(parts[1..], sep)
  }

  /** The segments of s between occurrences of sep: one more than there are
      separators, none containing one, and joined they give s back. */
  function Split(s: string, sep: char): (parts: seq<string>)
    ensures |parts| == multiset(s)[sep] + 1
    ensures forall k :: 0 <= k < |parts| ==> sep !in parts[k]
    ensures Join(parts, sep) == s
    decreases |s|
  {
    if sep !in s then
      assert multiset(s)[sep] == 0;
      [s]
    else
      var i := IndexOf(s, sep);
      assert s == s[..i] + [sep] + s[i + 1..];
      var parts := [s[..i]] + Split(s[i + 1..], sep);
      assert parts[1..] == Split(s[i + 1..], sep);
      parts
  }

  /** The text before the first separator is the first segment, and the
      text after it is split on its own. */
  lemma SplitAtFirst(a: string, b: string, sep: char)
    requires sep !in a
    ensures Split(a + [sep] + b, sep) == [a] + Split(b, sep)
  {
    var s := a + [sep] + b;
    assert s[|a|] == sep;
    var i := IndexOf(s, sep);
    assert s[..i] == a && s[i + 1..] == b;
  }

  /** Split inverts Join on separator-free parts, so the decomposition of a
      string into segments is unique. */
  lemma {:induction false} SplitJoin(parts: seq<string>, sep: char)
    requires |parts| >= 1
    requires forall k :: 0 <= k < |parts| ==> sep !in parts[k]
    ensures Split(Join(parts, sep), sep) == parts
  {
    if |parts| > 1 {
      SplitJoin(parts[1..], sep);
      SplitAtFirst(parts[0], Join(parts[1..], sep), sep);
      assert parts == [parts[0]] + parts[1..];
    }
  }

  /** A segment ends at the next separator, or at the end of the string. */
  lemma FirstSegment(seg: string, rest: string, sep: char)
    requires sep !in seg
    requires rest == [] || rest[0] == sep
    ensures Split(seg + rest, sep)[0] == seg
  {
    if rest == [] {
      assert seg + rest == seg;
    } else {
      assert seg + rest == seg + [sep] + rest[1..];
      SplitAtFirst(seg, rest[1..], sep);
    }
  }

  /** The second segment runs from the first separator to the next one, or
      to the end; whatever follows is not part of it. */
  lemma SecondSegment(host: string, seg: string, rest: string, sep: char)
    requires sep !in host && sep !in seg
    requires rest == [] || rest[0] == sep
    ensures |Split(host + [sep] + seg + rest, sep)| >= 2
    ensures Split(host + [sep] + seg + rest, sep)[0] == host
    ensures Split(host + [sep] + seg + rest, sep)[1] == seg
  {
    assert host + [sep] + seg + rest == host + [sep] + (seg + rest);
    SplitAtFirst(host, seg + rest, sep);
    FirstSegment(seg, rest, sep);
  }
}
