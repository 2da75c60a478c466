/**
 * Python's `str.split(sep)` and `sep.join(parts)` for a one-character
 * separator, as the command-line wrapper uses them to pick the version
 * token out of the tool's `--version` banner.
 *
 * `Split` keeps empty fields (`"a  b".split(' ') == ['a', '', 'b']`) and
 * always yields at least one field (`"".split(' ') == ['']`); `Join` is its
 * inverse on non-empty lists of separator-free fields.
 */
module PyStr {

  /** `s.split(sep)`: the maximal separator-free fields of `s`, in order. */
  function Split(s: string, sep: char): (parts: seq<string>)
    ensures |parts| >= 1
    ensures forall i :: 0 <= i < |parts| ==> sep !in parts[i]
    decreases |s|
  {
    if s == [] then [[]]
    else
      var rest := Split(s[1..], sep);
      if s[0] == sep then [[]] + rest
      else [[s[0]] + rest[0]] + rest[1..]
  }

  /** `sep.join(parts)`. */
  function Join(parts: seq<string>, sep: char): string
    decreases |parts|
  {
    if |parts| == 0 then []
    else if |parts| == 1 then parts[0]
    else parts[0] + [sep] + Join(parts[1..], sep)
  }

  /** `s.find(c)`, with "not found" reported as `|s|` instead of -1. */
  function FirstIndex(s: string, c: char): (i: nat)
    ensures i <= |s|
    ensures c !in s[..i]
    ensures i < |s| ==> s[i] == c
    decreases |s|
  {
    if s == [] || s[0] == c then 0
    else
      var j := FirstIndex(s[1..], c);
      assert s[..j + 1] == [s[0]] + s[1..][..j];
      j + 1
  }

  /**
   * The first field ends at the first separator: splitting `s` at its first
   * separator `i` gives `s[..i]` followed by the fields of what comes after.
   */
  lemma {:induction false} SplitAtFirst(s: string, sep: char, i: nat)
    requires i <= |s|
    requires sep !in s[..i]
    requires i < |s| ==> s[i] == sep
    ensures i == |s| ==> Split(s, sep) == [s]
    ensures i < |s| ==> Split(s, sep) == [s[..i]] + Split(s[i + 1..], sep)
    decreases i
  {
    if i > 0 {
      assert s[0] == s[..i][0];
      assert s[1..][..i - 1] == s[..i][1..];
      SplitAtFirst(s[1..], sep, i - 1);
      if i == |s| {
        assert [s[0]] + s[1..] == s;
      } else {
        assert s[1..][i - 1 + 1..] == s[i + 1..];
        assert [s[0]] + s[1..][..i - 1] == s[..i];
      }
    }
  }

  /** Joining the fields back with the separator restores the string. */
  lemma {:induction false} JoinSplit(s: string, sep: char)
    ensures Join(Split(s, sep), sep) == s
    decreases |s|
  {
    if s != [] {
      var rest := Split(s[1..], sep);
      JoinSplit(s[1..], sep);
      var parts := Split(s, sep);
      if s[0] == sep {
        assert parts[1..] == rest;
        assert s == [s[0]] + s[1..];
      } else if |rest| == 1 {
        assert parts == [[s[0]] + rest[0]];
        assert s == [s[0]] + s[1..];
      } else {
        assert parts[0] == [s[0]] + rest[0];
        assert parts[1..] == rest[1..];
        assert s == [s[0]] + s[1..];
      }
    }
  }

  /** Splitting a join of separator-free fields gives the fields back. */
  lemma {:induction false} SplitJoin(parts: seq<string>, sep: char)
    requires |parts| >= 1
    requires forall i :: 0 <= i < |parts| ==> sep !in parts[i]
    ensures Split(Join(parts, sep), sep) == parts
    decreases |parts|
  {
    var s := Join(parts, sep);
    var w := parts[0];
    if |parts| == 1 {
      assert s[..|w|] == w;
      SplitAtFirst(s, sep, |w|);
    } else {
      var t := Join(parts[1..], sep);
      assert s == w + [sep] + t;
      assert s[..|w|] == w;
      assert s[|w| + 1..] == t;
      SplitAtFirst(s, sep, |w|);
      SplitJoin(parts[1..], sep);
      assert [w] + parts[1..] == parts;
    }
  }
}
