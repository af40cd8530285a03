/** The parts of Go's `strings` package the tool relies on: `Split` with a one-character
    separator and `Join`, plus the linear search of the mode tables. */
module Strings {

  /** strings.Split(s, string(sep)): the maximal runs between separators, always at least
      one (Split of "" is [""]). Rejoining the parts gives `s` back. */
  function Split(s: string, sep: char): (parts: seq<string>)
    ensures |parts| >= 1
    ensures forall i :: 0 <= i < |parts| ==> sep !in parts[i]
    ensures Join(parts, [sep]) == s
    decreases |s|
  {
    if s == [] then [""]
    else
      var rest := Split(s[1..], sep);
      if s[0] == sep then [""] + rest
      else [[s[0]] + rest[0]] + rest[1..]
  }

  /** strings.Join(parts, sep): nothing for no parts, otherwise the first part, then for
      each further part the separator and that part. Split is its inverse (SplitJoin). */
  function Join(parts: seq<string>, sep: string): (s: string)
    ensures |parts| == 0 ==> s == ""
    ensures |parts| >= 1 ==> |parts[0]| <= |s| && s[..|parts[0]|] == parts[0]
  {
    if |parts| == 0 then ""
    else if |parts| == 1 then parts[0]
    else parts[0] + sep + Join(parts[1..], sep)
  }

  /** A string without the separator is a single part. */
  lemma {:induction false} SplitWithoutSeparator(w: string, sep: char)
    requires sep !in w
    ensures Split(w, sep) == [w]
    decreases |w|
  {
    if w != [] {
      SplitWithoutSeparator(w[1..], sep);
    }
  }

  /** Splitting `w + sep + rest`, with no separator in `w`, yields `w` and then the parts of `rest`. */
  lemma {:induction false} SplitAfterSegment(w: string, sep: char, rest: string)
    requires sep !in w
    ensures Split(w + [sep] + rest, sep) == [w] + Split(rest, sep)
    decreases |w|
  {
    var s := w + [sep] + rest;
    if w == [] {
      assert s[1..] == rest;
    } else {
      assert s[1..] == w[1..] + [sep] + rest;
      SplitAfterSegment(w[1..], sep, rest);
      assert [w[0]] + w[1..] == w;
    }
  }

  /** Split inverts Join when no part contains the separator. */
  lemma {:induction false} SplitJoin(parts: seq<string>, sep: char)
    requires |parts| >= 1
    requires forall i :: 0 <= i < |parts| ==> sep !in parts[i]
    ensures Split(Join(parts, [sep]), sep) == parts
    decreases |parts|
  {
    if |parts| == 1 {
      SplitWithoutSeparator(parts[0], sep);
    } else {
      SplitJoin(parts[1..], sep);
      SplitAfterSegment(parts[0], sep, Join(parts[1..], [sep]));
      assert parts[0] + [sep] + Join(parts[1..], [sep]) == Join(parts, [sep]);
      assert [parts[0]] + parts[1..] == parts;
    }
  }

  /** The first index of `value` in `table`, or -1 when absent: Go's early-return search
      `for r, m := range table { if m == value { return r } }; return -1`. */
  function IndexOf(table: seq<string>, value: string): (r: int)
    ensures -1 <= r < |table|
    ensures r == -1 <==> value !in table
    ensures r >= 0 ==> table[r] == value && forall j :: 0 <= j < r ==> table[j] != value
    decreases |table|
  {
    if |table| == 0 then -1
    else if table[0] == value then 0
    else
      var k := IndexOf(table[1..], value);
      if k == -1 then -1 else k + 1
  }
}
