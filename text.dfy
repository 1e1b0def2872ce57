/** Python's `str.split(sep)` with a one-character separator and
    `sep.join(parts)`, the two string operations the scripts rely on. */
module Text {

  /** `s.split(d)`: the pieces of `s` between occurrences of `d`; empty
      pieces are kept, so the result always has at least one element. */
  function Split(s: string, d: char): (parts: seq<string>)
    ensures |parts| >= 1
    ensures forall i :: 0 <= i < |parts| ==> d !in parts[i]
    decreases |s|
  {
    if s == [] then [""]
    else
      var rest := Split(s[1..], d);
      if s[0] == d then [""] + rest
      else [[s[0]] + rest[0]] + rest[1..]
  }

  /** `d.join(parts)`. */
  function Join(parts: seq<string>, d: char): string
    decreases |parts|
  {
    if |parts| == 0 then ""
    else if |parts| == 1 then parts[0]
    else parts[0] + [d] + Join(parts[1..], d)
  }

  /** No part contains the separator. */
  predicate FreeOf(parts: seq<string>, d: char)
  {
    forall i :: 0 <= i < |parts| ==> d !in parts[i]
  }

  /** Joining the pieces of a split gives the string back. */
  lemma {:induction false} JoinSplit(s: string, d: char)
    ensures Join(Split(s, d), d) == s
    decreases |s|
  {
    if s != [] {
      JoinSplit(s[1..], d);
      var rest := Split(s[1..], d);
      if s[0] == d {
        assert Split(s, d) == [""] + rest;
        assert ([""] + rest)[1..] == rest;
      } else {
        var parts := [[s[0]] + rest[0]] + rest[1..];
        assert Split(s, d) == parts;
        if |rest| > 1 {
          assert parts[1..] == rest[1..];
          assert Join(rest, d) == rest[0] + [d] + Join(rest[1..], d);
        }
      }
    }
  }

  /** Splitting a string that starts with a separator-free prefix `p`. */
  lemma {:induction false} SplitAfterFreePrefix(p: string, rest: string, d: char)
    requires d !in p
    ensures Split(p + rest, d) == [p + Split(rest, d)[0]] + Split(rest, d)[1..]
    decreases |p|
  {
    var tail := Split(rest, d);
    if p != [] {
      assert (p + rest)[0] == p[0] && (p + rest)[1..] == p[1..] + rest;
      SplitAfterFreePrefix(p[1..], rest, d);
      var inner := Split(p[1..] + rest, d);
      assert inner == [p[1..] + tail[0]] + tail[1..];
      assert Split(p + rest, d) == [[p[0]] + inner[0]] + inner[1..];
      assert [p[0]] + (p[1..] + tail[0]) == p + tail[0];
    } else {
      assert p + rest == rest && p + tail[0] == tail[0];
      assert tail == [tail[0]] + tail[1..];
    }
  }

  /** Splitting a join of separator-free parts gives the parts back: the
      tab-separated layout of a record can be read back field by field. */
  lemma {:induction false} SplitJoin(parts: seq<string>, d: char)
    requires |parts| >= 1 && FreeOf(parts, d)
    ensures Split(Join(parts, d), d) == parts
    decreases |parts|
  {
    if |parts| == 1 {
      SplitAfterFreePrefix(parts[0], "", d);
      assert parts[0] + "" == parts[0];
      assert Split("", d) == [""];
    } else {
      var tail := parts[1..];
      SplitJoin(tail, d);
      var s := Join(tail, d);
      assert Join(parts, d) == parts[0] + ([d] + s);
      SplitAfterFreePrefix(parts[0], [d] + s, d);
      assert ([d] + s)[1..] == s;
      assert Split([d] + s, d) == [""] + Split(s, d);
      assert parts[0] + "" == parts[0];
      assert parts == [parts[0]] + tail;
    }
  }
}
