/**
 * The string operations the handlers rely on: Python's substring test
 * (`needle in haystack`), ASCII lower-casing (`str.lower`), `sep.join(parts)`
 * and `"".join(parts)`.
 */
module Text {

  /** `needle in hay` for Python strings: some window of `hay` equals `needle`.
      The empty needle occurs in every string, as in Python. */
  ghost predicate IsSubstring(needle: string, hay: string) {
    exists i :: OccursAt(needle, hay, i)
  }

  /** `needle` occurs in `hay` starting at position `i`. */
  ghost predicate OccursAt(needle: string, hay: string, i: int) {
    0 <= i && i + |needle| <= |hay| && hay[i..i + |needle|] == needle
  }

  /** Executable substring test, scanning `hay` from the left. */
  function Contains(needle: string, hay: string): (b: bool)
    ensures b <==> IsSubstring(needle, hay)
    decreases |hay|
  {
    if |needle| > |hay| then
      false
    else if hay[..|needle|] == needle then
      assert OccursAt(needle, hay, 0);
      true
    else
      var tail := hay[1..];
      var rest := Contains(needle, tail);
      if rest then
        assert IsSubstring(needle, hay) by {
          var i :| OccursAt(needle, tail, i);
          assert hay[i + 1..i + 1 + |needle|] == tail[i..i + |needle|];
          assert OccursAt(needle, hay, i + 1);
        }
        true
      else
        assert !IsSubstring(needle, hay) by {
          forall i | OccursAt(needle, hay, i) ensures OccursAt(needle, tail, i - 1) {
            assert i != 0;
            assert tail[i - 1..i - 1 + |needle|] == hay[i..i + |needle|];
          }
        }
        false
  }

  /** ASCII lower-casing of one character; every other character is kept. */
  function LowerChar(c: char): char {
    if 'A' <= c <= 'Z' then (c as int - 'A' as int + 'a' as int) as char else c
  }

  /** `s.lower()`, restricted to ASCII letters. */
  function Lower(s: string): (r: string)
    ensures |r| == |s|
    ensures forall i :: 0 <= i < |s| ==>
      if 'A' <= s[i] <= 'Z' then r[i] as int == s[i] as int + 32 else r[i] == s[i]
  {
    seq(|s|, i requires 0 <= i < |s| => LowerChar(s[i]))
  }

  /** No upper-case ASCII letter occurs in `s`. */
  predicate IsLower(s: string) {
    forall i :: 0 <= i < |s| ==> !('A' <= s[i] <= 'Z')
  }

  /** Lower-casing yields a lower-case string, and a lower-case string is its own
      lower-case form; hence lower-casing twice is lower-casing once. */
  lemma LowerIsLower(s: string)
    ensures IsLower(Lower(s))
    ensures IsLower(s) ==> Lower(s) == s
    ensures Lower(Lower(s)) == Lower(s)
  {
  }

  /** A substring stays a substring after both strings are lower-cased. */
  lemma LowerKeepsSubstring(needle: string, hay: string)
    requires IsSubstring(needle, hay)
    ensures IsSubstring(Lower(needle), Lower(hay))
  {
    var i :| OccursAt(needle, hay, i);
    assert Lower(hay)[i..i + |needle|] == Lower(needle);
    assert OccursAt(Lower(needle), Lower(hay), i);
  }

  /** `sep.join(parts)`: the parts in order with `sep` between neighbours.
      Joining no parts gives ""; otherwise the result is as long as all parts
      plus one separator per pair of neighbours, and begins with the first part. */
  function Join(sep: string, parts: seq<string>): (r: string)
    ensures |parts| == 0 ==> r == ""
    ensures |parts| > 0 ==> |r| == TotalLength(parts) + (|parts| - 1) * |sep|
    ensures |parts| > 0 ==> r[..|parts[0]|] == parts[0]
    decreases |parts|
  {
    if |parts| == 0 then ""
    else if |parts| == 1 then parts[0]
    else parts[0] + sep + Join(sep, parts[1..])
  }

  /** Sum of the lengths of `parts`. */
  function TotalLength(parts: seq<string>): nat {
    if |parts| == 0 then 0 else |parts[0]| + TotalLength(parts[1..])
  }

  /** Joining appends one more part behind one more separator: the order in which
      parts were collected is the order in which they appear. */
  lemma {:induction false} JoinSnoc(sep: string, parts: seq<string>, p: string)
    requires |parts| > 0
    ensures Join(sep, parts + [p]) == Join(sep, parts) + sep + p
    decreases |parts|
  {
    if |parts| == 1 {
      assert parts + [p] == [parts[0], p];
      assert (parts + [p])[1..] == [p];
    } else {
      assert (parts + [p])[1..] == parts[1..] + [p];
      JoinSnoc(sep, parts[1..], p);
    }
  }

  /** `"".join(parts)`. */
  function Concat(parts: seq<string>): string
    decreases |parts|
  {
    if |parts| == 0 then "" else parts[0] + Concat(parts[1..])
  }

  /** Concatenation distributes over appending lists of parts. */
  lemma {:induction false} ConcatAppend(a: seq<string>, b: seq<string>)
    ensures Concat(a + b) == Concat(a) + Concat(b)
    decreases |a|
  {
    if |a| > 0 {
      assert (a + b)[1..] == a[1..] + b;
      ConcatAppend(a[1..], b);
    } else {
      assert a + b == b;
    }
  }
}
