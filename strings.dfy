/** Text primitives the bookstore chatbot relies on: lower-casing (Python's
    `str.lower`, restricted to ASCII letters), substring search (Python's
    `needle in hay`), and splitting and joining on one separator character
    (Python's `s.split(sep)` and `sep.join(parts)`). */
module Strings {

  /** Lower-cases an ASCII capital letter; every other character is kept. */
  function LowerChar(c: char): char
  {
    if 'A' <= c <= 'Z' then (c as int + 32) as char else c
  }

  /** `s.lower()`, character by character. */
  function Lower(s: string): (r: string)
    ensures |r| == |s|
    ensures forall i :: 0 <= i < |s| ==> r[i] == LowerChar(s[i])
  {
    if s == [] then [] else [LowerChar(s[0])] + Lower(s[1..])
  }

  /** No ASCII capital letter occurs in `s`. */
  predicate IsLower(s: string)
  {
    forall i :: 0 <= i < |s| ==> !('A' <= s[i] <= 'Z')
  }

  /** The result of `Lower` is lower-case, and lower-casing it again changes nothing. */
  lemma LowerIdempotent(s: string)
    ensures IsLower(Lower(s))
    ensures Lower(Lower(s)) == Lower(s)
  {
  }

  /** A lower-case string is its own lower-case form. */
  lemma LowerOfLower(s: string)
    requires IsLower(s)
    ensures Lower(s) == s
  {
  }

  /** `needle` occurs in `hay` starting at index `k`. */
  ghost predicate OccursAt(needle: string, hay: string, k: int)
  {
    0 <= k && k + |needle| <= |hay| && hay[k..k + |needle|] == needle
  }

  lemma OccursShift(needle: string, hay: string)
    requires |hay| > 0
    ensures forall k :: 0 <= k ==> (OccursAt(needle, hay[1..], k) <==> OccursAt(needle, hay, k + 1))
  {
    forall k | 0 <= k ensures OccursAt(needle, hay[1..], k) <==> OccursAt(needle, hay, k + 1) {
      if 0 <= k && k + |needle| <= |hay| - 1 {
        assert hay[1..][k..k + |needle|] == hay[k + 1..k + 1 + |needle|];
      }
    }
  }

  /** Python's `needle in hay`: true exactly when `needle` occurs somewhere in
      `hay`; the empty string occurs in every string. */
  function IsSubstring(needle: string, hay: string): (b: bool)
    ensures b <==> exists k :: OccursAt(needle, hay, k)
    decreases |hay|
  {
    if |needle| > |hay| then false
    else if hay[..|needle|] == needle then assert OccursAt(needle, hay, 0); true
    else
      OccursShift(needle, hay);
      assert !OccursAt(needle, hay, 0);
      assert forall k :: OccursAt(needle, hay, k) ==> k == 0 || OccursAt(needle, hay[1..], k - 1);
      IsSubstring(needle, hay[1..])
  }

  /** A string occurs in itself followed by anything. */
  lemma SubstringOfPrefix(needle: string, rest: string)
    ensures IsSubstring(needle, needle + rest)
  {
    assert (needle + rest)[0..|needle|] == needle;
    assert OccursAt(needle, needle + rest, 0);
  }

  /** An occurrence survives lower-casing both strings. */
  lemma SubstringLower(needle: string, hay: string)
    requires IsSubstring(needle, hay)
    ensures IsSubstring(Lower(needle), Lower(hay))
  {
    var k :| OccursAt(needle, hay, k);
    var end := k + |needle|;
    LowerSlice(hay, k, end);
    assert Lower(hay)[k..end] == Lower(needle);
    assert OccursAt(Lower(needle), Lower(hay), k);
  }

  /** Lower-casing commutes with taking a slice. The proof is pointwise, so
      automatic induction is switched off. */
  lemma {:induction false} LowerSlice(s: string, i: int, j: int)
    requires 0 <= i <= j <= |s|
    ensures Lower(s)[i..j] == Lower(s[i..j])
  {
    var sub := s[i..j];
    var whole, part := Lower(s)[i..j], Lower(sub);
    assert |whole| == |part|;
    forall p | 0 <= p < |sub| ensures whole[p] == part[p] {
      assert sub[p] == s[i + p];
    }
  }

  /** The number of occurrences of `c` in `s`. */
  function Count(s: string, c: char): nat
  {
    if s == [] then 0 else (if s[0] == c then 1 else 0) + Count(s[1..], c)
  }

  /** Python's `s.split(sep)` for a one-character separator: one more part than
      there are separators, and no part contains the separator. */
  function Split(s: string, sep: char): (parts: seq<string>)
    ensures |parts| == Count(s, sep) + 1
    ensures forall i :: 0 <= i < |parts| ==> sep !in parts[i]
  {
    if s == [] then [""]
    else
      var rest := Split(s[1..], sep);
      if s[0] == sep then [""] + rest
      else [[s[0]] + rest[0]] + rest[1..]
  }

  /** Python's `sep.join(parts)` for a one-character separator. */
  function Join(parts: seq<string>, sep: char): string
  {
    if |parts| == 0 then ""
    else if |parts| == 1 then parts[0]
    else parts[0] + [sep] + Join(parts[1..], sep)
  }

  /** Joining the parts of a split gives back the original string. */
  lemma {:induction false} JoinSplit(s: string, sep: char)
    ensures Join(Split(s, sep), sep) == s
  {
    if s != [] {
      var rest := Split(s[1..], sep);
      JoinSplit(s[1..], sep);
      if s[0] == sep {
        assert ([""] + rest)[1..] == rest;
      } else {
        var parts := [[s[0]] + rest[0]] + rest[1..];
        assert parts[1..] == rest[1..];
        if |rest| > 1 {
          assert Join(rest, sep) == rest[0] + [sep] + Join(rest[1..], sep);
        }
      }
    }
  }

  /** A string free of the separator splits into itself alone. */
  lemma {:induction false} SplitNoSeparator(a: string, sep: char)
    requires sep !in a
    ensures Split(a, sep) == [a]
  {
    if a != [] {
      SplitNoSeparator(a[1..], sep);
      assert [a[0]] + a[1..] == a;
    }
  }

  /** Splitting at the first separator: the part before it comes first. */
  lemma {:induction false} SplitAtFirstSeparator(a: string, b: string, sep: char)
    requires sep !in a
    ensures Split(a + [sep] + b, sep) == [a] + Split(b, sep)
  {
    var s := a + [sep] + b;
    if a == [] {
      assert s[1..] == b;
    } else {
      assert s[1..] == a[1..] + [sep] + b;
      SplitAtFirstSeparator(a[1..], b, sep);
      assert [a[0]] + a[1..] == a;
    }
  }

  /** Splitting undoes joining parts that are free of the separator. */
  lemma {:induction false} SplitJoin(parts: seq<string>, sep: char)
    requires |parts| >= 1
    requires forall i :: 0 <= i < |parts| ==> sep !in parts[i]
    ensures Split(Join(parts, sep), sep) == parts
  {
    if |parts| == 1 {
      SplitNoSeparator(parts[0], sep);
    } else {
      SplitJoin(parts[1..], sep);
      SplitAtFirstSeparator(parts[0], Join(parts[1..], sep), sep);
      assert [parts[0]] + parts[1..] == parts;
    }
  }

  /** A split into exactly two parts happens exactly when the separator occurs
      once, and the two parts are the text before and after it. */
  lemma SplitTwo(s: string, sep: char)
    ensures |Split(s, sep)| == 2 <==> Count(s, sep) == 1
    ensures |Split(s, sep)| == 2 ==>
      s == Split(s, sep)[0] + [sep] + Split(s, sep)[1] && sep !in Split(s, sep)[0] && sep !in Split(s, sep)[1]
  {
    JoinSplit(s, sep);
    var parts := Split(s, sep);
    if |parts| == 2 {
      assert Join(parts[1..], sep) == parts[1];
    }
  }
}
