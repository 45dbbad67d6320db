/**
 * Path handling of the access-control table: JavaScript's `split('/')` on
 * request paths and resource patterns, and the segment-wise wildcard match
 * used by the lookup (index.js:11, 88, 91-110).
 */
module Paths {

  /** The reserved pattern segments that match any single path segment (index.js:11). */
  const Wildcards: seq<string> := ["*", ":param", ":user"]

  /** Number of '/' characters in `s`. */
  function Slashes(s: string): (n: nat)
  {
    multiset(s)['/']
  }

  /**
   * `s.split('/')` in JavaScript: a string with k slashes yields k + 1
   * segments, none containing '/', so "" gives [""] and "/a" gives ["", "a"].
   */
  function Split(s: string): (r: seq<string>)
    ensures |r| >= 1
    ensures forall k :: 0 <= k < |r| ==> '/' !in r[k]
  {
    if |s| == 0 then [""]
    else
      var rest := Split(s[1..]);
      if s[0] == '/' then [""] + rest
      else [[s[0]] + rest[0]] + rest[1..]
  }

  /** A string with k slashes splits into k + 1 segments. */
  lemma {:induction false} SplitCount(s: string)
    ensures |Split(s)| == Slashes(s) + 1
  {
    if |s| > 0 {
      SplitCount(s[1..]);
      assert s == [s[0]] + s[1..];
    }
  }

  /** `segs.join('/')`: the inverse of `Split`. */
  function Join(segs: seq<string>): (joined: string)
    requires |segs| >= 1
  {
    if |segs| == 1 then segs[0] else segs[0] + "/" + Join(segs[1..])
  }

  /** Joining the segments of a split gives back the original string. */
  lemma {:induction false} JoinSplit(s: string)
    ensures Join(Split(s)) == s
  {
    if |s| > 0 {
      JoinSplit(s[1..]);
      var rest := Split(s[1..]);
      if s[0] != '/' {
        if |rest| > 1 {
          assert Join(rest) == rest[0] + "/" + Join(rest[1..]);
          assert Split(s)[1..] == rest[1..];
        }
      }
    }
  }

  /** Splitting a string that has no '/' and then a '/' in front of more text. */
  lemma {:induction false} SplitAfterSegment(a: string, b: string)
    requires '/' !in a
    ensures Split(a + "/" + b) == [a] + Split(b)
  {
    var s := a + "/" + b;
    if |a| == 0 {
      assert s[0] == '/' && s[1..] == b;
    } else {
      assert s[0] == a[0] && s[0] != '/';
      assert s[1..] == a[1..] + "/" + b;
      SplitAfterSegment(a[1..], b);
      var rest := Split(s[1..]);
      assert rest == [a[1..]] + Split(b);
      assert Split(s) == [[s[0]] + rest[0]] + rest[1..];
      assert [s[0]] + rest[0] == a;
    }
  }

  /** A string with no '/' splits into itself. */
  lemma {:induction false} SplitSegment(a: string)
    requires '/' !in a
    ensures Split(a) == [a]
  {
    if |a| > 0 {
      SplitSegment(a[1..]);
      assert a == [a[0]] + a[1..];
    }
  }

  /** Splitting joined slash-free segments gives back the segments. */
  lemma {:induction false} SplitJoin(segs: seq<string>)
    requires |segs| >= 1
    requires forall k :: 0 <= k < |segs| ==> '/' !in segs[k]
    ensures Split(Join(segs)) == segs
  {
    if |segs| == 1 {
      SplitSegment(segs[0]);
    } else {
      SplitJoin(segs[1..]);
      SplitAfterSegment(segs[0], Join(segs[1..]));
      assert segs == [segs[0]] + segs[1..];
    }
  }

  /**
   * One pattern segment against one path segment: an empty pattern segment
   * and the reserved wildcards match anything, any other segment only
   * itself (index.js:98-103).
   */
  predicate SegMatch(pat: string, seg: string)
  {
    pat == "" || pat in Wildcards || pat == seg
  }

  /** A split pattern against a split path: same segment count, every segment matches (index.js:95-110). */
  predicate Matches(pat: seq<string>, path: seq<string>)
  {
    |pat| == |path| && forall k :: 0 <= k < |pat| ==> SegMatch(pat[k], path[k])
  }
}
