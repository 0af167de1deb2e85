/**
 * Python's ordering of strings (code point by code point, a proper prefix
 * first) and of `(str, str)` tuples (first component, then second), and the
 * sort `sorted(...)` performs with it.
 */
module Lex {

  /** `a < b` on Python strings. */
  predicate Less(a: string, b: string)
    decreases |a|
  {
    if |a| == 0 then |b| > 0
    else if |b| == 0 then false
    else if a[0] != b[0] then a[0] < b[0]
    else Less(a[1..], b[1..])
  }

  /** No string precedes itself. */
  lemma {:induction false} LessIrreflexive(a: string)
    ensures !Less(a, a)
    decreases |a|
  {
    if |a| > 0 {
      LessIrreflexive(a[1..]);
    }
  }

  lemma {:induction false} LessTransitive(a: string, b: string, c: string)
    requires Less(a, b) && Less(b, c)
    ensures Less(a, c)
    decreases |a|
  {
    if |a| > 0 && a[0] == b[0] && b[0] == c[0] {
      LessTransitive(a[1..], b[1..], c[1..]);
    }
  }

  /** Any two different strings are ordered one way or the other. */
  lemma {:induction false} LessTotal(a: string, b: string)
    requires a != b
    ensures Less(a, b) || Less(b, a)
    decreases |a|
  {
    if |a| > 0 && |b| > 0 && a[0] == b[0] {
      assert a == [a[0]] + a[1..] && b == [b[0]] + b[1..];
      LessTotal(a[1..], b[1..]);
    }
  }

  /** `x < y` on Python tuples of two strings. */
  predicate PairLess(x: (string, string), y: (string, string)) {
    Less(x.0, y.0) || (x.0 == y.0 && Less(x.1, y.1))
  }

  predicate PairLeq(x: (string, string), y: (string, string)) {
    x == y || PairLess(x, y)
  }

  lemma PairLeqTransitive(x: (string, string), y: (string, string), z: (string, string))
    requires PairLeq(x, y) && PairLeq(y, z)
    ensures PairLeq(x, z)
  {
    if x != y && y != z {
      if Less(x.0, y.0) && Less(y.0, z.0) {
        LessTransitive(x.0, y.0, z.0);
      } else if x.0 == y.0 && y.0 == z.0 {
        LessTransitive(x.1, y.1, z.1);
      }
    }
  }

  /** The tuple order is total: any two tuples are comparable. */
  lemma PairLeqTotal(x: (string, string), y: (string, string))
    ensures PairLeq(x, y) || PairLeq(y, x)
  {
    if x.0 != y.0 {
      LessTotal(x.0, y.0);
    } else if x.1 != y.1 {
      LessTotal(x.1, y.1);
    }
  }

  /** The tuple order is antisymmetric. */
  lemma PairLeqAntisymmetric(x: (string, string), y: (string, string))
    requires PairLeq(x, y) && PairLeq(y, x)
    ensures x == y
  {
    if x != y {
      if Less(x.0, y.0) && Less(y.0, x.0) {
        LessTransitive(x.0, y.0, x.0);
        LessIrreflexive(x.0);
      } else if Less(x.0, y.0) {
        LessIrreflexive(x.0);
      } else if Less(y.0, x.0) {
        LessIrreflexive(y.0);
      } else {
        LessTransitive(x.1, y.1, x.1);
        LessIrreflexive(x.1);
      }
    }
  }

  predicate Sorted(s: seq<(string, string)>) {
    forall i, j :: 0 <= i < j < |s| ==> PairLeq(s[i], s[j])
  }

  /** A sequence whose neighbours are in order is sorted. */
  lemma {:induction false} SortedByNeighbours(s: seq<(string, string)>)
    requires forall i :: 0 <= i < |s| - 1 ==> PairLeq(s[i], s[i + 1])
    ensures Sorted(s)
    decreases |s|
  {
    if |s| > 1 {
      SortedByNeighbours(s[1..]);
      forall j | 1 <= j < |s|
        ensures PairLeq(s[0], s[j])
      {
        if j > 1 {
          assert PairLeq(s[1], s[j]) by { assert s[1..][0] == s[1] && s[1..][j - 1] == s[j]; }
          PairLeqTransitive(s[0], s[1], s[j]);
        }
      }
      forall i, j | 0 <= i < j < |s|
        ensures PairLeq(s[i], s[j])
      {
        if i > 0 {
          assert s[1..][i - 1] == s[i] && s[1..][j - 1] == s[j];
        }
      }
    }
  }

  /** Inserts `x` into the sorted sequence `s`, after every element not greater than it. */
  function Insert(x: (string, string), s: seq<(string, string)>): (r: seq<(string, string)>)
    requires Sorted(s)
    ensures Sorted(r)
    ensures multiset(r) == multiset(s) + multiset{x}
    ensures |r| == |s| + 1
    decreases |s|
  {
    if |s| == 0 then [x]
    else if PairLeq(x, s[0]) then
      assert forall j :: 0 < j < |s| ==> PairLeq(x, s[j]) by {
        forall j | 0 < j < |s| {
          PairLeqTransitive(x, s[0], s[j]);
        }
      }
      [x] + s
    else
      var rest := Insert(x, s[1..]);
      PairLeqTotal(x, s[0]);
      assert s == [s[0]] + s[1..];
      assert forall j :: 0 <= j < |rest| ==> PairLeq(s[0], rest[j]) by {
        forall j | 0 <= j < |rest|
          ensures PairLeq(s[0], rest[j])
        {
          assert rest[j] in multiset(rest);
          assert rest[j] == x || rest[j] in multiset(s[1..]);
          if rest[j] != x {
            var k :| 0 <= k < |s[1..]| && s[1..][k] == rest[j];
            assert s[k + 1] == rest[j];
          }
        }
      }
      [s[0]] + rest
  }

  /** Python's `sorted(...)` on tuples of two strings (an insertion sort). */
  function Sort(s: seq<(string, string)>): (r: seq<(string, string)>)
    ensures Sorted(r)
    ensures multiset(r) == multiset(s)
    ensures |r| == |s|
    decreases |s|
  {
    if |s| == 0 then []
    else
      assert s == [s[0]] + s[1..];
      Insert(s[0], Sort(s[1..]))
  }

  lemma HeadTail(s: seq<(string, string)>)
    requires |s| > 0
    ensures multiset(s[1..]) == multiset(s) - multiset{s[0]}
  {
    assert s == [s[0]] + s[1..];
  }

  /** The first element of a sorted sequence is not greater than any element. */
  lemma SortedHead(s: seq<(string, string)>, x: (string, string))
    requires Sorted(s) && x in multiset(s)
    ensures PairLeq(s[0], x)
  {
    var j :| 0 <= j < |s| && s[j] == x;
    if j > 0 {
      assert PairLeq(s[0], s[j]);
    }
  }

  /** A sorted ordering of a collection is unique: `Sort` is the only one. */
  lemma {:induction false} SortedUnique(a: seq<(string, string)>, b: seq<(string, string)>)
    requires Sorted(a) && Sorted(b) && multiset(a) == multiset(b)
    ensures a == b
    decreases |a|
  {
    assert |a| == |multiset(a)| == |multiset(b)| == |b|;
    if |a| > 0 {
      SortedHead(a, b[0]);
      SortedHead(b, a[0]);
      PairLeqAntisymmetric(a[0], b[0]);
      HeadTail(a);
      HeadTail(b);
      SortedUnique(a[1..], b[1..]);
      assert a == [a[0]] + a[1..] && b == [b[0]] + b[1..];
    }
  }

  /** The passengers of the demonstration flight come out in name order. */
  lemma SortExample()
    ensures Sort([("Ravi Datt Sharma", "1A"), ("Aryan Bhardwaj", "12A"), ("Gargie Bhardwaj", "12B")])
         == [("Aryan Bhardwaj", "12A"), ("Gargie Bhardwaj", "12B"), ("Ravi Datt Sharma", "1A")]
  {
    var s := [("Ravi Datt Sharma", "1A"), ("Aryan Bhardwaj", "12A"), ("Gargie Bhardwaj", "12B")];
    var t := [("Aryan Bhardwaj", "12A"), ("Gargie Bhardwaj", "12B"), ("Ravi Datt Sharma", "1A")];
    assert Less(t[0].0, t[1].0) && Less(t[1].0, t[2].0) && Less(t[0].0, t[2].0);
    assert Sorted(t);
    assert multiset(t) == multiset(s);
    SortedUnique(Sort(s), t);
  }
}
