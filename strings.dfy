/**
  Python's ordering of str values (code point by code point, a proper
  prefix first) and the list sort the help listing uses, modelled as an
  insertion sort whose result is proved to be the sorted permutation.
 */
module Strings {

  /** `a < b` on Python strings. */
  predicate Less(a: string, b: string)
    decreases |a|
  {
    |b| > 0 && (|a| == 0 || if a[0] != b[0] then a[0] < b[0] else Less(a[1..], b[1..]))
  }

  predicate LessEq(a: string, b: string) {
    a == b || Less(a, b)
  }

  lemma {:induction false} LessIrreflexive(a: string)
    ensures !Less(a, a)
    decreases |a|
  {
    if |a| > 0 {
      LessIrreflexive(a[1..]);
    }
  }

  lemma {:induction false} LessTransitive(a: string, b: string, c: string)
    requires Less(a, b) && Less(b, c)
    ensures Less(a, c)
    decreases |a|
  {
    if |a| > 0 && a[0] == b[0] && b[0] == c[0] {
      LessTransitive(a[1..], b[1..], c[1..]);
    }
  }

  lemma {:induction false} LessTotal(a: string, b: string)
    ensures a == b || Less(a, b) || Less(b, a)
    decreases |a|
  {
    if |a| > 0 && |b| > 0 && a[0] == b[0] {
      LessTotal(a[1..], b[1..]);
      if a[1..] == b[1..] {
        assert a == [a[0]] + a[1..] && b == [b[0]] + b[1..];
      }
    }
  }

  lemma {:induction false} LessAsymmetric(a: string, b: string)
    requires Less(a, b)
    ensures !Less(b, a)
    decreases |a|
  {
    if |a| > 0 && a[0] == b[0] {
      LessAsymmetric(a[1..], b[1..]);
    }
  }

  predicate Sorted(s: seq<string>) {
    forall i, j :: 0 <= i < j < |s| ==> LessEq(s[i], s[j])
  }

  /** A sequence whose neighbours are in order is sorted. */
  lemma {:induction false} NeighboursSorted(s: seq<string>)
    requires forall i :: 0 <= i < |s| - 1 ==> LessEq(s[i], s[i + 1])
    ensures Sorted(s)
    decreases |s|
  {
    if |s| > 1 {
      NeighboursSorted(s[1..]);
      forall j | 1 <= j < |s| ensures LessEq(s[0], s[j]) {
        assert s[j] == s[1..][j - 1];
        if j > 1 {
          assert LessEq(s[1], s[j]) by { assert s[1] == s[1..][0]; }
          if s[0] != s[1] && s[1] != s[j] {
            LessTransitive(s[0], s[1], s[j]);
          }
        }
      }
    }
  }

  lemma TailSorted(s: seq<string>)
    requires |s| > 0 && Sorted(s)
    ensures Sorted(s[1..])
  {
    forall a, b | 0 <= a < b < |s| - 1 ensures LessEq(s[1..][a], s[1..][b]) {
      assert s[1..][a] == s[a + 1] && s[1..][b] == s[b + 1];
    }
  }

  /** Putting a lower bound of a sorted sequence in front keeps it sorted. */
  lemma ConsSorted(x: string, s: seq<string>)
    requires Sorted(s)
    requires forall y :: y in multiset(s) ==> LessEq(x, y)
    ensures Sorted([x] + s)
  {
    var r := [x] + s;
    forall i, j | 0 <= i < j < |r| ensures LessEq(r[i], r[j]) {
      assert r[j] == s[j - 1];
      assert s[j - 1] in multiset(s);
      if i > 0 {
        assert r[i] == s[i - 1];
      }
    }
  }

  function Insert(x: string, s: seq<string>): (r: seq<string>)
    ensures multiset(r) == multiset(s) + multiset{x}
    ensures Sorted(s) ==> Sorted(r)
    decreases |s|
  {
    assert |s| > 0 ==> s == [s[0]] + s[1..];
    if |s| == 0 then [x]
    else if LessEq(x, s[0]) then
      assert Sorted(s) ==> Sorted([x] + s) by {
        if Sorted(s) {
          forall y | y in multiset(s) ensures LessEq(x, y) {
            var k :| 0 <= k < |s| && s[k] == y;
            if x != s[0] && s[0] != y { LessTransitive(x, s[0], y); }
          }
          ConsSorted(x, s);
        }
      }
      [x] + s
    else
      var tail := Insert(x, s[1..]);
      assert Sorted(s) ==> Sorted([s[0]] + tail) by {
        if Sorted(s) {
          TailSorted(s);
          LessTotal(x, s[0]);
          forall y | y in multiset(tail) ensures LessEq(s[0], y) {
            if y != x {
              var k :| 0 <= k < |s[1..]| && s[1..][k] == y;
              assert s[k + 1] == y;
            }
          }
          ConsSorted(s[0], tail);
        }
      }
      [s[0]] + tail
  }

  /** `list.sort()` on a list of strings (a stable sort; equal strings are interchangeable). */
  function Sort(s: seq<string>): (r: seq<string>)
    ensures Sorted(r)
    ensures multiset(r) == multiset(s)
    decreases |s|
  {
    if |s| == 0 then []
    else
      assert s == [s[0]] + s[1..];
      Insert(s[0], Sort(s[1..]))
  }

  /** Two sorted permutations of one another start with the same (least) element. */
  lemma SortedHeads(a: seq<string>, b: seq<string>)
    requires Sorted(a) && Sorted(b) && multiset(a) == multiset(b)
    requires |a| > 0 && |b| > 0
    ensures a[0] == b[0]
  {
    assert a[0] in multiset(b) && b[0] in multiset(a);
    var i :| 0 <= i < |b| && b[i] == a[0];
    var j :| 0 <= j < |a| && a[j] == b[0];
    assert LessEq(b[0], a[0]) by {
      if i > 0 { assert LessEq(b[0], b[i]); }
    }
    assert LessEq(a[0], b[0]) by {
      if j > 0 { assert LessEq(a[0], a[j]); }
    }
    if a[0] != b[0] {
      LessAsymmetric(a[0], b[0]);
    }
  }

  /** Removing the head of a non-empty sequence removes one occurrence of it. */
  lemma MultisetTail(a: seq<string>)
    requires |a| > 0
    ensures multiset(a[1..]) == multiset(a) - multiset{a[0]}
  {
    assert a == [a[0]] + a[1..];
    assert multiset(a) == multiset{a[0]} + multiset(a[1..]);
  }

  /** Sorting has exactly one possible result: two sorted permutations of one another are equal. */
  lemma {:induction false} SortedUnique(a: seq<string>, b: seq<string>)
    requires Sorted(a) && Sorted(b) && multiset(a) == multiset(b)
    ensures a == b
    decreases |a|
  {
    assert |a| == |multiset(a)| == |multiset(b)| == |b|;
    if |a| > 0 {
      SortedHeads(a, b);
      MultisetTail(a);
      MultisetTail(b);
      TailSorted(a);
      TailSorted(b);
      SortedUnique(a[1..], b[1..]);
      assert a == [a[0]] + a[1..] && b == [b[0]] + b[1..];
    }
  }

  /** Sort's result is the sorted permutation of its input, whichever that is. */
  lemma SortIsUnique(s: seq<string>, expected: seq<string>)
    requires Sorted(expected) && multiset(s) == multiset(expected)
    ensures Sort(s) == expected
  {
    SortedUnique(Sort(s), expected);
  }
}
