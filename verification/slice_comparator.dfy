/** Order-insensitive comparison of two string slices, as the web-hook check
    compares event lists: equal lengths, then sort both slices in place with
    `sort.Strings` and compare them position by position. */
module SliceComparator {

  // ---------------------------------------------------------------------------
  // The order `sort.Strings` uses

  /** Lexicographic order on strings: a prefix comes first, otherwise the first
      differing character decides. */
  predicate Leq(a: string, b: string)
    decreases |a|
  {
    |a| == 0 || (|b| > 0 && (a[0] < b[0] || (a[0] == b[0] && Leq(a[1..], b[1..]))))
  }

  lemma {:induction false} LeqTotal(a: string, b: string)
    ensures Leq(a, b) || Leq(b, a)
    decreases |a|
  {
    if |a| > 0 && |b| > 0 && a[0] == b[0] {
      LeqTotal(a[1..], b[1..]);
    }
  }

  lemma {:induction false} LeqAntisymmetric(a: string, b: string)
    requires Leq(a, b) && Leq(b, a)
    ensures a == b
    decreases |a|
  {
    if |a| > 0 {
      LeqAntisymmetric(a[1..], b[1..]);
      assert a == [a[0]] + a[1..] && b == [b[0]] + b[1..];
    }
  }

  lemma {:induction false} LeqTransitive(a: string, b: string, c: string)
    requires Leq(a, b) && Leq(b, c)
    ensures Leq(a, c)
    decreases |a|
  {
    if |a| > 0 && a[0] == b[0] && b[0] == c[0] {
      LeqTransitive(a[1..], b[1..], c[1..]);
    }
  }

  predicate Sorted(s: seq<string>) {
    forall i, j :: 0 <= i < j < |s| ==> Leq(s[i], s[j])
  }

  // ---------------------------------------------------------------------------
  // A reference sort

  /** Inserts `x` before the first element it does not follow. */
  function Insert(x: string, s: seq<string>): (r: seq<string>)
    ensures |r| == |s| + 1
    ensures multiset(r) == multiset(s) + multiset{x}
  {
    if |s| == 0 then [x]
    else if Leq(x, s[0]) then [x] + s
    else
      assert s == [s[0]] + s[1..];
      [s[0]] + Insert(x, s[1..])
  }

  /** Insertion keeps a sorted list sorted. */
  lemma {:induction false} InsertSorted(x: string, s: seq<string>)
    requires Sorted(s)
    ensures Sorted(Insert(x, s))
  {
    if |s| == 0 {
    } else if Leq(x, s[0]) {
      forall i, j | 0 <= i < j < |s| + 1 ensures Leq(([x] + s)[i], ([x] + s)[j]) {
        if i == 0 && j > 1 {
          LeqTransitive(x, s[0], s[j - 1]);
        }
      }
    } else {
      SortedTail(s);
      InsertSorted(x, s[1..]);
      var rest := Insert(x, s[1..]);
      assert s == [s[0]] + s[1..];
      LeqTotal(x, s[0]);
      var r := [s[0]] + rest;
      forall i, j | 0 <= i < j < |r| ensures Leq(r[i], r[j]) {
        if i == 0 {
          assert r[j] in multiset(rest);
          assert r[j] == x || r[j] in multiset(s[1..]);
          if r[j] != x {
            var k :| 0 <= k < |s[1..]| && s[1..][k] == r[j];
            assert s[k + 1] == r[j];
          }
        } else {
          assert r[i] == rest[i - 1] && r[j] == rest[j - 1];
        }
      }
    }
  }

  /** `sort.Strings`, as a function: an insertion sort. */
  function Sort(s: seq<string>): (r: seq<string>)
    ensures |r| == |s|
    ensures multiset(r) == multiset(s)
  {
    if |s| == 0 then []
    else
      assert s == [s[0]] + s[1..];
      Insert(s[0], Sort(s[1..]))
  }

  lemma {:induction false} SortSorted(s: seq<string>)
    ensures Sorted(Sort(s))
  {
    if |s| > 0 {
      SortSorted(s[1..]);
      InsertSorted(s[0], Sort(s[1..]));
    }
  }

  lemma SortedTail(s: seq<string>)
    requires |s| > 0 && Sorted(s)
    ensures Sorted(s[1..])
  {
    forall p, q | 0 <= p < q < |s[1..]| ensures Leq(s[1..][p], s[1..][q]) {
      assert s[1..][p] == s[p + 1] && s[1..][q] == s[q + 1];
    }
  }

  lemma MultisetTail(s: seq<string>)
    requires |s| > 0
    ensures multiset(s[1..]) == multiset(s) - multiset{s[0]}
  {
    assert s == [s[0]] + s[1..];
  }

  /** Sorted arrangements of one multiset start with the same string. */
  lemma SortedHeads(a: seq<string>, b: seq<string>)
    requires |a| > 0 && Sorted(a) && Sorted(b) && multiset(a) == multiset(b)
    ensures a[0] == b[0]
  {
    assert a[0] in multiset(b);
    assert b[0] in multiset(a);
    var i :| 0 <= i < |b| && b[i] == a[0];
    var j :| 0 <= j < |a| && a[j] == b[0];
    if i > 0 && j > 0 {
      assert Leq(b[0], b[i]);
      assert Leq(a[0], a[j]);
      LeqAntisymmetric(a[0], b[0]);
    }
  }

  /** A sorted arrangement of a multiset is unique. */
  lemma {:induction false} SortedUnique(a: seq<string>, b: seq<string>)
    requires Sorted(a) && Sorted(b) && multiset(a) == multiset(b)
    ensures a == b
    decreases |a|
  {
    if |a| > 0 {
      SortedHeads(a, b);
      MultisetTail(a);
      MultisetTail(b);
      SortedTail(a);
      SortedTail(b);
      SortedUnique(a[1..], b[1..]);
      assert a == [a[0]] + a[1..] && b == [b[0]] + b[1..];
    } else {
      assert |b| == |multiset(b)| == 0;
    }
  }

  /** Two slices sort to the same result exactly when they hold the same
      strings, each the same number of times. */
  lemma SortEqualIff(a: seq<string>, b: seq<string>)
    ensures Sort(a) == Sort(b) <==> multiset(a) == multiset(b)
  {
    if multiset(a) == multiset(b) {
      SortSorted(a);
      SortSorted(b);
      SortedUnique(Sort(a), Sort(b));
    }
  }

  // ---------------------------------------------------------------------------
  // The comparison

  /** `stringSlicesEqualIgnoringOrder` as a function. */
  function EqualIgnoringOrder(a: seq<string>, b: seq<string>): (r: bool)
    ensures r <==> multiset(a) == multiset(b)
  {
    SortEqualIff(a, b);
    |a| == |b| && Sort(a) == Sort(b)
  }

  /** The comparison does not depend on the order of its arguments. */
  lemma EqualIgnoringOrderSymmetric(a: seq<string>, b: seq<string>)
    ensures EqualIgnoringOrder(a, b) == EqualIgnoringOrder(b, a)
  {
  }

  /** The loop of `stringSlicesEqualIgnoringOrder`: a position-by-position
      comparison that stops at the first difference. */
  method SamePositions(x: seq<string>, y: seq<string>) returns (equal: bool)
    requires |x| == |y|
    ensures equal <==> x == y
  {
    var index := 0;
    while index < |x|
      invariant 0 <= index <= |x|
      invariant x[..index] == y[..index]
    {
      if x[index] != y[index] {
        return false;
      }
      assert x[..index + 1] == x[..index] + [x[index]];
      assert y[..index + 1] == y[..index] + [y[index]];
      index := index + 1;
    }
    assert x == x[..index] && y == y[..index];
    return true;
  }

  /** `stringSlicesEqualIgnoringOrder` step by step. Besides the verdict it
      returns the contents the two slices have afterwards: unchanged when the
      lengths differ, sorted otherwise (the in-place side effect). */
  method StringSlicesEqualIgnoringOrder(a: seq<string>, b: seq<string>)
    returns (equal: bool, afterA: seq<string>, afterB: seq<string>)
    ensures equal <==> multiset(a) == multiset(b)
    ensures |a| != |b| ==> !equal && afterA == a && afterB == b
    ensures |a| == |b| ==> afterA == Sort(a) && afterB == Sort(b)
    ensures multiset(afterA) == multiset(a) && multiset(afterB) == multiset(b)
  {
    if |a| != |b| {
      assert |multiset(a)| != |multiset(b)|;
      return false, a, b;
    }
    afterA := Sort(a);
    afterB := Sort(b);
    equal := SamePositions(afterA, afterB);
    SortEqualIff(a, b);
  }

  /** The same comparison on Go slices, with the sort done in place. */
  method EqualIgnoringOrderInPlace(a: array<string>, b: array<string>) returns (equal: bool)
    modifies a, b
    ensures equal <==> multiset(old(a[..])) == multiset(old(b[..]))
    ensures a.Length != b.Length ==> a[..] == old(a[..]) && b[..] == old(b[..])
    ensures a.Length == b.Length ==> a[..] == Sort(old(a[..])) && b[..] == Sort(old(b[..]))
  {
    if a == b {
      equal := true;
      Overwrite(a, Sort(a[..]));
    } else {
      var afterA, afterB;
      equal, afterA, afterB := StringSlicesEqualIgnoringOrder(a[..], b[..]);
      if a.Length == b.Length {
        Overwrite(a, afterA);
        Overwrite(b, afterB);
      }
    }
  }

  /** Writes `contents` into `arr`. */
  method Overwrite(arr: array<string>, contents: seq<string>)
    requires arr.Length == |contents|
    modifies arr
    ensures arr[..] == contents
  {
    forall i | 0 <= i < arr.Length {
      arr[i] := contents[i];
    }
  }

  /** A three-element slice is not equal to a two-element one, whatever
      strings they hold. */
  lemma DifferentLengthsAreUnequal()
    ensures !EqualIgnoringOrder(["a", "c", "b"], ["a", "c"])
  {
    assert |multiset(["a", "c", "b"])| == 3;
  }
}
