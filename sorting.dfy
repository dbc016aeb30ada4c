/** `Array.prototype.sort`, which the homepage uses twice: once with the
    default comparison on the year entries and once with a comparison of
    dates. Since ECMAScript 2019 the sort is stable, so its result is the
    stable sort by the comparison, which is what insertion sort computes.
    Both comparisons order elements by a string key, ascending or
    descending, with `<` on strings. */
module Sorting {
  import opened JsString

  /** The key `kx` sorts strictly before the key `ky`. */
  predicate Precedes(kx: string, ky: string, descending: bool)
  {
    if descending then LexLess(ky, kx) else LexLess(kx, ky)
  }

  lemma {:induction false} PrecedesAsymmetric(a: string, b: string, descending: bool)
    requires Precedes(a, b, descending)
    ensures !Precedes(b, a, descending) && a != b
  {
    if descending {
      LexLessAsymmetric(b, a);
      LexLessIrreflexive(a);
    } else {
      LexLessAsymmetric(a, b);
      LexLessIrreflexive(a);
    }
  }

  lemma {:induction false} NotLessChain(a: string, b: string, c: string)
    requires !LexLess(a, b) && !LexLess(b, c)
    ensures !LexLess(a, c)
  {
    LexLessTotal(a, b);
    LexLessTotal(b, c);
    if a != b && b != c {
      LexLessTransitive(c, b, a);
      LexLessAsymmetric(c, a);
    }
  }

  /** "Not before" is transitive: the order is a strict weak order. */
  lemma {:induction false} NotPrecedesTransitive(a: string, b: string, c: string, descending: bool)
    requires !Precedes(a, b, descending) && !Precedes(b, c, descending)
    ensures !Precedes(a, c, descending)
  {
    if descending {
      NotLessChain(c, b, a);
    } else {
      NotLessChain(a, b, c);
    }
  }

  /** Insert `x` into a sorted sequence after every element it does not sort
      before, moving in from the back. */
  function Insert<T>(s: seq<T>, x: T, key: T -> string, descending: bool): (r: seq<T>)
    ensures |r| == |s| + 1
    decreases |s|
  {
    if |s| == 0 then [x]
    else if Precedes(key(x), key(s[|s| - 1]), descending) then
      Insert(s[..|s| - 1], x, key, descending) + [s[|s| - 1]]
    else s + [x]
  }

  /** The stable sort of `s` by `key`. */
  function SortBy<T>(s: seq<T>, key: T -> string, descending: bool): (r: seq<T>)
    ensures |r| == |s|
    decreases |s|
  {
    if |s| == 0 then [] else Insert(SortBy(s[..|s| - 1], key, descending), s[|s| - 1], key, descending)
  }

  /** No element sorts strictly before an earlier one. */
  predicate SortedBy<T>(s: seq<T>, key: T -> string, descending: bool)
  {
    forall i, j :: 0 <= i < j < |s| ==> !Precedes(key(s[j]), key(s[i]), descending)
  }

  /** The elements with key `k`, in their order in `s`. */
  function WithKey<T>(s: seq<T>, key: T -> string, k: string): seq<T>
    decreases |s|
  {
    if |s| == 0 then []
    else WithKey(s[..|s| - 1], key, k) + (if key(s[|s| - 1]) == k then [s[|s| - 1]] else [])
  }

  /** A non-empty sequence is its front followed by its last element. */
  lemma {:induction false} FrontLast<T>(s: seq<T>)
    requires |s| > 0
    ensures s == s[..|s| - 1] + [s[|s| - 1]]
  {
  }

  /** The elements with key `k` come from `s` and have key `k`. */
  lemma {:induction false} WithKeyMember<T>(s: seq<T>, key: T -> string, k: string, x: T)
    requires x in WithKey(s, key, k)
    ensures x in s && key(x) == k
    decreases |s|
  {
    var init := s[..|s| - 1];
    if x in WithKey(init, key, k) {
      WithKeyMember(init, key, k, x);
    }
  }

  lemma {:induction false} WithKeyConcat<T>(a: seq<T>, b: seq<T>, key: T -> string, k: string)
    ensures WithKey(a + b, key, k) == WithKey(a, key, k) + WithKey(b, key, k)
    decreases |b|
  {
    if |b| > 0 {
      var b0 := b[..|b| - 1];
      assert (a + b)[..|a + b| - 1] == a + b0;
      WithKeyConcat(a, b0, key, k);
    } else {
      assert a + b == a;
    }
  }

  lemma {:induction false} InsertPermutes<T>(s: seq<T>, x: T, key: T -> string, descending: bool)
    ensures multiset(Insert(s, x, key, descending)) == multiset(s) + multiset{x}
    decreases |s|
  {
    if |s| > 0 && Precedes(key(x), key(s[|s| - 1]), descending) {
      var init := s[..|s| - 1];
      InsertPermutes(init, x, key, descending);
      assert s == init + [s[|s| - 1]];
    }
  }

  lemma {:induction false} InsertAfterGreater<T>(s: seq<T>, x: T, key: T -> string, descending: bool)
    requires |s| > 0 && Precedes(key(x), key(s[|s| - 1]), descending)
    requires SortedBy(s, key, descending)
    requires SortedBy(Insert(s[..|s| - 1], x, key, descending), key, descending)
    ensures SortedBy(Insert(s, x, key, descending), key, descending)
  {
    var init := s[..|s| - 1];
    var last := s[|s| - 1];
    var front := Insert(init, x, key, descending);
    InsertPermutes(init, x, key, descending);
    PrecedesAsymmetric(key(x), key(last), descending);
    forall i | 0 <= i < |front|
      ensures !Precedes(key(last), key(front[i]), descending)
    {
      assert front[i] in multiset(front);
      if front[i] != x {
        assert front[i] in multiset(init);
        var m :| 0 <= m < |init| && init[m] == front[i];
        assert s[m] == init[m];
      }
    }
  }

  lemma {:induction false} InsertAtEnd<T>(s: seq<T>, x: T, key: T -> string, descending: bool)
    requires |s| > 0 && !Precedes(key(x), key(s[|s| - 1]), descending)
    requires SortedBy(s, key, descending)
    ensures SortedBy(Insert(s, x, key, descending), key, descending)
  {
    var last := s[|s| - 1];
    var r := s + [x];
    forall i | 0 <= i < |s|
      ensures !Precedes(key(x), key(s[i]), descending)
    {
      if i < |s| - 1 {
        NotPrecedesTransitive(key(x), key(last), key(s[i]), descending);
      }
    }
    assert forall i :: 0 <= i < |s| ==> r[i] == s[i];
  }

  lemma {:induction false} InsertSorted<T>(s: seq<T>, x: T, key: T -> string, descending: bool)
    requires SortedBy(s, key, descending)
    ensures SortedBy(Insert(s, x, key, descending), key, descending)
    decreases |s|
  {
    if |s| > 0 {
      if Precedes(key(x), key(s[|s| - 1]), descending) {
        var init := s[..|s| - 1];
        assert SortedBy(init, key, descending) by {
          forall i, j | 0 <= i < j < |init|
            ensures !Precedes(key(init[j]), key(init[i]), descending)
          {
            assert init[i] == s[i] && init[j] == s[j];
          }
        }
        InsertSorted(init, x, key, descending);
        InsertAfterGreater(s, x, key, descending);
      } else {
        InsertAtEnd(s, x, key, descending);
      }
    }
  }

  /** `x` lands after every element with its own key, so equal keys keep
      their order. */
  lemma {:induction false} InsertWithKey<T>(s: seq<T>, x: T, key: T -> string, descending: bool, k: string)
    ensures WithKey(Insert(s, x, key, descending), key, k)
         == WithKey(s, key, k) + (if key(x) == k then [x] else [])
    decreases |s|
  {
    if |s| > 0 {
      var init := s[..|s| - 1];
      var last := s[|s| - 1];
      if Precedes(key(x), key(last), descending) {
        PrecedesAsymmetric(key(x), key(last), descending);
        InsertWithKey(init, x, key, descending, k);
        WithKeyConcat(Insert(init, x, key, descending), [last], key, k);
        assert [last][..0] == [];
        WithKeyConcat(init, [last], key, k);
        assert init + [last] == s;
      } else {
        WithKeyConcat(s, [x], key, k);
        assert [x][..0] == [];
      }
    } else {
      assert [x][..0] == [];
    }
  }

  /** The sort is a permutation. */
  lemma {:induction false} SortPermutes<T>(s: seq<T>, key: T -> string, descending: bool)
    ensures multiset(SortBy(s, key, descending)) == multiset(s)
    decreases |s|
  {
    if |s| > 0 {
      var init := s[..|s| - 1];
      SortPermutes(init, key, descending);
      InsertPermutes(SortBy(init, key, descending), s[|s| - 1], key, descending);
      assert s == init + [s[|s| - 1]];
    }
  }

  /** The sort orders by the key. */
  lemma {:induction false} SortSorted<T>(s: seq<T>, key: T -> string, descending: bool)
    ensures SortedBy(SortBy(s, key, descending), key, descending)
    decreases |s|
  {
    if |s| > 0 {
      SortSorted(s[..|s| - 1], key, descending);
      InsertSorted(SortBy(s[..|s| - 1], key, descending), s[|s| - 1], key, descending);
    }
  }

  /** The sort is stable: elements with equal keys keep their relative order. */
  lemma {:induction false} SortStable<T>(s: seq<T>, key: T -> string, descending: bool, k: string)
    ensures WithKey(SortBy(s, key, descending), key, k) == WithKey(s, key, k)
    decreases |s|
  {
    if |s| > 0 {
      SortStable(s[..|s| - 1], key, descending, k);
      InsertWithKey(SortBy(s[..|s| - 1], key, descending), s[|s| - 1], key, descending, k);
    }
  }

  /** Moving `x` one place further left. */
  lemma {:induction false} InsertStep<T>(s: seq<T>, x: T, key: T -> string, descending: bool, j: int)
    requires 0 < j <= |s| && Precedes(key(x), key(s[j - 1]), descending)
    ensures Insert(s[..j], x, key, descending) + s[j..] == Insert(s[..j - 1], x, key, descending) + s[j - 1..]
  {
    assert s[..j][..j - 1] == s[..j - 1];
    assert s[j - 1..] == [s[j - 1]] + s[j..];
  }

  /** Where the inner loop stops, `x` belongs. */
  lemma {:induction false} InsertPlaced<T>(s: seq<T>, x: T, key: T -> string, descending: bool, j: int, r: seq<T>)
    requires 0 <= j <= |s| && |r| == |s| + 1
    requires Insert(s, x, key, descending) == Insert(s[..j], x, key, descending) + s[j..]
    requires j == 0 || !Precedes(key(x), key(s[j - 1]), descending)
    requires forall k :: 0 <= k < j ==> r[k] == s[k]
    requires r[j] == x
    requires forall k :: j < k < |r| ==> r[k] == s[k - 1]
    ensures r == Insert(s, x, key, descending)
  {
    if j > 0 {
      assert s[..j][..j - 1] == s[..j - 1];
    }
    assert Insert(s[..j], x, key, descending) == s[..j] + [x];
    var expected := s[..j] + [x] + s[j..];
    forall k | 0 <= k < |r|
      ensures r[k] == expected[k]
    {
      if k < j {
        assert expected[k] == s[k];
      } else if k > j {
        assert expected[k] == s[k - 1];
      }
    }
  }

  /** One step of the sort: move `a[i]` left past the elements it sorts
      before, shifting them one place right. */
  method InsertInPlace<T>(a: array<T>, i: int, key: T -> string, descending: bool)
    requires 0 <= i < a.Length
    modifies a
    ensures a[..i + 1] == Insert(old(a[..i]), old(a[i]), key, descending)
    ensures a[i + 1..] == old(a[i + 1..])
  {
    ghost var sorted := a[..i];
    var x := a[i];
    var j := i;
    assert sorted[..i] == sorted && sorted[i..] == [];
    while j > 0 && Precedes(key(x), key(a[j - 1]), descending)
      invariant 0 <= j <= i
      invariant Insert(sorted, x, key, descending) == Insert(sorted[..j], x, key, descending) + sorted[j..]
      invariant forall k :: 0 <= k < j ==> a[k] == sorted[k]
      invariant forall k :: j < k <= i ==> a[k] == sorted[k - 1]
      invariant a[i + 1..] == old(a[i + 1..])
    {
      InsertStep(sorted, x, key, descending, j);
      assert a[j - 1] == sorted[j - 1];
      a[j] := a[j - 1];
      j := j - 1;
    }
    a[j] := x;
    InsertPlaced(sorted, x, key, descending, j, a[..i + 1]);
  }

  /** `array.sort(...)` in place, as an insertion sort. */
  method SortInPlace<T>(a: array<T>, key: T -> string, descending: bool)
    modifies a
    ensures a[..] == SortBy(old(a[..]), key, descending)
  {
    ghost var input := a[..];
    var i := 0;
    while i < a.Length
      invariant 0 <= i <= a.Length
      invariant a[..i] == SortBy(input[..i], key, descending)
      invariant a[i..] == input[i..]
    {
      ghost var before := a[..];
      ghost var x := input[i];
      ghost var prefix := input[..i + 1];
      assert before[..i] == a[..i] && before[i..] == input[i..];
      assert before[i] == x;
      assert before[i + 1..] == input[i + 1..] by {
        assert before[i + 1..] == before[i..][1..];
        assert input[i + 1..] == input[i..][1..];
      }
      InsertInPlace(a, i, key, descending);
      assert prefix[..i] == input[..i] && prefix[i] == x && |prefix| == i + 1;
      assert SortBy(prefix, key, descending) == Insert(SortBy(input[..i], key, descending), x, key, descending);
      assert a[..i + 1] == SortBy(input[..i + 1], key, descending);
      assert a[i + 1..] == input[i + 1..];
      i := i + 1;
    }
    assert a[..] == a[..a.Length];
    assert input == input[..a.Length];
  }

  /** No two elements share a value of `f`. */
  predicate DistinctBy<T>(s: seq<T>, f: T -> string)
  {
    forall i, j :: 0 <= i < j < |s| ==> f(s[i]) != f(s[j])
  }

  /** Appending an element whose value is new keeps the values distinct. */
  lemma {:induction false} DistinctSnoc<T>(s: seq<T>, x: T, f: T -> string)
    requires DistinctBy(s, f)
    requires forall y :: y in s ==> f(y) != f(x)
    ensures DistinctBy(s + [x], f)
  {
    var r := s + [x];
    forall i, j | 0 <= i < j < |r|
      ensures f(r[i]) != f(r[j])
    {
      if j == |s| {
        assert r[i] in s;
      } else {
        assert r[i] == s[i] && r[j] == s[j];
      }
    }
  }

  lemma {:induction false} InsertDistinct<T>(s: seq<T>, x: T, key: T -> string, descending: bool, f: T -> string)
    requires DistinctBy(s, f)
    requires forall y :: y in s ==> f(y) != f(x)
    ensures DistinctBy(Insert(s, x, key, descending), f)
    decreases |s|
  {
    if |s| > 0 && Precedes(key(x), key(s[|s| - 1]), descending) {
      var init := s[..|s| - 1];
      var last := s[|s| - 1];
      assert forall y :: y in init ==> y in s;
      InsertDistinct(init, x, key, descending, f);
      InsertPermutes(init, x, key, descending);
      forall y | y in Insert(init, x, key, descending)
        ensures f(y) != f(last)
      {
        assert y in multiset(init) + multiset{x};
        if y in init {
          var i :| 0 <= i < |init| && init[i] == y;
          assert s[i] == y;
        }
      }
      DistinctSnoc(Insert(init, x, key, descending), last, f);
    } else {
      DistinctSnoc(s, x, f);
    }
  }

  /** Sorting keeps values that were distinct distinct. */
  lemma {:induction false} SortDistinct<T>(s: seq<T>, key: T -> string, descending: bool, f: T -> string)
    requires DistinctBy(s, f)
    ensures DistinctBy(SortBy(s, key, descending), f)
    decreases |s|
  {
    if |s| > 0 {
      var init := s[..|s| - 1];
      var last := s[|s| - 1];
      SortDistinct(init, key, descending, f);
      SortPermutes(init, key, descending);
      forall y | y in SortBy(init, key, descending)
        ensures f(y) != f(last)
      {
        assert y in multiset(init);
        var i :| 0 <= i < |init| && init[i] == y;
        assert s[i] == y;
      }
      InsertDistinct(SortBy(init, key, descending), last, key, descending, f);
    }
  }

  /** `array.reverse()`. */
  function Reverse<T>(s: seq<T>): (r: seq<T>)
    ensures |r| == |s|
    decreases |s|
  {
    if |s| == 0 then [] else [s[|s| - 1]] + Reverse(s[..|s| - 1])
  }

  lemma {:induction false} ReverseAt<T>(s: seq<T>, i: int)
    requires 0 <= i < |s|
    ensures Reverse(s)[i] == s[|s| - 1 - i]
    decreases |s|
  {
    if i > 0 {
      ReverseAt(s[..|s| - 1], i - 1);
    }
  }

  lemma {:induction false} ReversePermutes<T>(s: seq<T>)
    ensures multiset(Reverse(s)) == multiset(s)
    decreases |s|
  {
    if |s| > 0 {
      ReversePermutes(s[..|s| - 1]);
      assert s == s[..|s| - 1] + [s[|s| - 1]];
    }
  }

  /** Reversing a sorted sequence sorts it the other way round. */
  lemma {:induction false} ReverseSorted<T>(s: seq<T>, key: T -> string, descending: bool)
    requires SortedBy(s, key, descending)
    ensures SortedBy(Reverse(s), key, !descending)
  {
    var r := Reverse(s);
    forall i, j | 0 <= i < j < |r|
      ensures !Precedes(key(r[j]), key(r[i]), !descending)
    {
      ReverseAt(s, i);
      ReverseAt(s, j);
      assert !Precedes(key(s[|s| - 1 - i]), key(s[|s| - 1 - j]), descending);
    }
  }

  /** `array.reverse()` in place: swap the ends, moving inwards. */
  method ReverseInPlace<T>(a: array<T>)
    modifies a
    ensures a[..] == Reverse(old(a[..]))
  {
    ghost var input := a[..];
    var lo, hi := 0, a.Length - 1;
    while lo < hi
      invariant 0 <= lo && hi == a.Length - 1 - lo && lo <= a.Length - lo
      invariant forall k :: 0 <= k < lo ==> a[k] == input[a.Length - 1 - k]
      invariant forall k :: hi < k < a.Length ==> a[k] == input[a.Length - 1 - k]
      invariant forall k :: lo <= k <= hi ==> a[k] == input[k]
    {
      a[lo], a[hi] := a[hi], a[lo];
      lo, hi := lo + 1, hi - 1;
    }
    forall k | 0 <= k < a.Length
      ensures a[k] == Reverse(input)[k]
    {
      ReverseAt(input, k);
    }
  }
}
