/**
 * The in-place partition of an array by a predicate (the C++ `std::partition`
 * scheme): after the call every element that satisfies the predicate comes
 * before every element that does not, the array holds the same elements, and
 * the returned index is where the second group starts.
 */
module ArrayExtensions {

  /** How many elements of `s` satisfy `pred`. */
  function CountWhere<T>(s: seq<T>, pred: T -> bool): (n: nat)
    ensures n <= |s|
  {
    if s == [] then 0
    else (if pred(s[0]) then 1 else 0) + CountWhere(s[1..], pred)
  }

  /** `s` is split at `k`: the predicate holds on `s[..k]` and fails on `s[k..]`. */
  ghost predicate PartitionedAt<T>(s: seq<T>, pred: T -> bool, k: int) {
    0 <= k <= |s| &&
    (forall i :: 0 <= i < k ==> pred(s[i])) &&
    (forall i :: k <= i < |s| ==> !pred(s[i]))
  }

  /**
   * Rearranges `a` so that the elements satisfying `pred` come first and
   * returns the index of the first element that does not satisfy it (the
   * length of the array when all do). Neither group keeps its order.
   */
  method Partition<T>(a: array<T>, pred: T -> bool) returns (k: int)
    modifies a
    ensures PartitionedAt(a[..], pred, k)
    ensures multiset(a[..]) == multiset(old(a[..]))
    ensures k == CountWhere(old(a[..]), pred)
  {
    var first := 0;
    var last := a.Length;
    ghost var original := a[..];

    while first != last
      invariant 0 <= first <= last <= a.Length
      invariant forall i :: 0 <= i < first ==> pred(a[i])
      invariant forall i :: last <= i < a.Length ==> !pred(a[i])
      invariant multiset(a[..]) == multiset(original)
      decreases last - first
    {
      // Each early return of the source returns `first` once first == last;
      // here they leave the loop and share its exit.
      first := SkipSatisfying(a, pred, first, last);
      if first == last {
        break;
      }
      last := SkipFailing(a, pred, first, last);
      if first == last {
        break;
      }
      Swap(a, first, last);
      first := first + 1;
    }

    k := first;
    PartitionIndexIsCount(a[..], original, pred, k);
  }

  /**
   * The first inner loop: moves `first` up past the elements satisfying
   * `pred`, stopping at `last`.
   */
  method SkipSatisfying<T>(a: array<T>, pred: T -> bool, first: int, last: int) returns (f: int)
    requires 0 <= first < last <= a.Length
    ensures first <= f <= last
    ensures forall i :: first <= i < f ==> pred(a[i])
    ensures f < last ==> !pred(a[f])
  {
    f := first;
    while pred(a[f])
      invariant first <= f < last
      invariant forall i :: first <= i < f ==> pred(a[i])
      decreases last - f
    {
      f := f + 1;
      if f == last {
        return;
      }
    }
  }

  /**
   * The do-while loop: moves `last` down at least once, past the elements
   * failing `pred`, stopping at `first`.
   */
  method SkipFailing<T>(a: array<T>, pred: T -> bool, first: int, last: int) returns (l: int)
    requires 0 <= first < last <= a.Length
    ensures first <= l < last
    ensures forall i :: l < i < last ==> !pred(a[i])
    ensures first < l ==> pred(a[l])
  {
    l := last;
    while true
      invariant first < l <= last
      invariant forall i :: l <= i < last ==> !pred(a[i])
      decreases l - first
    {
      l := l - 1;
      if first == l {
        return;
      }
      if pred(a[l]) {
        return;
      }
    }
  }

  /** Exchanges two elements of `a`. */
  method Swap<T>(a: array<T>, i: int, j: int)
    requires 0 <= i < a.Length && 0 <= j < a.Length
    modifies a
    ensures a[i] == old(a[j]) && a[j] == old(a[i])
    ensures forall k :: 0 <= k < a.Length && k != i && k != j ==> a[k] == old(a[k])
    ensures multiset(a[..]) == multiset(old(a[..]))
  {
    a[i], a[j] := a[j], a[i];
  }

  /** Counting distributes over concatenation. */
  lemma {:induction false} CountAppend<T>(s: seq<T>, t: seq<T>, pred: T -> bool)
    ensures CountWhere(s + t, pred) == CountWhere(s, pred) + CountWhere(t, pred)
  {
    if s == [] {
      assert s + t == t;
    } else {
      assert (s + t)[1..] == s[1..] + t;
      CountAppend(s[1..], t, pred);
    }
  }

  /** Two arrangements of the same elements have the same count. */
  lemma {:induction false} CountPermutation<T>(s: seq<T>, t: seq<T>, pred: T -> bool)
    requires multiset(s) == multiset(t)
    ensures CountWhere(s, pred) == CountWhere(t, pred)
    decreases |s|
  {
    if s == [] {
      assert |t| == |multiset(t)| == 0;
    } else {
      assert s[0] in multiset(t);
      var i :| 0 <= i < |t| && t[i] == s[0];
      var rest := t[..i] + t[i + 1..];
      assert t == t[..i] + [t[i]] + t[i + 1..];
      assert s == [s[0]] + s[1..];
      assert multiset(t) == multiset(t[..i]) + multiset{s[0]} + multiset(t[i + 1..]);
      assert multiset(rest) == multiset(t[..i]) + multiset(t[i + 1..]);
      assert multiset(rest) == multiset(t) - multiset{s[0]};
      assert multiset(s) == multiset{s[0]} + multiset(s[1..]);
      assert multiset(s[1..]) == multiset(s) - multiset{s[0]};
      CountPermutation(s[1..], rest, pred);
      CountAppend(t[..i], t[i + 1..], pred);
      CountAppend(t[..i] + [t[i]], t[i + 1..], pred);
      CountAppend(t[..i], [t[i]], pred);
      assert [s[0]] + s[1..] == s;
      CountAppend([s[0]], s[1..], pred);
    }
  }

  /** A sequence partitioned at `k` has exactly `k` elements satisfying the predicate. */
  lemma {:induction false} PartitionedCount<T>(s: seq<T>, pred: T -> bool, k: int)
    requires PartitionedAt(s, pred, k)
    ensures CountWhere(s, pred) == k
  {
    if s != [] {
      if k == 0 {
        assert PartitionedAt(s[1..], pred, 0);
        PartitionedCount(s[1..], pred, 0);
      } else {
        assert PartitionedAt(s[1..], pred, k - 1);
        PartitionedCount(s[1..], pred, k - 1);
      }
    }
  }

  /**
   * The index returned by any partition of `original` is the number of its
   * elements that satisfy the predicate, whatever order they end up in.
   */
  lemma PartitionIndexIsCount<T>(s: seq<T>, original: seq<T>, pred: T -> bool, k: int)
    requires PartitionedAt(s, pred, k)
    requires multiset(s) == multiset(original)
    ensures k == CountWhere(original, pred)
  {
    PartitionedCount(s, pred, k);
    CountPermutation(s, original, pred);
  }

  /** The digits 0 to 8, in order. */
  const Digits: seq<int> := seq(9, j => j)

  predicate IsEven(j: int) { j % 2 == 0 }
  predicate IsThree(j: int) { j == 3 }
  predicate IsTen(j: int) { j == 10 }

  /** Five of the digits are even. */
  lemma EvenDigits()
    ensures CountWhere(Digits, IsEven) == 5
  {
    var i := 9;
    while i > 0
      invariant 0 <= i <= 9
      invariant CountWhere(Digits[i..], IsEven) == (10 - i) / 2
    {
      i := i - 1;
      assert Digits[i..][1..] == Digits[i + 1..];
    }
    assert Digits[0..] == Digits;
  }

  /** One of the digits is 3. */
  lemma ThreeDigits()
    ensures CountWhere(Digits, IsThree) == 1
  {
    var i := 9;
    while i > 0
      invariant 0 <= i <= 9
      invariant CountWhere(Digits[i..], IsThree) == (if i <= 3 then 1 else 0)
    {
      i := i - 1;
      assert Digits[i..][1..] == Digits[i + 1..];
    }
    assert Digits[0..] == Digits;
  }

  /** None of the digits is 10. */
  lemma TenDigits()
    ensures CountWhere(Digits, IsTen) == 0
  {
    var i := 9;
    while i > 0
      invariant 0 <= i <= 9
      invariant CountWhere(Digits[i..], IsTen) == 0
    {
      i := i - 1;
      assert Digits[i..][1..] == Digits[i + 1..];
    }
    assert Digits[0..] == Digits;
  }

  /** Partitions a fresh array holding the digits 0 to 8. */
  method PartitionDigits(pred: int -> bool) returns (k: int)
    ensures k == CountWhere(Digits, pred)
  {
    var values := new int[] [0, 1, 2, 3, 4, 5, 6, 7, 8];
    assert values[..] == Digits;
    k := Partition(values, pred);
  }

  /** The three cases the repository checks its partition against. */
  method TestPartition() returns (evens: int, threes: int, tens: int)
    ensures evens == 5
    ensures threes == 1
    ensures tens == 0
  {
    EvenDigits();
    ThreeDigits();
    TenDigits();
    evens := PartitionDigits(IsEven);
    threes := PartitionDigits(IsThree);
    tens := PartitionDigits(IsTen);
  }
}
