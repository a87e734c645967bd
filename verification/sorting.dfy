/** The two library sorts: `sort.Slice` with a strict weak order (not stable), and `sort.Float64s`. */
module Sorting {

  ghost predicate StrictWeakOrder<T(!new)>(less: (T, T) -> bool) {
    && (forall x :: !less(x, x))
    && (forall x, y, z :: less(x, y) && less(y, z) ==> less(x, z))
    && (forall x, y, z :: less(x, z) ==> less(x, y) || less(y, z))
  }

  ghost predicate SortedBy<T>(s: seq<T>, less: (T, T) -> bool) {
    forall i, j :: 0 <= i < j < |s| ==> !less(s[j], s[i])
  }

  /** All that is promised is some sorted permutation. */
  method SortSlice<T(!new)>(xs: seq<T>, less: (T, T) -> bool) returns (out: seq<T>)
    requires StrictWeakOrder(less)
    ensures multiset(out) == multiset(xs) && SortedBy(out, less)
  {
    out := [];
    for i := 0 to |xs|
      invariant multiset(out) == multiset(xs[..i])
      invariant SortedBy(out, less)
    {
      out := InsertInto(out, xs[i], less);
      assert xs[..i + 1] == xs[..i] + [xs[i]];
    }
    assert xs[..|xs|] == xs;
  }

  method InsertInto<T(!new)>(s: seq<T>, x: T, less: (T, T) -> bool) returns (out: seq<T>)
    requires StrictWeakOrder(less) && SortedBy(s, less)
    ensures multiset(out) == multiset(s) + multiset{x} && SortedBy(out, less)
  {
    var j := 0;
    while j < |s| && !less(x, s[j])
      invariant 0 <= j <= |s|
      invariant forall t :: 0 <= t < j ==> !less(x, s[t])
    {
      j := j + 1;
    }
    out := s[..j] + [x] + s[j..];
    assert s == s[..j] + s[j..];
    InsertSorted(s, x, j, less);
  }

  lemma InsertSorted<T(!new)>(s: seq<T>, x: T, j: nat, less: (T, T) -> bool)
    requires StrictWeakOrder(less) && SortedBy(s, less) && j <= |s|
    requires forall t :: 0 <= t < j ==> !less(x, s[t])
    requires j < |s| ==> less(x, s[j])
    ensures SortedBy(s[..j] + [x] + s[j..], less)
  {
    var out := s[..j] + [x] + s[j..];
    forall a, b | 0 <= a < b < |out| ensures !less(out[b], out[a]) {
      if a == j {
        assert less(x, s[b - 1]);
      } else if b != j {
        var a', b' := if a < j then a else a - 1, if b < j then b else b - 1;
        assert out[a] == s[a'] && out[b] == s[b'];
      }
    }
  }

  ghost predicate Ascending(s: seq<real>) {
    forall i, j :: 0 <= i < j < |s| ==> s[i] <= s[j]
  }

  function SortReals(s: seq<real>): seq<real> {
    if s == [] then [] else Insert(SortReals(s[..|s| - 1]), s[|s| - 1])
  }

  function Insert(s: seq<real>, x: real): seq<real> {
    if s == [] then [x]
    else if s[|s| - 1] <= x then s + [x]
    else Insert(s[..|s| - 1], x) + [s[|s| - 1]]
  }

  lemma {:induction false} InsertAscending(s: seq<real>, x: real)
    requires Ascending(s)
    ensures Ascending(Insert(s, x)) && |Insert(s, x)| == |s| + 1
    ensures s != [] ==> Insert(s, x)[|s|] == if x < s[|s| - 1] then s[|s| - 1] else x
  {
    if s != [] && x < s[|s| - 1] {
      InsertAscending(s[..|s| - 1], x);
    }
  }

  lemma {:induction false} InsertPermutes(s: seq<real>, x: real)
    ensures multiset(Insert(s, x)) == multiset(s) + multiset{x}
  {
    if s != [] {
      assert s == s[..|s| - 1] + [s[|s| - 1]];
      if x < s[|s| - 1] {
        InsertPermutes(s[..|s| - 1], x);
      }
    }
  }

  lemma {:induction false} SortRealsAscending(s: seq<real>)
    ensures Ascending(SortReals(s)) && |SortReals(s)| == |s|
  {
    if s != [] {
      SortRealsAscending(s[..|s| - 1]);
      InsertAscending(SortReals(s[..|s| - 1]), s[|s| - 1]);
    }
  }

  lemma {:induction false} SortRealsPermutes(s: seq<real>)
    ensures multiset(SortReals(s)) == multiset(s)
  {
    if s != [] {
      SortRealsPermutes(s[..|s| - 1]);
      InsertPermutes(SortReals(s[..|s| - 1]), s[|s| - 1]);
      assert s == s[..|s| - 1] + [s[|s| - 1]];
    }
  }

  // ----- counting

  function CountUpTo(s: seq<real>, x: real): nat {
    if s == [] then 0 else CountUpTo(s[..|s| - 1], x) + if s[|s| - 1] <= x then 1 else 0
  }

  lemma {:induction false} CountConcat(s: seq<real>, t: seq<real>, x: real)
    ensures CountUpTo(s + t, x) == CountUpTo(s, x) + CountUpTo(t, x)
    decreases |t|
  {
    if t == [] {
      assert s + t == s;
    } else {
      var last := |t| - 1;
      assert (s + t)[..|s| + last] == s + t[..last];
      CountConcat(s, t[..last], x);
    }
  }

  /** Taking one element out of the middle. */
  lemma CountWithout(t: seq<real>, j: nat, x: real)
    requires j < |t|
    ensures CountUpTo(t, x) == CountUpTo(t[..j] + t[j + 1..], x) + if t[j] <= x then 1 else 0
  {
    assert t == t[..j] + ([t[j]] + t[j + 1..]);
    CountConcat(t[..j], [t[j]] + t[j + 1..], x);
    CountConcat([t[j]], t[j + 1..], x);
    CountConcat(t[..j], t[j + 1..], x);
    assert [t[j]][..0] == [];
  }

  lemma MultisetWithout(t: seq<real>, j: nat)
    requires j < |t|
    ensures multiset(t[..j] + t[j + 1..]) == multiset(t) - multiset{t[j]}
  {
    assert t == t[..j] + ([t[j]] + t[j + 1..]);
  }

  /** How many elements are at most x depends on the elements only. */
  lemma {:induction false} CountPermutation(s: seq<real>, t: seq<real>, x: real)
    requires multiset(s) == multiset(t)
    ensures CountUpTo(s, x) == CountUpTo(t, x)
    decreases |s|
  {
    if s == [] {
      assert |multiset(t)| == |multiset(s)| == 0;
    } else {
      var last := |s| - 1;
      assert s[last] in multiset(t);
      var j :| 0 <= j < |t| && t[j] == s[last];
      MultisetWithout(t, j);
      MultisetWithout(s, last);
      assert s[..last] + s[last + 1..] == s[..last];
      CountPermutation(s[..last], t[..j] + t[j + 1..], x);
      CountWithout(t, j, x);
    }
  }

  /** In a sorted sequence, more than k elements are at most x exactly when the k-th is. */
  lemma {:induction false} CountSorted(s: seq<real>, k: nat, x: real)
    requires k < |s| && Ascending(s)
    ensures CountUpTo(s, x) > k <==> s[k] <= x
    decreases |s|
  {
    var last := |s| - 1;
    if k < last {
      CountSorted(s[..last], k, x);
    } else {
      CountBound(s[..last], x);
      if s[last] <= x {
        CountAll(s[..last], x);
      }
    }
  }

  lemma {:induction false} CountBound(s: seq<real>, x: real)
    ensures CountUpTo(s, x) <= |s|
  {
    if s != [] {
      CountBound(s[..|s| - 1], x);
    }
  }

  lemma {:induction false} CountAll(s: seq<real>, x: real)
    requires forall i :: 0 <= i < |s| ==> s[i] <= x
    ensures CountUpTo(s, x) == |s|
  {
    if s != [] {
      CountAll(s[..|s| - 1], x);
    }
  }
}
