/** Python's `sorted`/`list.sort`: a stable sort by a strict order on keys.
    Modelled as insertion from the right, which keeps equal keys in input order. */
module Sorting {

  /** `less` is what comparing keys with `<` gives: asymmetric, and "not greater"
      is transitive. */
  ghost predicate KeyOrder<T(!new)>(less: (T, T) -> bool) {
    && (forall a, b :: less(a, b) ==> !less(b, a))
    && (forall a, b, c :: !less(b, a) && !less(c, b) ==> !less(c, a))
  }

  ghost predicate Sorted<T>(s: seq<T>, less: (T, T) -> bool) {
    forall i, j :: 0 <= i < j < |s| ==> !less(s[j], s[i])
  }

  function Insert<T>(x: T, s: seq<T>, less: (T, T) -> bool): seq<T> {
    if s == [] || !less(s[0], x) then [x] + s
    else [s[0]] + Insert(x, s[1..], less)
  }

  function Sort<T>(s: seq<T>, less: (T, T) -> bool): seq<T> {
    if s == [] then [] else Insert(s[0], Sort(s[1..], less), less)
  }

  /** The elements of `s` whose key ties with that of `x`, in the order of `s`. */
  ghost function Ties<T>(s: seq<T>, x: T, less: (T, T) -> bool): seq<T> {
    if s == [] then []
    else (if !less(s[0], x) && !less(x, s[0]) then [s[0]] else []) + Ties(s[1..], x, less)
  }

  lemma {:induction false} InsertIsPermutation<T>(x: T, s: seq<T>, less: (T, T) -> bool)
    ensures multiset(Insert(x, s, less)) == multiset([x] + s)
  {
    if s == [] || !less(s[0], x) {
    } else {
      InsertIsPermutation(x, s[1..], less);
      assert s == [s[0]] + s[1..];
    }
  }

  /** A sort is a permutation of its input. */
  lemma {:induction false} SortIsPermutation<T>(s: seq<T>, less: (T, T) -> bool)
    ensures multiset(Sort(s, less)) == multiset(s)
    ensures |Sort(s, less)| == |s|
    ensures forall x :: x in Sort(s, less) <==> x in s
  {
    if s == [] {
    } else {
      SortIsPermutation(s[1..], less);
      InsertIsPermutation(s[0], Sort(s[1..], less), less);
      assert s == [s[0]] + s[1..];
    }
    assert |Sort(s, less)| == |multiset(Sort(s, less))| == |multiset(s)| == |s|;
    forall x ensures x in Sort(s, less) <==> x in s {
      assert x in Sort(s, less) <==> x in multiset(Sort(s, less));
      assert x in s <==> x in multiset(s);
    }
  }

  lemma {:induction false} InsertKeepsSorted<T(!new)>(x: T, s: seq<T>, less: (T, T) -> bool)
    requires KeyOrder(less) && Sorted(s, less)
    ensures Sorted(Insert(x, s, less), less)
  {
    if s == [] {
    } else if !less(s[0], x) {
      forall j | 0 <= j < |s| ensures !less(s[j], x) {
        assert j > 0 ==> !less(s[j], s[0]);
      }
    } else {
      var rest := Insert(x, s[1..], less);
      InsertKeepsSorted(x, s[1..], less);
      InsertIsPermutation(x, s[1..], less);
      forall j | 0 <= j < |rest| ensures !less(rest[j], s[0]) {
        assert rest[j] in multiset(rest);
        assert rest[j] in [x] + s[1..];
      }
    }
  }

  lemma {:induction false} SortIsSorted<T(!new)>(s: seq<T>, less: (T, T) -> bool)
    requires KeyOrder(less)
    ensures Sorted(Sort(s, less), less)
  {
    if s == [] {
    } else {
      SortIsSorted(s[1..], less);
      InsertKeepsSorted(s[0], Sort(s[1..], less), less);
    }
  }

  lemma {:induction false} InsertKeepsTies<T(!new)>(y: T, s: seq<T>, x: T, less: (T, T) -> bool)
    requires KeyOrder(less)
    ensures Ties(Insert(y, s, less), x, less) == Ties([y] + s, x, less)
  {
    assert ([y] + s)[1..] == s;
    if s == [] || !less(s[0], y) {
    } else {
      var rest := Insert(y, s[1..], less);
      InsertKeepsTies(y, s[1..], x, less);
      assert ([y] + s[1..])[1..] == s[1..];
      assert ([s[0]] + rest)[1..] == rest;
      // `s[0]` is strictly before `y`, so at most one of them ties with `x`.
      assert less(s[0], y);
      assert !(!less(s[0], x) && !less(x, s[0]) && !less(y, x) && !less(x, y));
    }
  }

  /** Rows whose keys tie keep the order they arrived in. */
  lemma {:induction false} SortIsStable<T(!new)>(s: seq<T>, x: T, less: (T, T) -> bool)
    requires KeyOrder(less)
    ensures Ties(Sort(s, less), x, less) == Ties(s, x, less)
  {
    if s == [] {
    } else {
      SortIsStable(s[1..], x, less);
      InsertKeepsTies(s[0], Sort(s[1..], less), x, less);
      assert ([s[0]] + Sort(s[1..], less))[1..] == Sort(s[1..], less);
    }
  }
}
