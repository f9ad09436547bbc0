/** `filter(predicate, collection)` (my-js/utils/filter.js): the elements of
    an array that satisfy a predicate, in order. Without a collection the call
    returns a function that filters the collection it is later given. */
module Filter {
  import opened Wrappers

  /** The elements of `s` that satisfy `keep`, in their original order. */
  function Filtered<T>(keep: T -> bool, s: seq<T>): (r: seq<T>)
    ensures |r| <= |s|
  {
    if s == [] then []
    else
      var last := s[|s| - 1];
      Filtered(keep, s[..|s| - 1]) + (if keep(last) then [last] else [])
  }

  /** The outcome of `filter`: the filtered array, or the curried function
      that still waits for its collection. */
  datatype Filtering<!T> = Done(result: seq<T>) | Curried(keep: T -> bool)

  /** The loop both forms run: push every element the predicate accepts. The
      collection is only read. */
  method FilterLoop<T>(keep: T -> bool, collection: array<T>) returns (ret: seq<T>)
    ensures ret == Filtered(keep, collection[..])
  {
    ret := [];
    var i := 0;
    while i < collection.Length
      invariant 0 <= i <= collection.Length
      invariant ret == Filtered(keep, collection[..i])
    {
      assert collection[..i + 1][..i] == collection[..i];
      if keep(collection[i]) {
        ret := ret + [collection[i]];
      }
      i := i + 1;
    }
    assert collection[..collection.Length] == collection[..];
  }

  /** `filter(predicate, collection)`; a missing collection (`undefined`)
      gives the curried form. */
  method Filter<T>(keep: T -> bool, collection: Option<array<T>>) returns (r: Filtering<T>)
    ensures collection.None? ==> r == Curried(keep)
    ensures collection.Some? ==> r == Done(Filtered(keep, collection.value[..]))
  {
    if collection.None? {
      return Curried(keep);
    }
    var ret := FilterLoop(keep, collection.value);
    return Done(ret);
  }

  /** Calling the function the curried form returned: the same result as
      the two-argument call on that collection. */
  method ApplyCurried<T>(f: Filtering<T>, collection: array<T>) returns (ret: seq<T>)
    requires f.Curried?
    ensures ret == Filtered(f.keep, collection[..])
  {
    ret := FilterLoop(f.keep, collection);
  }

  // ---------------------------------------------------------------- properties

  /** Filtering a concatenation filters each part, in order. */
  lemma {:induction false} FilteredAppend<T>(keep: T -> bool, s: seq<T>, t: seq<T>)
    ensures Filtered(keep, s + t) == Filtered(keep, s) + Filtered(keep, t)
    decreases |t|
  {
    if t != [] {
      var u := t[..|t| - 1];
      assert (s + t)[..|s + t| - 1] == s + u;
      assert (s + t)[|s + t| - 1] == t[|t| - 1];
      FilteredAppend(keep, s, u);
    } else {
      assert s + t == s;
    }
  }

  /** An element is in the result exactly when it is in the input and
      satisfies the predicate. */
  lemma {:induction false} FilteredMembers<T>(keep: T -> bool, s: seq<T>, x: T)
    ensures x in Filtered(keep, s) <==> x in s && keep(x)
    decreases |s|
  {
    if s != [] {
      var init := s[..|s| - 1];
      FilteredMembers(keep, init, x);
      assert s == init + [s[|s| - 1]];
      assert x in s <==> x in init || x == s[|s| - 1];
    }
  }

  /** Each value occurs in the result as often as in the input if it satisfies
      the predicate, and not at all otherwise. */
  lemma {:induction false} FilteredCounts<T>(keep: T -> bool, s: seq<T>, x: T)
    ensures multiset(Filtered(keep, s))[x] == if keep(x) then multiset(s)[x] else 0
    decreases |s|
  {
    if s != [] {
      var init := s[..|s| - 1];
      FilteredCounts(keep, init, x);
      assert s == init + [s[|s| - 1]];
    }
  }

  /** Filtering twice with the same predicate changes nothing more. */
  lemma {:induction false} FilteredIdempotent<T>(keep: T -> bool, s: seq<T>)
    ensures Filtered(keep, Filtered(keep, s)) == Filtered(keep, s)
    decreases |s|
  {
    if s != [] {
      var init := s[..|s| - 1];
      var last := s[|s| - 1];
      FilteredIdempotent(keep, init);
      var tail := if keep(last) then [last] else [];
      FilteredAppend(keep, Filtered(keep, init), tail);
      if keep(last) {
        assert [last][..0] == [];
        assert Filtered(keep, [last]) == Filtered(keep, []) + [last];
      }
    }
  }
}
