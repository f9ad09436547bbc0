/** `map(transform, collection)` (my-js/utils/map.js): the transformed
    elements of an array, in order. Without a collection the call returns a
    function that maps the collection it is later given. */
module Map {
  import opened Wrappers

  /** `transform` applied to every element of `s`, in order. */
  function Mapped<T, U>(transform: T -> U, s: seq<T>): (r: seq<U>)
    ensures |r| == |s|
    ensures forall i :: 0 <= i < |s| ==> r[i] == transform(s[i])
  {
    if s == [] then [] else Mapped(transform, s[..|s| - 1]) + [transform(s[|s| - 1])]
  }

  /** The outcome of `map`: the mapped array, or the curried function that
      still waits for its collection. */
  datatype Mapping<!T, U> = Done(result: seq<U>) | Curried(transform: T -> U)

  /** The loop both forms run: push the transform of every element. The
      collection is only read. */
  method MapLoop<T, U>(transform: T -> U, collection: array<T>) returns (result: seq<U>)
    ensures result == Mapped(transform, collection[..])
  {
    result := [];
    var i := 0;
    while i < collection.Length
      invariant 0 <= i <= collection.Length
      invariant |result| == i
      invariant forall k :: 0 <= k < i ==> result[k] == transform(collection[k])
    {
      result := result + [transform(collection[i])];
      i := i + 1;
    }
  }

  /** `map(transform, collection)`; a missing collection (`undefined`) gives
      the curried form. */
  method Map<T, U>(transform: T -> U, collection: Option<array<T>>) returns (r: Mapping<T, U>)
    ensures collection.None? ==> r == Curried(transform)
    ensures collection.Some? ==> r == Done(Mapped(transform, collection.value[..]))
  {
    if collection.None? {
      return Curried(transform);
    }
    var result := MapLoop(transform, collection.value);
    return Done(result);
  }

  /** Calling the function the curried form returned: the same result as the
      two-argument call on that collection. */
  method ApplyCurried<T, U>(f: Mapping<T, U>, collection: array<T>) returns (result: seq<U>)
    requires f.Curried?
    ensures result == Mapped(f.transform, collection[..])
  {
    result := MapLoop(f.transform, collection);
  }

  // ---------------------------------------------------------------- properties

  /** Mapping a concatenation maps each part, in order. */
  lemma MappedAppend<T, U>(transform: T -> U, s: seq<T>, t: seq<T>)
    ensures Mapped(transform, s + t) == Mapped(transform, s) + Mapped(transform, t)
  {
  }

  /** Mapping twice is mapping once with the composed transform. */
  lemma MappedCompose<T, U, V>(f: T -> U, g: U -> V, s: seq<T>)
    ensures Mapped(g, Mapped(f, s)) == Mapped(x => g(f(x)), s)
  {
  }
}
