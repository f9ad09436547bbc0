/** The environment (my-js/env.js): a chain of frames, each holding a mutable
    dictionary from names to values and a fixed link to its outer frame.
    A name bound to JavaScript's `undefined` is bound to `None`. */
module Environment {
  import opened Wrappers

  /** Ramda's `zipObj`: the first `min(|keys|, |values|)` names paired with
      the values at the same index; a later occurrence of a name overrides an
      earlier one. */
  function ZipObj<V>(keys: seq<string>, values: seq<Option<V>>): (m: map<string, Option<V>>)
    ensures forall i :: 0 <= i < |keys| && i < |values| ==> keys[i] in m
    ensures forall k :: k in m ==> exists i :: 0 <= i < |keys| && i < |values| && keys[i] == k && m[k] == values[i]
    ensures forall i :: 0 <= i < |keys| && i < |values| && LastOccurrence(keys, i, |values|) ==> m[keys[i]] == values[i]
    decreases |keys|
  {
    if |keys| == 0 || |values| == 0 then map[]
    else
      var n := if |keys| < |values| then |keys| else |values|;
      var m := ZipObj(keys[..n - 1], values[..n - 1]);
      assert forall i :: 0 <= i < n - 1 ==> keys[..n - 1][i] == keys[i];
      m[keys[n - 1] := values[n - 1]]
  }

  /** No later index below `bound` holds the same name as index `i`. */
  predicate LastOccurrence(keys: seq<string>, i: nat, bound: nat)
    requires i < |keys|
  {
    forall j :: i < j < |keys| && j < bound ==> keys[j] != keys[i]
  }

  /** The local bindings of a new frame: none without names, every name bound
      to `undefined` without values, and the zipped pairs otherwise. */
  function InitialData<V>(binds: Option<seq<string>>, exprs: Option<seq<V>>): (d: map<string, Option<V>>)
    ensures binds.None? ==> d == map[]
    ensures binds.Some? ==> forall k :: k in d ==> k in binds.value
  {
    match binds
    case None => map[]
    case Some(names) =>
      match exprs
      case None => ZipObj(names, seq(|names|, _ => None))
      case Some(values) => ZipObj(names, seq(|values|, i requires 0 <= i < |values| => Some(values[i])))
  }

  class Env<V> {
    var data: map<string, Option<V>>
    const outer: Env?<V>
    /** The length of the chain of outer frames; it makes the chain finite. */
    ghost const depth: nat

    ghost predicate Valid()
      decreases depth
    {
      outer != null ==> outer.depth < depth && outer.Valid()
    }

    /** This frame and all its outer frames. */
    ghost function Frames(): set<Env<V>>
      requires Valid()
      decreases depth
    {
      {this} + if outer == null then {} else outer.Frames()
    }

    /** All names visible from this frame: the outer chain's bindings,
        overridden by this frame's own. */
    ghost function Bindings(): map<string, Option<V>>
      requires Valid()
      reads Frames()
      decreases depth
    {
      if outer == null then data else outer.Bindings() + data
    }

    /** `env(outer, binds, exprs)`. */
    constructor (outer: Env?<V>, binds: Option<seq<string>>, exprs: Option<seq<V>>)
      requires outer != null ==> outer.Valid()
      ensures this.outer == outer && Valid()
      ensures data == InitialData(binds, exprs)
    {
      this.outer := outer;
      depth := if outer == null then 0 else outer.depth + 1;
      data := InitialData(binds, exprs);
    }

    lemma FramesBelow()
      requires Valid()
      ensures forall f :: f in Frames() ==> f.depth <= depth
      ensures outer != null ==> this !in outer.Frames()
      decreases depth
    {
      if outer != null {
        outer.FramesBelow();
      }
    }

    /** The nearest frame of the chain that binds `key`, or null. */
    function Find(key: string): (r: Env?<V>)
      requires Valid()
      reads Frames()
      ensures r != null ==> r in Frames() && key in r.data
      ensures r == null <==> key !in Bindings()
      ensures r != null ==> Bindings()[key] == r.data[key]
      ensures key in data ==> r == this
      ensures r != null ==> forall f :: f in Frames() && f.depth > r.depth ==> key !in f.data
      decreases depth
    {
      if key in data then FramesBelow(); this
      else if outer != null then outer.Find(key)
      else null
    }

    /** The value bound to `key` by the nearest frame, or the "not found"
        error. */
    function Get(key: string): (r: Result<Option<V>>)
      requires Valid()
      reads Frames()
      ensures key in Bindings() ==> r == Ok(Bindings()[key])
      ensures key !in Bindings() ==> r == Err("symbol " + key + " not found")
    {
      var holder := Find(key);
      if holder != null then Ok(holder.data[key]) else Err("symbol " + key + " not found")
    }

    /** Bind `key` in this frame only. */
    method Set(key: string, value: Option<V>)
      requires Valid()
      modifies this
      ensures data == old(data)[key := value]
      ensures Valid()
      ensures Bindings() == old(Bindings())[key := value]
      ensures outer != null ==> outer.Bindings() == old(outer.Bindings())
    {
      FramesBelow();
      data := data[key := value];
    }
  }

  /** A new frame with the same outer frame as `src`, whose local bindings are
      those of `src` overlaid by `extra`; `src` itself is left as it was. */
  method CopyExtendEnv<V>(src: Env<V>, extra: map<string, Option<V>>) returns (e: Env<V>)
    requires src.Valid()
    ensures fresh(e) && e.Valid() && e.outer == src.outer
    ensures e.data == src.data + extra
    ensures unchanged(src)
  {
    e := new Env(src.outer, None, None);
    var newBindings := src.data + extra;
    var keys := newBindings.Keys;
    while keys != {}
      invariant keys <= newBindings.Keys
      invariant e.Valid() && e.outer == src.outer
      invariant e.data == map k | k in newBindings.Keys - keys :: newBindings[k]
      decreases keys
    {
      var k :| k in keys;
      e.Set(k, newBindings[k]);
      keys := keys - {k};
    }
    assert e.data == newBindings;
  }

  /** Values and names zipped index by index: each name bound at its last
      index below the shorter length gets the value at that index. */
  lemma InitialBindingsZip<V>(names: seq<string>, values: seq<V>, i: nat)
    requires i < |names| && i < |values| && LastOccurrence(names, i, |values|)
    ensures names[i] in InitialData(Some(names), Some(values))
    ensures InitialData(Some(names), Some(values))[names[i]] == Some(values[i])
  {
  }

  /** Names without values are bound, all of them to `undefined`, and nothing
      else is bound. */
  lemma InitialBindingsUndefined<V>(names: seq<string>, key: string)
    ensures key in InitialData<V>(Some(names), None) <==> key in names
    ensures key in names ==> InitialData<V>(Some(names), None)[key] == None
  {
    var d := InitialData<V>(Some(names), None);
    if key in d {
      var i :| 0 <= i < |names| && names[i] == key;
    }
  }
}
