/**
 * The debugger's mirror of one GL object namespace: an ordered map from names to objects, beside a
 * fixed array that caches the objects of the first hundred names.
 */
module ObjectNamespace {
  import opened Wrappers

  const FAST_LOOKUP_SIZE: nat := 100

  class ObjectNS<T> {
    var objects: map<nat, T>
    const fast: array<Option<T>>

    /** Every cache slot holds the map's object of that name, or null exactly when there is none. */
    ghost predicate Valid()
      reads this, fast
    {
      && fast.Length == FAST_LOOKUP_SIZE
      && forall n | 0 <= n < FAST_LOOKUP_SIZE :: fast[n] == Lookup(objects, n)
    }

    constructor ()
      ensures Valid() && fresh(fast)
      ensures objects == map[]
    {
      objects := map[];
      fast := new Option<T>[FAST_LOOKUP_SIZE](_ => None);
    }

    /** Reads the cache for small names and the map for the rest; the answer is always the map's. */
    method GetObject(name: nat) returns (r: Option<T>)
      requires Valid()
      ensures r == Lookup(objects, name)
    {
      if name < FAST_LOOKUP_SIZE {
        return fast[name];
      }
      r := if name in objects then Some(objects[name]) else None;
    }

    /** `candidate` is the object the source constructs when the name is absent. */
    method GetOrCreateObject(name: nat, candidate: T) returns (ret: T)
      requires Valid()
      modifies this`objects, fast
      ensures Valid()
      ensures objects == if name in old(objects) then old(objects) else old(objects)[name := candidate]
      ensures ret == objects[name]
    {
      var found := GetObject(name);
      if found.None? {
        objects := objects[name := candidate];
        ret := candidate;
        if name < FAST_LOOKUP_SIZE {
          fast[name] := Some(ret);
        }
      } else {
        ret := found.value;
      }
    }

    /** The object itself changes in place; the map and the cache both lead to it. */
    method Update(name: nat, object': T)
      requires Valid() && name in objects
      modifies this`objects, fast
      ensures Valid()
      ensures objects == old(objects)[name := object']
    {
      objects := objects[name := object'];
      if name < FAST_LOOKUP_SIZE {
        fast[name] := Some(object');
      }
    }

    /** Unlinks the object and hands it back, so that its owner can run its destructor. */
    method DeleteObject(name: nat) returns (erased: Option<T>)
      requires Valid()
      modifies this`objects, fast
      ensures Valid()
      ensures objects == old(objects) - {name}
      ensures erased == Lookup(old(objects), name)
    {
      if name < FAST_LOOKUP_SIZE {
        fast[name] := None;
      }
      erased := None;
      if name in objects {
        erased := Some(objects[name]);
        objects := objects - {name};
      }
    }

    method Clear()
      requires fast.Length == FAST_LOOKUP_SIZE
      modifies this`objects, fast
      ensures Valid()
      ensures objects == map[]
    {
      for i := 0 to FAST_LOOKUP_SIZE
        invariant forall n | 0 <= n < i :: fast[n] == None
      {
        fast[i] := None;
      }
      objects := map[];
    }
  }
}
