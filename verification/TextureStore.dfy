/**
 * The texture part of the shadow store: unit tables changed in place, and the handlers of texture calls.
 */
module TextureStore {
  import opened ObjectNamespace
  import opened TextureModel

  method BindUnit(bound: Unit, target: Target, name: Name) returns (after: Unit)
    ensures after == UnitBound(bound, target, name)
  {
    after := bound;
    if name != 0 {
      after := after[target := name];
    } else if target in after {
      after := after - {target};
    }
  }

  /** Erases while it iterates: the next entry is looked up before the current one may go. */
  method UnbindUnit(bound: Unit, name: Name) returns (after: Unit)
    ensures after == Without(bound, {name})
  {
    after := bound;
    var todo := after.Keys;
    while todo != {}
      invariant todo <= after.Keys <= bound.Keys
      invariant forall t | t in bound :: t in after <==> t in todo || bound[t] != name
      invariant forall t | t in after :: after[t] == bound[t]
      decreases todo
    {
      var i :| i in todo;
      todo := todo - {i};
      if after[i] == name {
        after := BindUnit(after, i, 0);
      }
    }
  }

  class AllTextureUnits {
    var units: Units

    constructor (numUnits: nat)
      ensures units == Grown([], numUnits)
    {
      units := Grown([], numUnits);
    }

    method BindTexture(activeUnit: nat, target: Target, name: Name)
      modifies this
      ensures units == UnitsBound(old(units), activeUnit, target, name)
    {
      if activeUnit >= |units| {
        units := Grown(units, activeUnit + 1);
      }
      var unit := BindUnit(units[activeUnit], target, name);
      units := units[activeUnit := unit];
    }

    method UnbindTexture(name: Name)
      modifies this
      ensures units == UnitsWithout(old(units), {name})
    {
      var i := 0;
      while i < |units|
        invariant i <= |units| == |old(units)|
        invariant forall k | 0 <= k < i :: units[k] == Without(old(units)[k], {name})
        invariant forall k | i <= k < |units| :: units[k] == old(units)[k]
      {
        var unit := UnbindUnit(units[i], name);
        units := units[i := unit];
        i := i + 1;
      }
    }
  }

  lemma WithoutOneMore(units: Units, gone: set<Name>, name: Name)
    ensures UnitsWithout(UnitsWithout(units, gone), {name}) == UnitsWithout(units, gone + {name})
  {
    forall i | 0 <= i < |units|
      ensures Without(Without(units[i], gone), {name}) == Without(units[i], gone + {name})
    {
    }
  }

  lemma WithoutNone(units: Units)
    ensures UnitsWithout(units, {}) == units
  {
    forall i | 0 <= i < |units| ensures Without(units[i], {}) == units[i] {}
  }

  /** The texture handlers of one context, with the namespace and the units that are its own. */
  class TextureAction {
    const textures: ObjectNS<Target>
    const texUnits: AllTextureUnits

    ghost predicate Valid()
      reads textures, textures.fast
    {
      textures.Valid()
    }

    ghost function Footprint(): set<object> {
      {textures, textures.fast, texUnits}
    }

    ghost function Contents(): Textures
      reads textures, texUnits
    {
      Textures(textures.objects, texUnits.units)
    }

    constructor (numUnits: nat)
      ensures Valid() && fresh(Footprint()) && Contents() == Run(numUnits, [])
    {
      textures := new ObjectNS<Target>();
      texUnits := new AllTextureUnits(numUnits);
    }

    method GenTextures(names: seq<Name>)
      requires Valid()
      modifies textures`objects, textures.fast
      ensures Valid() && textures.objects == Generated(old(textures.objects), names)
    {
      var i := 0;
      while i < |names|
        invariant Valid() && i <= |names|
        invariant textures.objects == Generated(old(textures.objects), names[..i])
      {
        var _ := textures.GetOrCreateObject(names[i], 0);
        assert names[..i + 1][..i] == names[..i];
        i := i + 1;
      }
      assert names[..|names|] == names;
    }

    method DeleteTextures(names: seq<Name>)
      requires Valid()
      modifies textures`objects, textures.fast, texUnits
      ensures Valid()
      ensures textures.objects == old(textures.objects) - NamesIn(names)
      ensures texUnits.units == UnitsWithout(old(texUnits.units), NamesIn(names))
    {
      var i := 0;
      WithoutNone(texUnits.units);
      assert NamesIn(names[..0]) == {};
      while i < |names|
        invariant Valid() && i <= |names|
        invariant textures.objects == old(textures.objects) - NamesIn(names[..i])
        invariant texUnits.units == UnitsWithout(old(texUnits.units), NamesIn(names[..i]))
      {
        WithoutOneMore(old(texUnits.units), NamesIn(names[..i]), names[i]);
        assert names[..i + 1] == names[..i] + [names[i]];
        assert NamesIn(names[..i + 1]) == NamesIn(names[..i]) + {names[i]};
        texUnits.UnbindTexture(names[i]);
        var _ := textures.DeleteObject(names[i]);
        i := i + 1;
      }
      assert names[..|names|] == names;
    }

    /** Binding name zero, too, makes an object of that name, but leaves nothing bound. */
    method BindTexture(activeUnit: nat, target: Target, name: Name)
      requires Valid()
      modifies textures`objects, textures.fast, texUnits
      ensures Valid()
      ensures textures.objects == Targeted(old(textures.objects), name, target)
      ensures texUnits.units == UnitsBound(old(texUnits.units), activeUnit, target, name)
    {
      var texture := textures.GetOrCreateObject(name, 0);
      if texture == 0 { textures.Update(name, target); }
      texUnits.BindTexture(activeUnit, target, name);
    }

    method Handle(e: Event)
      requires Valid()
      modifies Footprint()
      ensures Valid() && Contents() == Step(old(Contents()), e)
    {
      match e
      case Gen(names) => GenTextures(names);
      case Delete(names) => DeleteTextures(names);
      case Bind(unit, target, name) => BindTexture(unit, target, name);
    }
  }

  /** No two contexts have anything in common. */
  ghost predicate Apart(contexts: seq<TextureAction>) {
    forall c, d | 0 <= c < d < |contexts| :: contexts[c].Footprint() !! contexts[d].Footprint()
  }

  /** One set of handlers for each context, none of which has handled a call. */
  method Contexts(numUnits: seq<nat>) returns (contexts: seq<TextureAction>)
    ensures |contexts| == |numUnits| && Apart(contexts)
    ensures forall c | 0 <= c < |contexts| :: fresh(contexts[c].Footprint()) && contexts[c].Valid()
    ensures forall c | 0 <= c < |contexts| :: contexts[c].Contents() == Run(numUnits[c], [])
  {
    contexts := [];
    while |contexts| < |numUnits|
      invariant |contexts| <= |numUnits| && Apart(contexts)
      invariant forall c | 0 <= c < |contexts| :: fresh(contexts[c].Footprint()) && contexts[c].Valid()
      invariant forall c | 0 <= c < |contexts| :: contexts[c].Contents() == Run(numUnits[c], [])
    {
      var next := new TextureAction(numUnits[|contexts|]);
      contexts := contexts + [next];
    }
  }

  /** The context of the call handles it, and no other context changes. */
  method HandleIn(contexts: seq<TextureAction>, call: Call)
    requires Apart(contexts) && call.context < |contexts|
    requires forall c | 0 <= c < |contexts| :: contexts[c].Valid()
    modifies contexts[call.context].Footprint()
    ensures forall c | 0 <= c < |contexts| :: contexts[c].Valid()
    ensures contexts[call.context].Contents() == Step(old(contexts[call.context].Contents()), call.event)
    ensures forall c | 0 <= c < |contexts| && c != call.context :: contexts[c].Contents() == old(contexts[c].Contents())
  {
    contexts[call.context].Handle(call.event);
  }

  /** A whole run of any number of contexts: each mirror always shows its own history, and nothing in it dangles. */
  method Mirror(numUnits: seq<nat>, calls: seq<Call>) returns (contexts: seq<TextureAction>)
    requires FromContexts(calls, |numUnits|)
    ensures |contexts| == |numUnits| && Apart(contexts)
    ensures forall c | 0 <= c < |contexts| :: contexts[c].Valid()
    ensures forall c | 0 <= c < |contexts| :: contexts[c].Contents() == RunAll(numUnits, calls)[c]
    ensures forall c | 0 <= c < |contexts| :: Integrity(contexts[c].Contents())
  {
    contexts := Contexts(numUnits);
    for i := 0 to |calls|
      invariant |contexts| == |numUnits| && Apart(contexts)
      invariant forall c | 0 <= c < |contexts| :: fresh(contexts[c].Footprint()) && contexts[c].Valid()
      invariant forall c | 0 <= c < |contexts| :: contexts[c].Contents() == RunAll(numUnits, calls[..i])[c]
    {
      assert calls[..i + 1][..i] == calls[..i];
      HandleIn(contexts, calls[i]);
    }
    assert calls[..|calls|] == calls;
    forall c | 0 <= c < |contexts| ensures Integrity(contexts[c].Contents()) {
      EveryContextIsRight(numUnits, calls, c);
    }
  }
}
