/**
 * Texture names and the textures bound to the units of each context, as values: what every handled GL call
 * does to them, and what that comes to over whole runs of any number of contexts. Every context has a
 * namespace of its own; at the end, that is compared with contexts that share their names in GL.
 */
module TextureModel {

  type Name = nat
  type Target = nat

  /** What one unit has bound, by target. */
  type Unit = map<Target, Name>
  type Units = seq<Unit>

  /** The mirror of one context: its names, with the target each texture was first bound to, and its units. */
  datatype Textures = Textures(names: map<Name, Target>, units: Units)

  datatype Event =
    | Gen(names: seq<Name>)
    | Delete(names: seq<Name>)
    | Bind(unit: nat, target: Target, name: Name)

  /** A call is handled by the context that is current in the calling thread. */
  datatype Call = Call(context: nat, event: Event)

  function Generated(objects: map<Name, Target>, names: seq<Name>): map<Name, Target> {
    if names == [] then objects
    else
      var o, n := Generated(objects, names[..|names| - 1]), names[|names| - 1];
      if n in o then o else o[n := 0]
  }

  /** The unit without its bindings to these names. */
  function Without(unit: Unit, gone: set<Name>): Unit {
    unit - (set t | t in unit && unit[t] in gone)
  }

  function UnitsWithout(units: Units, gone: set<Name>): Units {
    seq(|units|, i requires 0 <= i < |units| => Without(units[i], gone))
  }

  function NamesIn(names: seq<Name>): set<Name> {
    set n | n in names
  }

  function Grown(units: Units, n: nat): Units {
    if n <= |units| then units else units + seq(n - |units|, _ => map[])
  }

  function UnitBound(unit: Unit, target: Target, name: Name): Unit {
    if name != 0 then unit[target := name] else unit - {target}
  }

  function UnitsBound(units: Units, at: nat, target: Target, name: Name): Units {
    var grown := Grown(units, at + 1);
    grown[at := UnitBound(grown[at], target, name)]
  }

  /** An object keeps the first target other than zero that it is given. */
  function Targeted(objects: map<Name, Target>, name: Name, target: Target): map<Name, Target> {
    objects[name := if name in objects && objects[name] != 0 then objects[name] else target]
  }

  function Step(s: Textures, e: Event): Textures {
    match e
    case Gen(names) => s.(names := Generated(s.names, names))
    case Delete(names) => Textures(s.names - NamesIn(names), UnitsWithout(s.units, NamesIn(names)))
    case Bind(unit, target, name) =>
      Textures(Targeted(s.names, name, target), UnitsBound(s.units, unit, target, name))
  }

  function Run(numUnits: nat, events: seq<Event>): Textures {
    if events == [] then Textures(map[], Grown([], numUnits))
    else Step(Run(numUnits, events[..|events| - 1]), events[|events| - 1])
  }

  ghost predicate FromContexts(calls: seq<Call>, n: nat) {
    forall i | 0 <= i < |calls| :: calls[i].context < n
  }

  /** The mirrors of all contexts: each call is handled in its own. */
  function RunAll(numUnits: seq<nat>, calls: seq<Call>): (all: seq<Textures>)
    requires forall i | 0 <= i < |calls| :: calls[i].context < |numUnits|
    ensures |all| == |numUnits|
  {
    if calls == [] then seq(|numUnits|, c requires 0 <= c < |numUnits| => Run(numUnits[c], []))
    else
      var before, call := RunAll(numUnits, calls[..|calls| - 1]), calls[|calls| - 1];
      before[call.context := Step(before[call.context], call.event)]
  }

  /** The calls of one context. */
  function Own(calls: seq<Call>, c: nat): seq<Event> {
    if calls == [] then []
    else
      var before, call := Own(calls[..|calls| - 1], c), calls[|calls| - 1];
      if call.context == c then before + [call.event] else before
  }

  function BoundAt(s: Textures, unit: nat, target: Target): Name {
    if unit < |s.units| && target in s.units[unit] then s.units[unit][target] else 0
  }

  // ---- What the bindings mean ------------------------------------------------------------------------------

  /** The texture that a context's history leaves bound: the last one bound there, unless it was deleted since. */
  function LastBound(events: seq<Event>, unit: nat, target: Target): Name {
    if events == [] then 0
    else
      var before := LastBound(events[..|events| - 1], unit, target);
      match events[|events| - 1]
      case Bind(unit', target', name) => if unit' == unit && target' == target then name else before
      case Delete(names) => if before in names then 0 else before
      case Gen(_) => before
  }

  /** Whether the history leaves a texture of this name: it was last generated or bound, not deleted. */
  predicate IsTexture(events: seq<Event>, n: Name) {
    events != [] &&
    var before := IsTexture(events[..|events| - 1], n);
    match events[|events| - 1]
    case Bind(_, _, name) => name == n || before
    case Delete(names) => n !in names && before
    case Gen(names) => n in names || before
  }

  /** The target of a texture: the first one other than zero that it was bound to since it came to be. */
  function FirstTarget(events: seq<Event>, n: Name): Target {
    if events == [] then 0
    else
      var front := events[..|events| - 1];
      var before := FirstTarget(front, n);
      match events[|events| - 1]
      case Bind(_, target, name) => if name == n && before == 0 then target else before
      case Delete(names) => if n in names then 0 else before
      case Gen(_) => before
  }

  lemma {:induction false} GeneratedNames(objects: map<Name, Target>, names: seq<Name>, n: Name)
    ensures n in Generated(objects, names) <==> n in objects || n in names
    ensures n in Generated(objects, names) ==>
      Generated(objects, names)[n] == if n in objects then objects[n] else 0
  {
    if names != [] {
      GeneratedNames(objects, names[..|names| - 1], n);
      assert names == names[..|names| - 1] + [names[|names| - 1]];
    }
  }

  lemma BindChangesOnePlace(s: Textures, e: Event, unit: nat, target: Target)
    requires e.Bind?
    ensures BoundAt(Step(s, e), unit, target) ==
            if e.unit == unit && e.target == target then e.name else BoundAt(s, unit, target)
  {
  }

  lemma DeleteClearsBindings(s: Textures, e: Event, unit: nat, target: Target)
    requires e.Delete?
    ensures BoundAt(Step(s, e), unit, target) ==
            if BoundAt(s, unit, target) in e.names then 0 else BoundAt(s, unit, target)
  {
  }

  /** The mirror shows, at every place and for every name, exactly what the history of its context leaves there. */
  lemma {:induction false} RunShowsTheHistory(numUnits: nat, events: seq<Event>, unit: nat, target: Target, n: Name)
    ensures BoundAt(Run(numUnits, events), unit, target) == LastBound(events, unit, target)
    ensures n in Run(numUnits, events).names <==> IsTexture(events, n)
    ensures FirstTarget(events, n) == if IsTexture(events, n) then Run(numUnits, events).names[n] else 0
  {
    if events != [] {
      var front, e := events[..|events| - 1], events[|events| - 1];
      RunShowsTheHistory(numUnits, front, unit, target, n);
      var s := Run(numUnits, front);
      match e
      case Gen(names) => GeneratedNames(s.names, names, n);
      case Delete(_) => DeleteClearsBindings(s, e, unit, target);
      case Bind(_, _, _) => BindChangesOnePlace(s, e, unit, target);
    }
  }

  /** No context sees the calls of another: each ends as if its own calls were all there were. */
  lemma {:induction false} ContextsAreApart(numUnits: seq<nat>, calls: seq<Call>, c: nat)
    requires FromContexts(calls, |numUnits|) && c < |numUnits|
    ensures RunAll(numUnits, calls)[c] == Run(numUnits[c], Own(calls, c))
  {
    if calls != [] {
      var front, call := calls[..|calls| - 1], calls[|calls| - 1];
      ContextsAreApart(numUnits, front, c);
      if call.context == c { assert (Own(front, c) + [call.event])[..|Own(front, c)|] == Own(front, c); }
    }
  }

  // ---- Referential integrity ---------------------------------------------------------------------------------

  /** No place holds the name zero, and every bound name is a texture of the same context. */
  ghost predicate Integrity(s: Textures) {
    forall u, t | 0 <= u < |s.units| && t in s.units[u] :: s.units[u][t] != 0 && s.units[u][t] in s.names
  }

  lemma StepKeepsIntegrity(s: Textures, e: Event)
    requires Integrity(s)
    ensures Integrity(Step(s, e))
  {
    var r := Step(s, e);
    if e.Gen? {
      forall n | n in s.names ensures n in r.names { GeneratedNames(s.names, e.names, n); }
    }
  }

  lemma {:induction false} RunKeepsIntegrity(numUnits: nat, events: seq<Event>)
    ensures Integrity(Run(numUnits, events))
  {
    if events != [] {
      RunKeepsIntegrity(numUnits, events[..|events| - 1]);
      StepKeepsIntegrity(Run(numUnits, events[..|events| - 1]), events[|events| - 1]);
    }
  }

  /**
   * Over every run of any number of contexts, whoever generates, binds or deletes which names when: each mirror
   * has at every place and for every name what the calls of its own context leave there, and nothing dangles.
   */
  lemma EveryContextIsRight(numUnits: seq<nat>, calls: seq<Call>, c: nat)
    requires FromContexts(calls, |numUnits|) && c < |numUnits|
    ensures var s := RunAll(numUnits, calls)[c];
      && Integrity(s)
      && (forall unit: nat, target :: BoundAt(s, unit, target) == LastBound(Own(calls, c), unit, target))
      && (forall n: Name :: n in s.names <==> IsTexture(Own(calls, c), n))
      && (forall n: Name | n in s.names :: s.names[n] == FirstTarget(Own(calls, c), n))
  {
    var s, events := RunAll(numUnits, calls)[c], Own(calls, c);
    ContextsAreApart(numUnits, calls, c);
    RunKeepsIntegrity(numUnits[c], events);
    forall unit: nat, target ensures BoundAt(s, unit, target) == LastBound(events, unit, target) {
      RunShowsTheHistory(numUnits[c], events, unit, target, 0);
    }
    forall n: Name
      ensures n in s.names <==> IsTexture(events, n)
      ensures n in s.names ==> s.names[n] == FirstTarget(events, n)
    {
      RunShowsTheHistory(numUnits[c], events, 0, 0, n);
    }
  }

  // ---- Contexts that share their names -----------------------------------------------------------------------

  /** The textures of a group of contexts that share them in GL. Zero names no texture that could be shared. */
  function GroupAfter(group: set<Name>, e: Event): set<Name> {
    match e
    case Gen(names) => group + NamesIn(names) - {0}
    case Delete(names) => group - NamesIn(names)
    case Bind(_, _, name) => group + {name} - {0}
  }

  function Group(calls: seq<Call>): set<Name> {
    if calls == [] then {} else GroupAfter(Group(calls[..|calls| - 1]), calls[|calls| - 1].event)
  }

  /** This mirror has exactly the textures that the group has. */
  ghost predicate ShowsGroup(s: Textures, group: set<Name>) {
    forall n: Name | n != 0 :: n in s.names <==> n in group
  }

  /** The call makes a texture that was not there, or takes one away. */
  predicate Changes(group: set<Name>, e: Event) {
    match e
    case Gen(names) => exists n | n in names :: n != 0 && n !in group
    case Delete(names) => exists n | n in names :: n in group
    case Bind(_, _, name) => name != 0 && name !in group
  }

  ghost predicate NobodyElseChanges(calls: seq<Call>, c: nat) {
    forall k | 0 <= k < |calls| && calls[k].context != c :: !Changes(Group(calls[..k]), calls[k].event)
  }

  ghost predicate ShowsGroupThroughout(numUnits: seq<nat>, calls: seq<Call>, c: nat)
    requires FromContexts(calls, |numUnits|) && c < |numUnits|
  {
    forall k | 0 <= k <= |calls| :: ShowsGroup(RunAll(numUnits, calls[..k])[c], Group(calls[..k]))
  }

  lemma ZeroIsNotShared(calls: seq<Call>)
    ensures 0 !in Group(calls)
  {
  }

  lemma ChangesExactly(group: set<Name>, e: Event)
    requires 0 !in group
    ensures Changes(group, e) <==> GroupAfter(group, e) != group
  {
    match e
    case Gen(names) =>
      if Changes(group, e) {
        var n :| n in names && n != 0 && n !in group;
        assert n in GroupAfter(group, e);
      }
    case Delete(names) =>
      if Changes(group, e) {
        var n :| n in names && n in group;
        assert n !in GroupAfter(group, e);
      }
    case Bind(_, _, name) => if name != 0 { assert name in GroupAfter(group, e); }
  }

  lemma OwnCallShows(s: Textures, group: set<Name>, e: Event)
    requires ShowsGroup(s, group)
    ensures ShowsGroup(Step(s, e), GroupAfter(group, e))
  {
    if e.Gen? {
      forall n: Name | n != 0 ensures n in Step(s, e).names <==> n in GroupAfter(group, e) {
        GeneratedNames(s.names, e.names, n);
      }
    }
  }

  lemma SameGroup(s: Textures, a: set<Name>, b: set<Name>)
    requires ShowsGroup(s, a) && ShowsGroup(s, b) && 0 !in a && 0 !in b
    ensures a == b
  {
    forall n: Name ensures n in a <==> n in b { if n != 0 { assert n in s.names <==> n in a; } }
  }

  lemma {:induction false} UndisturbedShows(numUnits: seq<nat>, calls: seq<Call>, c: nat)
    requires FromContexts(calls, |numUnits|) && c < |numUnits| && NobodyElseChanges(calls, c)
    ensures ShowsGroup(RunAll(numUnits, calls)[c], Group(calls))
  {
    if calls != [] {
      var front, call := calls[..|calls| - 1], calls[|calls| - 1];
      forall k | 0 <= k < |front| && front[k].context != c ensures !Changes(Group(front[..k]), front[k].event) {
        assert front[..k] == calls[..k];
      }
      UndisturbedShows(numUnits, front, c);
      ZeroIsNotShared(front);
      ChangesExactly(Group(front), call.event);
      if call.context == c { OwnCallShows(RunAll(numUnits, front)[c], Group(front), call.event); }
    }
  }

  /**
   * Where contexts share their textures in GL, the mirror of a context shows those of the group throughout a
   * run exactly if no other context ever makes a texture that is not there or deletes one that is.
   */
  lemma ShareGroupExactly(numUnits: seq<nat>, calls: seq<Call>, c: nat)
    requires FromContexts(calls, |numUnits|) && c < |numUnits|
    ensures ShowsGroupThroughout(numUnits, calls, c) <==> NobodyElseChanges(calls, c)
  {
    if NobodyElseChanges(calls, c) {
      forall k | 0 <= k <= |calls| ensures ShowsGroup(RunAll(numUnits, calls[..k])[c], Group(calls[..k])) {
        assert forall j | 0 <= j < k :: calls[..k][..j] == calls[..j];
        UndisturbedShows(numUnits, calls[..k], c);
      }
    }
    if ShowsGroupThroughout(numUnits, calls, c) {
      forall k | 0 <= k < |calls| && calls[k].context != c ensures !Changes(Group(calls[..k]), calls[k].event) {
        assert calls[..k + 1][..k] == calls[..k];
        ZeroIsNotShared(calls[..k]);
        ZeroIsNotShared(calls[..k + 1]);
        ChangesExactly(Group(calls[..k]), calls[k].event);
        SameGroup(RunAll(numUnits, calls[..k])[c], Group(calls[..k]), Group(calls[..k + 1]));
      }
    }
  }

  /** Two contexts that share: the second misses a texture of the first, and keeps one that the first deleted. */
  lemma SharingIsMissed()
    ensures var made := [Call(0, Gen([5]))];
      5 in Group(made) && 5 !in RunAll([1, 1], made)[1].names
    ensures var deleted := [Call(0, Gen([5])), Call(1, Bind(0, 7, 5)), Call(0, Delete([5]))];
      5 !in Group(deleted) && 5 in RunAll([1, 1], deleted)[1].names
  {
    var made := [Call(0, Gen([5]))];
    var bound := made + [Call(1, Bind(0, 7, 5))];
    var deleted := bound + [Call(0, Delete([5]))];
    assert made[..0] == [] && bound[..1] == made && deleted[..2] == bound;
    assert deleted == [Call(0, Gen([5])), Call(1, Bind(0, 7, 5)), Call(0, Delete([5]))];
  }
}
