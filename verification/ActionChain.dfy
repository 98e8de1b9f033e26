/**
 * The dispatch table of actions: for every entry point the action registered last, which leads on to the
 * one it replaced. An action has a single link, however many entry points it is registered for.
 *
 * Actions are numbered in the order they are registered; number 0 is the default action.
 */
module ActionChain {
  import opened Wrappers

  type Entrypoint = nat
  type Action = nat

  datatype Registry = Registry(actions: seq<Option<Action>>, prev: seq<Option<Action>>)

  function Registered(r: Registry, e: Entrypoint, a: Action): (r': Registry)
    requires e < |r.actions| && a < |r.prev|
    ensures |r'.actions| == |r.actions| && |r'.prev| == |r.prev|
  {
    Registry(r.actions[e := Some(a)], r.prev[a := r.actions[e]])
  }

  /** The entry points of one action, one after the other. */
  function Batch(r: Registry, es: seq<Entrypoint>, a: Action): (r': Registry)
    requires a < |r.prev| && forall i | 0 <= i < |es| :: es[i] < |r.actions|
    ensures |r'.actions| == |r.actions| && |r'.prev| == |r.prev|
  {
    if es == [] then r else Registered(Batch(r, es[..|es| - 1], a), es[|es| - 1], a)
  }

  /** The entry points that each action is registered for, in order of registration. */
  type Plan = seq<seq<Entrypoint>>

  ghost predicate Within(plan: Plan, n: nat) {
    forall k, i | 0 <= k < |plan| && 0 <= i < |plan[k]| :: plan[k][i] < n
  }

  function All(n: nat, plan: Plan, k: nat): (r: Registry)
    requires k <= |plan| && forall j, i | 0 <= j < |plan| && 0 <= i < |plan[j]| :: plan[j][i] < n
    ensures |r.actions| == n && |r.prev| == |plan|
  {
    if k == 0 then Registry(seq(n, _ => None), seq(|plan|, _ => None))
    else Batch(All(n, plan, k - 1), plan[k - 1], k - 1)
  }

  class ActionManager {
    const actions: array<Option<Action>>
    var prev: seq<Option<Action>>

    ghost function Contents(): Registry
      reads this, actions
    {
      Registry(actions[..], prev)
    }

    constructor (numEntrypoints: nat, plan: Plan)
      requires Within(plan, numEntrypoints)
      ensures Contents() == All(numEntrypoints, plan, |plan|)
      ensures fresh(actions)
    {
      actions := new Option<Action>[numEntrypoints](_ => None);
      prev := seq(|plan|, _ => None);
      new;
      var k := 0;
      assert actions[..] == seq(numEntrypoints, _ => None);
      while k < |plan|
        invariant k <= |plan| && Contents() == All(numEntrypoints, plan, k)
        invariant actions.Length == numEntrypoints && |prev| == |plan|
      {
        Register(plan[k], k);
        k := k + 1;
      }
    }

    /** The action takes the place of the one before, and leads on to it from now on. */
    method RegisterAction(entryp: Entrypoint, action: Action)
      requires entryp < actions.Length && action < |prev|
      modifies this`prev, actions
      ensures Contents() == Registered(old(Contents()), entryp, action)
    {
      prev := prev[action := actions[entryp]];
      actions[entryp] := Some(action);
    }

    method Register(entrypoints: seq<Entrypoint>, action: Action)
      requires action < |prev| && forall i | 0 <= i < |entrypoints| :: entrypoints[i] < actions.Length
      modifies this`prev, actions
      ensures Contents() == Batch(old(Contents()), entrypoints, action)
    {
      var i := 0;
      while i < |entrypoints|
        invariant i <= |entrypoints| && |prev| == |old(prev)|
        invariant Contents() == Batch(old(Contents()), entrypoints[..i], action)
      {
        RegisterAction(entrypoints[i], action);
        assert entrypoints[..i + 1][..i] == entrypoints[..i];
        i := i + 1;
      }
      assert entrypoints[..|entrypoints|] == entrypoints;
    }
  }

  // ---- What registration leaves ------------------------------------------------------------------------------

  /** The last of the first `k` actions that is registered for the entry point. */
  function Head(plan: Plan, k: nat, e: Entrypoint): (h: Option<Action>)
    requires k <= |plan|
    ensures h.Some? ==> h.value < k && e in plan[h.value]
  {
    if k == 0 then None else if e in plan[k - 1] then Some(k - 1) else Head(plan, k - 1, e)
  }

  /** The link of action `a`: to what it replaced at the last of its entry points. */
  function Link(plan: Plan, a: Action): Option<Action>
    requires a < |plan|
  {
    var es := plan[a];
    if es == [] then None
    else if es[|es| - 1] in es[..|es| - 1] then Some(a)
    else Head(plan, a, es[|es| - 1])
  }

  lemma {:induction false} BatchInTable(r: Registry, es: seq<Entrypoint>, a: Action, e: Entrypoint)
    requires a < |r.prev| && e < |r.actions| && forall i | 0 <= i < |es| :: es[i] < |r.actions|
    ensures Batch(r, es, a).actions[e] == if e in es then Some(a) else r.actions[e]
  {
    if es != [] {
      BatchInTable(r, es[..|es| - 1], a, e);
      assert es == es[..|es| - 1] + [es[|es| - 1]];
    }
  }

  lemma {:induction false} BatchLinks(r: Registry, es: seq<Entrypoint>, a: Action)
    requires a < |r.prev| && forall i | 0 <= i < |es| :: es[i] < |r.actions|
    ensures forall b | 0 <= b < |r.prev| && b != a :: Batch(r, es, a).prev[b] == r.prev[b]
    ensures Batch(r, es, a).prev[a] ==
      if es == [] then r.prev[a]
      else if es[|es| - 1] in es[..|es| - 1] then Some(a) else r.actions[es[|es| - 1]]
  {
    if es != [] {
      BatchLinks(r, es[..|es| - 1], a);
      BatchInTable(r, es[..|es| - 1], a, es[|es| - 1]);
    }
  }

  lemma {:induction false} RegistrationLeaves(n: nat, plan: Plan, k: nat)
    requires Within(plan, n) && k <= |plan|
    ensures forall e | 0 <= e < n :: All(n, plan, k).actions[e] == Head(plan, k, e)
    ensures forall a | 0 <= a < |plan| :: All(n, plan, k).prev[a] == if a < k then Link(plan, a) else None
  {
    if k > 0 {
      RegistrationLeaves(n, plan, k - 1);
      var r, es := All(n, plan, k - 1), plan[k - 1];
      BatchLinks(r, es, k - 1);
      forall e | 0 <= e < n ensures All(n, plan, k).actions[e] == Head(plan, k, e) {
        BatchInTable(r, es, k - 1, e);
      }
    }
  }

  // ---- Chains --------------------------------------------------------------------------------------------------

  ghost predicate Acyclic(r: Registry) {
    forall a | 0 <= a < |r.prev| :: r.prev[a].Some? ==> r.prev[a].value < a
  }

  /** No action's last entry point comes up earlier in its own list. */
  ghost predicate LastIsNew(plan: Plan) {
    forall a | 0 <= a < |plan| && plan[a] != [] :: plan[a][|plan[a]| - 1] !in plan[a][..|plan[a]| - 1]
  }

  /** Following the links always ends exactly when no action is registered last where it already was. */
  lemma AcyclicExactly(n: nat, plan: Plan)
    requires Within(plan, n)
    ensures Acyclic(All(n, plan, |plan|)) <==> LastIsNew(plan)
  {
    var r := All(n, plan, |plan|);
    RegistrationLeaves(n, plan, |plan|);
    forall a | 0 <= a < |plan|
      ensures (r.prev[a].Some? ==> r.prev[a].value < a) <==>
              (plan[a] != [] ==> plan[a][|plan[a]| - 1] !in plan[a][..|plan[a]| - 1])
    {
      assert r.prev[a] == Link(plan, a);
    }
  }

  /** The actions that a call passes through, from the one in the table downwards. */
  function Chain(r: Registry, from: Option<Action>): seq<Action>
    requires (forall a | 0 <= a < |r.prev| :: r.prev[a].Some? ==> r.prev[a].value < a)
    requires from.Some? ==> from.value < |r.prev|
    decreases if from.Some? then from.value + 1 else 0
  {
    if from.None? then [] else [from.value] + Chain(r, r.prev[from.value])
  }

  /** Every entry point has the default action, listed once. */
  ghost predicate DefaultEverywhere(n: nat, plan: Plan) {
    plan != [] && forall e | 0 <= e < n :: e in plan[0]
  }

  lemma {:induction false} HeadExists(n: nat, plan: Plan, k: nat, e: Entrypoint)
    requires DefaultEverywhere(n, plan) && 0 < k <= |plan| && e < n
    ensures Head(plan, k, e).Some?
  {
    if k > 1 { HeadExists(n, plan, k - 1, e); }
  }

  /** Below the default action there is none; below every other there is one that came before it. */
  lemma StepDown(n: nat, plan: Plan, a: Action)
    requires Within(plan, n) && LastIsNew(plan) && DefaultEverywhere(n, plan) && a < |plan| && plan[a] != []
    ensures Acyclic(All(n, plan, |plan|))
    ensures var below := All(n, plan, |plan|).prev[a];
      if a == 0 then below == None else below.Some? && below.value < a && plan[below.value] != []
  {
    AcyclicExactly(n, plan);
    RegistrationLeaves(n, plan, |plan|);
    assert All(n, plan, |plan|).prev[a] == Link(plan, a);
    if a > 0 { HeadExists(n, plan, a, plan[a][|plan[a]| - 1]); }
  }

  /** Every chain goes strictly down to the default action. */
  lemma {:induction false} ChainEndsInDefault(n: nat, plan: Plan, a: Action)
    requires Within(plan, n) && LastIsNew(plan) && DefaultEverywhere(n, plan) && a < |plan| && plan[a] != []
    ensures Acyclic(All(n, plan, |plan|))
    ensures var c := Chain(All(n, plan, |plan|), Some(a));
      c[|c| - 1] == 0 && (forall i | 0 <= i < |c| - 1 :: c[i] > c[i + 1]) && c[0] == a
    decreases a
  {
    StepDown(n, plan, a);
    var r := All(n, plan, |plan|);
    var c := Chain(r, Some(a));
    if a == 0 {
      assert c == [0] + Chain(r, None);
    } else {
      var below := r.prev[a].value;
      ChainEndsInDefault(n, plan, below);
      assert c == [a] + Chain(r, Some(below));
    }
  }

  /** The order in which the actions of a call get their turn: before the call the lowest does its work first. */
  function PreOrder(r: Registry, from: Option<Action>): seq<Action>
    requires (forall a | 0 <= a < |r.prev| :: r.prev[a].Some? ==> r.prev[a].value < a)
    requires from.Some? ==> from.value < |r.prev|
    decreases if from.Some? then from.value + 1 else 0
  {
    if from.None? then [] else PreOrder(r, r.prev[from.value]) + [from.value]
  }

  /** After the call the highest does; those that watch for GL errors only pass on when there was one. */
  function PostOrder(r: Registry, from: Option<Action>, errorAware: set<Action>, error: bool): seq<Action>
    requires (forall a | 0 <= a < |r.prev| :: r.prev[a].Some? ==> r.prev[a].value < a)
    requires from.Some? ==> from.value < |r.prev|
    decreases if from.Some? then from.value + 1 else 0
  {
    if from.None? then []
    else
      var own := if from.value in errorAware && error then [] else [from.value];
      own + PostOrder(r, r.prev[from.value], errorAware, error)
  }

  function Times(s: seq<Action>, a: Action): nat {
    multiset(s)[a]
  }

  /**
   * Every call runs the default action exactly once. Before the call its work comes first...
   */
  lemma {:induction false} DefaultRunsFirstBefore(n: nat, plan: Plan, a: Action)
    requires Within(plan, n) && LastIsNew(plan) && DefaultEverywhere(n, plan) && a < |plan| && plan[a] != []
    ensures Acyclic(All(n, plan, |plan|))
    ensures var pre := PreOrder(All(n, plan, |plan|), Some(a)); pre != [] && pre[0] == 0 && Times(pre, 0) == 1
    decreases a
  {
    StepDown(n, plan, a);
    var r := All(n, plan, |plan|);
    if a > 0 {
      DefaultRunsFirstBefore(n, plan, r.prev[a].value);
    } else {
      assert PreOrder(r, Some(0)) == PreOrder(r, None) + [0];
    }
  }

  /** Before a call every action of the chain has its turn once, the other way round. */
  lemma {:induction false} PreIsChainReversed(r: Registry, from: Option<Action>)
    requires (forall a | 0 <= a < |r.prev| :: r.prev[a].Some? ==> r.prev[a].value < a)
    requires from.Some? ==> from.value < |r.prev|
    ensures var chain, pre := Chain(r, from), PreOrder(r, from);
      |pre| == |chain| && forall k | 0 <= k < |chain| :: pre[k] == chain[|chain| - 1 - k]
    decreases if from.Some? then from.value + 1 else 0
  {
    if from.Some? { PreIsChainReversed(r, r.prev[from.value]); }
  }

  /** The actions that have their turn after a call, in the order of the chain. */
  function Acting(chain: seq<Action>, errorAware: set<Action>, error: bool): seq<Action> {
    if chain == [] then []
    else if error && chain[0] in errorAware then Acting(chain[1..], errorAware, error)
    else [chain[0]] + Acting(chain[1..], errorAware, error)
  }

  lemma {:induction false} ActingExactly(chain: seq<Action>, errorAware: set<Action>, error: bool, a: Action)
    ensures a in Acting(chain, errorAware, error) <==> a in chain && !(error && a in errorAware)
    ensures !error ==> Acting(chain, errorAware, error) == chain
  {
    if chain != [] {
      ActingExactly(chain[1..], errorAware, error, a);
      assert chain == [chain[0]] + chain[1..];
    }
  }

  /** After a call the chain has its turns in order, without those that only act when GL reports no error. */
  lemma {:induction false} PostIsChain(r: Registry, from: Option<Action>, errorAware: set<Action>, error: bool)
    requires (forall a | 0 <= a < |r.prev| :: r.prev[a].Some? ==> r.prev[a].value < a)
    requires from.Some? ==> from.value < |r.prev|
    ensures PostOrder(r, from, errorAware, error) == Acting(Chain(r, from), errorAware, error)
    decreases if from.Some? then from.value + 1 else 0
  {
    if from.Some? {
      PostIsChain(r, r.prev[from.value], errorAware, error);
      assert Chain(r, from)[1..] == Chain(r, r.prev[from.value]);
    }
  }

  /** From each of these actions the links go down to the default one. */
  ghost predicate LeadsDown(r: Registry, live: set<Action>) {
    && (forall a | 0 <= a < |r.prev| :: r.prev[a].Some? ==> r.prev[a].value < a)
    && forall a | a in live :: a < |r.prev| && (if a == 0 then r.prev[a] == None
                                                else r.prev[a].Some? && r.prev[a].value in live)
  }

  lemma {:induction false} DefaultIsLast(r: Registry, live: set<Action>, a: Action,
                                         errorAware: set<Action>, error: bool)
    requires LeadsDown(r, live) && a in live && 0 !in errorAware
    ensures var post := PostOrder(r, Some(a), errorAware, error);
      post != [] && post[|post| - 1] == 0 && Times(post, 0) == 1
    decreases a
  {
    var own, rest := Own(a, errorAware, error), PostOrder(r, r.prev[a], errorAware, error);
    if a > 0 { DefaultIsLast(r, live, r.prev[a].value, errorAware, error); }
    PostStep(r, a, errorAware, error);
    LastOf(PostOrder(r, Some(a), errorAware, error), own, rest, a);
  }

  /** The turn of one action after a call. */
  function Own(a: Action, errorAware: set<Action>, error: bool): seq<Action> {
    if a in errorAware && error then [] else [a]
  }

  lemma PostStep(r: Registry, a: Action, errorAware: set<Action>, error: bool)
    requires (forall b | 0 <= b < |r.prev| :: r.prev[b].Some? ==> r.prev[b].value < b) && a < |r.prev|
    ensures PostOrder(r, Some(a), errorAware, error) ==
            Own(a, errorAware, error) + PostOrder(r, r.prev[a], errorAware, error)
    ensures PostOrder(r, None, errorAware, error) == []
  {
  }

  lemma LastOf(post: seq<Action>, own: seq<Action>, rest: seq<Action>, a: Action)
    requires post == own + rest
    requires if a == 0 then own == [0] && rest == []
             else 0 !in own && rest != [] && rest[|rest| - 1] == 0 && Times(rest, 0) == 1
    ensures post != [] && post[|post| - 1] == 0 && Times(post, 0) == 1
  {
  }

  /** ...and after it last, whether or not GL reports an error. */
  lemma DefaultRunsLastAfter(n: nat, plan: Plan, a: Action, errorAware: set<Action>, error: bool)
    requires Within(plan, n) && LastIsNew(plan) && DefaultEverywhere(n, plan) && a < |plan| && plan[a] != []
    requires 0 !in errorAware
    ensures Acyclic(All(n, plan, |plan|))
    ensures var post := PostOrder(All(n, plan, |plan|), Some(a), errorAware, error);
      post != [] && post[|post| - 1] == 0 && Times(post, 0) == 1
  {
    var r, live := All(n, plan, |plan|), set b | 0 <= b < |plan| && plan[b] != [];
    StepDown(n, plan, a);
    forall b | b in live
      ensures b < |r.prev| && if b == 0 then r.prev[b] == None else r.prev[b].Some? && r.prev[b].value in live
    {
      StepDown(n, plan, b);
    }
    DefaultIsLast(r, live, a, errorAware, error);
  }

  // ---- When nobody is left out -----------------------------------------------------------------------------------

  /** All actions registered for an entry point, latest first. */
  function Registrations(plan: Plan, k: nat, e: Entrypoint): seq<Action>
    requires k <= |plan|
  {
    if k == 0 then [] else (if e in plan[k - 1] then [k - 1] else []) + Registrations(plan, k - 1, e)
  }

  /** Every action replaces the same one at all of its entry points. */
  ghost predicate Uniform(plan: Plan) {
    forall a, e | 0 <= a < |plan| && e in plan[a] :: Head(plan, a, e) == Link(plan, a)
  }

  lemma {:induction false} RegistrationsStart(plan: Plan, k: nat, e: Entrypoint)
    requires k <= |plan|
    ensures var s := Registrations(plan, k, e);
      Head(plan, k, e) == if s == [] then None else Some(s[0])
  {
    if k > 0 { RegistrationsStart(plan, k - 1, e); }
  }

  ghost predicate Complete(n: nat, plan: Plan, k: nat, e: Entrypoint)
    requires Within(plan, n) && Acyclic(All(n, plan, |plan|)) && k <= |plan|
  {
    Chain(All(n, plan, |plan|), Head(plan, k, e)) == Registrations(plan, k, e)
  }

  lemma CompleteStep(n: nat, plan: Plan, k: nat, e: Entrypoint)
    requires Within(plan, n) && Acyclic(All(n, plan, |plan|)) && k < |plan|
    ensures e !in plan[k] ==> Complete(n, plan, k + 1, e) == Complete(n, plan, k, e)
    ensures e in plan[k] ==>
      (Complete(n, plan, k + 1, e) <==> Head(plan, k, e) == Link(plan, k) && Complete(n, plan, k, e))
  {
    var r := All(n, plan, |plan|);
    RegistrationLeaves(n, plan, |plan|);
    assert r.prev[k] == Link(plan, k);
    RegistrationsStart(plan, k, e);
    if e in plan[k] {
      var below, rest := Chain(r, Link(plan, k)), Registrations(plan, k, e);
      assert Chain(r, Some(k)) == [k] + below;
      assert ([k] + below)[1..] == below && ([k] + rest)[1..] == rest;
      assert below == rest ==> Link(plan, k) == Head(plan, k, e);
    }
  }

  /** Of the first `k` actions, those registered for `e` replace the same one at `e` as in the end. */
  ghost predicate UniformAt(plan: Plan, k: nat, e: Entrypoint)
    requires k <= |plan|
  {
    k > 0 ==> UniformAt(plan, k - 1, e) && (e in plan[k - 1] ==> Head(plan, k - 1, e) == Link(plan, k - 1))
  }

  lemma {:induction false} UniformAtMeans(plan: Plan, k: nat, e: Entrypoint)
    requires k <= |plan|
    ensures UniformAt(plan, k, e) <==> forall a | 0 <= a < k && e in plan[a] :: Head(plan, a, e) == Link(plan, a)
  {
    if k > 0 { UniformAtMeans(plan, k - 1, e); }
  }

  lemma {:induction false} CompleteExactly(n: nat, plan: Plan, k: nat, e: Entrypoint)
    requires Within(plan, n) && Acyclic(All(n, plan, |plan|)) && k <= |plan|
    ensures Complete(n, plan, k, e) <==> UniformAt(plan, k, e)
  {
    if k > 0 {
      CompleteExactly(n, plan, k - 1, e);
      CompleteStep(n, plan, k - 1, e);
    }
  }

  /** Every call runs all actions registered for it exactly when every action replaces the same one everywhere. */
  lemma NobodyLeftOutExactly(n: nat, plan: Plan)
    requires Within(plan, n) && Acyclic(All(n, plan, |plan|))
    ensures (forall e | 0 <= e < n :: Complete(n, plan, |plan|, e)) <==> Uniform(plan)
  {
    forall e ensures UniformAt(plan, |plan|, e) <==> Complete(n, plan, |plan|, e) {
      CompleteExactly(n, plan, |plan|, e);
    }
    forall e
      ensures UniformAt(plan, |plan|, e) <==>
              forall a | 0 <= a < |plan| && e in plan[a] :: Head(plan, a, e) == Link(plan, a)
    {
      UniformAtMeans(plan, |plan|, e);
    }
    if forall e | 0 <= e < n :: Complete(n, plan, |plan|, e) {
      forall a, e | 0 <= a < |plan| && e in plan[a] ensures Head(plan, a, e) == Link(plan, a) {
        assert Complete(n, plan, |plan|, e);
      }
    } else {
      var e :| 0 <= e < n && !Complete(n, plan, |plan|, e);
      assert !UniformAt(plan, |plan|, e);
    }
  }

  lemma {:induction false} HeadSkips(plan: Plan, k: nat, b: nat, e: Entrypoint)
    requires b <= k <= |plan| && forall j | b <= j < k :: e !in plan[j]
    ensures Head(plan, k, e) == Head(plan, b, e)
    decreases k
  {
    if b < k { HeadSkips(plan, k - 1, b, e); }
  }

  lemma {:induction false} HeadAtLeast(plan: Plan, k: nat, a: Action, e: Entrypoint)
    requires a < k <= |plan| && e in plan[a]
    ensures Head(plan, k, e).Some? && Head(plan, k, e).value >= a
    decreases k
  {
    if a < k - 1 { HeadAtLeast(plan, k - 1, a, e); }
  }

  lemma {:induction false} RegisteredIsListed(plan: Plan, k: nat, a: Action, e: Entrypoint)
    requires a < k <= |plan| && e in plan[a]
    ensures a in Registrations(plan, k, e)
    decreases k
  {
    if a < k - 1 { RegisteredIsListed(plan, k - 1, a, e); }
  }

  /**
   * An action whose last entry point had only the default one before leads straight to the default one, and
   * so forgets every action registered earlier for any of its entry points.
   */
  lemma LastEntryForgets(n: nat, plan: Plan, b: Action, e: Entrypoint)
    requires Within(plan, n) && LastIsNew(plan) && DefaultEverywhere(n, plan) && 0 < b < |plan| && e in plan[b]
    requires forall k | b < k < |plan| :: e !in plan[k]
    requires forall k | 0 < k < b :: plan[b][|plan[b]| - 1] !in plan[k]
    ensures Acyclic(All(n, plan, |plan|))
    ensures Link(plan, b) == Some(0) && Chain(All(n, plan, |plan|), Head(plan, |plan|, e)) == [b, 0]
    ensures forall a | 0 < a < b && e in plan[a] :: a in Registrations(plan, |plan|, e)
  {
    var r, last := All(n, plan, |plan|), plan[b][|plan[b]| - 1];
    AcyclicExactly(n, plan);
    RegistrationLeaves(n, plan, |plan|);
    assert r.prev[b] == Link(plan, b) && r.prev[0] == Link(plan, 0);
    HeadSkips(plan, |plan|, b + 1, e);
    HeadSkips(plan, b, 1, last);
    assert last in plan[b];
    assert Chain(r, Some(0)) == [0] + Chain(r, None);
    assert Chain(r, Some(b)) == [b] + Chain(r, Some(0));
    forall a | 0 < a < b && e in plan[a] ensures a in Registrations(plan, |plan|, e) {
      RegisteredIsListed(plan, |plan|, a, e);
    }
  }

  // ---- The program's own registrations for programs and shaders ----------------------------------------------

  datatype Gl =
    | CreateProgram | CreateProgramObjectARB | DeleteProgram | DeleteObjectARB | UseProgram
    | UseProgramObjectARB | LinkProgram | LinkProgramARB | CreateShaderProgramv
    | CreateShader | CreateShaderObjectARB | DeleteShader | CompileShader | CompileShaderARB
    | AttachObjectARB | AttachShader | DetachObjectARB | DetachShader | ShaderSource | ShaderSourceARB

  const PROGRAM_ACTION: seq<Gl> := [
    CreateProgram, CreateProgramObjectARB, DeleteProgram, DeleteObjectARB, UseProgram,
    UseProgramObjectARB, LinkProgram, LinkProgramARB, CreateShaderProgramv]

  const SHADER_ACTION: seq<Gl> := [
    CreateShader, CreateShaderObjectARB, DeleteShader, DeleteObjectARB, CompileShader, CompileShaderARB,
    AttachObjectARB, AttachShader, DetachObjectARB, DetachShader, ShaderSource, ShaderSourceARB]

  function Numbers(list: seq<Gl>, number: Gl -> Entrypoint): seq<Entrypoint> {
    seq(|list|, i requires 0 <= i < |list| => number(list[i]))
  }

  /**
   * Whatever else is registered, as long as only the shader action has the last of its entry points and none
   * after it has the one that deletes an object of either kind: at that one the program action is registered,
   * and the shader action forgets it.
   */
  lemma ProgramActionIsForgotten(n: nat, plan: Plan, number: Gl -> Entrypoint, program: Action, shader: Action)
    requires Within(plan, n) && LastIsNew(plan) && DefaultEverywhere(n, plan) && 0 < program < shader < |plan|
    requires plan[program] == Numbers(PROGRAM_ACTION, number) && plan[shader] == Numbers(SHADER_ACTION, number)
    requires forall k | shader < k < |plan| :: number(DeleteObjectARB) !in plan[k]
    requires forall k | 0 < k < shader :: number(ShaderSourceARB) !in plan[k]
    ensures Acyclic(All(n, plan, |plan|)) && !Uniform(plan)
    ensures program in Registrations(plan, |plan|, number(DeleteObjectARB))
    ensures Chain(All(n, plan, |plan|), Head(plan, |plan|, number(DeleteObjectARB))) == [shader, 0]
  {
    var e := number(DeleteObjectARB);
    assert PROGRAM_ACTION[3] == SHADER_ACTION[3] == DeleteObjectARB && SHADER_ACTION[11] == ShaderSourceARB;
    assert plan[program][3] == plan[shader][3] == e && plan[shader][11] == number(ShaderSourceARB);
    assert e in plan[program] && e in plan[shader] && |plan[shader]| == 12;
    LastEntryForgets(n, plan, shader, e);
    HeadAtLeast(plan, shader, program, e);
  }
}
