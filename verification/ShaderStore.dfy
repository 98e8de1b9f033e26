/**
 * The shadow store itself: the two namespaces of a context, the program in use, and the handlers that
 * run after each successful GL call. Every method is proved to compute the function of `ShaderModel`
 * that is named after it.
 */
module ShaderStore {
  import opened ObjectNamespace
  import GlRules
  import opened ShaderModel

  class NameSpaces {
    const programs: ObjectNS<ProgramState>
    const shaders: ObjectNS<ShaderState>
    var currentProgram: nat

    ghost predicate Valid()
      reads programs, programs.fast, shaders, shaders.fast
    {
      programs.Valid() && shaders.Valid() && programs.fast as object != shaders.fast && programs as object != shaders
    }

    ghost function Footprint(): set<object> {
      {this, programs, programs.fast, shaders, shaders.fast}
    }

    ghost function Contents(): Store
      reads this, programs, shaders
    {
      Store(programs.objects, shaders.objects, currentProgram)
    }

    constructor ()
      ensures Valid() && Contents() == EMPTY && fresh(Footprint())
    {
      programs := new ObjectNS<ProgramState>();
      shaders := new ObjectNS<ShaderState>();
      currentProgram := 0;
    }

    method DeleteSelfIfNeeded(n: nat)
      requires Valid() && n in shaders.objects
      modifies shaders`objects, shaders.fast
      ensures Valid() && shaders.objects == Settled(old(shaders.objects), n)
    {
      var s := shaders.GetObject(n);
      if s.value.refCount == 0 && s.value.deleteCalled {
        var _ := shaders.DeleteObject(n);
      }
    }

    method IncRefCount(n: nat)
      requires Valid() && n in shaders.objects
      modifies shaders`objects, shaders.fast
      ensures Valid()
      ensures shaders.objects ==
        old(shaders.objects)[n := old(shaders.objects)[n].(refCount := old(shaders.objects)[n].refCount + 1)]
    {
      var s := shaders.GetObject(n);
      shaders.Update(n, s.value.(refCount := s.value.refCount + 1));
    }

    method DecRefCount(n: nat)
      requires Valid() && n in shaders.objects
      modifies shaders`objects, shaders.fast
      ensures Valid() && shaders.objects == Dropped(old(shaders.objects), n)
    {
      var s := shaders.GetObject(n);
      shaders.Update(n, s.value.(refCount := s.value.refCount - 1));
      DeleteSelfIfNeeded(n);
    }

    /** A program's destructor: it lets go of its shaders one by one, in whatever order the set yields them. */
    method DestroyProgram(p: ProgramState)
      requires Valid() && p.attached <= shaders.objects.Keys
      modifies shaders`objects, shaders.fast
      ensures Valid() && shaders.objects == Release(old(shaders.objects), p.attached)
    {
      var todo := p.attached;
      ghost var done := {};
      ReleaseNone(shaders.objects);
      while todo != {}
        invariant Valid() && todo + done == p.attached && todo !! done
        invariant shaders.objects == Release(old(shaders.objects), done)
        decreases todo
      {
        var s :| s in todo;
        ReleaseOneMore(old(shaders.objects), done, s);
        DecRefCount(s);
        todo, done := todo - {s}, done + {s};
      }
      assert done == p.attached;
    }

    /** The program leaves its namespace first; its destructor then reaches into the other one. */
    method EraseProgram(n: nat)
      requires Valid() && n in programs.objects && programs.objects[n].attached <= shaders.objects.Keys
      modifies programs`objects, programs.fast, shaders`objects, shaders.fast
      ensures Valid() && Contents() == ShaderModel.EraseProgram(old(Contents()), n)
    {
      var erased := programs.DeleteObject(n);
      DestroyProgram(erased.value);
    }

    method GetShader(n: nat) returns (s: ShaderState)
      requires Valid()
      modifies shaders`objects, shaders.fast
      ensures Valid() && s == ShaderOrNew(old(Contents()), n)
      ensures shaders.objects == old(shaders.objects)[n := s]
    {
      s := shaders.GetOrCreateObject(n, ShaderState(0, false, 0));
    }

    method GetProgram(n: nat) returns (p: ProgramState)
      requires Valid()
      modifies programs`objects, programs.fast
      ensures Valid() && p == ProgramOrNew(old(Contents()), n)
      ensures programs.objects == old(programs.objects)[n := p]
    {
      p := programs.GetOrCreateObject(n, ProgramState(false, false, {}));
    }

    /** A program's flags have changed; erase it if it may be deleted now. */
    method SettleProgram(n: nat, p: ProgramState)
      requires Valid() && n in programs.objects && p.attached <= shaders.objects.Keys
      modifies programs`objects, programs.fast, shaders`objects, shaders.fast
      ensures Valid() && Contents() == ShaderModel.SettleProgram(old(Contents()), n, p)
    {
      programs.Update(n, p);
      if !p.inUse && p.deleted {
        EraseProgram(n);
      }
    }

    // ---- The handlers: one for each GL call, run only when GL reported no error ------------------

    method CreateShader(n: nat, kind: nat)
      requires Valid()
      modifies shaders`objects, shaders.fast
      ensures Valid() && Contents() == OnCreateShader(old(Contents()), n, kind)
    {
      var _ := GetShader(n);
      shaders.Update(n, ShaderState(kind, false, 0));
    }

    method DeleteShader(n: nat)
      requires Valid()
      modifies shaders`objects, shaders.fast
      ensures Valid() && Contents() == OnDeleteShader(old(Contents()), n)
    {
      var s := GetShader(n);
      shaders.Update(n, s.(deleteCalled := true));
      DeleteSelfIfNeeded(n);
    }

    method CreateProgram(n: nat)
      requires Valid()
      modifies programs`objects, programs.fast
      ensures Valid() && Contents() == OnCreateProgram(old(Contents()), n)
    {
      var _ := GetProgram(n);
    }

    method DeleteProgram(n: nat)
      requires Valid() && NoDangling(Contents())
      modifies programs`objects, programs.fast, shaders`objects, shaders.fast
      ensures Valid() && Contents() == OnDeleteProgram(old(Contents()), n)
    {
      var p := GetProgram(n);
      SettleProgram(n, p.(deleted := true));
    }

    /** The program in use so far, if there is one and it is another, is taken out of use. */
    method StepDown(n: nat)
      requires Valid() && NoDangling(Contents())
      modifies programs`objects, programs.fast, shaders`objects, shaders.fast
      ensures Valid() && Contents() == ShaderModel.StepDown(old(Contents()), n)
    {
      var last := currentProgram;
      if last != 0 && last != n {
        var p := GetProgram(last);
        SettleProgram(last, p.(inUse := false));
      }
    }

    method UseProgram(n: nat)
      requires Valid() && NoDangling(Contents())
      modifies this, programs`objects, programs.fast, shaders`objects, shaders.fast
      ensures Valid() && Contents() == OnUseProgram(old(Contents()), n)
    {
      StepDown(n);
      currentProgram := n;
      if n != 0 {
        var p := GetProgram(n);
        programs.Update(n, p.(inUse := true));
      }
    }

    method AttachShader(prog: nat, shad: nat)
      requires Valid()
      modifies programs`objects, programs.fast, shaders`objects, shaders.fast
      ensures Valid() && Contents() == OnAttachShader(old(Contents()), prog, shad)
    {
      var p := GetProgram(prog);
      var _ := GetShader(shad);
      programs.Update(prog, p.(attached := p.attached + {shad}));
      IncRefCount(shad);
    }

    method DetachShader(prog: nat, shad: nat)
      requires Valid()
      modifies programs`objects, programs.fast, shaders`objects, shaders.fast
      ensures Valid() && Contents() == OnDetachShader(old(Contents()), prog, shad)
    {
      var p := GetProgram(prog);
      var _ := GetShader(shad);
      programs.Update(prog, p.(attached := p.attached - {shad}));
      DecRefCount(shad);
    }

    method Handle(e: GlRules.Event)
      requires Valid() && NoDangling(Contents())
      modifies Footprint()
      ensures Valid() && Contents() == Step(old(Contents()), e)
    {
      match e
      case CreateShader(n, kind) => CreateShader(n, kind);
      case DeleteShader(n) => DeleteShader(n);
      case CreateProgram(n) => CreateProgram(n);
      case DeleteProgram(n) => DeleteProgram(n);
      case UseProgram(n) => UseProgram(n);
      case AttachShader(p, s) => AttachShader(p, s);
      case DetachShader(p, s) => DetachShader(p, s);
    }

    // ---- The end of the context ------------------------------------------------------------------------

    /**
     * All programs leave at once and are destroyed in any order, and every shader that a destructor reaches is
     * still there. What is left are the shaders that nobody asked to delete, held by no one.
     */
    method ClearPrograms()
      requires Valid() && Inv(Contents())
      modifies programs`objects, programs.fast, shaders`objects, shaders.fast
      ensures Valid() && programs.objects == map[]
      ensures forall s :: s in shaders.objects <==> s in old(shaders.objects) && !old(shaders.objects)[s].deleteCalled
      ensures forall s | s in shaders.objects :: shaders.objects[s] == old(shaders.objects)[s].(refCount := 0)
    {
      var todo := programs.objects;
      programs.Clear();
      while todo.Keys != {}
        invariant Valid() && programs.objects == map[]
        invariant Leftover(Store(todo, shaders.objects, currentProgram), old(shaders.objects))
        decreases todo.Keys
      {
        var n :| n in todo.Keys;
        LeftoverGoesOn(Store(todo, shaders.objects, currentProgram), old(shaders.objects), n);
        DestroyProgram(todo[n]);
        todo := todo - {n};
      }
      NothingLeftOver(Store(todo, shaders.objects, currentProgram), old(shaders.objects));
    }

    /** Programs before shaders: the other way round their destructors would reach shaders that are gone. */
    method Clear()
      requires Valid() && Inv(Contents())
      modifies programs`objects, programs.fast, shaders`objects, shaders.fast
      ensures Valid() && programs.objects == map[] && shaders.objects == map[]
    {
      ClearPrograms();
      shaders.Clear();
    }
  }

  /**
   * A whole session: the handlers run on every call that GL accepts, and at the end the store knows what
   * GL knows, with exact counts.
   */
  method Mirror(events: seq<GlRules.Event>) returns (ns: NameSpaces)
    requires GlRules.LegalRun(GlRules.INITIAL, events)
    ensures fresh(ns) && ns.Valid() && Inv(ns.Contents())
    ensures Agrees(ns.Contents(), GlRules.Run(GlRules.INITIAL, events))
  {
    ns := new NameSpaces();
    ghost var gl := GlRules.INITIAL;
    for i := 0 to |events|
      invariant fresh(ns.Footprint()) && ns.Valid() && Inv(ns.Contents()) && Agrees(ns.Contents(), gl)
      invariant GlRules.LegalRun(gl, events[i..])
      invariant GlRules.Run(gl, events[i..]) == GlRules.Run(GlRules.INITIAL, events)
    {
      assert events[i..][0] == events[i] && events[i..][1..] == events[i + 1..];
      StepRefines(ns.Contents(), events[i], gl);
      ns.Handle(events[i]);
      gl := GlRules.Step(gl, events[i]);
    }
  }
}
