/**
 * The debugger's own bookkeeping as values: each shader counts its holders, and erasing a program
 * releases its shaders one by one. `Step` is what the handlers of `ShaderStore` compute; here it is
 * proved to keep the counts right over every run and to agree with GL.
 */
module ShaderModel {
  import opened GlRules

  datatype ShaderState = ShaderState(kind: nat, deleteCalled: bool, refCount: int)
  datatype ProgramState = ProgramState(deleted: bool, inUse: bool, attached: set<nat>)
  datatype Store = Store(programs: map<nat, ProgramState>, shaders: map<nat, ShaderState>, current: nat)

  const EMPTY := Store(map[], map[], 0)

  function ShaderOrNew(st: Store, n: nat): ShaderState {
    if n in st.shaders then st.shaders[n] else ShaderState(0, false, 0)
  }

  function ProgramOrNew(st: Store, n: nat): ProgramState {
    if n in st.programs then st.programs[n] else ProgramState(false, false, {})
  }

  /** Erases the shader if nobody holds it and its deletion was asked for. */
  function Settled(shaders: map<nat, ShaderState>, n: nat): map<nat, ShaderState>
    requires n in shaders
  {
    if shaders[n].refCount == 0 && shaders[n].deleteCalled then shaders - {n} else shaders
  }

  /** Stores a shader's new state, and erases the shader if that makes it due. */
  function Settle(st: Store, n: nat, s: ShaderState): Store {
    st.(shaders := Settled(st.shaders[n := s], n))
  }

  /** Drops one reference to each of the named shaders, erasing those that were only waiting for it. */
  ghost function Release(shaders: map<nat, ShaderState>, names: set<nat>): map<nat, ShaderState> {
    Decremented(shaders, names) -
    (set n | n in shaders && n in names && shaders[n].refCount == 1 && shaders[n].deleteCalled)
  }

  ghost predicate IsDecremented(m: map<nat, ShaderState>, shaders: map<nat, ShaderState>, names: set<nat>) {
    && m.Keys == shaders.Keys
    && (forall n | n in shaders && n in names :: m[n] == shaders[n].(refCount := shaders[n].refCount - 1))
    && (forall n | n in shaders && n !in names :: m[n] == shaders[n])
  }

  lemma DecrementedExists(shaders: map<nat, ShaderState>, names: set<nat>)
    ensures exists m :: IsDecremented(m, shaders, names)
  {
    if shaders == map[] {
      assert IsDecremented(map[], shaders, names);
    } else {
      var n :| n in shaders;
      DecrementedExists(shaders - {n}, names);
      var m :| IsDecremented(m, shaders - {n}, names);
      var s := if n in names then shaders[n].(refCount := shaders[n].refCount - 1) else shaders[n];
      assert IsDecremented(m[n := s], shaders, names);
    }
  }

  ghost function Decremented(shaders: map<nat, ShaderState>, names: set<nat>): (m: map<nat, ShaderState>)
    ensures IsDecremented(m, shaders, names)
  {
    DecrementedExists(shaders, names);
    var m :| IsDecremented(m, shaders, names);
    m
  }

  /** One reference to one shader is given up. */
  function Dropped(shaders: map<nat, ShaderState>, n: nat): map<nat, ShaderState>
    requires n in shaders
  {
    Settled(shaders[n := shaders[n].(refCount := shaders[n].refCount - 1)], n)
  }

  lemma ReleaseNone(shaders: map<nat, ShaderState>)
    ensures Release(shaders, {}) == shaders
  {
  }

  /** Releasing the shaders one after the other comes to the same, whatever the order. */
  lemma ReleaseOneMore(shaders: map<nat, ShaderState>, names: set<nat>, n: nat)
    requires n in shaders && n !in names
    ensures n in Release(shaders, names)
    ensures Release(shaders, names + {n}) == Dropped(Release(shaders, names), n)
  {
    assert Release(shaders, names + {n}).Keys == Dropped(Release(shaders, names), n).Keys;
  }

  ghost function EraseProgram(st: Store, n: nat): Store {
    st.(programs := st.programs - {n}, shaders := Release(st.shaders, ProgramOrNew(st, n).attached))
  }

  /** Stores a program's new state, or erases it when it is deleted and not in use. */
  ghost function SettleProgram(st: Store, n: nat, p: ProgramState): Store {
    var st' := st.(programs := st.programs[n := p]);
    if p.deleted && !p.inUse then EraseProgram(st', n) else st'
  }

  function OnCreateShader(st: Store, n: nat, kind: nat): Store {
    st.(shaders := st.shaders[n := ShaderState(kind, false, 0)])
  }

  function OnDeleteShader(st: Store, n: nat): Store {
    Settle(st, n, ShaderOrNew(st, n).(deleteCalled := true))
  }

  function OnCreateProgram(st: Store, n: nat): Store {
    st.(programs := st.programs[n := ProgramOrNew(st, n)])
  }

  ghost function OnDeleteProgram(st: Store, n: nat): Store {
    SettleProgram(st, n, ProgramOrNew(st, n).(deleted := true))
  }

  /** The program in use so far, if any and if another one, steps down. */
  ghost function StepDown(st: Store, n: nat): Store {
    if st.current != 0 && st.current != n
    then SettleProgram(st, st.current, ProgramOrNew(st, st.current).(inUse := false))
    else st
  }

  ghost function OnUseProgram(st: Store, n: nat): Store {
    var st1 := StepDown(st, n).(current := n);
    if n != 0 then st1.(programs := st1.programs[n := ProgramOrNew(st1, n).(inUse := true)]) else st1
  }

  function OnAttachShader(st: Store, p: nat, s: nat): Store {
    var prog, shad := ProgramOrNew(st, p), ShaderOrNew(st, s);
    st.(programs := st.programs[p := prog.(attached := prog.attached + {s})],
        shaders := st.shaders[s := shad.(refCount := shad.refCount + 1)])
  }

  function OnDetachShader(st: Store, p: nat, s: nat): Store {
    var prog, shad := ProgramOrNew(st, p), ShaderOrNew(st, s);
    Settle(st.(programs := st.programs[p := prog.(attached := prog.attached - {s})]),
           s, shad.(refCount := shad.refCount - 1))
  }

  ghost function Step(st: Store, e: Event): Store {
    match e
    case CreateShader(n, kind) => OnCreateShader(st, n, kind)
    case DeleteShader(n) => OnDeleteShader(st, n)
    case CreateProgram(n) => OnCreateProgram(st, n)
    case DeleteProgram(n) => OnDeleteProgram(st, n)
    case UseProgram(n) => OnUseProgram(st, n)
    case AttachShader(p, s) => OnAttachShader(st, p, s)
    case DetachShader(p, s) => OnDetachShader(st, p, s)
  }

  ghost function Run(st: Store, events: seq<Event>): Store
    decreases |events|
  {
    if |events| == 0 then st else Run(Step(st, events[0]), events[1..])
  }

  /** The live programs that hold a shader. */
  function Holders(st: Store, s: nat): set<nat> {
    set p | p in st.programs && s in st.programs[p].attached
  }

  ghost predicate Counted(st: Store) {
    forall s | s in st.shaders :: st.shaders[s].refCount == |Holders(st, s)|
  }

  /** No program holds a shader that has been erased. */
  ghost predicate NoDangling(st: Store) {
    forall p, s | p in st.programs && s in st.programs[p].attached :: s in st.shaders
  }

  ghost predicate InUseIsCurrent(st: Store) {
    && (st.current != 0 ==> st.current in st.programs)
    && forall p | p in st.programs :: st.programs[p].inUse <==> (p == st.current && p != 0)
  }

  ghost predicate NothingOverdue(st: Store) {
    && (forall p | p in st.programs :: st.programs[p].deleted ==> st.programs[p].inUse)
    && (forall s | s in st.shaders :: st.shaders[s].deleteCalled ==> st.shaders[s].refCount != 0)
  }

  ghost predicate Inv(st: Store) {
    && 0 !in st.programs && 0 !in st.shaders
    && Counted(st) && NoDangling(st) && InUseIsCurrent(st) && NothingOverdue(st)
  }

  /** The store and GL know the same names, kinds, flags, attachments and current program. */
  ghost predicate Agrees(st: Store, gl: GL) {
    && gl.current == st.current
    && gl.programs.Keys == st.programs.Keys
    && gl.shaders.Keys == st.shaders.Keys
    && (forall p | p in st.programs :: gl.programs[p] == Program(st.programs[p].deleted, st.programs[p].attached))
    && (forall s | s in st.shaders :: gl.shaders[s] == Shader(st.shaders[s].kind, st.shaders[s].deleteCalled))
  }

  // ---- The invariant, event by event --------------------------------------------------------------

  lemma HoldersOne(st: Store, st': Store, s: nat, p: nat)
    requires forall q | q != p :: (q in Holders(st, s) <==> q in Holders(st', s))
    requires p !in Holders(st, s) && p in Holders(st', s)
    ensures |Holders(st', s)| == |Holders(st, s)| + 1
  {
    assert Holders(st', s) == Holders(st, s) + {p};
  }

  lemma HoldersSame(st: Store, st': Store, s: nat)
    requires forall q :: (q in Holders(st, s) <==> q in Holders(st', s))
    ensures |Holders(st', s)| == |Holders(st, s)|
  {
    assert Holders(st', s) == Holders(st, s);
  }

  ghost predicate NoShaderOverdue(st: Store) {
    forall s | s in st.shaders :: st.shaders[s].deleteCalled ==> st.shaders[s].refCount != 0
  }

  /** Erasing a program the cascading way leaves counts exact and nothing dangling or overdue. */
  lemma EraseKeepsCounts(st: Store, n: nat)
    requires Counted(st) && NoDangling(st) && NoShaderOverdue(st)
    ensures var st' := EraseProgram(st, n); Counted(st') && NoDangling(st') && NoShaderOverdue(st')
    ensures forall s :: s in EraseProgram(st, n).shaders <==>
      s in st.shaders && !(st.shaders[s].deleteCalled && Holders(EraseProgram(st, n), s) == {})
  {
    var st' := EraseProgram(st, n);
    forall s | s in st.shaders
      ensures |Holders(st', s)| ==
              st.shaders[s].refCount - (if n in st.programs && s in st.programs[n].attached then 1 else 0)
    {
      if n in st.programs && s in st.programs[n].attached {
        HoldersOne(st', st, s, n);
      } else {
        HoldersSame(st, st', s);
      }
    }
    forall p, s | p in st'.programs && s in st'.programs[p].attached
      ensures s in st'.shaders
    {
      assert p in Holders(st', s);
    }
  }

  lemma CreateKeepsInv(st: Store, e: Event)
    requires e.CreateShader? || e.CreateProgram?
    requires e.name != 0 && e.name !in st.shaders && e.name !in st.programs
    requires Inv(st)
    ensures Inv(Step(st, e))
  {
    var st' := Step(st, e);
    forall s | s in st'.shaders ensures st'.shaders[s].refCount == |Holders(st', s)| {
      HoldersSame(st, st', s);
      if s !in st.shaders { assert Holders(st, s) == {}; }
    }
  }

  lemma DeleteShaderKeepsInv(st: Store, n: nat)
    requires Inv(st) && (n == 0 || n in st.shaders)
    ensures Inv(OnDeleteShader(st, n))
  {
    var st' := OnDeleteShader(st, n);
    forall s | s in st'.shaders ensures st'.shaders[s].refCount == |Holders(st', s)| {
      HoldersSame(st, st', s);
    }
    if n !in st'.shaders && n in st.shaders {
      assert Holders(st, n) == {};
      assert forall p | p in st.programs :: p !in Holders(st, n);
    }
  }

  lemma AttachKeepsInv(st: Store, p: nat, n: nat)
    requires Inv(st) && p in st.programs && n in st.shaders && n !in st.programs[p].attached
    ensures Inv(OnAttachShader(st, p, n))
  {
    var st' := OnAttachShader(st, p, n);
    forall s | s in st'.shaders ensures st'.shaders[s].refCount == |Holders(st', s)| {
      if s == n { HoldersOne(st, st', s, p); } else { HoldersSame(st, st', s); }
    }
  }

  lemma DetachKeepsInv(st: Store, p: nat, n: nat)
    requires Inv(st) && p in st.programs && n in st.programs[p].attached
    ensures Inv(OnDetachShader(st, p, n))
  {
    var st' := OnDetachShader(st, p, n);
    HoldersOne(st', st, n, p);
    forall s | s in st'.shaders ensures st'.shaders[s].refCount == |Holders(st', s)| {
      if s != n { HoldersSame(st, st', s); }
    }
    if n !in st'.shaders {
      assert Holders(st', n) == {};
      assert forall q | q in st'.programs :: q !in Holders(st', n);
    }
  }

  /** Changing a program's flags, or adding an empty program, changes no holder. */
  lemma FlagsKeepCounts(st: Store, n: nat, p: ProgramState)
    requires Counted(st) && p.attached == ProgramOrNew(st, n).attached
    ensures Counted(st.(programs := st.programs[n := p]))
    ensures NoDangling(st) ==> NoDangling(st.(programs := st.programs[n := p]))
  {
    forall s { HoldersSame(st, st.(programs := st.programs[n := p]), s); }
  }

  lemma DeleteProgramKeepsInv(st: Store, n: nat)
    requires Inv(st) && (n == 0 || n in st.programs)
    ensures Inv(OnDeleteProgram(st, n))
  {
    if n == 0 {
      DeleteProgramZero(st);
    } else {
      var p := st.programs[n].(deleted := true);
      FlagsKeepCounts(st, n, p);
      EraseKeepsCounts(st.(programs := st.programs[n := p]), n);
    }
  }

  /** Deleting the name zero creates an object and erases it again. */
  lemma DeleteProgramZero(st: Store)
    requires 0 !in st.programs
    ensures OnDeleteProgram(st, 0) == st
  {
    assert OnDeleteProgram(st, 0).programs == st.programs;
    assert OnDeleteProgram(st, 0).shaders == st.shaders;
  }

  lemma StepDownKeepsInv(st: Store, n: nat)
    requires Inv(st) && st.current != 0 && st.current != n
    ensures Inv(StepDown(st, n).(current := 0))
  {
    var p := st.programs[st.current].(inUse := false);
    FlagsKeepCounts(st, st.current, p);
    var st1 := st.(programs := st.programs[st.current := p]);
    EraseKeepsCounts(st1, st.current);
    forall s { HoldersSame(StepDown(st, n), StepDown(st, n).(current := 0), s); }
  }

  lemma UseProgramKeepsInv(st: Store, n: nat)
    requires Inv(st) && (n == 0 || n in st.programs)
    ensures Inv(OnUseProgram(st, n))
  {
    var st0 := if st.current == 0 || st.current == n then st else StepDown(st, n).(current := 0);
    if st.current != 0 && st.current != n { StepDownKeepsInv(st, n); }
    if n != 0 {
      FlagsKeepCounts(st0, n, st0.programs[n].(inUse := true));
      var st1 := st0.(programs := st0.programs[n := st0.programs[n].(inUse := true)]);
      assert OnUseProgram(st, n) == st1.(current := n);
      forall s { HoldersSame(st1, st1.(current := n), s); }
    }
  }

  // ---- Agreement with GL ------------------------------------------------------------------------

  lemma SurvivingHolders(st: Store, n: nat, gl: GL, s: nat)
    requires Agrees(st, gl)
    requires forall p | p in st.programs :: ProgramLives(gl, p) <==> p != n
    ensures GlRules.Holders(gl, s) == Holders(EraseProgram(st, n), s)
  {
  }

  /** The cascade of destructors reaches exactly what GL's one-shot collection reaches. */
  lemma EraseIsCollect(st: Store, n: nat, gl: GL)
    requires Agrees(st, gl)
    requires Counted(st) && NoDangling(st) && NoShaderOverdue(st)
    requires forall p | p in st.programs :: ProgramLives(gl, p) <==> p != n
    ensures Agrees(EraseProgram(st, n), Collect(gl))
  {
    var st' := EraseProgram(st, n);
    forall s ensures ShaderLives(gl, s) <==> s in st'.shaders {
      EraseKeepsCounts(st, n);
      SurvivingHolders(st, n, gl, s);
    }
  }

  /** A store that keeps the invariant has nothing for GL to collect. */
  lemma NothingToCollect(st: Store, gl: GL)
    requires Agrees(st, gl) && Inv(st)
    ensures Agrees(st, Collect(gl))
  {
    EraseIsCollect(st, 0, gl);
    assert EraseProgram(st, 0).shaders == st.shaders;
  }

  /** Erasing a shader at count zero is GL's collection of an unheld flagged shader. */
  lemma SettleIsCollect(st: Store, n: nat, s: ShaderState, gl: GL)
    requires Agrees(st.(shaders := st.shaders[n := s]), gl)
    requires Counted(st.(shaders := st.shaders[n := s]))
    requires forall p | p in st.programs :: ProgramLives(gl, p)
    requires forall m | m in st.shaders && m != n :: st.shaders[m].deleteCalled ==> st.shaders[m].refCount != 0
    ensures Agrees(Settle(st, n, s), Collect(gl))
  {
    forall m ensures GlRules.Holders(gl, m) == Holders(st.(shaders := st.shaders[n := s]), m) {}
  }

  lemma DeleteShaderRefines(st: Store, n: nat, gl: GL)
    requires Inv(st) && Agrees(st, gl) && Legal(gl, DeleteShader(n))
    ensures Agrees(OnDeleteShader(st, n), GlRules.Step(gl, DeleteShader(n)))
  {
    if n == 0 {
      NothingToCollect(st, gl);
    } else {
      var s := st.shaders[n].(deleteCalled := true);
      forall m { HoldersSame(st, st.(shaders := st.shaders[n := s]), m); }
      SettleIsCollect(st, n, s, Effect(gl, DeleteShader(n)));
    }
  }

  /** The store as it stands between the detaching and the shader's own settling. */
  function Detached(st: Store, p: nat, n: nat): Store
    requires p in st.programs && n in st.shaders
  {
    st.(programs := st.programs[p := st.programs[p].(attached := st.programs[p].attached - {n})],
        shaders := st.shaders[n := st.shaders[n].(refCount := st.shaders[n].refCount - 1)])
  }

  lemma DetachedIsCounted(st: Store, p: nat, n: nat)
    requires Inv(st) && p in st.programs && n in st.programs[p].attached
    ensures Counted(Detached(st, p, n))
  {
    HoldersOne(Detached(st, p, n), st, n, p);
    forall m | m != n { HoldersSame(st, Detached(st, p, n), m); }
  }

  lemma DetachedAgrees(st: Store, p: nat, n: nat, gl: GL)
    requires Inv(st) && Agrees(st, gl) && Legal(gl, DetachShader(p, n))
    ensures Agrees(Detached(st, p, n), Effect(gl, DetachShader(p, n)))
  {
  }

  lemma DetachRefines(st: Store, p: nat, n: nat, gl: GL)
    requires Inv(st) && Agrees(st, gl) && Legal(gl, DetachShader(p, n))
    ensures Agrees(OnDetachShader(st, p, n), GlRules.Step(gl, DetachShader(p, n)))
  {
    DetachedIsCounted(st, p, n);
    DetachedAgrees(st, p, n, gl);
    var st2 := Detached(st, p, n);
    var st1 := st2.(shaders := st.shaders);
    assert st1.(shaders := st1.shaders[n := st2.shaders[n]]) == st2;
    SettleIsCollect(st1, n, st2.shaders[n], Effect(gl, DetachShader(p, n)));
  }

  lemma DeleteProgramRefines(st: Store, n: nat, gl: GL)
    requires Inv(st) && Agrees(st, gl) && Legal(gl, DeleteProgram(n))
    ensures Agrees(OnDeleteProgram(st, n), GlRules.Step(gl, DeleteProgram(n)))
  {
    if n == 0 {
      DeleteProgramZero(st);
      NothingToCollect(st, gl);
    } else {
      var p := st.programs[n].(deleted := true);
      var st1 := st.(programs := st.programs[n := p]);
      FlagsKeepCounts(st, n, p);
      if p.inUse {
        DeleteProgramKeepsInv(st, n);
        NothingToCollect(st1, Effect(gl, DeleteProgram(n)));
      } else {
        EraseIsCollect(st1, n, Effect(gl, DeleteProgram(n)));
      }
    }
  }

  /** A deleted program that steps down is erased; that is GL's collection once another is current. */
  lemma StepDownIsCollect(st: Store, n: nat, gl: GL)
    requires Inv(st) && Agrees(st, gl) && st.current != 0 && st.current != n && st.programs[st.current].deleted
    ensures Agrees(StepDown(st, n).(current := n), Collect(gl.(current := n)))
    ensures StepDown(st, n).programs == st.programs - {st.current}
  {
    var st1 := st.(current := n);
    forall m { HoldersSame(st, st1, m); }
    EraseIsCollect(st1, st.current, gl.(current := n));
    assert StepDown(st, n).programs == st.programs - {st.current};
    assert StepDown(st, n).(current := n) == EraseProgram(st1, st.current);
  }

  /** Putting a program in use changes nothing that GL can see beyond what is already agreed. */
  lemma InUseIsInvisible(st: Store, n: nat, inUse: bool, gl: GL)
    requires n in st.programs && Agrees(st, gl)
    ensures Agrees(st.(programs := st.programs[n := st.programs[n].(inUse := inUse)]), gl)
  {
  }

  lemma UseProgramRefines(st: Store, n: nat, gl: GL)
    requires Inv(st) && Agrees(st, gl) && Legal(gl, UseProgram(n))
    ensures Agrees(OnUseProgram(st, n), GlRules.Step(gl, UseProgram(n)))
  {
    var st1 := StepDown(st, n).(current := n);
    if st.current != 0 && st.current != n && st.programs[st.current].deleted {
      StepDownIsCollect(st, n, gl);
      if n != 0 { InUseIsInvisible(st1, n, true, Collect(gl.(current := n))); }
    } else {
      if n != 0 { InUseIsInvisible(st1, n, true, gl.(current := n)); }
      UseProgramKeepsInv(st, n);
      NothingToCollect(OnUseProgram(st, n), gl.(current := n));
    }
  }

  /** Calls that make nothing collectable. */
  lemma GrowthRefines(st: Store, e: Event, gl: GL)
    requires e.CreateShader? || e.CreateProgram? || e.AttachShader?
    requires Inv(st) && Agrees(st, gl) && Legal(gl, e) && Inv(Step(st, e))
    ensures Agrees(Step(st, e), GlRules.Step(gl, e))
  {
    assert Agrees(Step(st, e), Effect(gl, e));
    NothingToCollect(Step(st, e), Effect(gl, e));
  }

  /** One handler call keeps the invariant and keeps the store in step with GL. */
  lemma StepRefines(st: Store, e: Event, gl: GL)
    requires Inv(st) && Agrees(st, gl) && Legal(gl, e)
    ensures Inv(Step(st, e))
    ensures Agrees(Step(st, e), GlRules.Step(gl, e))
  {
    match e
    case CreateShader(_, _) => CreateKeepsInv(st, e); GrowthRefines(st, e, gl);
    case CreateProgram(_) => CreateKeepsInv(st, e); GrowthRefines(st, e, gl);
    case AttachShader(p, s) => AttachKeepsInv(st, p, s); GrowthRefines(st, e, gl);
    case DetachShader(p, s) => DetachKeepsInv(st, p, s); DetachRefines(st, p, s, gl);
    case DeleteShader(n) => DeleteShaderKeepsInv(st, n); DeleteShaderRefines(st, n, gl);
    case DeleteProgram(n) => DeleteProgramKeepsInv(st, n); DeleteProgramRefines(st, n, gl);
    case UseProgram(n) => UseProgramKeepsInv(st, n); UseProgramRefines(st, n, gl);
  }

  /** Over every run of calls that GL accepts, counts are exact, nothing dangles, and the store is GL's. */
  lemma {:induction false} RunRefines(st: Store, events: seq<Event>, gl: GL)
    requires Inv(st) && Agrees(st, gl) && LegalRun(gl, events)
    ensures Inv(Run(st, events))
    ensures Agrees(Run(st, events), GlRules.Run(gl, events))
    decreases |events|
  {
    if |events| > 0 {
      StepRefines(st, events[0], gl);
      RunRefines(Step(st, events[0]), events[1..], GlRules.Step(gl, events[0]));
    }
  }

  // ---- The end of a context -------------------------------------------------------------------------

  /** While the programs of a context are destroyed: counts stay exact, and only shaders due for it are gone. */
  ghost predicate Leftover(st: Store, shaders: map<nat, ShaderState>) {
    && Counted(st) && NoDangling(st) && NoShaderOverdue(st)
    && (forall s | s in st.shaders :: s in shaders && st.shaders[s] == shaders[s].(refCount := st.shaders[s].refCount))
    && (forall s | s in shaders && !shaders[s].deleteCalled :: s in st.shaders)
  }

  lemma LeftoverGoesOn(st: Store, shaders: map<nat, ShaderState>, n: nat)
    requires Leftover(st, shaders) && n in st.programs
    ensures st.programs[n].attached <= st.shaders.Keys
    ensures Leftover(EraseProgram(st, n), shaders)
  {
    EraseKeepsCounts(st, n);
  }

  /** With the last program, nobody is left to hold a shader. */
  lemma NothingLeftOver(st: Store, shaders: map<nat, ShaderState>)
    requires Leftover(st, shaders) && st.programs.Keys == {}
    ensures forall s :: s in st.shaders <==> s in shaders && !shaders[s].deleteCalled
    ensures forall s | s in st.shaders :: st.shaders[s] == shaders[s].(refCount := 0)
  {
    forall s | s in st.shaders ensures st.shaders[s].refCount == 0 && !st.shaders[s].deleteCalled {
      assert Holders(st, s) == {};
    }
  }

  // ---- Why GL's error checks matter -------------------------------------------------------------

  /** The counts survive an attach exactly when GL would not have refused it as a repeat. */
  lemma AttachNeedsNewShader(st: Store, p: nat, s: nat)
    requires Inv(st) && p in st.programs && s in st.shaders
    ensures Counted(OnAttachShader(st, p, s)) <==> s !in st.programs[p].attached
  {
    if s in st.programs[p].attached {
      HoldersSame(st, OnAttachShader(st, p, s), s);
    } else {
      AttachKeepsInv(st, p, s);
    }
  }

  /** A detach keeps the invariant exactly when the shader was attached. */
  lemma DetachNeedsAttachedShader(st: Store, p: nat, s: nat)
    requires Inv(st) && p in st.programs && s in st.shaders
    ensures Inv(OnDetachShader(st, p, s)) <==> s in st.programs[p].attached
  {
    var st' := OnDetachShader(st, p, s);
    if s in st.programs[p].attached {
      DetachKeepsInv(st, p, s);
    } else if s in st'.shaders {
      HoldersSame(st, st', s);
    } else {
      var q :| q in Holders(st, s);
      assert q in st'.programs && s in st'.programs[q].attached;
    }
  }
}
