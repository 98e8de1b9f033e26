/**
 * What OpenGL itself says about shader and program lifetimes (sections 7.1 and 7.3 of the OpenGL 4.5
 * core specification), written without reference counts: an event has its immediate effect, and then
 * everything that is flagged and no longer held disappears at once.
 */
module GlRules {

  datatype Event =
    | CreateShader(name: nat, kind: nat)
    | DeleteShader(name: nat)
    | CreateProgram(name: nat)
    | DeleteProgram(name: nat)
    | UseProgram(name: nat)
    | AttachShader(program: nat, shader: nat)
    | DetachShader(program: nat, shader: nat)

  datatype Program = Program(flagged: bool, attached: set<nat>)

  datatype Shader = Shader(kind: nat, flagged: bool)

  /** Live programs and shaders with their delete flags, and the program in use. */
  datatype GL = GL(programs: map<nat, Program>, shaders: map<nat, Shader>, current: nat)

  const INITIAL := GL(map[], map[], 0)

  /** The calls GL accepts without an error. Shaders and programs draw names from one pool. */
  predicate Legal(gl: GL, e: Event) {
    match e
    case CreateShader(n, _) => n != 0 && n !in gl.shaders && n !in gl.programs
    case CreateProgram(n) => n != 0 && n !in gl.shaders && n !in gl.programs
    case DeleteShader(n) => n == 0 || n in gl.shaders
    case DeleteProgram(n) => n == 0 || n in gl.programs
    case UseProgram(n) => n == 0 || n in gl.programs
    case AttachShader(p, s) => p in gl.programs && s in gl.shaders && s !in gl.programs[p].attached
    case DetachShader(p, s) => p in gl.programs && s in gl.programs[p].attached
  }

  function Effect(gl: GL, e: Event): GL
    requires Legal(gl, e)
  {
    match e
    case CreateShader(n, kind) => gl.(shaders := gl.shaders[n := Shader(kind, false)])
    case CreateProgram(n) => gl.(programs := gl.programs[n := Program(false, {})])
    case DeleteShader(n) =>
      if n == 0 then gl else gl.(shaders := gl.shaders[n := gl.shaders[n].(flagged := true)])
    case DeleteProgram(n) =>
      if n == 0 then gl else gl.(programs := gl.programs[n := gl.programs[n].(flagged := true)])
    case UseProgram(n) => gl.(current := n)
    case AttachShader(p, s) =>
      gl.(programs := gl.programs[p := gl.programs[p].(attached := gl.programs[p].attached + {s})])
    case DetachShader(p, s) =>
      gl.(programs := gl.programs[p := gl.programs[p].(attached := gl.programs[p].attached - {s})])
  }

  /** A program lives unless it is flagged and not in use. */
  predicate ProgramLives(gl: GL, p: nat) {
    p in gl.programs && !(gl.programs[p].flagged && p != gl.current)
  }

  /** The live programs to which a shader is attached. */
  function Holders(gl: GL, s: nat): set<nat> {
    set p | p in gl.programs && ProgramLives(gl, p) && s in gl.programs[p].attached
  }

  /** A shader lives unless it is flagged and no live program holds it. */
  predicate ShaderLives(gl: GL, s: nat) {
    s in gl.shaders && !(gl.shaders[s].flagged && Holders(gl, s) == {})
  }

  function Collect(gl: GL): GL {
    GL(gl.programs - (set p | p in gl.programs && !ProgramLives(gl, p)),
       gl.shaders - (set s | s in gl.shaders && !ShaderLives(gl, s)),
       gl.current)
  }

  function Step(gl: GL, e: Event): GL
    requires Legal(gl, e)
  {
    Collect(Effect(gl, e))
  }

  predicate LegalRun(gl: GL, events: seq<Event>)
    decreases |events|
  {
    |events| == 0 || (Legal(gl, events[0]) && LegalRun(Step(gl, events[0]), events[1..]))
  }

  function Run(gl: GL, events: seq<Event>): GL
    requires LegalRun(gl, events)
    decreases |events|
  {
    if |events| == 0 then gl else Run(Step(gl, events[0]), events[1..])
  }
}
