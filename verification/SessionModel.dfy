/**
 * The debuggee's side of a session as a function of its state and of what the connection brings: when a
 * call stops the program, what is announced, and what a lost connection leaves behind. The methods of
 * `Debuggee` are proved to compute these functions; here they are shown to do what a debugger promises.
 */
module SessionModel {
  import CallHistory

  type Entrypoint = nat

  datatype StepMode = STEP_CALL | STEP_DRAW_CALL | STEP_FRAME

  /** Which entry points draw, and which end a frame. */
  datatype Kinds = Kinds(drawCalls: set<Entrypoint>, frameDelimiters: set<Entrypoint>)

  datatype Breaks = Breaks(
    pending: bool,
    enabled: bool,
    stepping: bool,
    mode: StepMode,
    points: set<Entrypoint>)

  /** A break is always pending at first, and masked until a connection is made. */
  const INITIAL_BREAKS := Breaks(true, false, false, STEP_CALL, {})

  datatype Config = Config(onGLError: bool, onDebugOutput: bool, onCompilerError: bool)

  predicate IsBreaked(b: Breaks) {
    b.pending && b.enabled
  }

  function SetBreak(b: Breaks): Breaks {
    if b.enabled then b.(pending := true) else b
  }

  /** The step mode asks to stop at this entry point, or there is a breakpoint on it. */
  predicate Wanted(kinds: Kinds, b: Breaks, e: Entrypoint) {
    || (b.stepping && match b.mode {
          case STEP_CALL => true
          case STEP_DRAW_CALL => e in kinds.drawCalls
          case STEP_FRAME => e in kinds.frameDelimiters
        })
    || e in b.points
  }

  function Reach(kinds: Kinds, b: Breaks, e: Entrypoint): Breaks {
    if Wanted(kinds, b, e) then SetBreak(b) else b
  }

  function Continue(b: Breaks, breaked: bool, stepping: bool, mode: StepMode): Breaks {
    if breaked then b.(pending := true)
    else b.(pending := false, stepping := stepping, mode := if stepping then mode else b.mode)
  }

  // ---- The controller -------------------------------------------------------------------------------

  datatype Connection = Closed | Listening | Connected

  datatype ListenMode = NO_LISTEN | LISTEN | LISTEN_AND_WAIT

  /** What the connection brings. */
  datatype Input =
    | Connect
    | Drop
    | ContinueBreak(breaked: bool, stepping: bool, mode: StepMode)
    | SetBreakPoints(points: set<Entrypoint>)
    | Configure(config: Config)
    | Other

  /** What is sent to the debugger. */
  datatype Sent = Hello | BreakedCall(entry: Entrypoint, traceSize: nat)

  datatype State = State(
    breaks: Breaks,
    config: Config,
    disconnected: bool,
    connection: Connection,
    calls: seq<Entrypoint>,
    log: seq<Sent>)

  function HistorySize(calls: seq<Entrypoint>): nat {
    if |calls| < CallHistory.CALL_HISTORY_LEN then |calls| else CallHistory.CALL_HISTORY_LEN
  }

  /**
   * What the outside world has in store: a batch of inputs for each poll, single inputs for each blocking
   * wait, and for each blocking accept whether it succeeds. A program that waits when there is nothing
   * left waits for good.
   */
  datatype World = World(batches: seq<seq<Input>>, singles: seq<Input>, accepts: seq<bool>)

  function Handle(s: State, input: Input): State {
    match input
    case Connect =>
      if s.connection == Listening
      then s.(connection := Connected, breaks := s.breaks.(enabled := true), log := s.log + [Hello])
      else s
    case Drop => if s.connection == Closed then s else s.(disconnected := true)
    case ContinueBreak(breaked, stepping, mode) =>
      if s.connection == Connected then s.(breaks := Continue(s.breaks, breaked, stepping, mode)) else s
    case SetBreakPoints(points) =>
      if s.connection == Connected then s.(breaks := s.breaks.(points := points)) else s
    case Configure(config) => if s.connection == Connected then s.(config := config) else s
    case Other => s
  }

  function HandleAll(s: State, inputs: seq<Input>): State {
    if inputs == [] then s else Handle(HandleAll(s, inputs[..|inputs| - 1]), inputs[|inputs| - 1])
  }

  /** A lost connection is closed and breaking is masked, but a pending break stays pending. */
  function Recover(s: State): State {
    if s.disconnected
    then s.(disconnected := false, connection := Closed, breaks := s.breaks.(enabled := false))
    else s
  }

  /** Opens the server if it is not open; `stuck` if it waits for a connection that never comes. */
  function GetServer(mode: ListenMode, s: State, w: World): (State, World, bool) {
    if mode == NO_LISTEN || s.connection != Closed then (s, w, false)
    else
      var listening := s.(connection := Listening);
      if mode == LISTEN_AND_WAIT || IsBreaked(s.breaks) then
        if w.accepts == [] then (listening, w, true)
        else (Handle(listening, if w.accepts[0] then Connect else Drop), w.(accepts := w.accepts[1..]), false)
      else (listening, w, false)
  }

  function NextBatch(w: World): seq<Input> {
    if w.batches == [] then [] else w.batches[0]
  }

  function Poll(mode: ListenMode, s: State, w: World): (State, World, bool) {
    var (s1, w1, stuck) := GetServer(mode, s, w);
    if stuck then (s1, w1, true)
    else
      var w2 := w1.(batches := if w1.batches == [] then [] else w1.batches[1..]);
      (Recover(HandleAll(s1, NextBatch(w1))), w2, false)
  }

  datatype Outcome = Released | Reconnect | Stuck

  /** While stopped, the program takes one input after the other. */
  function Wait(s: State, w: World): (r: (State, World, Outcome))
    ensures |r.1.singles| <= |w.singles|
    ensures r.2 == Reconnect ==> |r.1.singles| < |w.singles|
    decreases |w.singles|
  {
    if !IsBreaked(s.breaks) then (s, w, Released)
    else if w.singles == [] then (s, w, Stuck)
    else
      var s1, w1 := Handle(s, w.singles[0]), w.(singles := w.singles[1..]);
      if s1.disconnected then (Recover(s1), w1, Reconnect) else Wait(s1, w1)
  }

  function Announce(s: State, e: Entrypoint): State {
    if IsBreaked(s.breaks) then s.(log := s.log + [BreakedCall(e, HistorySize(s.calls))]) else s
  }

  /** One pass: poll, stop if a break is pending, and if so wait. */
  function Attempt(mode: ListenMode, kinds: Kinds, s: State, w: World, e: Entrypoint): (r: (State, World, Outcome))
    ensures r.2 == Reconnect ==> |r.1.singles| < |w.singles|
  {
    var (s1, w1, stuck) := Poll(mode, s, w);
    if stuck then (s1, w1, Stuck)
    else Wait(Announce(s1.(breaks := Reach(kinds, s1.breaks, e)), e), w1)
  }

  /** What happens before a call is made; false if the program never gets past this point. */
  function Before(mode: ListenMode, kinds: Kinds, s: State, w: World, e: Entrypoint): (State, World, bool)
    decreases |w.singles|
  {
    var (s1, w1, outcome) := Attempt(mode, kinds, s, w, e);
    match outcome
    case Stuck => (s1, w1, false)
    case Reconnect => Before(mode, kinds, s1, w1, e)
    case Released => (s1.(calls := s1.calls + [e]), w1, true)
  }

  /** What a call has left behind by the time it returns. */
  datatype Aftermath = Aftermath(debugOutput: bool, glError: bool, compilerError: bool)

  predicate Raises(config: Config, a: Aftermath) {
    || (a.debugOutput && config.onDebugOutput)
    || (a.glError && config.onGLError)
    || (a.compilerError && config.onCompilerError)
  }

  function After(s: State, a: Aftermath): State {
    if Raises(s.config, a) then s.(breaks := SetBreak(s.breaks)) else s
  }

  /** The reasons to stop that two parts of an aftermath give add up. */
  lemma AfterBoth(s: State, a: Aftermath, b: Aftermath)
    ensures After(After(s, a), b) == After(s, Aftermath(
      a.debugOutput || b.debugOutput, a.glError || b.glError, a.compilerError || b.compilerError))
  {
  }

  /**
   * What happens after a call was made: a failed compilation is seen first, then the server is opened if it is
   * not open, and only then the other outcomes are judged. True if the program is stuck waiting for a connection.
   */
  function Return(mode: ListenMode, s: State, w: World, a: Aftermath): (State, World, bool) {
    var (s1, w1, stuck) := GetServer(mode, After(s, Aftermath(false, false, a.compilerError)), w);
    if stuck then (s1, w1, true) else (After(s1, Aftermath(a.debugOutput, a.glError, false)), w1, false)
  }

  /** With a server that is open, the outcome of a call is judged at once. */
  lemma ReturnIsAfter(mode: ListenMode, s: State, w: World, a: Aftermath)
    requires mode == NO_LISTEN || s.connection != Closed
    ensures Return(mode, s, w, a) == (After(s, a), w, false)
  {
    AfterBoth(s, Aftermath(false, false, a.compilerError), Aftermath(a.debugOutput, a.glError, false));
  }

  datatype Call = Call(entry: Entrypoint, aftermath: Aftermath)

  /** The program makes these calls one after the other; the last result is how many got past their stop. */
  function RunCalls(mode: ListenMode, kinds: Kinds, s: State, w: World, calls: seq<Call>): (State, World, nat)
    decreases |calls|
  {
    if calls == [] then (s, w, 0)
    else
      var (s1, w1, passed) := Before(mode, kinds, s, w, calls[0].entry);
      if !passed then (s1, w1, 0)
      else
        var (s2, w2, stuck) := Return(mode, s1, w1, calls[0].aftermath);
        if stuck then (s2, w2, 1)
        else
          var (s3, w3, n) := RunCalls(mode, kinds, s2, w2, calls[1..]);
          (s3, w3, n + 1)
  }

  // ---- What every step keeps -----------------------------------------------------------------------

  /** Breaking is enabled exactly while there is a debugger on the line. */
  predicate Sound(s: State) {
    s.breaks.enabled <==> s.connection == Connected
  }

  lemma {:induction false} HandleAllKeepsSound(s: State, inputs: seq<Input>)
    requires Sound(s)
    ensures Sound(HandleAll(s, inputs)) && HandleAll(s, inputs).calls == s.calls
    ensures s.log <= HandleAll(s, inputs).log
  {
    if inputs != [] {
      HandleAllKeepsSound(s, inputs[..|inputs| - 1]);
    }
  }

  lemma AfterKeepsSound(s: State, a: Aftermath)
    requires Sound(s)
    ensures var s' := After(s, a);
      Sound(s') && s'.calls == s.calls && s'.log == s.log && (s.breaks.pending ==> s'.breaks.pending)
  {
  }

  lemma GetServerKeepsSound(mode: ListenMode, s: State, w: World)
    requires Sound(s)
    ensures var (s', w', stuck) := GetServer(mode, s, w);
      && Sound(s') && s'.calls == s.calls && s.log <= s'.log && s'.breaks.pending == s.breaks.pending
      && w' == w.(accepts := w'.accepts)
  {
  }

  lemma ReturnKeepsSound(mode: ListenMode, s: State, w: World, a: Aftermath)
    requires Sound(s)
    ensures var (s', w', stuck) := Return(mode, s, w, a);
      && Sound(s') && s'.calls == s.calls && s.log <= s'.log
      && w' == w.(accepts := w'.accepts) && (s.breaks.pending ==> s'.breaks.pending)
  {
    var s1 := After(s, Aftermath(false, false, a.compilerError));
    AfterKeepsSound(s, Aftermath(false, false, a.compilerError));
    GetServerKeepsSound(mode, s1, w);
    AfterKeepsSound(GetServer(mode, s1, w).0, Aftermath(a.debugOutput, a.glError, false));
  }

  lemma PollKeepsSound(mode: ListenMode, s: State, w: World)
    requires Sound(s)
    ensures var (s', w', stuck) := Poll(mode, s, w);
      Sound(s') && s'.calls == s.calls && s.log <= s'.log && w'.singles == w.singles
  {
    var (s1, w1, stuck) := GetServer(mode, s, w);
    if !stuck { HandleAllKeepsSound(s1, NextBatch(w1)); }
  }

  lemma {:induction false} WaitKeepsSound(s: State, w: World)
    requires Sound(s)
    ensures var (s', w', outcome) := Wait(s, w);
      && Sound(s') && s'.calls == s.calls && s.log <= s'.log
      && (outcome == Released ==> !IsBreaked(s'.breaks))
      && (outcome == Stuck ==> IsBreaked(s'.breaks))
    decreases |w.singles|
  {
    if IsBreaked(s.breaks) && w.singles != [] {
      var s1, w1 := Handle(s, w.singles[0]), w.(singles := w.singles[1..]);
      if !s1.disconnected { WaitKeepsSound(s1, w1); }
    }
  }

  /**
   * However often the connection is lost and made again while a call waits: the call enters the history
   * once if it is made and not at all if it is not, and it is never made while the program is stopped.
   */
  lemma {:induction false} BeforeMakesTheCallOnce(mode: ListenMode, kinds: Kinds, s: State, w: World, e: Entrypoint)
    requires Sound(s)
    ensures var (s', w', passed) := Before(mode, kinds, s, w, e);
      && Sound(s') && s.log <= s'.log
      && s'.calls == (if passed then s.calls + [e] else s.calls)
      && (passed ==> !IsBreaked(s'.breaks))
    decreases |w.singles|
  {
    PollKeepsSound(mode, s, w);
    var (s1, w1, stuck) := Poll(mode, s, w);
    if !stuck {
      var s2 := Announce(s1.(breaks := Reach(kinds, s1.breaks, e)), e);
      WaitKeepsSound(s2, w1);
      var (s3, w3, outcome) := Wait(s2, w1);
      if outcome == Reconnect { BeforeMakesTheCallOnce(mode, kinds, s3, w3, e); }
    }
  }

  // ---- Whole runs, call by call ---------------------------------------------------------------------------

  lemma RunPasses(mode: ListenMode, kinds: Kinds, s: State, w: World, calls: seq<Call>,
                  s1: State, w1: World, s2: State, w2: World)
    requires calls != [] && Before(mode, kinds, s, w, calls[0].entry) == (s1, w1, true)
    requires Return(mode, s1, w1, calls[0].aftermath) == (s2, w2, false)
    ensures var (s3, w3, n) := RunCalls(mode, kinds, s2, w2, calls[1..]);
      RunCalls(mode, kinds, s, w, calls) == (s3, w3, n + 1)
  {
  }

  lemma RunSticks(mode: ListenMode, kinds: Kinds, s: State, w: World, calls: seq<Call>,
                  s1: State, w1: World, s2: State, w2: World)
    requires calls != [] && Before(mode, kinds, s, w, calls[0].entry) == (s1, w1, true)
    requires Return(mode, s1, w1, calls[0].aftermath) == (s2, w2, true)
    ensures RunCalls(mode, kinds, s, w, calls) == (s2, w2, 1)
  {
  }

  lemma RunStops(mode: ListenMode, kinds: Kinds, s: State, w: World, calls: seq<Call>, s1: State, w1: World)
    requires calls != [] && Before(mode, kinds, s, w, calls[0].entry) == (s1, w1, false)
    ensures RunCalls(mode, kinds, s, w, calls) == (s1, w1, 0)
  {
  }

  /** This many calls were made, and nothing that was sent is taken back. */
  ghost predicate Adds(s: State, s': State, calls: seq<Call>, n: nat) {
    n <= |calls| && Sound(s') && s.log <= s'.log && s'.calls == s.calls + Entries(calls[..n])
  }

  lemma AddsOneMore(s: State, s1: State, s': State, calls: seq<Call>, n: nat)
    requires calls != [] && s.log <= s1.log && s1.calls == s.calls + [calls[0].entry]
    requires Adds(s1, s', calls[1..], n)
    ensures Adds(s, s', calls, n + 1)
  {
    EntriesOfOneMore(calls[0], calls[1..][..n]);
    assert calls[..n + 1] == [calls[0]] + calls[1..][..n];
  }

  lemma AddsOnlyOne(s: State, s1: State, calls: seq<Call>)
    requires calls != [] && Sound(s1) && s.log <= s1.log && s1.calls == s.calls + [calls[0].entry]
    ensures Adds(s, s1, calls, 1)
  {
    assert calls[1..][..0] == [];
    AddsOneMore(s, s1, s1, calls, 0);
  }

  /** A run only adds to what was sent and to the calls made. */
  lemma {:induction false} RunAdds(mode: ListenMode, kinds: Kinds, s: State, w: World, calls: seq<Call>)
    requires Sound(s)
    ensures Adds(s, RunCalls(mode, kinds, s, w, calls).0, calls, RunCalls(mode, kinds, s, w, calls).2)
    decreases |calls|
  {
    if calls != [] {
      BeforeMakesTheCallOnce(mode, kinds, s, w, calls[0].entry);
      var (s1, w1, passed) := Before(mode, kinds, s, w, calls[0].entry);
      if passed {
        ReturnKeepsSound(mode, s1, w1, calls[0].aftermath);
        var (s2, w2, stuck) := Return(mode, s1, w1, calls[0].aftermath);
        if stuck {
          RunSticks(mode, kinds, s, w, calls, s1, w1, s2, w2);
          AddsOnlyOne(s, s2, calls);
        } else {
          RunPasses(mode, kinds, s, w, calls, s1, w1, s2, w2);
          RunAdds(mode, kinds, s2, w2, calls[1..]);
          var (s', _, n) := RunCalls(mode, kinds, s2, w2, calls[1..]);
          AddsOneMore(s, s2, s', calls, n);
        }
      } else {
        RunStops(mode, kinds, s, w, calls, s1, w1);
      }
    }
  }

  function Stop(s: State, e: Entrypoint): State {
    s.(breaks := s.breaks.(pending := true), log := s.log + [BreakedCall(e, HistorySize(s.calls))])
  }

  function Pass(s: State, e: Entrypoint): State {
    s.(calls := s.calls + [e])
  }

  function Entries(calls: seq<Call>): seq<Entrypoint> {
    if calls == [] then [] else [calls[0].entry] + Entries(calls[1..])
  }

  lemma EntriesOfOneMore(call: Call, calls: seq<Call>)
    ensures Entries([call] + calls) == [call.entry] + Entries(calls)
  {
    assert ([call] + calls)[1..] == calls;
  }
}
