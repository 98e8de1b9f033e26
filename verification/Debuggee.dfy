/**
 * The debuggee's end of a session: the break state, the controller that owns the server connection and
 * the history, and the default action that runs before and after every call the program makes.
 */
module Debuggee {
  import opened Wrappers
  import opened SessionModel
  import CallHistory

  /** The table of entry points, with the two kinds of calls that stepping knows, marked on first use. */
  class EntrypointTable {
    const drawCalls: seq<Entrypoint>
    const frameDelimiters: seq<Entrypoint>
    const isDrawCall: array<bool>
    const isFrameDelimiter: array<bool>

    ghost predicate Valid()
      reads isDrawCall, isFrameDelimiter
    {
      && isDrawCall != isFrameDelimiter && isDrawCall.Length == isFrameDelimiter.Length
      && drawCalls != [] && frameDelimiters != []
      && (forall e | e in drawCalls :: e < isDrawCall.Length)
      && (forall e | e in frameDelimiters :: e < isDrawCall.Length)
      && (Unmarked(isDrawCall[..]) || Marked(isDrawCall[..], drawCalls))
      && (Unmarked(isFrameDelimiter[..]) || Marked(isFrameDelimiter[..], frameDelimiters))
    }

    function Kinds(): Kinds {
      SessionModel.Kinds.Kinds(set e | e in drawCalls, set e | e in frameDelimiters)
    }

    constructor (size: nat, drawCalls: seq<Entrypoint>, frameDelimiters: seq<Entrypoint>)
      requires drawCalls != [] && frameDelimiters != []
      requires forall e | e in drawCalls || e in frameDelimiters :: e < size
      ensures Valid() && fresh(isDrawCall) && fresh(isFrameDelimiter)
      ensures this.drawCalls == drawCalls && this.frameDelimiters == frameDelimiters && isDrawCall.Length == size
    {
      this.drawCalls, this.frameDelimiters := drawCalls, frameDelimiters;
      isDrawCall := new bool[size](_ => false);
      isFrameDelimiter := new bool[size](_ => false);
    }

    method IsDrawCall(e: Entrypoint) returns (r: bool)
      requires Valid() && e < isDrawCall.Length
      modifies isDrawCall
      ensures Valid() && r == (e in drawCalls)
    {
      assert drawCalls[0] in drawCalls;
      if !isDrawCall[drawCalls[0]] {
        MarkAll(isDrawCall, drawCalls);
      }
      r := isDrawCall[e];
    }

    method IsFrameDelimiter(e: Entrypoint) returns (r: bool)
      requires Valid() && e < isDrawCall.Length
      modifies isFrameDelimiter
      ensures Valid() && r == (e in frameDelimiters)
    {
      assert frameDelimiters[0] in frameDelimiters;
      if !isFrameDelimiter[frameDelimiters[0]] {
        MarkAll(isFrameDelimiter, frameDelimiters);
      }
      r := isFrameDelimiter[e];
    }
  }

  ghost predicate Unmarked(flags: seq<bool>) {
    forall e | 0 <= e < |flags| :: !flags[e]
  }

  ghost predicate Marked(flags: seq<bool>, entries: seq<Entrypoint>) {
    forall e | 0 <= e < |flags| :: flags[e] <==> e in entries
  }

  method MarkAll(flags: array<bool>, entries: seq<Entrypoint>)
    requires Unmarked(flags[..]) && forall e | e in entries :: e < flags.Length
    modifies flags
    ensures Marked(flags[..], entries)
  {
    for i := 0 to |entries|
      invariant Marked(flags[..], entries[..i])
    {
      assert entries[i] in entries;
      flags[entries[i]] := true;
    }
    assert entries[..|entries|] == entries;
  }

  class BreakState {
    var brk: bool
    var breakingEnabled: bool
    var stepModeEnabled: bool
    var stepMode: StepMode
    var breakPoints: set<Entrypoint>

    function State(): Breaks
      reads this
    {
      Breaks(brk, breakingEnabled, stepModeEnabled, stepMode, breakPoints)
    }

    constructor ()
      ensures State() == INITIAL_BREAKS
    {
      brk, breakingEnabled, stepModeEnabled, stepMode, breakPoints := true, false, false, STEP_CALL, {};
    }

    method SetEnabled(enabled: bool)
      modifies this`breakingEnabled
      ensures State() == old(State()).(enabled := enabled)
    {
      breakingEnabled := enabled;
    }

    method SetBreak()
      modifies this`brk
      ensures State() == SessionModel.SetBreak(old(State()))
    {
      if breakingEnabled {
        brk := true;
      }
    }

    predicate IsBreaked()
      reads this
    {
      brk && breakingEnabled
    }

    method MayBreakAt(e: Entrypoint, table: EntrypointTable) returns (breaked: bool)
      requires table.Valid() && e < table.isDrawCall.Length
      modifies this`brk, table.isDrawCall, table.isFrameDelimiter
      ensures table.Valid()
      ensures State() == Reach(table.Kinds(), old(State()), e)
      ensures var hit := e in breakPoints || (stepModeEnabled &&
          ((stepMode == STEP_CALL)
           || (stepMode == STEP_DRAW_CALL && e in table.drawCalls)
           || (stepMode == STEP_FRAME && e in table.frameDelimiters)));
        && brk == (old(brk) || (breakingEnabled && hit))
        && breaked == (breakingEnabled && (old(brk) || hit))
    {
      if stepModeEnabled {
        match stepMode
        case STEP_CALL => SetBreak();
        case STEP_DRAW_CALL =>
          var draws := table.IsDrawCall(e);
          if draws { SetBreak(); }
        case STEP_FRAME =>
          var ends := table.IsFrameDelimiter(e);
          if ends { SetBreak(); }
      }
      if e in breakPoints {
        SetBreak();
      }
      breaked := IsBreaked();
    }

    method HandleContinue(breaked: bool, stepping: bool, mode: StepMode)
      modifies this`brk, this`stepModeEnabled, this`stepMode
      ensures State() == Continue(old(State()), breaked, stepping, mode)
    {
      brk := breaked;
      if !brk {
        stepModeEnabled := stepping;
        if stepModeEnabled {
          stepMode := mode;
        }
      }
    }

    method HandleBreakPoints(points: set<Entrypoint>)
      modifies this`breakPoints
      ensures State() == old(State()).(points := points)
    {
      breakPoints := points;
    }
  }

  function EntriesOf(calls: seq<CallHistory.Called>): (es: seq<Entrypoint>)
    ensures |es| == |calls|
  {
    seq(|calls|, i requires 0 <= i < |calls| => calls[i].entry)
  }

  class Controller {
    const mode: ListenMode
    const table: EntrypointTable
    const breaks: BreakState
    const history: CallHistory.CallHistory
    var config: Config
    var disconnected: bool
    var connection: Connection
    /** What has been sent to the debugger. */
    var log: seq<Sent>

    ghost function State(): State
      reads this, breaks, history
    {
      SessionModel.State.State(breaks.State(), config, disconnected, connection, EntriesOf(history.all), log)
    }

    ghost predicate Valid()
      reads this, breaks, history, table.isDrawCall, table.isFrameDelimiter
    {
      table.Valid() && history.Valid() && Sound(State())
    }

    constructor (mode: ListenMode, table: EntrypointTable, config: Config)
      requires table.Valid()
      ensures Valid() && this.mode == mode && this.table == table && fresh(breaks) && fresh(history)
      ensures State() == SessionModel.State.State(INITIAL_BREAKS, config, false, Closed, [], [])
    {
      this.mode, this.table, this.config := mode, table, config;
      breaks := new BreakState();
      history := new CallHistory.CallHistory();
      disconnected, connection, log := false, Closed, [];
    }

    /** Only a connected transport can take a message. */
    method SendMessage(message: Sent)
      requires connection == Connected
      modifies this`log
      ensures log == old(log) + [message]
    {
      log := log + [message];
    }

    method HandleInput(input: Input)
      requires Valid()
      modifies this, breaks
      ensures Valid() && State() == Handle(old(State()), input)
    {
      match input
      case Connect =>
        if connection == Listening {
          connection := Connected;
          breaks.SetEnabled(true);
          SendMessage(Hello);
        }
      case Drop =>
        if connection != Closed { disconnected := true; }
      case ContinueBreak(breaked, stepping, mode) =>
        if connection == Connected { breaks.HandleContinue(breaked, stepping, mode); }
      case SetBreakPoints(points) =>
        if connection == Connected { breaks.HandleBreakPoints(points); }
      case Configure(c) =>
        if connection == Connected { config := c; }
      case Other =>
    }

    /** Opens the server if there is none; when breaks are pending or the mode says so, waits for a debugger. */
    method GetServer(w: World) returns (w': World, stuck: bool)
      requires Valid()
      modifies this, breaks
      ensures Valid() && (State(), w', stuck) == SessionModel.GetServer(mode, old(State()), w)
    {
      w', stuck := w, false;
      if mode != NO_LISTEN && connection == Closed {
        var wait := mode == LISTEN_AND_WAIT || breaks.IsBreaked();
        connection := Listening;
        if wait {
          if w.accepts == [] {
            stuck := true;
          } else {
            HandleInput(if w.accepts[0] then Connect else Drop);
            w' := w.(accepts := w.accepts[1..]);
          }
        }
      }
    }

    method OnConnectionLost()
      requires Valid() && disconnected
      modifies this, breaks
      ensures Valid() && State() == Recover(old(State()))
    {
      disconnected := false;
      connection := Closed;
      breaks.SetEnabled(false);
    }

    method Poll(w: World) returns (w': World, stuck: bool)
      requires Valid()
      modifies this, breaks
      ensures Valid() && (State(), w', stuck) == SessionModel.Poll(mode, old(State()), w)
    {
      w', stuck := GetServer(w);
      if !stuck {
        ghost var s1 := State();
        var batch := NextBatch(w');
        for i := 0 to |batch|
          invariant Valid() && State() == HandleAll(s1, batch[..i])
        {
          assert batch[..i + 1][..i] == batch[..i];
          HandleInput(batch[i]);
        }
        assert batch[..|batch|] == batch;
        w' := w'.(batches := if w'.batches == [] then [] else w'.batches[1..]);
        if disconnected {
          OnConnectionLost();
        }
      }
    }

    /** Takes one input while the program is stopped. */
    method RunOne(input: Input) returns (newConnection: bool)
      requires Valid() && connection != Closed
      modifies this, breaks
      ensures Valid()
      ensures newConnection == Handle(old(State()), input).disconnected
      ensures State() == Recover(Handle(old(State()), input))
    {
      HandleInput(input);
      newConnection := disconnected;
      if disconnected {
        OnConnectionLost();
      }
    }

    /** Iterates until someone lets the program go, or the connection is lost. */
    method WaitWhileBreaked(w: World) returns (w': World, outcome: Outcome)
      requires Valid()
      modifies this, breaks
      ensures Valid() && (State(), w', outcome) == Wait(old(State()), w)
    {
      w' := w;
      while breaks.IsBreaked()
        invariant Valid() && Wait(State(), w') == Wait(old(State()), w)
        decreases |w'.singles|
      {
        if w'.singles == [] {
          return w', Stuck;
        }
        var input := w'.singles[0];
        w' := w'.(singles := w'.singles[1..]);
        var newConnection := RunOne(input);
        if newConnection {
          return w', Reconnect;
        }
      }
      outcome := Released;
    }

    /** One pass of the loop before a call: poll, announce a stop if one is due, and wait it out. */
    method Attempt(w: World, e: Entrypoint) returns (w': World, outcome: Outcome)
      requires Valid() && e < table.isDrawCall.Length
      modifies this, breaks, table.isDrawCall, table.isFrameDelimiter
      ensures Valid()
      ensures (State(), w', outcome) == SessionModel.Attempt(mode, table.Kinds(), old(State()), w, e)
      ensures outcome == Reconnect ==> |w'.singles| < |w.singles|
    {
      var stuck;
      w', stuck := Poll(w);
      if stuck { return w', Stuck; }
      var breaked := breaks.MayBreakAt(e, table);
      if breaked {
        SendMessage(BreakedCall(e, |history.cb|));
      }
      w', outcome := WaitWhileBreaked(w');
    }

    /** The default action before a call. False if the program never gets past it. */
    method Pre(w: World, e: Entrypoint, args: seq<int>) returns (w': World, passed: bool)
      requires Valid() && e < table.isDrawCall.Length
      modifies this, breaks, history, table.isDrawCall, table.isFrameDelimiter
      ensures Valid() && (State(), w', passed) == Before(mode, table.Kinds(), old(State()), w, e)
      ensures passed ==> history.cb != [] && history.cb[|history.cb| - 1] == CallHistory.Called(e, args, None, 0, "")
    {
      ghost var kinds, calls := table.Kinds(), State().calls;
      ghost var goal := Before(mode, kinds, State(), w, e);
      var outcome := Reconnect;
      w' := w;
      while outcome == Reconnect
        invariant Valid() && history.all == old(history.all)
        invariant outcome == Reconnect ==> Before(mode, kinds, State(), w', e) == goal
        invariant outcome == Stuck ==> (State(), w', false) == goal
        invariant outcome == Released ==> (State().(calls := calls + [e]), w', true) == goal
        decreases if outcome == Reconnect then |w'.singles| + 1 else 0
      {
        w', outcome := Attempt(w', e);
      }
      passed := outcome == Released;
      if passed {
        history.Add(CallHistory.Called(e, args, None, 0, ""));
        assert EntriesOf(history.all) == calls + [e];
      }
    }

    method RecordDebugOutput(message: string)
      requires Valid() && history.cb != []
      modifies breaks`brk, history
      ensures Valid() && history.cb != [] && Recorded(old(history.all), history.all, Some(message), 0, None)
      ensures breaks.brk == (old(breaks.brk) || (breaks.breakingEnabled && config.onDebugOutput))
    {
      history.SetDebugOutput(message);
      if config.onDebugOutput { breaks.SetBreak(); }
    }

    method RecordError(error: nat)
      requires Valid() && history.cb != [] && error != 0
      modifies breaks`brk, history
      ensures Valid() && history.cb != [] && Recorded(old(history.all), history.all, None, error, None)
      ensures breaks.brk == (old(breaks.brk) || (breaks.breakingEnabled && config.onGLError))
    {
      history.SetError(error);
      if config.onGLError { breaks.SetBreak(); }
    }

    method RecordResult(ret: int)
      requires Valid() && history.cb != []
      modifies history
      ensures Valid() && history.cb != [] && Recorded(old(history.all), history.all, None, 0, Some(ret))
    {
      history.SetRetVal(ret);
    }

    /** The outcomes of a call go into the history with it, and may be a reason to stop. */
    method RecordAll(debugOutput: Option<string>, glError: nat, ret: Option<int>)
      requires Valid() && history.cb != []
      modifies breaks`brk, history
      ensures Valid() && State() == After(old(State()), Aftermath(debugOutput.Some?, glError != 0, false))
      ensures breaks.brk == (old(breaks.brk) || (breaks.breakingEnabled &&
        ((debugOutput.Some? && config.onDebugOutput) || (glError != 0 && config.onGLError))))
      ensures Recorded(old(history.all), history.all, debugOutput, glError, ret)
    {
      ghost var before := history.all;
      NothingRecorded(before);
      if debugOutput.Some? { RecordDebugOutput(debugOutput.value); }
      ghost var after1 := history.all;
      if glError != 0 { RecordError(glError); }
      ghost var after2 := history.all;
      RecordedBoth(before, after1, after2, debugOutput, 0, None, None, glError, None);
      if ret.Some? { RecordResult(ret.value); }
      RecordedBoth(before, after2, history.all, debugOutput, glError, None, None, 0, ret);
      RecordedEntries(before, history.all, debugOutput, glError, ret);
    }

    /** The default action after a call: the server is opened again if it was lost, and then outcomes are judged. */
    method Post(w: World, debugOutput: Option<string>, glError: nat, ret: Option<int>) returns (w': World, stuck: bool)
      requires Valid() && history.cb != []
      modifies this, breaks, history
      ensures Valid()
      ensures var (s1, w1, waits) := SessionModel.GetServer(mode, old(State()), w);
        && w' == w1 && stuck == waits
        && State() == if waits then s1 else After(s1, Aftermath(debugOutput.Some?, glError != 0, false))
      ensures if stuck then history.all == old(history.all)
              else Recorded(old(history.all), history.all, debugOutput, glError, ret)
    {
      w', stuck := GetServer(w);
      if !stuck { RecordAll(debugOutput, glError, ret); }
    }

    /** A failed compilation or link, seen by the action of the call before the default one runs. */
    method CompilerError()
      requires Valid()
      modifies breaks`brk
      ensures Valid() && State() == After(old(State()), Aftermath(false, false, true))
      ensures breaks.brk == (old(breaks.brk) || (breaks.breakingEnabled && config.onCompilerError))
    {
      if config.onCompilerError {
        breaks.SetBreak();
      }
    }

    /** What follows a call: the actions above the default one first, then that. */
    method LeaveBehind(w: World, a: Aftermath) returns (w': World, stuck: bool)
      requires Valid() && history.cb != []
      modifies this, breaks, history
      ensures Valid() && (State(), w', stuck) == Return(mode, old(State()), w, a)
    {
      if a.compilerError { CompilerError(); }
      w', stuck := Post(w, if a.debugOutput then Some("") else None, if a.glError then 1 else 0, None);
    }

    /** One call: what comes before it, and if the program gets past that, what comes after. */
    method MakeCall(w: World, call: Call) returns (w': World, passed: bool, stuck: bool)
      requires Valid() && call.entry < table.isDrawCall.Length
      modifies this, breaks, history, table.isDrawCall, table.isFrameDelimiter
      ensures Valid()
      ensures var (s1, w1, gotPast) := Before(mode, table.Kinds(), old(State()), w, call.entry);
        && passed == gotPast
        && (State(), w', stuck) == if gotPast then Return(mode, s1, w1, call.aftermath) else (s1, w1, false)
    {
      stuck := false;
      w', passed := Pre(w, call.entry, []);
      if passed { w', stuck := LeaveBehind(w', call.aftermath); }
    }

    /** A whole program under the debugger: it makes its calls until one of them is held for good. */
    method RunProgram(w: World, calls: seq<Call>) returns (w': World, n: nat)
      requires Valid() && forall i | 0 <= i < |calls| :: calls[i].entry < table.isDrawCall.Length
      modifies this, breaks, history, table.isDrawCall, table.isFrameDelimiter
      ensures Valid() && (State(), w', n) == RunCalls(mode, table.Kinds(), old(State()), w, calls)
      decreases |calls|
    {
      n, w' := 0, w;
      if calls == [] { return; }
      ghost var kinds, s := table.Kinds(), State();
      ghost var before := Before(mode, kinds, s, w, calls[0].entry);
      var passed, stuck;
      w', passed, stuck := MakeCall(w, calls[0]);
      if !passed {
        RunStops(mode, kinds, s, w, calls, before.0, before.1);
      } else if stuck {
        RunSticks(mode, kinds, s, w, calls, before.0, before.1, State(), w');
        n := 1;
      } else {
        RunPasses(mode, kinds, s, w, calls, before.0, before.1, State(), w');
        w', n := RunProgram(w', calls[1..]);
        n := n + 1;
      }
    }
  }

  /** The latest call has these outcomes, where there are any; all else in the history is as it was. */
  ghost predicate Recorded(before: seq<CallHistory.Called>, after: seq<CallHistory.Called>,
                           debugOutput: Option<string>, glError: nat, ret: Option<int>) {
    && |after| == |before| > 0 && after[..|after| - 1] == before[..|before| - 1]
    && var was, now := before[|before| - 1], after[|after| - 1];
      && now.entry == was.entry && now.args == was.args
      && (debugOutput.Some? ==> now.debugOutput == debugOutput.value)
      && (debugOutput.None? ==> now.debugOutput == was.debugOutput)
      && (glError != 0 ==> now.error == glError) && (glError == 0 ==> now.error == was.error)
      && (ret.Some? ==> now.retVal == ret) && (ret.None? ==> now.retVal == was.retVal)
  }

  lemma NothingRecorded(calls: seq<CallHistory.Called>)
    requires calls != []
    ensures Recorded(calls, calls, None, 0, None)
  {
  }

  /** One outcome after the other. */
  lemma RecordedBoth(a: seq<CallHistory.Called>, b: seq<CallHistory.Called>, c: seq<CallHistory.Called>,
                     output1: Option<string>, error1: nat, ret1: Option<int>,
                     output2: Option<string>, error2: nat, ret2: Option<int>)
    requires Recorded(a, b, output1, error1, ret1)
    requires Recorded(b, c, output2, error2, ret2) || (c == b && output2.None? && error2 == 0 && ret2.None?)
    ensures Recorded(a, c, if output2.Some? then output2 else output1, if error2 != 0 then error2 else error1,
                     if ret2.Some? then ret2 else ret1)
  {
  }

  lemma RecordedEntries(before: seq<CallHistory.Called>, after: seq<CallHistory.Called>,
                        debugOutput: Option<string>, glError: nat, ret: Option<int>)
    requires Recorded(before, after, debugOutput, glError, ret)
    ensures EntriesOf(after) == EntriesOf(before)
  {
    forall i | 0 <= i < |before| ensures after[i].entry == before[i].entry {
      if i < |before| - 1 { assert after[..|after| - 1][i] == before[..|before| - 1][i]; }
    }
  }
}
