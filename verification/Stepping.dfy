/**
 * Stopping and stepping while the connection holds: whatever the debugger says and whenever it says it, each
 * stop of a run is at the first call that is due by what was said until then.
 */
module Stepping {
  import opened SessionModel

  // ---- What the debugger has said ---------------------------------------------------------------------------

  predicate LetsGo(input: Input) {
    input.ContinueBreak? && !input.breaked
  }

  predicate NoDrop(inputs: seq<Input>) {
    forall i | 0 <= i < |inputs| :: !inputs[i].Drop?
  }

  function LastBreak(inputs: seq<Input>, pending: bool): bool {
    if inputs == [] then pending
    else LastBreak(inputs[1..], if inputs[0].ContinueBreak? then inputs[0].breaked else pending)
  }

  function LastStepping(inputs: seq<Input>, stepping: bool): bool {
    if inputs == [] then stepping
    else LastStepping(inputs[1..], if LetsGo(inputs[0]) then inputs[0].stepping else stepping)
  }

  function LastMode(inputs: seq<Input>, mode: StepMode): StepMode {
    if inputs == [] then mode
    else LastMode(inputs[1..], if LetsGo(inputs[0]) && inputs[0].stepping then inputs[0].mode else mode)
  }

  function LastPoints(inputs: seq<Input>, points: set<Entrypoint>): set<Entrypoint> {
    if inputs == [] then points
    else LastPoints(inputs[1..], if inputs[0].SetBreakPoints? then inputs[0].points else points)
  }

  function LastConfig(inputs: seq<Input>, config: Config): Config {
    if inputs == [] then config
    else LastConfig(inputs[1..], if inputs[0].Configure? then inputs[0].config else config)
  }

  /** The state after these messages: of each kind of setting the last one counts. */
  function Told(s: State, inputs: seq<Input>): State {
    s.(breaks := Breaks(LastBreak(inputs, s.breaks.pending), s.breaks.enabled,
                        LastStepping(inputs, s.breaks.stepping), LastMode(inputs, s.breaks.mode),
                        LastPoints(inputs, s.breaks.points)),
       config := LastConfig(inputs, s.config))
  }

  lemma {:induction false} ToldTwice(s: State, a: seq<Input>, b: seq<Input>)
    ensures Told(Told(s, a), b) == Told(s, a + b)
    decreases |a|
  {
    if a == [] {
      assert a + b == b && Told(s, a) == s;
    } else {
      assert (a + b)[0] == a[0] && (a + b)[1..] == a[1..] + b;
      ToldTwice(ToldOne(s, a[0]), a[1..], b);
      ToldFirst(s, a);
      ToldFirst(s, a + b);
    }
  }

  /** One message. */
  function ToldOne(s: State, x: Input): State {
    s.(breaks := Breaks(if x.ContinueBreak? then x.breaked else s.breaks.pending, s.breaks.enabled,
                        if LetsGo(x) then x.stepping else s.breaks.stepping,
                        if LetsGo(x) && x.stepping then x.mode else s.breaks.mode,
                        if x.SetBreakPoints? then x.points else s.breaks.points),
       config := if x.Configure? then x.config else s.config)
  }

  lemma ToldFirst(s: State, inputs: seq<Input>)
    requires inputs != []
    ensures Told(s, inputs) == Told(ToldOne(s, inputs[0]), inputs[1..])
  {
  }

  lemma ToldIsOne(s: State, x: Input)
    ensures Told(s, [x]) == ToldOne(s, x)
  {
    ToldFirst(s, [x]);
    assert [x][1..] == [];
  }

  /** A debugger is on the line. */
  predicate Running(s: State) {
    s.connection == Connected && s.breaks.enabled && !s.disconnected
  }

  lemma HandleIsTold(s: State, input: Input)
    requires Running(s) && !input.Drop?
    ensures Handle(s, input) == Told(s, [input])
  {
    ToldIsOne(s, input);
    assert Handle(s, input) == ToldOne(s, input);
  }

  lemma {:induction false} HandleAllIsTold(s: State, inputs: seq<Input>)
    requires Running(s) && NoDrop(inputs)
    ensures HandleAll(s, inputs) == Told(s, inputs)
    decreases |inputs|
  {
    if inputs != [] {
      var front, last := inputs[..|inputs| - 1], inputs[|inputs| - 1];
      HandleAllIsTold(s, front);
      HandleIsTold(Told(s, front), last);
      ToldTwice(s, front, [last]);
      assert front + [last] == inputs;
    }
  }

  // ---- Which calls are due ------------------------------------------------------------------------------------

  function Batch(batches: seq<seq<Input>>, i: nat): seq<Input> {
    if i < |batches| then batches[i] else []
  }

  function From(batches: seq<seq<Input>>, i: nat): seq<seq<Input>> {
    if i <= |batches| then batches[i..] else []
  }

  /** Everything that arrives by the first `n` polls. */
  function Flat(batches: seq<seq<Input>>, n: nat): seq<Input> {
    if n == 0 then [] else Flat(batches, n - 1) + Batch(batches, n - 1)
  }

  ghost predicate NoDrops(batches: seq<seq<Input>>) {
    forall i | 0 <= i < |batches| :: NoDrop(batches[i])
  }

  /**
   * The state in which the program comes to call `i` if it has not stopped before: the settings are what was
   * said so far, and a break is pending if the last call left an enabled reason for one.
   */
  function Ready(s: State, batches: seq<seq<Input>>, calls: seq<Call>, i: nat): State
    requires i <= |calls|
  {
    var t := Told(s, Flat(batches, i));
    var pending := if i == 0 then s.breaks.pending else Raises(t.config, calls[i - 1].aftermath);
    t.(breaks := t.breaks.(pending := pending), calls := s.calls + Entries(calls[..i]))
  }

  /** And after the poll of that call. */
  function Polled(s: State, batches: seq<seq<Input>>, calls: seq<Call>, i: nat): State
    requires i <= |calls|
  {
    Told(Ready(s, batches, calls, i), Batch(batches, i))
  }

  /**
   * The program is due to stop at call `i`: a break is pending, from the call before or because the debugger
   * interrupts, or the call matches the step mode or a breakpoint.
   */
  predicate DueAt(kinds: Kinds, s: State, batches: seq<seq<Input>>, calls: seq<Call>, i: nat)
    requires i < |calls|
  {
    var breaks := Polled(s, batches, calls, i).breaks;
    breaks.pending || Wanted(kinds, breaks, calls[i].entry)
  }

  ghost predicate NoneDue(kinds: Kinds, s: State, batches: seq<seq<Input>>, calls: seq<Call>, n: nat)
    requires n <= |calls|
  {
    forall i | 0 <= i < n :: !DueAt(kinds, s, batches, calls, i)
  }

  /** The first call that is due, or the number of calls if there is none. */
  ghost predicate FirstDue(kinds: Kinds, s: State, batches: seq<seq<Input>>, calls: seq<Call>, n: nat) {
    && n <= |calls| && NoneDue(kinds, s, batches, calls, n)
    && (n < |calls| ==> DueAt(kinds, s, batches, calls, n))
  }

  // ---- One call -----------------------------------------------------------------------------------------------

  function Next(w: World): World {
    w.(batches := From(w.batches, 1))
  }

  lemma PollIsTold(mode: ListenMode, s: State, w: World)
    requires Running(s) && NoDrop(Batch(w.batches, 0))
    ensures Poll(mode, s, w) == (Told(s, Batch(w.batches, 0)), Next(w), false)
  {
    HandleAllIsTold(s, NextBatch(w));
    if w.batches == [] { assert Next(w) == w; }
  }

  /** A call that is not due goes by unnoticed. */
  lemma CallPasses(mode: ListenMode, kinds: Kinds, s: State, w: World, e: Entrypoint)
    requires Running(s) && NoDrop(Batch(w.batches, 0))
    requires var t := Told(s, Batch(w.batches, 0)); !t.breaks.pending && !Wanted(kinds, t.breaks, e)
    ensures Before(mode, kinds, s, w, e) == (Pass(Told(s, Batch(w.batches, 0)), e), Next(w), true)
  {
    PollIsTold(mode, s, w);
  }

  /** A call that is due is announced, and then the program waits. */
  lemma CallStops(mode: ListenMode, kinds: Kinds, s: State, w: World, e: Entrypoint)
    requires Running(s) && NoDrop(Batch(w.batches, 0))
    requires var t := Told(s, Batch(w.batches, 0)); t.breaks.pending || Wanted(kinds, t.breaks, e)
    ensures Attempt(mode, kinds, s, w, e) == Wait(Stop(Told(s, Batch(w.batches, 0)), e), Next(w))
  {
    PollIsTold(mode, s, w);
    var t := Told(s, Batch(w.batches, 0));
    assert Reach(kinds, t.breaks, e) == t.breaks.(pending := true);
  }

  lemma EntriesSum(calls: seq<Call>, i: nat)
    requires i < |calls|
    ensures Entries(calls[..i + 1]) == Entries(calls[..i]) + [calls[i].entry]
    decreases i
  {
    if i == 0 {
      assert calls[..1] == [calls[0]] + [] && calls[..0] == [];
      EntriesOfOneMore(calls[0], []);
    } else {
      EntriesSum(calls[1..], i - 1);
      assert calls[..i + 1] == [calls[0]] + calls[1..][..i] && calls[..i] == [calls[0]] + calls[1..][..i - 1];
      EntriesOfOneMore(calls[0], calls[1..][..i]);
      EntriesOfOneMore(calls[0], calls[1..][..i - 1]);
    }
  }

  /** A call that was not due leaves the program ready for the next. */
  lemma ReadyNext(kinds: Kinds, s: State, batches: seq<seq<Input>>, calls: seq<Call>, n: nat)
    requires Running(s) && 0 < n <= |calls| && !DueAt(kinds, s, batches, calls, n - 1)
    ensures After(Pass(Polled(s, batches, calls, n - 1), calls[n - 1].entry), calls[n - 1].aftermath) ==
            Ready(s, batches, calls, n)
  {
    MadeOneMore(s, calls, n);
    AfterPolled(kinds, s, batches, calls, n);
    ReadyIs(s, batches, calls, n);
  }

  lemma MadeOneMore(s: State, calls: seq<Call>, n: nat)
    requires 0 < n <= |calls|
    ensures s.calls + Entries(calls[..n - 1]) + [calls[n - 1].entry] == s.calls + Entries(calls[..n])
  {
    EntriesSum(calls, n - 1);
  }

  lemma AfterPolled(kinds: Kinds, s: State, batches: seq<seq<Input>>, calls: seq<Call>, n: nat)
    requires Running(s) && 0 < n <= |calls| && !DueAt(kinds, s, batches, calls, n - 1)
    ensures var u, call := Told(s, Flat(batches, n)), calls[n - 1];
      After(Pass(Polled(s, batches, calls, n - 1), call.entry), call.aftermath) ==
      u.(breaks := u.breaks.(pending := Raises(u.config, call.aftermath)),
         calls := s.calls + Entries(calls[..n - 1]) + [call.entry])
  {
    SameSettings(s, batches, calls, n);
    AfterPass(Polled(s, batches, calls, n - 1), Told(s, Flat(batches, n)), calls[n - 1].entry, calls[n - 1].aftermath,
              s.calls + Entries(calls[..n - 1]));
  }

  lemma ReadyIs(s: State, batches: seq<seq<Input>>, calls: seq<Call>, n: nat)
    requires 0 < n <= |calls|
    ensures var u := Told(s, Flat(batches, n));
      Ready(s, batches, calls, n) ==
      u.(breaks := u.breaks.(pending := Raises(u.config, calls[n - 1].aftermath)),
         calls := s.calls + Entries(calls[..n]))
  {
  }

  lemma AfterPass(t: State, u: State, e: Entrypoint, a: Aftermath, made: seq<Entrypoint>)
    requires u.breaks.enabled && t.breaks == u.breaks.(pending := false)
    requires t == u.(breaks := t.breaks, calls := made)
    ensures After(Pass(t, e), a) == u.(breaks := u.breaks.(pending := Raises(u.config, a)), calls := made + [e])
  {
  }

  /** Apart from the pending break and the calls made, the settings after a poll are all that was said. */
  lemma SameSettings(s: State, batches: seq<seq<Input>>, calls: seq<Call>, n: nat)
    requires 0 < n <= |calls|
    ensures var t, u := Polled(s, batches, calls, n - 1), Told(s, Flat(batches, n));
      && t.breaks == u.breaks.(pending := t.breaks.pending) && t.config == u.config
      && t == u.(breaks := t.breaks, calls := s.calls + Entries(calls[..n - 1]))
  {
    ToldTwice(s, Flat(batches, n - 1), Batch(batches, n - 1));
  }

  // ---- Up to the first stop ---------------------------------------------------------------------------------

  lemma FromTwice(batches: seq<seq<Input>>, i: nat)
    ensures From(From(batches, i), 1) == From(batches, i + 1)
    ensures Batch(From(batches, i), 0) == Batch(batches, i)
  {
  }

  function At(w: World, i: nat): World {
    w.(batches := From(w.batches, i))
  }

  lemma BatchHasNoDrop(batches: seq<seq<Input>>, i: nat)
    requires NoDrops(batches)
    ensures NoDrop(Batch(batches, i))
  {
  }

  /** What becomes of a program that makes these calls. */
  type Run = (State, World, seq<Call>) -> (State, World, nat)

  ghost predicate IsRunOf(run: Run, mode: ListenMode, kinds: Kinds) {
    forall s, w, calls {:trigger RunCalls(mode, kinds, s, w, calls)} ::
      run(s, w, calls) == RunCalls(mode, kinds, s, w, calls)
  }

  /** A run comes to the same as `n` calls and then this later one. */
  ghost predicate Continues(run: Run, s: State, w: World, calls: seq<Call>,
                            n: nat, s1: State, w1: World, calls1: seq<Call>) {
    var r := run(s1, w1, calls1);
    run(s, w, calls) == (r.0, r.1, n + r.2)
  }

  /** Call `i - 1` goes by unnoticed. */
  ghost predicate Skips(run: Run, s: State, w: World, calls: seq<Call>, i: nat)
    requires 0 < i <= |calls|
  {
    Continues(run, Ready(s, w.batches, calls, i - 1), At(w, i - 1), calls[i - 1..],
              1, Ready(s, w.batches, calls, i), At(w, i), calls[i..])
  }

  lemma {:induction false} SkipsAdd(run: Run, s: State, w: World, calls: seq<Call>, n: nat)
    requires n <= |calls| && forall i | 0 < i <= n :: Skips(run, s, w, calls, i)
    ensures Continues(run, s, w, calls, n, Ready(s, w.batches, calls, n), At(w, n), calls[n..])
    decreases n
  {
    if n == 0 {
      assert Ready(s, w.batches, calls, 0) == s && At(w, 0) == w && calls[0..] == calls;
    } else {
      SkipsAdd(run, s, w, calls, n - 1);
      assert Skips(run, s, w, calls, n);
    }
  }

  lemma CallGoesBy(mode: ListenMode, kinds: Kinds, s: State, w: World, calls: seq<Call>, n: nat)
    requires Running(s) && NoDrops(w.batches) && 0 < n <= |calls| && !DueAt(kinds, s, w.batches, calls, n - 1)
    ensures Before(mode, kinds, Ready(s, w.batches, calls, n - 1), At(w, n - 1), calls[n - 1].entry) ==
            (Pass(Polled(s, w.batches, calls, n - 1), calls[n - 1].entry), At(w, n), true)
  {
    var si, wi := Ready(s, w.batches, calls, n - 1), At(w, n - 1);
    FromTwice(w.batches, n - 1);
    BatchHasNoDrop(w.batches, n - 1);
    assert Told(si, Batch(wi.batches, 0)) == Polled(s, w.batches, calls, n - 1);
    CallPasses(mode, kinds, si, wi, calls[n - 1].entry);
    assert Next(wi) == At(w, n);
  }

  lemma OneSkips(run: Run, mode: ListenMode, kinds: Kinds, s: State, w: World, calls: seq<Call>, n: nat)
    requires IsRunOf(run, mode, kinds)
    requires Running(s) && NoDrops(w.batches) && 0 < n <= |calls| && !DueAt(kinds, s, w.batches, calls, n - 1)
    ensures Skips(run, s, w, calls, n)
  {
    CallGoesBy(mode, kinds, s, w, calls, n);
    ReadyNext(kinds, s, w.batches, calls, n);
    assert calls[n - 1..][1..] == calls[n..];
    PassesTo(run, mode, kinds, Ready(s, w.batches, calls, n - 1), At(w, n - 1), calls[n - 1..],
             Pass(Polled(s, w.batches, calls, n - 1), calls[n - 1].entry), At(w, n),
             Ready(s, w.batches, calls, n), calls[n..]);
  }

  /** A call that passes is one step of a run. */
  lemma PassesTo(run: Run, mode: ListenMode, kinds: Kinds, s: State, w: World, calls: seq<Call>,
                 s1: State, w1: World, s2: State, rest: seq<Call>)
    requires IsRunOf(run, mode, kinds)
    requires calls != [] && Before(mode, kinds, s, w, calls[0].entry) == (s1, w1, true)
    requires s1.connection == Connected && s2 == After(s1, calls[0].aftermath) && rest == calls[1..]
    ensures Continues(run, s, w, calls, 1, s2, w1, rest)
  {
    ReturnIsAfter(mode, s1, w1, calls[0].aftermath);
    RunPasses(mode, kinds, s, w, calls, s1, w1, s2, w1);
  }

  /** As long as no call is due, a run is the same as starting later. */
  lemma RunSkips(run: Run, mode: ListenMode, kinds: Kinds, s: State, w: World, calls: seq<Call>, n: nat)
    requires IsRunOf(run, mode, kinds)
    requires Running(s) && NoDrops(w.batches) && n <= |calls| && NoneDue(kinds, s, w.batches, calls, n)
    ensures Continues(run, s, w, calls, n, Ready(s, w.batches, calls, n), At(w, n), calls[n..])
  {
    forall i | 0 < i <= n ensures Skips(run, s, w, calls, i) {
      OneSkips(run, mode, kinds, s, w, calls, i);
    }
    SkipsAdd(run, s, w, calls, n);
  }

  lemma FindDue(kinds: Kinds, s: State, batches: seq<seq<Input>>, calls: seq<Call>) returns (n: nat)
    ensures FirstDue(kinds, s, batches, calls, n)
  {
    n := 0;
    while n < |calls| && !DueAt(kinds, s, batches, calls, n)
      invariant n <= |calls| && NoneDue(kinds, s, batches, calls, n)
    {
      n := n + 1;
    }
  }

  function Stopped(s: State, w: World, calls: seq<Call>, n: nat): State
    requires n < |calls|
  {
    Stop(Polled(s, w.batches, calls, n), calls[n].entry)
  }

  lemma StopsAt(mode: ListenMode, kinds: Kinds, s: State, w: World, calls: seq<Call>, n: nat)
    requires Running(s) && NoDrops(w.batches) && n < |calls| && DueAt(kinds, s, w.batches, calls, n)
    ensures Attempt(mode, kinds, Ready(s, w.batches, calls, n), At(w, n), calls[n].entry) ==
            Wait(Stopped(s, w, calls, n), At(w, n + 1))
  {
    FromTwice(w.batches, n);
    BatchHasNoDrop(w.batches, n);
    CallStops(mode, kinds, Ready(s, w.batches, calls, n), At(w, n), calls[n].entry);
    assert Next(At(w, n)) == At(w, n + 1);
  }

  /**
   * Whatever the debugger does after that: the program makes the calls before the first one that is due
   * without a word, and then announces that one; if none is due it makes them all and says nothing.
   */
  lemma StepsExactly(mode: ListenMode, kinds: Kinds, s: State, w: World, calls: seq<Call>, n: nat)
    requires Running(s) && NoDrops(w.batches) && FirstDue(kinds, s, w.batches, calls, n)
    ensures var (s', w', made) := RunCalls(mode, kinds, s, w, calls);
      && n <= made && s.calls + Entries(calls[..n]) <= s'.calls
      && (n == |calls| ==> s'.log == s.log && s'.calls == s.calls + Entries(calls))
      && (n < |calls| ==> s.log + [BreakedCall(calls[n].entry, HistorySize(s.calls + Entries(calls[..n])))] <= s'.log)
  {
    var run: Run := (s: State, w: World, calls: seq<Call>) => RunCalls(mode, kinds, s, w, calls);
    RunSkips(run, mode, kinds, s, w, calls, n);
    var sn, wn, rest := Ready(s, w.batches, calls, n), At(w, n), calls[n..];
    RunAdds(mode, kinds, sn, wn, rest);
    if n == |calls| {
      assert calls[..n] == calls;
    } else {
      StopsAt(mode, kinds, s, w, calls, n);
      StopIsSaid(mode, kinds, sn, wn, rest, Stopped(s, w, calls, n), At(w, n + 1));
    }
  }

  lemma StopIsSaid(mode: ListenMode, kinds: Kinds, s: State, w: World, calls: seq<Call>, stopped: State, w1: World)
    requires Sound(s) && Sound(stopped) && calls != []
    requires Attempt(mode, kinds, s, w, calls[0].entry) == Wait(stopped, w1)
    ensures stopped.log <= RunCalls(mode, kinds, s, w, calls).0.log
  {
    StopIsSaidBefore(mode, kinds, s, w, calls[0].entry, stopped, w1);
    BeforeMakesTheCallOnce(mode, kinds, s, w, calls[0].entry);
    var (s3, w3, passed) := Before(mode, kinds, s, w, calls[0].entry);
    if passed {
      ReturnKeepsSound(mode, s3, w3, calls[0].aftermath);
      var (s4, w4, stuck) := Return(mode, s3, w3, calls[0].aftermath);
      if stuck {
        RunSticks(mode, kinds, s, w, calls, s3, w3, s4, w4);
      } else {
        RunPasses(mode, kinds, s, w, calls, s3, w3, s4, w4);
        RunAdds(mode, kinds, s4, w4, calls[1..]);
      }
    } else {
      RunStops(mode, kinds, s, w, calls, s3, w3);
    }
  }

  lemma StopIsSaidBefore(mode: ListenMode, kinds: Kinds, s: State, w: World, e: Entrypoint, stopped: State, w1: World)
    requires Sound(s) && Sound(stopped) && Attempt(mode, kinds, s, w, e) == Wait(stopped, w1)
    ensures stopped.log <= Before(mode, kinds, s, w, e).0.log
  {
    WaitKeepsSound(stopped, w1);
    var (s2, w2, outcome) := Wait(stopped, w1);
    if outcome == Reconnect { BeforeMakesTheCallOnce(mode, kinds, s2, w2, e); }
  }

  // ---- From stop to stop ------------------------------------------------------------------------------------

  /** Where the debugger first lets a stopped program go, or the number of its messages if it never does. */
  function Release(singles: seq<Input>): (r: nat)
    ensures r <= |singles| && (r < |singles| ==> LetsGo(singles[r]))
    ensures forall i | 0 <= i < r :: !LetsGo(singles[i])
  {
    if singles == [] || LetsGo(singles[0]) then 0 else 1 + Release(singles[1..])
  }

  /** A stopped program hears everything up to being let go; without that it stays stopped. */
  lemma {:induction false} WaitHears(s: State, w: World)
    requires Running(s) && s.breaks.pending && NoDrop(w.singles)
    ensures var r := Release(w.singles);
      Wait(s, w) == if r == |w.singles| then (Told(s, w.singles), w.(singles := []), Stuck)
                    else (Told(s, w.singles[..r + 1]), w.(singles := w.singles[r + 1..]), Released)
    decreases |w.singles|
  {
    if w.singles == [] {
      assert Told(s, []) == s && w.(singles := []) == w;
    } else {
      var x, tail := w.singles[0], w.singles[1..];
      HandleIsTold(s, x);
      ToldIsOne(s, x);
      ToldFirst(s, w.singles);
      if LetsGo(x) {
        assert w.singles[..1] == [x] && Told(ToldOne(s, x), []) == ToldOne(s, x);
      } else {
        WaitHears(ToldOne(s, x), w.(singles := tail));
        var r := Release(tail);
        if r < |tail| {
          ToldFirst(s, w.singles[..r + 2]);
          assert w.singles[..r + 2][1..] == tail[..r + 1] && w.singles[r + 2..] == tail[r + 1..];
        }
      }
    }
  }

  /** The state after call `n` was stopped at, let go and made. */
  function Resumed(s: State, w: World, calls: seq<Call>, n: nat): State
    requires n < |calls| && Release(w.singles) < |w.singles|
  {
    var heard := w.singles[..Release(w.singles) + 1];
    After(Pass(Told(Stopped(s, w, calls, n), heard), calls[n].entry), calls[n].aftermath)
  }

  function Later(w: World, n: nat): World
    requires Release(w.singles) < |w.singles|
  {
    World(From(w.batches, n + 1), w.singles[Release(w.singles) + 1..], w.accepts)
  }

  /**
   * The stops of a run, each given by how many calls were made since the one before, and whether the program
   * was let go or is held there.
   */
  datatype Stops = NoMore | Held(gap: nat) | LetGo(gap: nat, later: Stops)

  /** Every stop is at the first call that is due in the state in which the program was last let go. */
  ghost predicate Dialogue(kinds: Kinds, s: State, w: World, calls: seq<Call>, stops: Stops)
    decreases stops
  {
    match stops
    case NoMore => FirstDue(kinds, s, w.batches, calls, |calls|)
    case Held(n) =>
      n < |calls| && FirstDue(kinds, s, w.batches, calls, n) && Release(w.singles) == |w.singles|
    case LetGo(n, later) =>
      && n < |calls| && FirstDue(kinds, s, w.batches, calls, n) && Release(w.singles) < |w.singles|
      && Dialogue(kinds, Resumed(s, w, calls, n), Later(w, n), calls[n + 1..], later)
  }

  predicate Within(calls: seq<Call>, stops: Stops)
    decreases stops
  {
    match stops
    case NoMore => true
    case Held(n) => n < |calls|
    case LetGo(n, later) => n < |calls| && Within(calls[n + 1..], later)
  }

  /** What such stops say, by the calls made before. */
  function Announced(made: seq<Entrypoint>, calls: seq<Call>, stops: Stops): seq<Sent>
    requires Within(calls, stops)
    decreases stops
  {
    match stops
    case NoMore => []
    case Held(n) => [BreakedCall(calls[n].entry, HistorySize(made + Entries(calls[..n])))]
    case LetGo(n, later) =>
      [BreakedCall(calls[n].entry, HistorySize(made + Entries(calls[..n])))] +
      Announced(made + Entries(calls[..n]) + [calls[n].entry], calls[n + 1..], later)
  }

  /** How many calls are made: all, unless the program is held at its last stop. */
  function MadeBy(calls: seq<Call>, stops: Stops): nat
    requires Within(calls, stops)
    decreases stops
  {
    match stops
    case NoMore => |calls|
    case Held(n) => n
    case LetGo(n, later) => n + 1 + MadeBy(calls[n + 1..], later)
  }

  /** The run said and made what such stops say and make. */
  ghost predicate RunsAsSaid(run: Run, s: State, w: World, calls: seq<Call>, stops: Stops) {
    var (s', w', made) := run(s, w, calls);
    && Within(calls, stops)
    && s'.log == s.log + Announced(s.calls, calls, stops)
    && made == MadeBy(calls, stops)
  }

  lemma NoStop(run: Run, mode: ListenMode, kinds: Kinds, s: State, w: World, calls: seq<Call>)
    requires IsRunOf(run, mode, kinds)
    requires Running(s) && NoDrops(w.batches) && FirstDue(kinds, s, w.batches, calls, |calls|)
    ensures RunsAsSaid(run, s, w, calls, NoMore)
  {
    RunSkips(run, mode, kinds, s, w, calls, |calls|);
    var sn, wn := Ready(s, w.batches, calls, |calls|), At(w, |calls|);
    assert calls[|calls|..] == [];
    assert RunCalls(mode, kinds, sn, wn, []) == (sn, wn, 0);
  }

  lemma HeldCall(mode: ListenMode, kinds: Kinds, s: State, w: World, calls: seq<Call>, n: nat)
    requires Running(s) && NoDrops(w.batches) && NoDrop(w.singles)
    requires n < |calls| && DueAt(kinds, s, w.batches, calls, n) && Release(w.singles) == |w.singles|
    ensures var (s', w', passed) := Before(mode, kinds, Ready(s, w.batches, calls, n), At(w, n), calls[n].entry);
      !passed && s' == Told(Stopped(s, w, calls, n), w.singles)
  {
    StopsAt(mode, kinds, s, w, calls, n);
    WaitHears(Stopped(s, w, calls, n), At(w, n + 1));
  }

  lemma HeldStop(run: Run, mode: ListenMode, kinds: Kinds, s: State, w: World, calls: seq<Call>, n: nat)
    requires IsRunOf(run, mode, kinds)
    requires Running(s) && NoDrops(w.batches) && NoDrop(w.singles)
    requires FirstDue(kinds, s, w.batches, calls, n) && n < |calls| && Release(w.singles) == |w.singles|
    ensures RunsAsSaid(run, s, w, calls, Held(n))
  {
    RunSkips(run, mode, kinds, s, w, calls, n);
    HeldCall(mode, kinds, s, w, calls, n);
    var sn, wn := Ready(s, w.batches, calls, n), At(w, n);
    var (s3, w3, _) := Before(mode, kinds, sn, wn, calls[n].entry);
    RunStops(mode, kinds, sn, wn, calls[n..], s3, w3);
    HeldSays(run, s, w, calls, n, sn, wn, s3, w3);
  }

  lemma HeldSays(run: Run, s: State, w: World, calls: seq<Call>, n: nat, sn: State, wn: World, s3: State, w3: World)
    requires n < |calls| && Release(w.singles) == |w.singles|
    requires Continues(run, s, w, calls, n, sn, wn, calls[n..]) && run(sn, wn, calls[n..]) == (s3, w3, 0)
    requires s3.log == s.log + [BreakedCall(calls[n].entry, HistorySize(s.calls + Entries(calls[..n])))]
    ensures RunsAsSaid(run, s, w, calls, Held(n))
  {
  }

  /** A stop that is let go, and the call made. */
  lemma StopIsReleased(run: Run, mode: ListenMode, kinds: Kinds, s: State, w: World, calls: seq<Call>, n: nat)
    requires IsRunOf(run, mode, kinds)
    requires Running(s) && NoDrops(w.batches) && NoDrop(w.singles)
    requires n < |calls| && DueAt(kinds, s, w.batches, calls, n) && Release(w.singles) < |w.singles|
    ensures Continues(run, Ready(s, w.batches, calls, n), At(w, n), calls[n..],
                      1, Resumed(s, w, calls, n), Later(w, n), calls[n + 1..])
  {
    ReleasedCall(mode, kinds, s, w, calls, n);
    var heard := w.singles[..Release(w.singles) + 1];
    assert calls[n..][1..] == calls[n + 1..];
    PassesTo(run, mode, kinds, Ready(s, w.batches, calls, n), At(w, n), calls[n..],
             Pass(Told(Stopped(s, w, calls, n), heard), calls[n].entry), Later(w, n),
             Resumed(s, w, calls, n), calls[n + 1..]);
  }

  lemma ReleasedCall(mode: ListenMode, kinds: Kinds, s: State, w: World, calls: seq<Call>, n: nat)
    requires Running(s) && NoDrops(w.batches) && NoDrop(w.singles)
    requires n < |calls| && DueAt(kinds, s, w.batches, calls, n) && Release(w.singles) < |w.singles|
    ensures var heard := w.singles[..Release(w.singles) + 1];
      Before(mode, kinds, Ready(s, w.batches, calls, n), At(w, n), calls[n].entry) ==
      (Pass(Told(Stopped(s, w, calls, n), heard), calls[n].entry), Later(w, n), true)
  {
    StopsAt(mode, kinds, s, w, calls, n);
    WaitHears(Stopped(s, w, calls, n), At(w, n + 1));
    ReleasedBefore(mode, kinds, Ready(s, w.batches, calls, n), At(w, n), calls[n].entry, Stopped(s, w, calls, n),
                   At(w, n + 1), Told(Stopped(s, w, calls, n), w.singles[..Release(w.singles) + 1]), Later(w, n));
  }

  lemma ReleasedBefore(mode: ListenMode, kinds: Kinds, s: State, w: World, e: Entrypoint,
                       stopped: State, w1: World, heard: State, w2: World)
    requires Attempt(mode, kinds, s, w, e) == Wait(stopped, w1) == (heard, w2, Released)
    ensures Before(mode, kinds, s, w, e) == (Pass(heard, e), w2, true)
  {
  }

  lemma ContinuesTwice(run: Run, s: State, w: World, calls: seq<Call>, n: nat,
                       s1: State, w1: World, calls1: seq<Call>, m: nat, s2: State, w2: World, calls2: seq<Call>)
    requires Continues(run, s, w, calls, n, s1, w1, calls1) && Continues(run, s1, w1, calls1, m, s2, w2, calls2)
    ensures Continues(run, s, w, calls, n + m, s2, w2, calls2)
  {
  }

  /** A stop in front of a run that is as said. */
  lemma SaysOneMore(run: Run, s: State, w: World, calls: seq<Call>, n: nat, s1: State, w1: World, rest: Stops)
    requires n < |calls|
    requires s1.log == s.log + [BreakedCall(calls[n].entry, HistorySize(s.calls + Entries(calls[..n])))]
    requires s1.calls == s.calls + Entries(calls[..n]) + [calls[n].entry]
    requires Continues(run, s, w, calls, n + 1, s1, w1, calls[n + 1..])
    requires RunsAsSaid(run, s1, w1, calls[n + 1..], rest)
    ensures RunsAsSaid(run, s, w, calls, LetGo(n, rest))
  {
    var said := [BreakedCall(calls[n].entry, HistorySize(s.calls + Entries(calls[..n])))];
    var later := Announced(s1.calls, calls[n + 1..], rest);
    AnnouncedOneMore(s.calls, calls, n, rest, said, later);
    assert s.log + said + later == s.log + (said + later);
  }

  lemma AnnouncedOneMore(made: seq<Entrypoint>, calls: seq<Call>, n: nat, rest: Stops,
                         said: seq<Sent>, later: seq<Sent>)
    requires n < |calls| && Within(calls[n + 1..], rest)
    requires said == [BreakedCall(calls[n].entry, HistorySize(made + Entries(calls[..n])))]
    requires later == Announced(made + Entries(calls[..n]) + [calls[n].entry], calls[n + 1..], rest)
    ensures Within(calls, LetGo(n, rest)) && Announced(made, calls, LetGo(n, rest)) == said + later
    ensures MadeBy(calls, LetGo(n, rest)) == n + 1 + MadeBy(calls[n + 1..], rest)
  {
  }

  lemma ResumedSays(s: State, w: World, calls: seq<Call>, n: nat)
    requires n < |calls| && Release(w.singles) < |w.singles|
    ensures var s1 := Resumed(s, w, calls, n);
      && s1.log == s.log + [BreakedCall(calls[n].entry, HistorySize(s.calls + Entries(calls[..n])))]
      && s1.calls == s.calls + Entries(calls[..n]) + [calls[n].entry]
  {
  }

  lemma ReleasedRun(run: Run, mode: ListenMode, kinds: Kinds, s: State, w: World, calls: seq<Call>, n: nat)
    requires IsRunOf(run, mode, kinds)
    requires Running(s) && NoDrops(w.batches) && NoDrop(w.singles)
    requires FirstDue(kinds, s, w.batches, calls, n) && n < |calls| && Release(w.singles) < |w.singles|
    ensures Continues(run, s, w, calls, n + 1, Resumed(s, w, calls, n), Later(w, n), calls[n + 1..])
  {
    RunSkips(run, mode, kinds, s, w, calls, n);
    StopIsReleased(run, mode, kinds, s, w, calls, n);
    ContinuesTwice(run, s, w, calls, n, Ready(s, w.batches, calls, n), At(w, n), calls[n..],
                   1, Resumed(s, w, calls, n), Later(w, n), calls[n + 1..]);
  }

  lemma GoesOn(run: Run, mode: ListenMode, kinds: Kinds, s: State, w: World, calls: seq<Call>, n: nat, rest: Stops)
    requires IsRunOf(run, mode, kinds)
    requires Running(s) && NoDrops(w.batches) && NoDrop(w.singles)
    requires FirstDue(kinds, s, w.batches, calls, n) && n < |calls| && Release(w.singles) < |w.singles|
    requires RunsAsSaid(run, Resumed(s, w, calls, n), Later(w, n), calls[n + 1..], rest)
    ensures RunsAsSaid(run, s, w, calls, LetGo(n, rest))
  {
    ReleasedRun(run, mode, kinds, s, w, calls, n);
    ResumedSays(s, w, calls, n);
    SaysOneMore(run, s, w, calls, n, Resumed(s, w, calls, n), Later(w, n), rest);
  }

  lemma {:induction false} StopsAreDue(run: Run, mode: ListenMode, kinds: Kinds, s: State, w: World, calls: seq<Call>)
    returns (stops: Stops)
    requires IsRunOf(run, mode, kinds)
    requires Running(s) && NoDrops(w.batches) && NoDrop(w.singles)
    ensures Dialogue(kinds, s, w, calls, stops) && RunsAsSaid(run, s, w, calls, stops)
    decreases |calls|, 1
  {
    var n := FindDue(kinds, s, w.batches, calls);
    if n == |calls| {
      stops := NoMore;
      NoStop(run, mode, kinds, s, w, calls);
    } else if Release(w.singles) == |w.singles| {
      stops := Held(n);
      HeldStop(run, mode, kinds, s, w, calls, n);
    } else {
      stops := LaterStopsAreDue(run, mode, kinds, s, w, calls, n);
    }
  }

  lemma LaterStopsAreDue(run: Run, mode: ListenMode, kinds: Kinds, s: State, w: World, calls: seq<Call>, n: nat)
    returns (stops: Stops)
    requires IsRunOf(run, mode, kinds)
    requires Running(s) && NoDrops(w.batches) && NoDrop(w.singles)
    requires FirstDue(kinds, s, w.batches, calls, n) && n < |calls| && Release(w.singles) < |w.singles|
    ensures Dialogue(kinds, s, w, calls, stops) && RunsAsSaid(run, s, w, calls, stops)
    decreases |calls|, 0
  {
    LaterHasNoDrops(w, n);
    ResumedIsRunning(s, w, calls, n);
    var rest := StopsAreDue(run, mode, kinds, Resumed(s, w, calls, n), Later(w, n), calls[n + 1..]);
    GoesOn(run, mode, kinds, s, w, calls, n, rest);
    DialogueGoesOn(kinds, s, w, calls, n, rest);
    stops := LetGo(n, rest);
  }

  lemma DialogueGoesOn(kinds: Kinds, s: State, w: World, calls: seq<Call>, n: nat, rest: Stops)
    requires FirstDue(kinds, s, w.batches, calls, n) && n < |calls| && Release(w.singles) < |w.singles|
    requires Dialogue(kinds, Resumed(s, w, calls, n), Later(w, n), calls[n + 1..], rest)
    ensures Dialogue(kinds, s, w, calls, LetGo(n, rest))
  {
  }

  lemma ResumedIsRunning(s: State, w: World, calls: seq<Call>, n: nat)
    requires Running(s) && n < |calls| && Release(w.singles) < |w.singles|
    ensures Running(Resumed(s, w, calls, n))
  {
  }

  lemma LaterHasNoDrops(w: World, n: nat)
    requires NoDrops(w.batches) && NoDrop(w.singles) && Release(w.singles) < |w.singles|
    ensures NoDrops(Later(w, n).batches) && NoDrop(Later(w, n).singles)
  {
  }

  /**
   * Over a whole run in which the connection holds, whatever the debugger says and whenever: the program
   * announces exactly the stops of a dialogue, each at the first call that is due by what was said until
   * then, and makes exactly the calls in between.
   */
  lemma EveryStopIsDue(mode: ListenMode, kinds: Kinds, s: State, w: World, calls: seq<Call>)
    returns (stops: Stops)
    requires Running(s) && NoDrops(w.batches) && NoDrop(w.singles)
    ensures Dialogue(kinds, s, w, calls, stops) && Within(calls, stops)
    ensures var (s', w', made) := RunCalls(mode, kinds, s, w, calls);
      && made == MadeBy(calls, stops) <= |calls|
      && s'.log == s.log + Announced(s.calls, calls, stops)
      && s'.calls == s.calls + Entries(calls[..made])
  {
    var run: Run := (s: State, w: World, calls: seq<Call>) => RunCalls(mode, kinds, s, w, calls);
    stops := StopsAreDue(run, mode, kinds, s, w, calls);
    RunAdds(mode, kinds, s, w, calls);
  }

  // ---- What each step mode stops at ---------------------------------------------------------------------------

  /** The program runs, nobody says anything, and no call gives a reason to stop by what it leaves behind. */
  ghost predicate LeftAlone(s: State, w: World, calls: seq<Call>) {
    && Running(s) && !s.breaks.pending
    && (forall i | 0 <= i < |w.batches| :: w.batches[i] == [])
    && (forall i | 0 <= i < |calls| :: calls[i].aftermath == Aftermath(false, false, false))
  }

  /**
   * The program makes the first `n` calls in silence and then announces the next one, or makes them all if there
   * is no other. With nothing to hear at the stop, it is held there.
   */
  ghost predicate StopsFirstAt(listen: ListenMode, kinds: Kinds, s: State, w: World, calls: seq<Call>, n: nat)
    requires n <= |calls|
  {
    var (s', w', made) := RunCalls(listen, kinds, s, w, calls);
    && n <= made && s.calls + Entries(calls[..n]) <= s'.calls
    && (n == |calls| ==> made == n && s'.log == s.log)
    && (n < |calls| ==> s.log + [BreakedCall(calls[n].entry, HistorySize(s.calls + Entries(calls[..n])))] <= s'.log)
    && (n < |calls| && w.singles == [] ==> made == n)
  }

  lemma {:induction false} SilenceIsFlat(batches: seq<seq<Input>>, n: nat)
    requires forall i | 0 <= i < |batches| :: batches[i] == []
    ensures Flat(batches, n) == []
    decreases n
  {
    if n > 0 { SilenceIsFlat(batches, n - 1); }
  }

  /** In silence, exactly the calls that the settings ask for are due. */
  lemma SilentlyDue(kinds: Kinds, s: State, w: World, calls: seq<Call>, i: nat)
    requires LeftAlone(s, w, calls) && i < |calls|
    ensures DueAt(kinds, s, w.batches, calls, i) <==> Wanted(kinds, s.breaks, calls[i].entry)
  {
    SilenceIsFlat(w.batches, i);
    assert Batch(w.batches, i) == [];
    assert Told(s, []) == s;
  }

  lemma StepsToFirst(listen: ListenMode, kinds: Kinds, s: State, w: World, calls: seq<Call>, n: nat)
    requires LeftAlone(s, w, calls) && n <= |calls|
    requires forall i | 0 <= i < n :: !Wanted(kinds, s.breaks, calls[i].entry)
    requires n < |calls| ==> Wanted(kinds, s.breaks, calls[n].entry)
    ensures StopsFirstAt(listen, kinds, s, w, calls, n)
  {
    forall i | 0 <= i < |calls|
      ensures DueAt(kinds, s, w.batches, calls, i) <==> Wanted(kinds, s.breaks, calls[i].entry)
    {
      SilentlyDue(kinds, s, w, calls, i);
    }
    assert NoDrops(w.batches);
    StepsExactly(listen, kinds, s, w, calls, n);
    if n == |calls| {
      MadeAll(listen, kinds, s, w, calls);
    } else if w.singles == [] {
      HeldAtOnce(listen, kinds, s, w, calls, n);
    }
  }

  lemma MadeAll(listen: ListenMode, kinds: Kinds, s: State, w: World, calls: seq<Call>)
    requires Running(s) && NoDrops(w.batches) && FirstDue(kinds, s, w.batches, calls, |calls|)
    ensures RunCalls(listen, kinds, s, w, calls).2 == |calls|
  {
    var run: Run := (s: State, w: World, calls: seq<Call>) => RunCalls(listen, kinds, s, w, calls);
    NoStop(run, listen, kinds, s, w, calls);
  }

  lemma HeldAtOnce(listen: ListenMode, kinds: Kinds, s: State, w: World, calls: seq<Call>, n: nat)
    requires Running(s) && NoDrops(w.batches) && w.singles == []
    requires FirstDue(kinds, s, w.batches, calls, n) && n < |calls|
    ensures RunCalls(listen, kinds, s, w, calls).2 == n
  {
    var run: Run := (s: State, w: World, calls: seq<Call>) => RunCalls(listen, kinds, s, w, calls);
    HeldStop(run, listen, kinds, s, w, calls, n);
  }

  /** Stepping by calls stops at the next call. */
  lemma CallStepping(listen: ListenMode, kinds: Kinds, s: State, w: World, calls: seq<Call>)
    requires LeftAlone(s, w, calls) && s.breaks.stepping && s.breaks.mode == STEP_CALL
    ensures StopsFirstAt(listen, kinds, s, w, calls, 0)
  {
    StepsToFirst(listen, kinds, s, w, calls, 0);
  }

  /** Stepping by draw calls stops at the first call that draws or is a breakpoint, whatever ends a frame before. */
  lemma DrawCallStepping(listen: ListenMode, kinds: Kinds, s: State, w: World, calls: seq<Call>, n: nat)
    requires LeftAlone(s, w, calls) && s.breaks.stepping && s.breaks.mode == STEP_DRAW_CALL && n <= |calls|
    requires forall i | 0 <= i < n :: calls[i].entry !in kinds.drawCalls && calls[i].entry !in s.breaks.points
    requires n < |calls| ==> calls[n].entry in kinds.drawCalls || calls[n].entry in s.breaks.points
    ensures StopsFirstAt(listen, kinds, s, w, calls, n)
  {
    StepsToFirst(listen, kinds, s, w, calls, n);
  }

  /** Stepping by frames stops at the first call that ends one or is a breakpoint, whatever is drawn before. */
  lemma FrameStepping(listen: ListenMode, kinds: Kinds, s: State, w: World, calls: seq<Call>, n: nat)
    requires LeftAlone(s, w, calls) && s.breaks.stepping && s.breaks.mode == STEP_FRAME && n <= |calls|
    requires forall i | 0 <= i < n :: calls[i].entry !in kinds.frameDelimiters && calls[i].entry !in s.breaks.points
    requires n < |calls| ==> calls[n].entry in kinds.frameDelimiters || calls[n].entry in s.breaks.points
    ensures StopsFirstAt(listen, kinds, s, w, calls, n)
  {
    StepsToFirst(listen, kinds, s, w, calls, n);
  }

  /** Without stepping the program stops at its breakpoints and nowhere else. */
  lemma BreakpointStops(listen: ListenMode, kinds: Kinds, s: State, w: World, calls: seq<Call>, n: nat)
    requires LeftAlone(s, w, calls) && !s.breaks.stepping && n <= |calls|
    requires forall i | 0 <= i < n :: calls[i].entry !in s.breaks.points
    requires n < |calls| ==> calls[n].entry in s.breaks.points
    ensures StopsFirstAt(listen, kinds, s, w, calls, n)
  {
    StepsToFirst(listen, kinds, s, w, calls, n);
  }
}
