/**
 * What a lost connection does to a program: when it is held, when it goes on unseen, and what a debugger that
 * comes back is told. A break that was pending stays pending over any number of losses.
 */
module Reconnecting {
  import opened SessionModel
  import opened Stepping

  // ---- A pending break stays pending ------------------------------------------------------------------------

  function LetGosIn(inputs: seq<Input>): nat {
    if inputs == [] then 0 else (if LetsGo(inputs[0]) then 1 else 0) + LetGosIn(inputs[1..])
  }

  function LetGosInAll(batches: seq<seq<Input>>): nat {
    if batches == [] then 0 else LetGosIn(batches[0]) + LetGosInAll(batches[1..])
  }

  /** How many messages are still to come that let a stopped program go. */
  function LetGos(w: World): nat {
    LetGosInAll(w.batches) + LetGosIn(w.singles)
  }

  predicate NoneLetsGo(inputs: seq<Input>) {
    forall i | 0 <= i < |inputs| :: !LetsGo(inputs[i])
  }

  lemma {:induction false} NoneCounted(inputs: seq<Input>)
    requires LetGosIn(inputs) == 0
    ensures NoneLetsGo(inputs)
    decreases |inputs|
  {
    if inputs != [] {
      NoneCounted(inputs[1..]);
      forall i | 0 <= i < |inputs| ensures !LetsGo(inputs[i]) {
        if i > 0 { assert inputs[i] == inputs[1..][i - 1]; }
      }
    }
  }

  lemma {:induction false} HandleAllKeepsPending(s: State, inputs: seq<Input>)
    requires s.breaks.pending && NoneLetsGo(inputs)
    ensures HandleAll(s, inputs).breaks.pending
    decreases |inputs|
  {
    if inputs != [] {
      HandleAllKeepsPending(s, inputs[..|inputs| - 1]);
    }
  }

  /** A poll takes up one batch. */
  lemma PollTakes(mode: ListenMode, s: State, w: World)
    ensures var (s1, w1, stuck) := Poll(mode, s, w);
      LetGos(w) == LetGos(w1) + if stuck then 0 else LetGosIn(NextBatch(w))
  {
  }

  lemma PollKeepsPending(mode: ListenMode, s: State, w: World)
    requires s.breaks.pending && NoneLetsGo(NextBatch(w))
    ensures Poll(mode, s, w).0.breaks.pending
  {
    var (s1, w1, stuck) := GetServer(mode, s, w);
    if !stuck { HandleAllKeepsPending(s1, NextBatch(w1)); }
  }

  lemma {:induction false} WaitTakes(s: State, w: World)
    ensures LetGos(Wait(s, w).1) <= LetGos(w) && Wait(s, w).1.batches == w.batches
    decreases |w.singles|
  {
    if IsBreaked(s.breaks) && w.singles != [] {
      var s1, w1 := Handle(s, w.singles[0]), w.(singles := w.singles[1..]);
      if !s1.disconnected { WaitTakes(s1, w1); }
    }
  }

  /** A stopped program goes on only if it is let go. */
  lemma {:induction false} WaitKeepsPending(s: State, w: World)
    requires IsBreaked(s.breaks) && LetGos(Wait(s, w).1) == LetGos(w)
    ensures Wait(s, w).0.breaks.pending && Wait(s, w).2 != Released
    decreases |w.singles|
  {
    if w.singles != [] {
      var s1, w1 := Handle(s, w.singles[0]), w.(singles := w.singles[1..]);
      if !s1.disconnected {
        WaitTakes(s1, w1);
        WaitKeepsPending(s1, w1);
      }
    }
  }

  /** One pass in front of a call with a break pending, as long as nobody lets the program go. */
  lemma AttemptKeepsPending(mode: ListenMode, kinds: Kinds, s: State, w: World, e: Entrypoint)
    requires s.breaks.pending
    ensures var (s1, w1, outcome) := Attempt(mode, kinds, s, w, e);
      && LetGos(w1) <= LetGos(w)
      && (LetGos(w1) == LetGos(w) ==> s1.breaks.pending && (outcome == Released ==> !s1.breaks.enabled))
  {
    PollTakes(mode, s, w);
    var (s1, w1, stuck) := Poll(mode, s, w);
    if !stuck {
      var s2 := Announce(s1.(breaks := Reach(kinds, s1.breaks, e)), e);
      WaitTakes(s2, w1);
      if LetGos(Wait(s2, w1).1) == LetGos(w) {
        NoneCounted(NextBatch(w));
        PollKeepsPending(mode, s, w);
        if IsBreaked(s2.breaks) { WaitKeepsPending(s2, w1); }
      }
    } else {
      PollStuck(mode, s, w);
    }
  }

  lemma PollStuck(mode: ListenMode, s: State, w: World)
    requires Poll(mode, s, w).2
    ensures Poll(mode, s, w).0.breaks == s.breaks
  {
  }

  lemma AttemptTakes(mode: ListenMode, kinds: Kinds, s: State, w: World, e: Entrypoint)
    ensures LetGos(Attempt(mode, kinds, s, w, e).1) <= LetGos(w)
  {
    PollTakes(mode, s, w);
    var (s1, w1, stuck) := Poll(mode, s, w);
    if !stuck { WaitTakes(Announce(s1.(breaks := Reach(kinds, s1.breaks, e)), e), w1); }
  }

  lemma {:induction false} BeforeTakes(mode: ListenMode, kinds: Kinds, s: State, w: World, e: Entrypoint)
    ensures LetGos(Before(mode, kinds, s, w, e).1) <= LetGos(w)
    decreases |w.singles|
  {
    AttemptTakes(mode, kinds, s, w, e);
    var (s1, w1, outcome) := Attempt(mode, kinds, s, w, e);
    if outcome == Reconnect { BeforeTakes(mode, kinds, s1, w1, e); }
  }

  /** However often the connection is lost and made again in front of a call. */
  lemma {:induction false} BeforeKeepsPending(mode: ListenMode, kinds: Kinds, s: State, w: World, e: Entrypoint)
    requires s.breaks.pending && LetGos(Before(mode, kinds, s, w, e).1) == LetGos(w)
    ensures var (s', w', passed) := Before(mode, kinds, s, w, e);
      s'.breaks.pending && (passed ==> !s'.breaks.enabled)
    decreases |w.singles|
  {
    AttemptKeepsPending(mode, kinds, s, w, e);
    var (s1, w1, outcome) := Attempt(mode, kinds, s, w, e);
    if outcome == Reconnect {
      BeforeTakes(mode, kinds, s1, w1, e);
      BeforeKeepsPending(mode, kinds, s1, w1, e);
    }
  }

  /** The moments at which the calls of a run are made, and what is still to come then. */
  function Made(mode: ListenMode, kinds: Kinds, s: State, w: World, calls: seq<Call>): seq<(State, World)>
    decreases |calls|
  {
    if calls == [] then []
    else
      var (s1, w1, passed) := Before(mode, kinds, s, w, calls[0].entry);
      if !passed then []
      else
        var (s2, w2, stuck) := Return(mode, s1, w1, calls[0].aftermath);
        [(s1, w1)] + if stuck then [] else Made(mode, kinds, s2, w2, calls[1..])
  }

  /** Each of these moments has the calls made up to it. */
  ghost predicate MadeInOrder(before: seq<Entrypoint>, made: seq<(State, World)>, calls: seq<Call>) {
    |made| <= |calls| && forall i | 0 <= i < |made| :: made[i].0.calls == before + Entries(calls[..i + 1])
  }

  lemma MadeFirst(s: State, first: (State, World), calls: seq<Call>, made: seq<(State, World)>)
    requires calls != [] && first.0.calls == s.calls + [calls[0].entry]
    requires MadeInOrder(first.0.calls, made, calls[1..])
    ensures MadeInOrder(s.calls, [first] + made, calls)
  {
    forall i | 0 <= i < 1 + |made| ensures ([first] + made)[i].0.calls == s.calls + Entries(calls[..i + 1]) {
      MadeCalls(s, calls, i);
      if i > 0 { assert ([first] + made)[i] == made[i - 1]; }
    }
  }

  lemma MadeCalls(s: State, calls: seq<Call>, i: nat)
    requires i < |calls|
    ensures s.calls + Entries(calls[..i + 1]) == s.calls + [calls[0].entry] + Entries(calls[1..][..i])
    ensures i == 0 ==> Entries(calls[..1]) == [calls[0].entry]
  {
    EntriesOfOneMore(calls[0], calls[1..][..i]);
    assert calls[..i + 1] == [calls[0]] + calls[1..][..i];
  }

  /** These are the calls that `RunCalls` counts, in the states it goes through. */
  lemma {:induction false} MadeIsTheRun(mode: ListenMode, kinds: Kinds, s: State, w: World, calls: seq<Call>)
    requires Sound(s)
    ensures |Made(mode, kinds, s, w, calls)| == RunCalls(mode, kinds, s, w, calls).2
    ensures MadeInOrder(s.calls, Made(mode, kinds, s, w, calls), calls)
    decreases |calls|
  {
    if calls != [] {
      BeforeMakesTheCallOnce(mode, kinds, s, w, calls[0].entry);
      var (s1, w1, passed) := Before(mode, kinds, s, w, calls[0].entry);
      if passed {
        ReturnKeepsSound(mode, s1, w1, calls[0].aftermath);
        var (s2, w2, stuck) := Return(mode, s1, w1, calls[0].aftermath);
        if stuck {
          RunSticks(mode, kinds, s, w, calls, s1, w1, s2, w2);
          MadeFirst(s, (s1, w1), calls, []);
        } else {
          RunPasses(mode, kinds, s, w, calls, s1, w1, s2, w2);
          MadeIsTheRun(mode, kinds, s2, w2, calls[1..]);
          MadeFirst(s, (s1, w1), calls, Made(mode, kinds, s2, w2, calls[1..]));
        }
      } else {
        RunStops(mode, kinds, s, w, calls, s1, w1);
      }
    }
  }

  /** Of the calls made, the first is the one made first, and the others are those made after it. */
  lemma MadeAt(mode: ListenMode, kinds: Kinds, s: State, w: World, calls: seq<Call>, i: nat)
    returns (s1: State, w1: World, s2: State, w2: World)
    requires i < |Made(mode, kinds, s, w, calls)|
    ensures calls != [] && Before(mode, kinds, s, w, calls[0].entry) == (s1, w1, true)
    ensures Return(mode, s1, w1, calls[0].aftermath).0 == s2 && Return(mode, s1, w1, calls[0].aftermath).1 == w2
    ensures i == 0 ==> Made(mode, kinds, s, w, calls)[0] == (s1, w1)
    ensures i > 0 ==>
      var later := Made(mode, kinds, s2, w2, calls[1..]);
      i - 1 < |later| && Made(mode, kinds, s, w, calls)[i] == later[i - 1]
  {
    s1, w1 := Before(mode, kinds, s, w, calls[0].entry).0, Before(mode, kinds, s, w, calls[0].entry).1;
    var returned := Return(mode, s1, w1, calls[0].aftermath);
    s2, w2 := returned.0, returned.1;
  }

  lemma ReturnTakes(mode: ListenMode, s: State, w: World, a: Aftermath)
    ensures LetGos(Return(mode, s, w, a).1) == LetGos(w)
  {
  }

  lemma {:induction false} MadeTakes(mode: ListenMode, kinds: Kinds, s: State, w: World, calls: seq<Call>, i: nat)
    requires i < |Made(mode, kinds, s, w, calls)|
    ensures LetGos(Made(mode, kinds, s, w, calls)[i].1) <= LetGos(w)
    decreases |calls|
  {
    var s1, w1, s2, w2 := MadeAt(mode, kinds, s, w, calls, i);
    BeforeTakes(mode, kinds, s, w, calls[0].entry);
    ReturnTakes(mode, s1, w1, calls[0].aftermath);
    if i > 0 { MadeTakes(mode, kinds, s2, w2, calls[1..], i - 1); }
  }

  /**
   * Over any run that begins with a break pending, as one that starts does: a call that is made before the
   * debugger has let the program go is made with no debugger on the line, and the break is still pending then.
   */
  lemma {:induction false} NoCallGetsPastTheDebugger(mode: ListenMode, kinds: Kinds, s: State, w: World,
                                                     calls: seq<Call>, i: nat)
    requires Sound(s) && s.breaks.pending && i < |Made(mode, kinds, s, w, calls)|
    requires LetGos(Made(mode, kinds, s, w, calls)[i].1) == LetGos(w)
    ensures var at := Made(mode, kinds, s, w, calls)[i].0;
      at.connection != Connected && at.breaks.pending
    decreases |calls|
  {
    var s1, w1, s2, w2 := MadeAt(mode, kinds, s, w, calls, i);
    ReturnTakes(mode, s1, w1, calls[0].aftermath);
    if i > 0 { MadeTakes(mode, kinds, s2, w2, calls[1..], i - 1); }
    CallIsUnseen(mode, kinds, s, w, calls[0], s1, w1, s2);
    if i > 0 { NoCallGetsPastTheDebugger(mode, kinds, s2, w2, calls[1..], i - 1); }
  }

  lemma CallIsUnseen(mode: ListenMode, kinds: Kinds, s: State, w: World, call: Call, s1: State, w1: World, s2: State)
    requires Sound(s) && s.breaks.pending && Before(mode, kinds, s, w, call.entry) == (s1, w1, true)
    requires Return(mode, s1, w1, call.aftermath).0 == s2
    ensures LetGos(w1) <= LetGos(w)
    ensures LetGos(w1) == LetGos(w) ==>
      s1.connection != Connected && s1.breaks.pending && Sound(s2) && s2.breaks.pending
  {
    BeforeMakesTheCallOnce(mode, kinds, s, w, call.entry);
    ReturnKeepsSound(mode, s1, w1, call.aftermath);
    BeforeTakes(mode, kinds, s, w, call.entry);
    if LetGos(w1) == LetGos(w) { BeforeKeepsPending(mode, kinds, s, w, call.entry); }
  }

  // ---- The passes in front of one call ----------------------------------------------------------------------

  /** Where each pass in front of a call begins: a pass that loses the connection is followed by another. */
  function Passes(mode: ListenMode, kinds: Kinds, s: State, w: World, e: Entrypoint): seq<(State, World)>
    decreases |w.singles|
  {
    var (s1, w1, outcome) := Attempt(mode, kinds, s, w, e);
    [(s, w)] + if outcome == Reconnect then Passes(mode, kinds, s1, w1, e) else []
  }

  /** What the loss of a connection leaves of a stopped program. A program that starts is in the same position. */
  predicate Lost(s: State) {
    s.connection == Closed && !s.disconnected && s.breaks.pending && !s.breaks.enabled
  }

  lemma PollRecovers(mode: ListenMode, s: State, w: World)
    ensures Poll(mode, s, w).2 || !Poll(mode, s, w).0.disconnected
  {
  }

  lemma {:induction false} WaitLoses(s: State, w: World)
    requires !s.disconnected && Wait(s, w).2 == Reconnect
    ensures Lost(Wait(s, w).0)
    decreases |w.singles|
  {
    var s1, w1 := Handle(s, w.singles[0]), w.(singles := w.singles[1..]);
    if !s1.disconnected { WaitLoses(s1, w1); }
  }

  lemma AttemptLoses(mode: ListenMode, kinds: Kinds, s: State, w: World, e: Entrypoint)
    requires Sound(s) && Attempt(mode, kinds, s, w, e).2 == Reconnect
    ensures var s1 := Attempt(mode, kinds, s, w, e).0; Lost(s1) && s1.calls == s.calls && s.log <= s1.log
  {
    PollRecovers(mode, s, w);
    PollKeepsSound(mode, s, w);
    var (s1, w1, stuck) := Poll(mode, s, w);
    var s2 := Announce(s1.(breaks := Reach(kinds, s1.breaks, e)), e);
    WaitKeepsSound(s2, w1);
    WaitLoses(s2, w1);
  }

  /**
   * Every pass but the first begins with the connection lost and the break pending, and the call goes on from
   * there as if it had only come now.
   */
  lemma {:induction false} LaterPassesAreLost(mode: ListenMode, kinds: Kinds, s: State, w: World, e: Entrypoint, k: nat)
    requires Sound(s) && k < |Passes(mode, kinds, s, w, e)|
    ensures var (sk, wk) := Passes(mode, kinds, s, w, e)[k];
      && Sound(sk) && (k > 0 ==> Lost(sk)) && sk.calls == s.calls && s.log <= sk.log
      && Before(mode, kinds, s, w, e) == Before(mode, kinds, sk, wk, e)
    decreases |w.singles|
  {
    if k > 0 {
      AttemptLoses(mode, kinds, s, w, e);
      var (s1, w1, _) := Attempt(mode, kinds, s, w, e);
      LaterPassesAreLost(mode, kinds, s1, w1, e, k - 1);
      if k == 1 { assert Passes(mode, kinds, s1, w1, e)[0] == (s1, w1); }
    }
  }

  lemma StopIsAnnounced(mode: ListenMode, kinds: Kinds, s: State, w: World, e: Entrypoint, s1: State, w1: World)
    requires Sound(s) && Poll(mode, s, w) == (s1, w1, false) && Sound(s1) && IsBreaked(s1.breaks)
    ensures s1.log + [BreakedCall(e, HistorySize(s1.calls))] <= Before(mode, kinds, s, w, e).0.log
  {
    assert Reach(kinds, s1.breaks, e) == s1.breaks;
    assert Attempt(mode, kinds, s, w, e) == Wait(Announce(s1, e), w1);
    StopIsSaidBefore(mode, kinds, s, w, e, Announce(s1, e), w1);
  }

  /**
   * In whichever pass a debugger is seen on the line while a break is pending, the first or one after a loss:
   * if the same poll does not bring the word to let go, it is told where the program stopped.
   */
  lemma SeenConnectionIsAnswered(mode: ListenMode, kinds: Kinds, s: State, w: World, e: Entrypoint, k: nat)
    requires Sound(s) && s.breaks.pending && k < |Passes(mode, kinds, s, w, e)|
    requires var (sk, wk) := Passes(mode, kinds, s, w, e)[k];
      NoneLetsGo(NextBatch(wk)) && !Poll(mode, sk, wk).2 && Poll(mode, sk, wk).0.connection == Connected
    ensures var (sk, wk) := Passes(mode, kinds, s, w, e)[k];
      Poll(mode, sk, wk).0.log + [BreakedCall(e, HistorySize(s.calls))] <= Before(mode, kinds, s, w, e).0.log
  {
    var (sk, wk) := Passes(mode, kinds, s, w, e)[k];
    LaterPassesAreLost(mode, kinds, s, w, e, k);
    PollKeepsSound(mode, sk, wk);
    PollKeepsPending(mode, sk, wk);
    var (s1, w1, _) := Poll(mode, sk, wk);
    StopIsAnnounced(mode, kinds, sk, wk, e, s1, w1);
  }

  // ---- Held or not ------------------------------------------------------------------------------------------

  /** The program waits for a connection that never comes. */
  predicate Starved(mode: ListenMode, w: World) {
    mode == LISTEN_AND_WAIT && w.accepts == []
  }

  /** The next poll of a closed connection leaves a debugger on the line. */
  predicate Answered(mode: ListenMode, w: World) {
    && mode != NO_LISTEN && Drop !in NextBatch(w)
    && (if mode == LISTEN_AND_WAIT then w.accepts != [] && w.accepts[0] else Connect in NextBatch(w))
  }

  function AfterConnect(inputs: seq<Input>): seq<Input> {
    if inputs == [] then [] else if inputs[0] == Connect then inputs[1..] else AfterConnect(inputs[1..])
  }

  /** What that poll hears of the debugger: everything if it waited for it, else what follows the connection. */
  function Heard(mode: ListenMode, w: World): seq<Input> {
    if mode == LISTEN_AND_WAIT then NextBatch(w) else AfterConnect(NextBatch(w))
  }

  function Greeted(s: State): State {
    s.(connection := Connected, breaks := s.breaks.(enabled := true), log := s.log + [Hello])
  }

  /** The state after that poll. */
  function Met(mode: ListenMode, s: State, w: World): State {
    Told(Greeted(s), Heard(mode, w))
  }

  lemma {:induction false} HandleAllConnection(s: State, inputs: seq<Input>)
    requires s.connection != Closed
    ensures var t := HandleAll(s, inputs);
      && t.connection == (if s.connection == Connected || Connect in inputs then Connected else Listening)
      && (t.disconnected <==> s.disconnected || Drop in inputs)
    decreases |inputs|
  {
    if inputs != [] {
      HandleAllConnection(s, inputs[..|inputs| - 1]);
      assert inputs == inputs[..|inputs| - 1] + [inputs[|inputs| - 1]];
    }
  }

  lemma {:induction false} HandleAllClosed(s: State, inputs: seq<Input>)
    requires s.connection == Closed
    ensures HandleAll(s, inputs) == s
    decreases |inputs|
  {
    if inputs != [] { HandleAllClosed(s, inputs[..|inputs| - 1]); }
  }

  lemma {:induction false} AfterConnectOneMore(inputs: seq<Input>, x: Input)
    ensures AfterConnect(inputs + [x]) == if Connect in inputs then AfterConnect(inputs) + [x] else []
    decreases |inputs|
  {
    if inputs == [] {
      assert ([] + [x])[1..] == [];
    } else {
      assert (inputs + [x])[1..] == inputs[1..] + [x];
      assert inputs == [inputs[0]] + inputs[1..];
      AfterConnectOneMore(inputs[1..], x);
    }
  }

  /** A listening program hears the debugger from the moment it connects. */
  lemma {:induction false} ListeningHears(s: State, inputs: seq<Input>)
    requires s.connection == Listening && !s.disconnected && Drop !in inputs
    ensures HandleAll(s, inputs) == if Connect in inputs then Told(Greeted(s), AfterConnect(inputs)) else s
    decreases |inputs|
  {
    if inputs != [] {
      var front, x := inputs[..|inputs| - 1], inputs[|inputs| - 1];
      assert inputs == front + [x];
      ListeningHears(s, front);
      AfterConnectOneMore(front, x);
      if Connect in front {
        HandleIsTold(Told(Greeted(s), AfterConnect(front)), x);
        ToldTwice(Greeted(s), AfterConnect(front), [x]);
      } else if x == Connect {
        assert Told(Greeted(s), []) == Greeted(s);
      }
    }
  }

  lemma {:induction false} BreakStays(inputs: seq<Input>)
    requires NoneLetsGo(inputs)
    ensures LastBreak(inputs, true)
    decreases |inputs|
  {
    if inputs != [] {
      assert !LetsGo(inputs[0]);
      BreakStays(inputs[1..]);
    }
  }

  /** A poll of a lost connection, in every mode and every world. */
  lemma LostPoll(mode: ListenMode, s: State, w: World)
    requires Lost(s)
    ensures var (s1, w1, stuck) := Poll(mode, s, w);
      && (stuck <==> Starved(mode, w))
      && (!stuck ==> (s1.connection == Connected <==> Answered(mode, w)) && s1.breaks.enabled == Answered(mode, w))
      && (!stuck && Answered(mode, w) ==> s1 == Met(mode, s, w))
  {
    var batch := NextBatch(w);
    if mode == NO_LISTEN {
      HandleAllClosed(s, batch);
    } else if mode == LISTEN {
      ListenedPoll(s, w);
    } else if w.accepts != [] {
      WaitedPoll(s, w);
    }
  }

  lemma ListenedPoll(s: State, w: World)
    requires Lost(s)
    ensures var (s1, w1, stuck) := Poll(LISTEN, s, w);
      && !stuck && (s1.connection == Connected <==> Answered(LISTEN, w)) && s1.breaks.enabled == Answered(LISTEN, w)
      && (Answered(LISTEN, w) ==> s1 == Met(LISTEN, s, w))
  {
    var batch, listening := NextBatch(w), s.(connection := Listening);
    HandleAllConnection(listening, batch);
    HandleAllKeepsSound(listening, batch);
    assert GetServer(LISTEN, s, w) == (listening, w, false);
    if Answered(LISTEN, w) {
      ListeningHears(listening, batch);
      assert Greeted(listening) == Greeted(s);
    }
  }

  lemma WaitedPoll(s: State, w: World)
    requires Lost(s) && w.accepts != []
    ensures var (s1, w1, stuck) := Poll(LISTEN_AND_WAIT, s, w);
      && !stuck && (s1.connection == Connected <==> Answered(LISTEN_AND_WAIT, w))
      && s1.breaks.enabled == Answered(LISTEN_AND_WAIT, w)
      && (Answered(LISTEN_AND_WAIT, w) ==> s1 == Met(LISTEN_AND_WAIT, s, w))
  {
    var batch, listening := NextBatch(w), s.(connection := Listening);
    var accepted := Handle(listening, if w.accepts[0] then Connect else Drop);
    assert GetServer(LISTEN_AND_WAIT, s, w) == (accepted, w.(accepts := w.accepts[1..]), false);
    HandleAllConnection(accepted, batch);
    HandleAllKeepsSound(accepted, batch);
    if Answered(LISTEN_AND_WAIT, w) { HandleAllIsTold(Greeted(s), batch); }
  }

  /** The debugger that is back on the line has something to stop for. */
  predicate Wants(mode: ListenMode, kinds: Kinds, s: State, w: World, e: Entrypoint) {
    Met(mode, s, w).breaks.pending || Wanted(kinds, Met(mode, s, w).breaks, e)
  }

  lemma StopOrPass(kinds: Kinds, s: State, e: Entrypoint)
    ensures Announce(s.(breaks := Reach(kinds, s.breaks, e)), e) ==
            if s.breaks.enabled && (s.breaks.pending || Wanted(kinds, s.breaks, e)) then Stop(s, e) else s
  {
  }

  /**
   * What becomes of a call when the connection is lost (`LaterPassesAreLost`) or was never made, in every mode
   * and every world: a program that waits
   * for a connection that never comes is held for good; one that no debugger comes back to makes the call;
   * and one that is answered stops there, unless the debugger let it go in the same breath.
   */
  lemma LossHoldsExactly(mode: ListenMode, kinds: Kinds, s: State, w: World, e: Entrypoint)
    requires Lost(s)
    ensures var (s1, w1, stuck) := Poll(mode, s, w);
      && (Starved(mode, w) ==> !Before(mode, kinds, s, w, e).2)
      && (!Starved(mode, w) && !Answered(mode, w) <==>
            s1.connection != Connected && Before(mode, kinds, s, w, e) == (Pass(s1, e), w1, true))
      && (Answered(mode, w) ==>
            s1 == Met(mode, s, w) && Attempt(mode, kinds, s, w, e) ==
            if Wants(mode, kinds, s, w, e) then Wait(Stop(s1, e), w1) else (s1, w1, Released))
    ensures NoneLetsGo(Heard(mode, w)) ==> Wants(mode, kinds, s, w, e)
  {
    LostPoll(mode, s, w);
    var (s1, w1, stuck) := Poll(mode, s, w);
    StopOrPass(kinds, s1, e);
    if NoneLetsGo(Heard(mode, w)) { BreakStays(Heard(mode, w)); }
  }

  lemma CutAtOnce(kinds: Kinds, s: State, e: Entrypoint)
    requires Lost(s)
    ensures Attempt(LISTEN, kinds, s, World([[Connect]], [Drop], []), e) ==
            (Stop(Greeted(s), e).(connection := Closed, breaks := s.breaks), World([], [], []), Reconnect)
  {
    var w, w1 := World([[Connect]], [Drop], []), World([], [Drop], []);
    LossHoldsExactly(LISTEN, kinds, s, w, e);
    assert AfterConnect([Connect]) == [] && Met(LISTEN, s, w) == Greeted(s);
    assert Poll(LISTEN, s, w).1 == w1;
  }

  /**
   * So a stopped program can go on with nobody watching: the debugger connects, is told of the stop and is lost,
   * and the call is made with the break still pending.
   */
  lemma StopIsLeftUnseen(kinds: Kinds, config: Config, e: Entrypoint)
    ensures var start := State(INITIAL_BREAKS, config, false, Closed, [], []);
      var (s, _, passed) := Before(LISTEN, kinds, start, World([[Connect]], [Drop], []), e);
      && passed && s.log == [Hello, BreakedCall(e, 0)] && s.calls == [e]
      && s.connection != Connected && s.breaks.pending
  {
    var start, w := State(INITIAL_BREAKS, config, false, Closed, [], []), World([[Connect]], [Drop], []);
    CutAtOnce(kinds, start, e);
    var lost := Stop(Greeted(start), e).(connection := Closed, breaks := start.breaks);
    LossHoldsExactly(LISTEN, kinds, lost, World([], [], []), e);
    assert Poll(LISTEN, lost, World([], [], [])).0 == lost.(connection := Listening);
  }

  /**
   * A call made while nobody was on the line, in the mode that waits: its GL error and debug output are judged
   * when the next debugger is there and can stop the program, its failed compilation before and cannot.
   */
  lemma OutcomesAfterLoss(s: State, w: World)
    requires s.connection == Closed && !s.breaks.enabled && w.accepts != [] && w.accepts[0]
    ensures s.config.onGLError ==> IsBreaked(Return(LISTEN_AND_WAIT, s, w, Aftermath(false, true, false)).0.breaks)
    ensures s.config.onDebugOutput ==> IsBreaked(Return(LISTEN_AND_WAIT, s, w, Aftermath(true, false, false)).0.breaks)
    ensures !s.breaks.pending ==> !IsBreaked(Return(LISTEN_AND_WAIT, s, w, Aftermath(false, false, true)).0.breaks)
  {
  }
}
