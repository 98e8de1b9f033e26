/**
 * Whole sessions, in which the connection may be lost and made again at any time: what a run says and which
 * calls it makes, told turn by turn in terms of what the debugger has sent.
 */
module Sessions {
  import opened SessionModel
  import opened Stepping
  import opened Reconnecting

  // ---- What is heard at a poll and at a stop ----------------------------------------------------------------

  /** What a batch comes to: with nobody on the line only what follows a connection counts. */
  function Hears(s: State, batch: seq<Input>): State {
    if s.connection == Closed then s
    else
      var lost := s.disconnected || Drop in batch;
      if s.connection == Connected then Told(s, batch).(disconnected := lost)
      else if Connect in batch then Told(Greeted(s), AfterConnect(batch)).(disconnected := lost)
      else s.(disconnected := lost)
  }

  lemma TellAlso(s: State, heard: seq<Input>, x: Input, lost: bool)
    requires s.connection == Connected && s.breaks.enabled
    ensures Handle(Told(s, heard).(disconnected := lost), x) ==
            Told(s, heard + [x]).(disconnected := lost || x == Drop)
  {
    var t := Told(s, heard);
    ToldTwice(s, heard, [x]);
    ToldIsOne(t, x);
  }

  lemma {:induction false} HandleAllHears(s: State, inputs: seq<Input>)
    requires Sound(s)
    ensures HandleAll(s, inputs) == Hears(s, inputs)
    decreases |inputs|
  {
    if inputs == [] {
      assert Told(s, []) == s;
    } else {
      var front, x := inputs[..|inputs| - 1], inputs[|inputs| - 1];
      assert inputs == front + [x];
      HandleAllHears(s, front);
      AfterConnectOneMore(front, x);
      var lost := s.disconnected || Drop in front;
      if s.connection == Connected {
        TellAlso(s, front, x, lost);
      } else if s.connection == Listening && Connect in front {
        TellAlso(Greeted(s), AfterConnect(front), x, lost);
      } else if s.connection == Listening && x == Connect {
        assert Told(Greeted(s), []) == Greeted(s);
      }
    }
  }

  /** The state after a poll: the server is open, everything that arrived is heard, and a loss is dealt with. */
  function PollHeard(mode: ListenMode, s: State, w: World): (State, World, bool) {
    var (s1, w1, stuck) := GetServer(mode, s, w);
    if stuck then (s1, w1, true)
    else (Recover(Hears(s1, NextBatch(w))), w1.(batches := if w1.batches == [] then [] else w1.batches[1..]), false)
  }

  lemma PollIsHeard(mode: ListenMode, s: State, w: World)
    requires Sound(s)
    ensures Poll(mode, s, w) == PollHeard(mode, s, w)
    ensures var (p, _, stuck) := PollHeard(mode, s, w);
      Sound(p) && p.calls == s.calls && (!stuck ==> !p.disconnected)
  {
    GetServerKeepsSound(mode, s, w);
    PollKeepsSound(mode, s, w);
    PollRecovers(mode, s, w);
    var (s1, w1, stuck) := GetServer(mode, s, w);
    if !stuck { HandleAllHears(s1, NextBatch(w1)); }
  }

  /** Where a stop is decided: at the first message that lets the program go or loses the connection. */
  function Decision(singles: seq<Input>): (r: nat)
    ensures r <= |singles| && (r < |singles| ==> LetsGo(singles[r]) || singles[r] == Drop)
    ensures forall i | 0 <= i < r :: !LetsGo(singles[i]) && singles[i] != Drop
  {
    if singles == [] || LetsGo(singles[0]) || singles[0] == Drop then 0 else 1 + Decision(singles[1..])
  }

  function CutOff(s: State): State {
    s.(connection := Closed, breaks := s.breaks.(enabled := false))
  }

  /** What follows the deciding message. */
  function Behind(w: World): World {
    var r := Decision(w.singles);
    w.(singles := if r < |w.singles| then w.singles[r + 1..] else [])
  }

  /** What a stopped program hears until then. */
  function HeardStopped(s: State, w: World): State {
    var r := Decision(w.singles);
    Told(s, if r < |w.singles| && LetsGo(w.singles[r]) then w.singles[..r + 1] else w.singles[..r])
  }

  /** A message that decides nothing is heard first. */
  lemma HeardOneMore(s: State, w: World)
    requires w.singles != [] && !LetsGo(w.singles[0]) && w.singles[0] != Drop
    ensures var w1 := w.(singles := w.singles[1..]);
      && Decision(w.singles) == 1 + Decision(w1.singles) && Behind(w) == Behind(w1)
      && HeardStopped(s, w) == HeardStopped(ToldOne(s, w.singles[0]), w1)
  {
    var tail := w.singles[1..];
    var r := Decision(tail);
    var n := if r < |tail| && LetsGo(tail[r]) then r + 1 else r;
    ToldFirst(s, w.singles[..n + 1]);
    assert w.singles[..n + 1][1..] == tail[..n];
    if r < |tail| { assert w.singles[r + 2..] == tail[r + 1..]; }
  }

  lemma {:induction false} WaitDecides(s: State, w: World)
    requires Running(s) && s.breaks.pending
    ensures var r, t, b := Decision(w.singles), HeardStopped(s, w), Behind(w);
      Wait(s, w) == if r == |w.singles| then (t, b, Stuck)
                    else if LetsGo(w.singles[r]) then (t, b, Released)
                    else (CutOff(t), b, Reconnect)
    decreases |w.singles|
  {
    if w.singles == [] {
      assert Told(s, []) == s && w.(singles := []) == w;
    } else {
      var x, tail := w.singles[0], w.singles[1..];
      if x == Drop {
        assert w.singles[..0] == [] && Told(s, []) == s;
      } else {
        HandleIsTold(s, x);
        ToldIsOne(s, x);
        if LetsGo(x) {
          assert w.singles[..1] == [x];
        } else {
          WaitDecides(ToldOne(s, x), w.(singles := tail));
          HeardOneMore(s, w);
        }
      }
    }
  }

  // ---- The story of a run -------------------------------------------------------------------------------------

  /**
   * The turns of a run: a debugger connects; or, one for each pass in front of a call, the call is made with
   * nobody on the line or because nothing is due, or the program stops and is then let go, cut off or held for
   * good. A program that waits for a connection that never comes takes no further turn.
   */
  datatype Story =
    | Over
    | Waits
    | Met(rest: Story)
    | Unseen(rest: Story)
    | Quiet(rest: Story)
    | Freed(rest: Story)
    | Cut(rest: Story)
    | HeldThere

  /** There is a reason to stop at this call. */
  predicate Due(kinds: Kinds, s: State, e: Entrypoint) {
    s.breaks.pending || Wanted(kinds, s.breaks, e)
  }

  /** Opening the server brings a debugger. */
  predicate Accepted(mode: ListenMode, s: State, w: World) {
    mode == LISTEN_AND_WAIT && s.connection == Closed && w.accepts != [] && w.accepts[0]
  }

  /** A poll brings a debugger, who may be lost again in the same batch. */
  predicate MeetsAtPoll(mode: ListenMode, s: State, w: World) {
    && s.connection != Connected && (mode == NO_LISTEN ==> s.connection != Closed)
    && (Accepted(mode, s, w) || Connect in NextBatch(w))
  }

  /** The story that what the debugger sends tells. */
  ghost predicate Tells(mode: ListenMode, kinds: Kinds, s: State, w: World, calls: seq<Call>, story: Story)
    decreases story, 1
  {
    if calls == [] then story == Over
    else
      var (p, w1, stuck) := PollHeard(mode, s, w);
      if stuck then story == Waits
      else if MeetsAtPoll(mode, s, w) then story.Met? && TellsTurn(mode, kinds, p, w1, calls, story.rest)
      else TellsTurn(mode, kinds, p, w1, calls, story)
  }

  ghost predicate TellsTurn(mode: ListenMode, kinds: Kinds, p: State, w: World, calls: seq<Call>, story: Story)
    requires calls != []
    decreases story, 0
  {
    var e := calls[0].entry;
    var stopped := HeardStopped(Stop(p, e), w);
    if p.connection != Connected then story.Unseen? && TellsAfter(mode, kinds, Pass(p, e), w, calls, story.rest)
    else if !Due(kinds, p, e) then story.Quiet? && TellsAfter(mode, kinds, Pass(p, e), w, calls, story.rest)
    else if Decision(w.singles) == |w.singles| then story == HeldThere
    else if LetsGo(w.singles[Decision(w.singles)])
    then story.Freed? && TellsAfter(mode, kinds, Pass(stopped, e), Behind(w), calls, story.rest)
    else story.Cut? && Tells(mode, kinds, CutOff(stopped), Behind(w), calls, story.rest)
  }

  /** And what comes once the call is made. */
  ghost predicate TellsAfter(mode: ListenMode, kinds: Kinds, s: State, w: World, calls: seq<Call>, rest: Story)
    requires calls != []
    decreases rest, 2
  {
    var (s1, w1, stuck) := Return(mode, s, w, calls[0].aftermath);
    if stuck then rest == Waits
    else if Accepted(mode, s, w) then rest.Met? && Tells(mode, kinds, s1, w1, calls[1..], rest.rest)
    else Tells(mode, kinds, s1, w1, calls[1..], rest)
  }

  function Announcement(e: Entrypoint, made: seq<Entrypoint>): seq<Sent> {
    [BreakedCall(e, HistorySize(made))]
  }

  /** What is sent to the debugger over a story, by the calls made before. */
  function Said(story: Story, made: seq<Entrypoint>, calls: seq<Call>): seq<Sent>
    decreases story
  {
    if story.Met? then [Hello] + Said(story.rest, made, calls)
    else if calls == [] then []
    else
      var e := calls[0].entry;
      match story
      case Over => []
      case Waits => []
      case Unseen(rest) => Said(rest, made + [e], calls[1..])
      case Quiet(rest) => Said(rest, made + [e], calls[1..])
      case Freed(rest) => Announcement(e, made) + Said(rest, made + [e], calls[1..])
      case Cut(rest) => Announcement(e, made) + Said(rest, made, calls)
      case HeldThere => Announcement(e, made)
  }

  /** How many calls a story makes. */
  function MadeIn(story: Story): nat {
    match story
    case Over => 0
    case Waits => 0
    case Met(rest) => MadeIn(rest)
    case Unseen(rest) => 1 + MadeIn(rest)
    case Quiet(rest) => 1 + MadeIn(rest)
    case Freed(rest) => 1 + MadeIn(rest)
    case Cut(rest) => MadeIn(rest)
    case HeldThere => 0
  }

  // ---- Every run has one ----------------------------------------------------------------------------------------

  function Greeting(met: bool): seq<Sent> {
    if met then [Hello] else []
  }

  lemma ServerGreets(mode: ListenMode, s: State, w: World)
    requires Sound(s)
    ensures var (s1, _, stuck) := GetServer(mode, s, w);
      && s1.log == s.log + Greeting(Accepted(mode, s, w))
      && (Accepted(mode, s, w) ==> !stuck)
      && s1.connection == (if Accepted(mode, s, w) then Connected
                           else if s.connection == Closed && mode != NO_LISTEN then Listening else s.connection)
  {
  }

  lemma HearsGreets(s: State, batch: seq<Input>)
    ensures Hears(s, batch).log == s.log + Greeting(s.connection == Listening && Connect in batch)
  {
  }

  lemma PollGreets(mode: ListenMode, s: State, w: World)
    requires Sound(s)
    ensures var (p, _, stuck) := PollHeard(mode, s, w);
      p.log == s.log + Greeting(!stuck && MeetsAtPoll(mode, s, w))
  {
    ServerGreets(mode, s, w);
    var (s1, w1, stuck) := GetServer(mode, s, w);
    HearsGreets(s1, NextBatch(w1));
  }

  lemma ReturnGreets(mode: ListenMode, s: State, w: World, a: Aftermath)
    requires Sound(s)
    ensures var (s1, _, stuck) := Return(mode, s, w, a);
      s1.log == s.log + Greeting(Accepted(mode, s, w)) && s1.calls == s.calls && (stuck ==> !Accepted(mode, s, w))
  {
    var judged := After(s, Aftermath(false, false, a.compilerError));
    AfterKeepsSound(s, Aftermath(false, false, a.compilerError));
    ServerGreets(mode, judged, w);
    assert judged.connection == s.connection;
    GetServerKeepsSound(mode, judged, w);
  }

  /** A run makes this many calls and says this. */
  ghost predicate Comes(run: Run, s: State, w: World, calls: seq<Call>, n: nat, said: seq<Sent>) {
    run(s, w, calls).2 == n && run(s, w, calls).0.log == s.log + said
  }

  /** A run does what a story says. */
  ghost predicate RunsAsTold(run: Run, s: State, w: World, calls: seq<Call>, story: Story) {
    Comes(run, s, w, calls, MadeIn(story), Said(story, s.calls, calls))
  }

  /** What the rest of a run does once a call is made. */
  ghost predicate RestRuns(run: Run, mode: ListenMode, s: State, w: World, calls: seq<Call>, rest: Story)
    requires calls != []
  {
    var (s1, w1, stuck) := Return(mode, s, w, calls[0].aftermath);
    if stuck then rest == Waits
    else if Accepted(mode, s, w) then rest.Met? && RunsAsTold(run, s1, w1, calls[1..], rest.rest)
    else RunsAsTold(run, s1, w1, calls[1..], rest)
  }

  lemma ComesLater(run: Run, s: State, w: World, calls: seq<Call>, s1: State, w1: World, calls1: seq<Call>,
                   n: nat, m: nat, first: seq<Sent>, said: seq<Sent>)
    requires Continues(run, s, w, calls, n, s1, w1, calls1) && s1.log == s.log + first
    requires Comes(run, s1, w1, calls1, m, said)
    ensures Comes(run, s, w, calls, n + m, first + said)
  {
    assert s.log + first + said == s.log + (first + said);
  }

  /** A call is made, having said this first, and then the rest of the run comes. */
  lemma CallIsMade(run: Run, mode: ListenMode, kinds: Kinds, s: State, w: World, calls: seq<Call>,
                   s1: State, w1: World, rest: Story, first: seq<Sent>)
    requires IsRunOf(run, mode, kinds) && calls != [] && Sound(s1)
    requires Before(mode, kinds, s, w, calls[0].entry) == (s1, w1, true)
    requires s1.calls == s.calls + [calls[0].entry] && s1.log == s.log + first
    requires RestRuns(run, mode, s1, w1, calls, rest)
    ensures Comes(run, s, w, calls, 1 + MadeIn(rest), first + Said(rest, s.calls + [calls[0].entry], calls[1..]))
  {
    var (s2, w2, stuck) := Return(mode, s1, w1, calls[0].aftermath);
    ReturnGreets(mode, s1, w1, calls[0].aftermath);
    if stuck {
      SticksThere(run, mode, kinds, s, w, calls, s1, w1, s2, w2, first);
    } else {
      PassesThere(run, mode, kinds, s, w, calls, s1, w1, s2, w2);
      var met := Accepted(mode, s1, w1);
      Regroup(s.log, first, Greeting(met));
      RestComes(run, s, w, calls, s2, w2, rest, first, met, if met then rest.rest else rest);
    }
  }

  lemma Regroup<T>(a: seq<T>, b: seq<T>, c: seq<T>)
    ensures (a + b) + c == a + (b + c)
  {
  }

  lemma RestComes(run: Run, s: State, w: World, calls: seq<Call>, s2: State, w2: World,
                  rest: Story, first: seq<Sent>, met: bool, later: Story)
    requires calls != [] && rest == if met then Met(later) else later
    requires Continues(run, s, w, calls, 1, s2, w2, calls[1..]) && s2.log == s.log + (first + Greeting(met))
    requires RunsAsTold(run, s2, w2, calls[1..], later)
    ensures Comes(run, s, w, calls, 1 + MadeIn(rest), first + Said(rest, s2.calls, calls[1..]))
  {
    var said := Said(later, s2.calls, calls[1..]);
    ComesLater(run, s, w, calls, s2, w2, calls[1..], 1, MadeIn(later), first + Greeting(met), said);
    Regroup(first, Greeting(met), said);
    SaidMet(met, later, s2.calls, calls[1..]);
  }

  /** A debugger that is met is greeted first. */
  lemma SaidMet(met: bool, later: Story, made: seq<Entrypoint>, calls: seq<Call>)
    ensures Said(if met then Met(later) else later, made, calls) == Greeting(met) + Said(later, made, calls)
    ensures MadeIn(if met then Met(later) else later) == MadeIn(later)
  {
  }

  lemma SaidFreed(rest: Story, made: seq<Entrypoint>, calls: seq<Call>)
    requires calls != []
    ensures Said(Freed(rest), made, calls) ==
            Announcement(calls[0].entry, made) + Said(rest, made + [calls[0].entry], calls[1..])
    ensures Said(Cut(rest), made, calls) == Announcement(calls[0].entry, made) + Said(rest, made, calls)
    ensures MadeIn(Freed(rest)) == 1 + MadeIn(rest) && MadeIn(Cut(rest)) == MadeIn(rest)
  {
  }

  lemma SticksThere(run: Run, mode: ListenMode, kinds: Kinds, s: State, w: World, calls: seq<Call>,
                    s1: State, w1: World, s2: State, w2: World, first: seq<Sent>)
    requires IsRunOf(run, mode, kinds) && calls != []
    requires Before(mode, kinds, s, w, calls[0].entry) == (s1, w1, true)
    requires Return(mode, s1, w1, calls[0].aftermath) == (s2, w2, true)
    requires s2.log == s.log + first
    ensures Comes(run, s, w, calls, 1, first + [])
  {
    RunSticks(mode, kinds, s, w, calls, s1, w1, s2, w2);
    assert first + [] == first;
  }

  lemma PassesThere(run: Run, mode: ListenMode, kinds: Kinds, s: State, w: World, calls: seq<Call>,
                    s1: State, w1: World, s2: State, w2: World)
    requires IsRunOf(run, mode, kinds) && calls != []
    requires Before(mode, kinds, s, w, calls[0].entry) == (s1, w1, true)
    requires Return(mode, s1, w1, calls[0].aftermath) == (s2, w2, false)
    ensures Continues(run, s, w, calls, 1, s2, w2, calls[1..])
  {
    RunPasses(mode, kinds, s, w, calls, s1, w1, s2, w2);
  }

  /** One pass, by what was polled. */
  lemma OnePass(mode: ListenMode, kinds: Kinds, s: State, w: World, e: Entrypoint, p: State, w1: World)
    requires Sound(s) && PollHeard(mode, s, w) == (p, w1, false)
    ensures Attempt(mode, kinds, s, w, e) ==
            if p.connection == Connected && Due(kinds, p, e) then Wait(Stop(p, e), w1) else (p, w1, Released)
  {
    PollIsHeard(mode, s, w);
    StopOrPass(kinds, p, e);
  }

  lemma PassedBefore(mode: ListenMode, kinds: Kinds, s: State, w: World, e: Entrypoint, p: State, w1: World)
    requires Sound(s) && PollHeard(mode, s, w) == (p, w1, false) && !(p.connection == Connected && Due(kinds, p, e))
    ensures Before(mode, kinds, s, w, e) == (Pass(p, e), w1, true)
  {
    OnePass(mode, kinds, s, w, e, p, w1);
  }

  /** What a stop comes to, by the message that decides it. */
  lemma StoppedBefore(mode: ListenMode, kinds: Kinds, s: State, w: World, e: Entrypoint, p: State, w1: World)
    requires Sound(s) && PollHeard(mode, s, w) == (p, w1, false) && p.connection == Connected && Due(kinds, p, e)
    ensures var r, t, b := Decision(w1.singles), HeardStopped(Stop(p, e), w1), Behind(w1);
      Before(mode, kinds, s, w, e) ==
      if r == |w1.singles| then (t, b, false)
      else if LetsGo(w1.singles[r]) then (Pass(t, e), b, true)
      else Before(mode, kinds, CutOff(t), b, e)
  {
    PollIsHeard(mode, s, w);
    OnePass(mode, kinds, s, w, e, p, w1);
    WaitDecides(Stop(p, e), w1);
  }

  lemma StopSays(s: State, p: State, w: World, e: Entrypoint, first: seq<Sent>)
    requires p.calls == s.calls && p.log == s.log + first
    ensures var t := HeardStopped(Stop(p, e), w);
      t.calls == s.calls && t.log == s.log + (first + Announcement(e, s.calls))
  {
    assert s.log + first + Announcement(e, s.calls) == s.log + (first + Announcement(e, s.calls));
  }

  lemma {:induction false} StoryOf(run: Run, mode: ListenMode, kinds: Kinds, s: State, w: World, calls: seq<Call>)
    returns (story: Story)
    requires IsRunOf(run, mode, kinds) && Sound(s)
    ensures Tells(mode, kinds, s, w, calls, story) && RunsAsTold(run, s, w, calls, story)
    decreases |calls|, |w.singles|, 3
  {
    if calls == [] {
      story := Over;
      assert RunCalls(mode, kinds, s, w, calls) == (s, w, 0);
    } else {
      PollIsHeard(mode, s, w);
      PollGreets(mode, s, w);
      var (p, w1, stuck) := PollHeard(mode, s, w);
      if stuck {
        story := Waits;
        StuckRuns(run, mode, kinds, s, w, calls, p, w1);
      } else {
        var met := MeetsAtPoll(mode, s, w);
        var turn := TurnOf(run, mode, kinds, s, w, calls, p, w1, Greeting(met));
        story := if met then Met(turn) else turn;
        SaidMet(met, turn, s.calls, calls);
      }
    }
  }

  lemma StuckRuns(run: Run, mode: ListenMode, kinds: Kinds, s: State, w: World, calls: seq<Call>, p: State, w1: World)
    requires IsRunOf(run, mode, kinds) && Sound(s) && calls != []
    requires PollHeard(mode, s, w) == (p, w1, true) && p.log == s.log
    ensures RunsAsTold(run, s, w, calls, Waits)
  {
    PollIsHeard(mode, s, w);
    RunStops(mode, kinds, s, w, calls, p, w1);
  }

  /** The run says this first and then what the turn and all later ones say. */
  ghost predicate ComesThen(run: Run, s: State, w: World, calls: seq<Call>, first: seq<Sent>, turn: Story) {
    Comes(run, s, w, calls, MadeIn(turn), first + Said(turn, s.calls, calls))
  }

  lemma {:induction false} TurnOf(run: Run, mode: ListenMode, kinds: Kinds, s: State, w: World, calls: seq<Call>,
                                  p: State, w1: World, first: seq<Sent>) returns (turn: Story)
    requires IsRunOf(run, mode, kinds) && Sound(s) && calls != [] && PollHeard(mode, s, w) == (p, w1, false)
    requires Sound(p) && p.calls == s.calls && p.log == s.log + first
    ensures TellsTurn(mode, kinds, p, w1, calls, turn) && ComesThen(run, s, w, calls, first, turn)
    decreases |calls|, |w.singles|, 2
  {
    if p.connection != Connected || !Due(kinds, p, calls[0].entry) {
      PassedBefore(mode, kinds, s, w, calls[0].entry, p, w1);
      var rest := RestOf(run, mode, kinds, Pass(p, calls[0].entry), w1, calls);
      CallIsMade(run, mode, kinds, s, w, calls, Pass(p, calls[0].entry), w1, rest, first);
      turn := if p.connection != Connected then Unseen(rest) else Quiet(rest);
      PassedComes(run, s, w, calls, first, rest, turn);
    } else {
      turn := StopOf(run, mode, kinds, s, w, calls, p, w1, first);
    }
  }

  lemma PassedComes(run: Run, s: State, w: World, calls: seq<Call>, first: seq<Sent>, rest: Story, turn: Story)
    requires calls != [] && turn in {Unseen(rest), Quiet(rest)}
    requires Comes(run, s, w, calls, 1 + MadeIn(rest), first + Said(rest, s.calls + [calls[0].entry], calls[1..]))
    ensures ComesThen(run, s, w, calls, first, turn)
  {
  }

  lemma FreedComes(run: Run, s: State, w: World, calls: seq<Call>, first: seq<Sent>, rest: Story)
    requires calls != []
    requires var e := calls[0].entry;
      Comes(run, s, w, calls, 1 + MadeIn(rest),
            (first + Announcement(e, s.calls)) + Said(rest, s.calls + [e], calls[1..]))
    ensures ComesThen(run, s, w, calls, first, Freed(rest))
  {
    SaidFreed(rest, s.calls, calls);
    Regroup(first, Announcement(calls[0].entry, s.calls), Said(rest, s.calls + [calls[0].entry], calls[1..]));
  }

  lemma {:induction false} StopOf(run: Run, mode: ListenMode, kinds: Kinds, s: State, w: World, calls: seq<Call>,
                                  p: State, w1: World, first: seq<Sent>) returns (turn: Story)
    requires IsRunOf(run, mode, kinds) && Sound(s) && calls != [] && PollHeard(mode, s, w) == (p, w1, false)
    requires Sound(p) && p.calls == s.calls && p.log == s.log + first
    requires p.connection == Connected && Due(kinds, p, calls[0].entry)
    ensures TellsTurn(mode, kinds, p, w1, calls, turn) && ComesThen(run, s, w, calls, first, turn)
    decreases |calls|, |w.singles|, 1
  {
    var e := calls[0].entry;
    var r, t, b := Decision(w1.singles), HeardStopped(Stop(p, e), w1), Behind(w1);
    PollIsHeard(mode, s, w);
    PollKeepsSound(mode, s, w);
    StoppedBefore(mode, kinds, s, w, e, p, w1);
    StopSays(s, p, w1, e, first);
    if r == |w1.singles| {
      turn := HeldThere;
      HeldRuns(run, mode, kinds, s, w, calls, t, b, first);
    } else if LetsGo(w1.singles[r]) {
      var rest := RestOf(run, mode, kinds, Pass(t, e), b, calls);
      turn := Freed(rest);
      CallIsMade(run, mode, kinds, s, w, calls, Pass(t, e), b, rest, first + Announcement(e, s.calls));
      FreedComes(run, s, w, calls, first, rest);
    } else {
      var rest := StoryOf(run, mode, kinds, CutOff(t), b, calls);
      turn := Cut(rest);
      CutRuns(run, mode, kinds, s, w, calls, t, b, rest, first);
    }
  }

  lemma HeldRuns(run: Run, mode: ListenMode, kinds: Kinds, s: State, w: World, calls: seq<Call>,
                 t: State, b: World, first: seq<Sent>)
    requires IsRunOf(run, mode, kinds) && calls != [] && Before(mode, kinds, s, w, calls[0].entry) == (t, b, false)
    requires t.log == s.log + (first + Announcement(calls[0].entry, s.calls))
    ensures ComesThen(run, s, w, calls, first, HeldThere)
  {
    RunStops(mode, kinds, s, w, calls, t, b);
  }

  lemma SameRun(run: Run, mode: ListenMode, kinds: Kinds, s: State, w: World, calls: seq<Call>, s1: State, w1: World)
    requires IsRunOf(run, mode, kinds) && calls != []
    requires Before(mode, kinds, s, w, calls[0].entry) == Before(mode, kinds, s1, w1, calls[0].entry)
    ensures Continues(run, s, w, calls, 0, s1, w1, calls)
  {
    assert RunCalls(mode, kinds, s, w, calls) == RunCalls(mode, kinds, s1, w1, calls);
  }

  lemma CutRuns(run: Run, mode: ListenMode, kinds: Kinds, s: State, w: World, calls: seq<Call>,
                t: State, b: World, rest: Story, first: seq<Sent>)
    requires IsRunOf(run, mode, kinds) && calls != []
    requires Before(mode, kinds, s, w, calls[0].entry) == Before(mode, kinds, CutOff(t), b, calls[0].entry)
    requires t.calls == s.calls && t.log == s.log + (first + Announcement(calls[0].entry, s.calls))
    requires RunsAsTold(run, CutOff(t), b, calls, rest)
    ensures ComesThen(run, s, w, calls, first, Cut(rest))
  {
    var stop := Announcement(calls[0].entry, s.calls);
    SameRun(run, mode, kinds, s, w, calls, CutOff(t), b);
    ComesLater(run, s, w, calls, CutOff(t), b, calls, 0, MadeIn(rest), first + stop, Said(rest, s.calls, calls));
    SaidFreed(rest, s.calls, calls);
    Regroup(first, stop, Said(rest, s.calls, calls));
  }

  lemma {:induction false} RestOf(run: Run, mode: ListenMode, kinds: Kinds, s: State, w: World, calls: seq<Call>)
    returns (rest: Story)
    requires IsRunOf(run, mode, kinds) && calls != [] && Sound(s)
    ensures TellsAfter(mode, kinds, s, w, calls, rest) && RestRuns(run, mode, s, w, calls, rest)
    decreases |calls|, 0, 0
  {
    ReturnKeepsSound(mode, s, w, calls[0].aftermath);
    var (s1, w1, stuck) := Return(mode, s, w, calls[0].aftermath);
    if stuck {
      rest := Waits;
    } else {
      var later := StoryOf(run, mode, kinds, s1, w1, calls[1..]);
      rest := if Accepted(mode, s, w) then Met(later) else later;
    }
  }

  /**
   * Over every run in every mode, whatever the debugger sends and however often the connection is lost and made
   * again: what is sent tells a story, turn by turn, and the run makes exactly its calls and says exactly what
   * the story says, a greeting for each connection and an announcement for each stop, in that order. So a call
   * that is due while a debugger is on the line is made only once that stop was announced and a message that
   * came after let the program go, or the connection was lost.
   */
  lemma EveryRunIsTold(mode: ListenMode, kinds: Kinds, s: State, w: World, calls: seq<Call>) returns (story: Story)
    requires Sound(s)
    ensures Tells(mode, kinds, s, w, calls, story)
    ensures var (s', w', made) := RunCalls(mode, kinds, s, w, calls);
      && made == MadeIn(story) <= |calls|
      && s'.calls == s.calls + Entries(calls[..made])
      && s'.log == s.log + Said(story, s.calls, calls)
  {
    var run: Run := (s: State, w: World, calls: seq<Call>) => RunCalls(mode, kinds, s, w, calls);
    story := StoryOf(run, mode, kinds, s, w, calls);
    RunAdds(mode, kinds, s, w, calls);
  }
}
