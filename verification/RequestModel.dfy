/**
 * Requests of the debugger and the replies to them, over one connection: who asked, what the debuggee
 * answered, who was told, and which views have asked again since the debuggee stopped last.
 *
 * Requests are numbered from one by a counter, so request number `n` is the `n`-th that was ever made.
 */
module RequestModel {
  import opened Wrappers

  /** Whoever makes requests; a new object never has the number of an old one. */
  type Handler = nat

  datatype Body = QueryResource(listener: Handler) | EditShaderSource | ForceLinkProgram | BenchmarkBuffer | Unknown

  datatype Request = Request(handler: Handler, body: Body)

  /** How the work of a request went. */
  datatype Outcome = Done(payload: nat) | Threw(message: string)

  datatype Answer = Ok(payload: Option<nat>) | Failed(error: string)

  datatype Reply = Reply(id: nat, answer: Answer)

  datatype Told = Told(handler: Handler, reply: Reply)

  datatype Listener = Listener(enabled: bool, outdated: bool)

  datatype State = State(
    asked: seq<Request>,
    replies: seq<Reply>,
    currentHandlers: map<nat, Handler>,
    told: seq<Told>,
    listeners: map<Handler, Listener>,
    order: seq<Handler>,
    // The views that were told, by an empty error, that what they show may be old.
    blanked: seq<Handler>,
    // For the record only: how the work of each request went, how many replies had arrived when a handler
    // went away, and how many requests had been made when the debuggee last stopped.
    outcomes: seq<Outcome>,
    gone: map<Handler, nat>,
    brokeAt: nat)

  datatype Event =
    | Breaked
    | CreateListener(listener: Handler)
    | SetEnabled(listener: Handler, enabled: bool)
    | DestroyListener(listener: Handler)
    | MakeRequest(handler: Handler, body: Body)
    | DestroyHandler(handler: Handler)
    | ReplyArrives(outcome: Outcome)

  const EMPTY := State([], [], map[], [], map[], [], [], [], map[], 0)

  const UNSUPPORTED := "Cannot handle: unsupported request"

  /** What the debuggee answers. Only two kinds of request have something to send back. */
  function AnswerTo(body: Body, outcome: Outcome): Answer {
    if body.Unknown? then Failed(UNSUPPORTED)
    else match outcome
      case Threw(message) => Failed(message)
      case Done(payload) => Ok(if body.QueryResource? || body.BenchmarkBuffer? then Some(payload) else None)
  }

  /**
   * What a reply must be: a query or a benchmark that succeeds is answered by what it asked for and nothing else,
   * an edit or a link that succeeds by nothing, one that throws by its message, and an unknown one by a refusal.
   */
  predicate Answers(id: nat, body: Body, outcome: Outcome, reply: Reply) {
    && reply.id == id
    && (body.Unknown? ==> reply.answer == Failed("Cannot handle: unsupported request"))
    && (!body.Unknown? && outcome.Threw? ==> reply.answer == Failed(outcome.message))
    && ((body.QueryResource? || body.BenchmarkBuffer?) && outcome.Done? ==> reply.answer == Ok(Some(outcome.payload)))
    && ((body.EditShaderSource? || body.ForceLinkProgram?) && outcome.Done? ==> reply.answer == Ok(None))
  }

  function Ask(s: State, handler: Handler, body: Body): State {
    s.(asked := s.asked + [Request(handler, body)],
       currentHandlers := s.currentHandlers[|s.asked| + 1 := handler])
  }

  function QueryOrMark(s: State, l: Handler): State
    requires l in s.listeners
  {
    if s.listeners[l].enabled then Ask(s, l, QueryResource(l))
    else s.(listeners := s.listeners[l := Listener(false, true)])
  }

  function EmitQueries(s: State, ls: seq<Handler>): (r: State)
    requires forall i | 0 <= i < |ls| :: ls[i] in s.listeners
    ensures r.listeners.Keys == s.listeners.Keys
  {
    if ls == [] then s else QueryOrMark(EmitQueries(s, ls[..|ls| - 1]), ls[|ls| - 1])
  }

  function Enable(s: State, l: Handler, enabled: bool): State
    requires l in s.listeners
  {
    var now := Listener(enabled, s.listeners[l].outdated);
    if enabled && now.outdated
    then Ask(s, l, QueryResource(l)).(listeners := s.listeners[l := Listener(true, false)], blanked := s.blanked + [l])
    else s.(listeners := s.listeners[l := now])
  }

  /** All requests of the handler are forgotten. */
  function Unregister(s: State, h: Handler): State {
    s.(currentHandlers := s.currentHandlers - (set id | id in s.currentHandlers && s.currentHandlers[id] == h),
       gone := s.gone[h := |s.replies|])
  }

  function Without(order: seq<Handler>, l: Handler): seq<Handler> {
    if order == [] then []
    else if order[0] == l then order[1..]
    else [order[0]] + Without(order[1..], l)
  }

  /** The debuggee answers the oldest open request, and the reply goes to whoever is still registered for it. */
  function OnReply(s: State, outcome: Outcome): State
    requires |s.replies| < |s.asked|
  {
    var id := |s.replies| + 1;
    var reply := Reply(id, AnswerTo(s.asked[id - 1].body, outcome));
    var s' := s.(replies := s.replies + [reply], outcomes := s.outcomes + [outcome]);
    if id in s.currentHandlers
    then s'.(told := s.told + [Told(s.currentHandlers[id], reply)], currentHandlers := s.currentHandlers - {id})
    else s'
  }

  predicate Legal(s: State, e: Event) {
    match e
    case Breaked => true
    case CreateListener(l) =>
      l !in s.listeners && l !in s.gone && forall i | 0 <= i < |s.asked| :: s.asked[i].handler != l
    case SetEnabled(l, _) => l in s.listeners
    case DestroyListener(l) => l in s.listeners
    case MakeRequest(h, _) => h !in s.gone && h !in s.listeners
    case DestroyHandler(h) => h !in s.gone && h !in s.listeners
    case ReplyArrives(_) => |s.replies| < |s.asked|
  }

  ghost predicate ListsListeners(s: State) {
    && (forall i | 0 <= i < |s.order| :: s.order[i] in s.listeners)
    && (forall l | l in s.listeners :: l in s.order)
    && Distinct(s.order)
  }

  function Step(s: State, e: Event): State
    requires Legal(s, e) && forall i | 0 <= i < |s.order| :: s.order[i] in s.listeners
  {
    match e
    case Breaked => EmitQueries(s.(brokeAt := |s.asked|), s.order)
    case CreateListener(l) =>
      Ask(s.(listeners := s.listeners[l := Listener(true, false)], order := s.order + [l]), l, QueryResource(l))
    case SetEnabled(l, enabled) => Enable(s, l, enabled)
    case DestroyListener(l) => Unregister(s.(listeners := s.listeners - {l}, order := Without(s.order, l)), l)
    case MakeRequest(h, body) => Ask(s, h, body)
    case DestroyHandler(h) => Unregister(s, h)
    case ReplyArrives(outcome) => OnReply(s, outcome)
  }

  // ---- Requests and replies --------------------------------------------------------------------------------

  /** The issuer of request `id` went away while it was still open. */
  predicate Abandoned(s: State, id: nat)
    requires 1 <= id <= |s.asked|
  {
    var h := s.asked[id - 1].handler;
    h in s.gone && s.gone[h] < id
  }

  /** The requests that wait for their reply are those in flight that nobody abandoned. */
  ghost predicate Waiting(s: State) {
    && |s.replies| <= |s.asked|
    && (forall id :: id in s.currentHandlers <==> |s.replies| < id <= |s.asked| && !Abandoned(s, id))
    && (forall id | id in s.currentHandlers :: s.currentHandlers[id] == s.asked[id - 1].handler)
  }

  /** The debuggee replied once to each of the first requests, in order, each with its number and its answer. */
  ghost predicate RepliedInOrder(s: State) {
    && |s.outcomes| == |s.replies| <= |s.asked|
    && forall k | 0 <= k < |s.replies| :: s.replies[k] == Reply(k + 1, AnswerTo(s.asked[k].body, s.outcomes[k]))
  }

  predicate HasTold(s: State, id: nat) {
    exists k | 0 <= k < |s.told| :: s.told[k].reply.id == id
  }

  /** Nobody is told twice, or told another's reply; and a reply goes unheard only if its issuer is gone. */
  ghost predicate ToldRightly(s: State) {
    && |s.replies| <= |s.asked|
    && (forall i, j | 0 <= i < j < |s.told| :: s.told[i].reply.id < s.told[j].reply.id)
    && (forall k | 0 <= k < |s.told| ::
          var id := s.told[k].reply.id;
          1 <= id <= |s.replies| && s.told[k] == Told(s.asked[id - 1].handler, s.replies[id - 1]))
    && AllHeard(s)
  }

  ghost predicate AllHeard(s: State)
    requires |s.replies| <= |s.asked|
  {
    forall id | 1 <= id <= |s.replies| :: HasTold(s, id) <==> !Abandoned(s, id)
  }

  ghost predicate GoneForGood(s: State) {
    forall h | h in s.gone :: s.gone[h] <= |s.replies| && h !in s.listeners
  }

  ghost predicate RequestsOk(s: State) {
    Waiting(s) && RepliedInOrder(s) && ToldRightly(s) && GoneForGood(s) && ListsListeners(s)
  }

  // ---- Fresh views -------------------------------------------------------------------------------------------

  predicate AskedAt(s: State, l: Handler, i: nat) {
    s.brokeAt <= i < |s.asked| && s.asked[i] == Request(l, QueryResource(l))
  }

  /** The listener has queried its resource since the debuggee last stopped. */
  ghost predicate Fresh(s: State, l: Handler) {
    exists i: nat :: AskedAt(s, l, i)
  }

  ghost predicate ListenerOk(s: State, l: Handler)
    requires l in s.listeners
  {
    if s.listeners[l].outdated then !s.listeners[l].enabled else Fresh(s, l)
  }

  /** Whoever is enabled is fresh; whoever is marked outdated is disabled. */
  ghost predicate ListenersOk(s: State) {
    forall l | l in s.listeners :: ListenerOk(s, l)
  }

  // ---- Every step keeps it -----------------------------------------------------------------------------------

  /** Which listeners there are does not touch the record of requests and replies. */
  lemma SameLedger(s: State, r: State)
    requires Waiting(s) && RepliedInOrder(s) && ToldRightly(s)
    requires r == s.(listeners := r.listeners, order := r.order, blanked := r.blanked, brokeAt := r.brokeAt)
    ensures Waiting(r) && RepliedInOrder(r) && ToldRightly(r)
  {
    forall id | 1 <= id <= |s.asked| ensures Abandoned(r, id) == Abandoned(s, id) {}
    forall id | 1 <= id <= |s.replies| ensures HasTold(r, id) == HasTold(s, id) {}
  }

  lemma AskKeepsRequests(s: State, h: Handler, body: Body)
    requires RequestsOk(s) && h !in s.gone
    ensures RequestsOk(Ask(s, h, body))
  {
    var r := Ask(s, h, body);
    forall id | 1 <= id <= |s.asked| ensures Abandoned(r, id) == Abandoned(s, id) {}
    assert !Abandoned(r, |r.asked|);
    forall id | 1 <= id <= |s.replies| ensures HasTold(r, id) == HasTold(s, id) {}
  }

  lemma UnregisterKeepsRequests(s: State, h: Handler)
    requires RequestsOk(s) && h !in s.gone && h !in s.listeners
    ensures RequestsOk(Unregister(s, h))
  {
    var r := Unregister(s, h);
    forall id | 1 <= id <= |s.asked|
      ensures Abandoned(r, id) <==> Abandoned(s, id) || (s.asked[id - 1].handler == h && id > |s.replies|)
    {
    }
    forall id | 1 <= id <= |s.replies| ensures HasTold(r, id) == HasTold(s, id) {}
  }

  lemma ReplyKeepsHeard(s: State, outcome: Outcome)
    requires Waiting(s) && |s.replies| < |s.asked| && AllHeard(s)
    requires forall k | 0 <= k < |s.told| :: s.told[k].reply.id <= |s.replies|
    ensures AllHeard(OnReply(s, outcome))
  {
    var r, id := OnReply(s, outcome), |s.replies| + 1;
    forall i | 1 <= i <= id ensures HasTold(r, i) <==> !Abandoned(r, i) {
      assert Abandoned(r, i) == Abandoned(s, i);
      if i < id && HasTold(s, i) {
        var k :| 0 <= k < |s.told| && s.told[k].reply.id == i;
        assert r.told[k].reply.id == i;
      } else if id in s.currentHandlers {
        assert r.told[|s.told|].reply.id == id;
      }
    }
  }

  lemma ReplyKeepsTold(s: State, outcome: Outcome)
    requires Waiting(s) && ToldRightly(s) && |s.replies| < |s.asked|
    ensures ToldRightly(OnReply(s, outcome))
  {
    ReplyKeepsHeard(s, outcome);
  }

  lemma ReplyKeepsWaiting(s: State, outcome: Outcome)
    requires Waiting(s) && |s.replies| < |s.asked|
    ensures Waiting(OnReply(s, outcome))
  {
    var r := OnReply(s, outcome);
    forall i | 1 <= i <= |s.asked| ensures Abandoned(r, i) == Abandoned(s, i) {}
  }

  lemma ReplyKeepsRequests(s: State, outcome: Outcome)
    requires RequestsOk(s) && |s.replies| < |s.asked|
    ensures RequestsOk(OnReply(s, outcome))
  {
    ReplyKeepsTold(s, outcome);
    ReplyKeepsWaiting(s, outcome);
  }

  ghost predicate Distinct(order: seq<Handler>) {
    forall i, j | 0 <= i < j < |order| :: order[i] != order[j]
  }

  lemma {:induction false} WithoutListener(order: seq<Handler>, l: Handler)
    requires Distinct(order)
    ensures Distinct(Without(order, l)) && forall x :: x in Without(order, l) <==> x in order && x != l
  {
    if order != [] {
      assert order == [order[0]] + order[1..];
      assert order[0] !in order[1..];
      if order[0] != l {
        WithoutListener(order[1..], l);
        var t, w := Without(order[1..], l), Without(order, l);
        forall i, j | 0 <= i < j < |w| ensures w[i] != w[j] {
          assert w[j] == t[j - 1] && t[j - 1] in t;
        }
      }
    }
  }

  ghost predicate OutdatedIsDisabled(s: State) {
    forall l | l in s.listeners :: s.listeners[l].outdated ==> !s.listeners[l].enabled
  }

  lemma QueryOrMarkKeeps(s: State, l: Handler)
    requires RequestsOk(s) && s.brokeAt <= |s.asked| && l in s.listeners && OutdatedIsDisabled(s)
    ensures var r := QueryOrMark(s, l);
      && RequestsOk(r) && OutdatedIsDisabled(r) && ListenerOk(r, l)
      && s.asked <= r.asked && r.brokeAt == s.brokeAt && r.listeners.Keys == s.listeners.Keys
      && (forall x | x in s.listeners && x != l :: r.listeners[x] == s.listeners[x])
  {
    if s.listeners[l].enabled {
      AskKeepsRequests(s, l, QueryResource(l));
    } else {
      MarkKeepsRequests(s, l, Listener(false, true));
    }
    var r := QueryOrMark(s, l);
    if s.listeners[l].enabled { assert AskedAt(r, l, |s.asked|); }
  }

  lemma BlankKeepsRequests(s: State, l: Handler, now: Listener, blanked: seq<Handler>)
    requires RequestsOk(s) && l in s.listeners
    ensures RequestsOk(s.(listeners := s.listeners[l := now], blanked := blanked))
  {
    SameLedger(s, s.(listeners := s.listeners[l := now], blanked := blanked));
  }

  lemma MarkKeepsRequests(s: State, l: Handler, now: Listener)
    requires RequestsOk(s) && l in s.listeners
    ensures RequestsOk(s.(listeners := s.listeners[l := now]))
  {
    var r := s.(listeners := s.listeners[l := now]);
    SameLedger(s, r);
  }

  ghost predicate AllOk(s: State, ls: seq<Handler>)
    requires forall i | 0 <= i < |ls| :: ls[i] in s.listeners
  {
    forall i | 0 <= i < |ls| :: ListenerOk(s, ls[i])
  }

  /** What holds when the listeners `ls` have had their turn. */
  ghost predicate Emitted(s: State, ls: seq<Handler>) {
    && RequestsOk(s) && OutdatedIsDisabled(s) && s.brokeAt <= |s.asked|
    && (forall i | 0 <= i < |ls| :: ls[i] in s.listeners) && AllOk(s, ls)
  }

  lemma EmitStep(s: State, ls: seq<Handler>, l: Handler)
    requires Emitted(s, ls) && l in s.listeners && forall i | 0 <= i < |ls| :: ls[i] != l
    ensures Emitted(QueryOrMark(s, l), ls + [l])
  {
    QueryOrMarkKeeps(s, l);
    var r := QueryOrMark(s, l);
    forall i | 0 <= i < |ls| ensures ListenerOk(r, (ls + [l])[i]) { StaysFresh(s, r, ls[i]); }
  }

  ghost predicate AllListed(s: State, ls: seq<Handler>) {
    Distinct(ls) && forall i | 0 <= i < |ls| :: ls[i] in s.listeners
  }

  lemma EmitOneMore(s: State, ls: seq<Handler>, l: Handler)
    requires AllListed(s, ls) && l in s.listeners && l !in ls
    requires Emitted(EmitQueries(s, ls), ls)
    ensures AllListed(s, ls + [l]) && Emitted(EmitQueries(s, ls + [l]), ls + [l])
  {
    assert (ls + [l])[..|ls|] == ls;
    EmitStep(EmitQueries(s, ls), ls, l);
  }

  lemma {:induction false} EmitAsks(s: State, ls: seq<Handler>)
    requires Emitted(s, []) && AllListed(s, ls)
    ensures Emitted(EmitQueries(s, ls), ls)
  {
    if ls != [] {
      var front, l := ls[..|ls| - 1], ls[|ls| - 1];
      assert front + [l] == ls;
      EmitAsks(s, front);
      EmitOneMore(s, front, l);
    }
  }

  /** The queries of these listeners, in order; who is disabled asks nothing. */
  function Queries(listeners: map<Handler, Listener>, ls: seq<Handler>): seq<Request> {
    if ls == [] then []
    else
      var front, l := Queries(listeners, ls[..|ls| - 1]), ls[|ls| - 1];
      if l in listeners && listeners[l].enabled then front + [Request(l, QueryResource(l))] else front
  }

  /** A stop makes the listeners ask in the order in which they were created. */
  lemma {:induction false} EmitAsksInOrder(s: State, ls: seq<Handler>)
    requires forall i | 0 <= i < |ls| :: ls[i] in s.listeners
    ensures EmitQueries(s, ls).asked == s.asked + Queries(s.listeners, ls)
    ensures forall l | l in s.listeners ::
      EmitQueries(s, ls).listeners[l] ==
      (if !s.listeners[l].enabled && l in ls then Listener(false, true) else s.listeners[l])
  {
    if ls != [] {
      var front, l := ls[..|ls| - 1], ls[|ls| - 1];
      EmitAsksInOrder(s, front);
      assert ls == front + [l];
    }
  }

  /** More requests make no view stale. */
  lemma StaysFresh(s: State, r: State, l: Handler)
    requires s.asked <= r.asked && r.brokeAt == s.brokeAt
    ensures Fresh(s, l) ==> Fresh(r, l)
  {
    if Fresh(s, l) {
      var i: nat :| AskedAt(s, l, i);
      assert AskedAt(r, l, i);
    }
  }

  ghost predicate Inv(s: State) {
    RequestsOk(s) && ListenersOk(s) && s.brokeAt <= |s.asked|
  }

  lemma BreakKeepsInv(s: State)
    requires Inv(s)
    ensures Inv(Step(s, Breaked))
  {
    var s0 := s.(brokeAt := |s.asked|);
    SameLedger(s, s0);
    EmitAsks(s0, s.order);
    var r := EmitQueries(s0, s.order);
    forall l | l in r.listeners ensures ListenerOk(r, l) {
      var i :| 0 <= i < |s.order| && s.order[i] == l;
    }
  }

  lemma CreateKeepsInv(s: State, l: Handler)
    requires Inv(s) && Legal(s, CreateListener(l))
    ensures Inv(Step(s, CreateListener(l)))
  {
    var s0 := s.(listeners := s.listeners[l := Listener(true, false)], order := s.order + [l]);
    SameLedger(s, s0);
    AskKeepsRequests(s0, l, QueryResource(l));
    var r := Ask(s0, l, QueryResource(l));
    assert AskedAt(r, l, |s.asked|);
    forall x | x in s.listeners ensures ListenerOk(r, x) { StaysFresh(s, r, x); }
  }

  lemma EnableKeepsInv(s: State, l: Handler, enabled: bool)
    requires Inv(s) && l in s.listeners
    ensures Inv(Enable(s, l, enabled))
  {
    var r := Enable(s, l, enabled);
    if enabled && s.listeners[l].outdated {
      AskKeepsRequests(s, l, QueryResource(l));
      BlankKeepsRequests(Ask(s, l, QueryResource(l)), l, Listener(true, false), s.blanked + [l]);
      assert AskedAt(r, l, |s.asked|);
    } else {
      MarkKeepsRequests(s, l, Listener(enabled, s.listeners[l].outdated));
    }
    forall x | x in s.listeners ensures ListenerOk(r, x) { StaysFresh(s, r, x); }
  }

  lemma DestroyKeepsInv(s: State, l: Handler)
    requires Inv(s) && l in s.listeners
    ensures Inv(Step(s, DestroyListener(l)))
  {
    var s0 := s.(listeners := s.listeners - {l}, order := Without(s.order, l));
    UnlistKeepsRequests(s, l);
    UnregisterKeepsRequests(s0, l);
    var r := Unregister(s0, l);
    forall x | x in r.listeners ensures ListenerOk(r, x) { StaysFresh(s, r, x); }
  }

  lemma UnlistKeepsRequests(s: State, l: Handler)
    requires RequestsOk(s) && l in s.listeners
    ensures RequestsOk(s.(listeners := s.listeners - {l}, order := Without(s.order, l)))
  {
    var s0 := s.(listeners := s.listeners - {l}, order := Without(s.order, l));
    SameLedger(s, s0);
    WithoutListener(s.order, l);
    forall i | 0 <= i < |s0.order| ensures s0.order[i] in s0.listeners { assert s0.order[i] in s0.order; }
  }

  /** Requests reach their issuers and views stay fresh through every step. */
  lemma StepKeepsInv(s: State, e: Event)
    requires Inv(s) && Legal(s, e)
    ensures Inv(Step(s, e))
  {
    match e
    case Breaked => BreakKeepsInv(s);
    case CreateListener(l) => CreateKeepsInv(s, l);
    case SetEnabled(l, enabled) => EnableKeepsInv(s, l, enabled);
    case DestroyListener(l) => DestroyKeepsInv(s, l);
    case MakeRequest(h, body) =>
      AskKeepsRequests(s, h, body);
      forall x | x in s.listeners ensures ListenerOk(Ask(s, h, body), x) { StaysFresh(s, Ask(s, h, body), x); }
    case DestroyHandler(h) =>
      UnregisterKeepsRequests(s, h);
      forall x | x in s.listeners ensures ListenerOk(Unregister(s, h), x) { StaysFresh(s, Unregister(s, h), x); }
    case ReplyArrives(outcome) =>
      ReplyKeepsRequests(s, outcome);
      forall x | x in s.listeners ensures ListenerOk(OnReply(s, outcome), x) { StaysFresh(s, OnReply(s, outcome), x); }
  }

  // ---- Whole runs ----------------------------------------------------------------------------------------------

  predicate LegalRun(s: State, events: seq<Event>)
    decreases |events|
  {
    events != [] ==>
      && (forall i | 0 <= i < |s.order| :: s.order[i] in s.listeners)
      && Legal(s, events[0])
      && LegalRun(Step(s, events[0]), events[1..])
  }

  function Run(s: State, events: seq<Event>): State
    requires LegalRun(s, events)
    decreases |events|
  {
    if events == [] then s else Run(Step(s, events[0]), events[1..])
  }

  lemma {:induction false} RunKeepsInv(s: State, events: seq<Event>)
    requires Inv(s) && LegalRun(s, events)
    ensures Inv(Run(s, events))
    decreases |events|
  {
    if events != [] {
      StepKeepsInv(s, events[0]);
      RunKeepsInv(Step(s, events[0]), events[1..]);
    }
  }

  /**
   * Over every run: each reply carries the number of its request and there is one per request, in order;
   * the issuer is told exactly that reply, and exactly once, unless it went away while the request was open.
   */
  lemma EveryReplyIsToldOnce(events: seq<Event>, id: nat)
    requires LegalRun(EMPTY, events) && 1 <= id <= |Run(EMPTY, events).replies|
    ensures var s := Run(EMPTY, events);
      && id <= |s.asked| && id <= |s.outcomes|
      && Answers(id, s.asked[id - 1].body, s.outcomes[id - 1], s.replies[id - 1])
      && (Abandoned(s, id) ==> forall k | 0 <= k < |s.told| :: s.told[k].reply.id != id)
      && (!Abandoned(s, id) ==>
            exists k :: 0 <= k < |s.told| && s.told[k] == Told(s.asked[id - 1].handler, s.replies[id - 1]) &&
                        forall j | 0 <= j < |s.told| && j != k :: s.told[j].reply.id != id)
  {
    RunKeepsInv(EMPTY, events);
    var s := Run(EMPTY, events);
    assert HasTold(s, id) <==> !Abandoned(s, id);
    if HasTold(s, id) {
      var k :| 0 <= k < |s.told| && s.told[k].reply.id == id;
      assert s.told[k] == Told(s.asked[id - 1].handler, s.replies[id - 1]);
    }
  }
}
