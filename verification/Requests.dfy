/**
 * The objects behind requests: the debuggee's dispatch, and the debugger's request and resource managers.
 */
module Requests {
  import opened RequestModel
  import opened Wrappers

  /** The debuggee's side: success, failure and unsupported requests all end in one reply with the request's number. */
  method HandleRequest(id: nat, body: Body, outcome: Outcome) returns (reply: Reply)
    ensures reply == Reply(id, AnswerTo(body, outcome))
    ensures Answers(id, body, outcome, reply)
  {
    var answer := Ok(None);
    match body {
      case QueryResource(_) =>
        match outcome {
          case Done(payload) => answer := Ok(Some(payload));
          case Threw(message) => answer := Failed(message);
        }
      case EditShaderSource =>
        if outcome.Threw? { answer := Failed(outcome.message); }
      case ForceLinkProgram =>
        if outcome.Threw? { answer := Failed(outcome.message); }
      case BenchmarkBuffer =>
        match outcome {
          case Done(payload) => answer := Ok(Some(payload));
          case Threw(message) => answer := Failed(message);
        }
      case Unknown =>
        answer := Failed(UNSUPPORTED);
    }
    reply := Reply(id, answer);
  }

  class Controller {
    var asked: seq<Request>
    var replies: seq<Reply>
    var requestId: nat
    var currentHandlers: map<nat, Handler>
    var told: seq<Told>
    var listeners: map<Handler, Listener>
    var order: seq<Handler>
    var blanked: seq<Handler>
    ghost var outcomes: seq<Outcome>
    ghost var gone: map<Handler, nat>
    ghost var brokeAt: nat

    ghost function State(): State
      reads this
    {
      RequestModel.State(asked, replies, currentHandlers, told, listeners, order, blanked, outcomes, gone, brokeAt)
    }

    ghost predicate Valid()
      reads this
    {
      requestId == |asked| && Distinct(order) && forall i | 0 <= i < |order| :: order[i] in listeners
    }

    constructor ()
      ensures Valid() && State() == EMPTY
    {
      asked, replies, requestId, currentHandlers, told := [], [], 0, map[], [];
      listeners, order, blanked, outcomes, gone, brokeAt := map[], [], [], [], map[], 0;
    }

    /** Every request takes the next number of the counter. */
    method Request(body: Body, handler: Handler)
      requires Valid()
      modifies this`asked, this`requestId, this`currentHandlers
      ensures Valid() && State() == Ask(old(State()), handler, body)
      ensures asked == old(asked) + [RequestModel.Request(handler, body)] && requestId == old(requestId) + 1
      ensures currentHandlers == old(currentHandlers)[requestId := handler]
    {
      requestId := requestId + 1;
      currentHandlers := currentHandlers[requestId := handler];
      asked := asked + [RequestModel.Request(handler, body)];
    }

    method UnregisterHandler(handler: Handler)
      requires Valid()
      modifies this`currentHandlers, this`gone
      ensures Valid() && State() == Unregister(old(State()), handler)
    {
      var todo := currentHandlers.Keys;
      while todo != {}
        invariant todo <= currentHandlers.Keys <= old(currentHandlers).Keys
        invariant gone == old(gone)
        invariant forall id | id in old(currentHandlers) ::
          id in currentHandlers <==> id in todo || old(currentHandlers)[id] != handler
        invariant forall id | id in currentHandlers :: currentHandlers[id] == old(currentHandlers)[id]
        decreases todo
      {
        var i :| i in todo;
        todo := todo - {i};
        if currentHandlers[i] == handler {
          currentHandlers := currentHandlers - {i};
        }
      }
      gone := gone[handler := |replies|];
      assert currentHandlers == old(currentHandlers) -
        (set id | id in old(currentHandlers) && old(currentHandlers)[id] == handler);
    }

    method IsEnabledMarkOutdatedIfNot(l: Handler) returns (enabled: bool)
      requires l in listeners
      modifies this`listeners
      ensures enabled == old(listeners[l].enabled)
      ensures listeners == if enabled then old(listeners) else old(listeners)[l := Listener(false, true)]
    {
      enabled := listeners[l].enabled;
      if !enabled {
        listeners := listeners[l := Listener(false, true)];
      }
    }

    method Fire(l: Handler)
      requires Valid() && l in listeners
      modifies this`asked, this`requestId, this`currentHandlers, this`listeners
      ensures Valid() && State() == QueryOrMark(old(State()), l)
    {
      var enabled := IsEnabledMarkOutdatedIfNot(l);
      if enabled {
        Request(QueryResource(l), l);
      }
    }

    /** The debuggee stopped: every listener queries again, or remembers that it did not. */
    method EmitQueries()
      requires Valid()
      modifies this
      ensures Valid() && State() == Step(old(State()), Breaked)
      ensures asked == old(asked) + Queries(old(listeners), order)
    {
      brokeAt := |asked|;
      ghost var s0 := State();
      var i := 0;
      while i < |order|
        invariant i <= |order| && order == s0.order && Valid()
        invariant State() == RequestModel.EmitQueries(s0, order[..i])
      {
        assert order[..i + 1][..i] == order[..i];
        Fire(order[i]);
        i := i + 1;
      }
      assert order[..|order|] == order;
      EmitAsksInOrder(s0, order);
    }

    method CreateListener(l: Handler)
      requires Valid() && Legal(State(), RequestModel.CreateListener(l))
      modifies this
      ensures Valid() && State() == Step(old(State()), RequestModel.CreateListener(l))
      ensures order == old(order) + [l] && listeners == old(listeners)[l := Listener(true, false)]
      ensures asked == old(asked) + [RequestModel.Request(l, QueryResource(l))]
    {
      listeners := listeners[l := Listener(true, false)];
      order := order + [l];
      var enabled := IsEnabledMarkOutdatedIfNot(l);
      if enabled {
        Fire(l);
      }
    }

    /** A view that was hidden while the debuggee stopped asks as soon as it shows again. */
    method SetEnabled(l: Handler, enabled: bool)
      requires Valid() && l in listeners
      modifies this
      ensures Valid() && State() == Enable(old(State()), l, enabled)
      ensures enabled && old(listeners[l].outdated) ==>
        && listeners[l] == Listener(true, false) && blanked == old(blanked) + [l]
        && asked == old(asked) + [RequestModel.Request(l, QueryResource(l))]
      ensures !(enabled && old(listeners[l].outdated)) ==>
        && listeners[l] == Listener(enabled, old(listeners[l].outdated)) && blanked == old(blanked)
        && asked == old(asked)
    {
      ghost var s := State();
      listeners := listeners[l := listeners[l].(enabled := enabled)];
      if enabled && listeners[l].outdated {
        blanked := blanked + [l];
        Fire(l);
        listeners := listeners[l := listeners[l].(outdated := false)];
        assert listeners == s.listeners[l := Listener(true, false)];
      }
    }

    method UnregisterListener(l: Handler)
      modifies this`order
      ensures order == Without(old(order), l)
    {
      var i := 0;
      while i < |order| && order[i] != l
        invariant i <= |order| && order == old(order)
        invariant Without(order, l) == order[..i] + Without(order[i..], l)
      {
        assert order[i..][1..] == order[i + 1..];
        i := i + 1;
      }
      if i < |order| {
        assert order[i..][1..] == order[i + 1..];
        order := order[..i] + order[i + 1..];
      } else {
        assert order[..i] + [] == order;
      }
    }

    method DestroyListener(l: Handler)
      requires Valid() && l in listeners
      modifies this
      ensures Valid() && State() == Step(old(State()), RequestModel.DestroyListener(l))
    {
      WithoutListener(order, l);
      UnregisterListener(l);
      assert forall i | 0 <= i < |order| :: order[i] in order;
      listeners := listeners - {l};
      UnregisterHandler(l);
    }

    /** A reply goes to the handler registered under its number, if there still is one. */
    method Handle(msg: Reply)
      modifies this`told, this`currentHandlers
      ensures told == if msg.id in old(currentHandlers) then old(told) + [Told(old(currentHandlers)[msg.id], msg)]
                      else old(told)
      ensures currentHandlers == old(currentHandlers) - {msg.id}
    {
      if msg.id in currentHandlers {
        told := told + [Told(currentHandlers[msg.id], msg)];
        currentHandlers := currentHandlers - {msg.id};
      }
    }

    method ReplyArrives(outcome: Outcome)
      requires Valid() && |replies| < |asked|
      modifies this
      ensures Valid() && State() == OnReply(old(State()), outcome)
    {
      var id := |replies| + 1;
      var reply := HandleRequest(id, asked[id - 1].body, outcome);
      replies := replies + [reply];
      outcomes := outcomes + [outcome];
      Handle(reply);
    }

    method Happen(e: Event)
      requires Valid() && Legal(State(), e)
      modifies this
      ensures Valid() && State() == Step(old(State()), e)
    {
      match e
      case Breaked => EmitQueries();
      case CreateListener(l) => CreateListener(l);
      case SetEnabled(l, enabled) => SetEnabled(l, enabled);
      case DestroyListener(l) => DestroyListener(l);
      case MakeRequest(h, body) => Request(body, h);
      case DestroyHandler(h) => UnregisterHandler(h);
      case ReplyArrives(outcome) => ReplyArrives(outcome);
    }
  }

  /** A whole run, from the first request on. */
  method Session(events: seq<Event>) returns (c: Controller)
    requires LegalRun(EMPTY, events)
    ensures c.State() == Run(EMPTY, events) && Inv(c.State())
  {
    c := new Controller();
    var i := 0;
    assert events[0..] == events;
    while i < |events|
      invariant i <= |events| && fresh(c) && c.Valid()
      invariant LegalRun(c.State(), events[i..]) && Run(c.State(), events[i..]) == Run(EMPTY, events)
    {
      assert events[i..][0] == events[i] && events[i..][1..] == events[i + 1..];
      c.Happen(events[i]);
      i := i + 1;
    }
    RunKeepsInv(EMPTY, events);
  }
}
