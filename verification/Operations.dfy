/**
 Outbound operations and the responses reported for them.

 A request sent for the application carries an operation id. Each path remembers
 the id in its own place until a final response arrives: a MESSAGE in the record
 handed to PJSIP, an INVITE and a BYE or CANCEL in the call record, a SUBSCRIBE in
 the subscription record, an INFO (or a request on a restored dialog) in the module
 data of its transaction.
 */
module Operations {
  import opened Lists

  datatype Event = Response(operation: nat, status: int)

  datatype Call = Call(operation: nat, inviteFinal: bool, dialogOperation: nat)

  datatype Message = Message(operation: nat, finalEmitted: bool)

  /** An INFO on a call, or a request on a restored dialog, which belongs to no call. */
  datatype Request = Request(call: Option<nat>, operation: nat)

  /** `made` holds every call there ever was, so that a new call is never taken for an old one. */
  datatype State = State(
    calls: map<nat, Call>,
    made: set<nat>,
    subscriptions: map<nat, nat>,
    messages: map<nat, Message>,
    requests: map<nat, Request>,
    issued: set<nat>,
    events: seq<Event>)

  const NOTHING := State(map[], {}, map[], map[], map[], {}, [])

  /** Where an operation id waits for its final response. */
  datatype Place =
    | OfMessage(record: nat)
    | OfInvite(record: nat)
    | OfBye(record: nat)
    | OfSubscribe(record: nat)
    | OfRequest(record: nat, call: Option<nat>)

  /**
   What happens at a place: the application sends, the send fails, the transaction
   changes state, the peer's INVITE makes a call, or the record goes away.
   */
  datatype Action = Send(operation: nat) | Failed | Status(status: int, over: bool) | Incoming | Drop

  datatype Step = Step(place: Place, action: Action)

  /** A transaction reports its status unless nothing tracks it or there is no status yet. */
  function Emit(s: State, operation: nat, status: int): State {
    if operation == 0 || status < 100 then s
    else s.(events := s.events + [Response(operation, status)])
  }

  /** The application never reuses an operation id, and zero is not one. */
  predicate Fresh(s: State, operation: nat) {
    operation != 0 && operation !in s.issued
  }

  function Issue(s: State, operation: nat): State { s.(issued := s.issued + {operation}) }

  function OnMessage(s: State, m: nat, action: Action): State {
    if action.Send? && m !in s.messages && Fresh(s, action.operation) then
      Issue(s, action.operation).(messages := s.messages[m := Message(action.operation, false)])
    else if action.Status? && m in s.messages && action.status >= 200 && !s.messages[m].finalEmitted then
      Emit(s.(messages := s.messages[m := s.messages[m].(finalEmitted := true)]), s.messages[m].operation, action.status)
    else s
  }

  /** The INVITE of a call; a call made by the peer has nothing to report. */
  function OnInvite(s: State, c: nat, action: Action): State {
    match action
    case Send(op) =>
      if c in s.calls || c in s.made || !Fresh(s, op) then s
      else Issue(s, op).(calls := s.calls[c := Call(op, false, 0)], made := s.made + {c})
    case Incoming =>
      if c in s.calls || c in s.made then s else s.(calls := s.calls[c := Call(0, true, 0)], made := s.made + {c})
    case Status(status, _) =>
      if c !in s.calls || (status >= 200 && s.calls[c].inviteFinal) then s
      else
        var s' := Emit(s, s.calls[c].operation, status);
        if status >= 200 then s'.(calls := s.calls[c := s.calls[c].(inviteFinal := true)]) else s'
    case Failed => s.(calls := s.calls - {c})
    case Drop => s.(calls := s.calls - {c})
  }

  /** A BYE is refused as busy while an earlier one is tracked. */
  predicate ByeAccepted(s: State, c: nat, operation: nat) {
    c in s.calls && s.calls[c].dialogOperation == 0 && Fresh(s, operation)
  }

  function WithBye(s: State, c: nat, operation: nat): State
    requires c in s.calls
  {
    s.(calls := s.calls[c := s.calls[c].(dialogOperation := operation)])
  }

  function OnBye(s: State, c: nat, action: Action): State {
    if c !in s.calls then s
    else
      match action
      case Send(op) => if ByeAccepted(s, c, op) then WithBye(Issue(s, op), c, op) else s
      case Failed => WithBye(s, c, 0)
      case Status(status, _) =>
        if s.calls[c].dialogOperation == 0 then s
        else
          var s' := Emit(s, s.calls[c].dialogOperation, status);
          if status >= 200 then WithBye(s', c, 0) else s'
      case Incoming => s
      case Drop => s
  }

  /** A SUBSCRIBE creates a record, or is refused as busy while one is tracked. */
  predicate SubscribeAccepted(s: State, u: nat, operation: nat) {
    (u in s.subscriptions ==> s.subscriptions[u] == 0) && Fresh(s, operation)
  }

  function OnSubscribe(s: State, u: nat, action: Action): State {
    match action
    case Send(op) =>
      if SubscribeAccepted(s, u, op) then Issue(s, op).(subscriptions := s.subscriptions[u := op]) else s
    case Failed =>
      if u in s.subscriptions then s.(subscriptions := s.subscriptions[u := 0]) else s
    case Status(status, _) =>
      if u !in s.subscriptions || s.subscriptions[u] == 0 then s
      else
        var s' := Emit(s, s.subscriptions[u], status);
        if status >= 200 then s'.(subscriptions := s.subscriptions[u := 0]) else s'
    case Incoming => s
    case Drop => s.(subscriptions := s.subscriptions - {u})
  }

  /** An INFO needs its call, but nothing stops it while other operations of the call are on their way. */
  predicate RequestAccepted(s: State, r: nat, call: Option<nat>, operation: nat) {
    r !in s.requests && (call.Some? ==> call.value in s.calls) && Fresh(s, operation)
  }

  /** A request lives as long as its transaction, even if its call is gone by then. */
  function OnRequest(s: State, r: nat, call: Option<nat>, action: Action): State {
    if action.Send? then
      if RequestAccepted(s, r, call, action.operation) then
        Issue(s, action.operation).(requests := s.requests[r := Request(call, action.operation)])
      else s
    else if r !in s.requests || s.requests[r].call != call then s
    else
      match action
      case Status(status, over) =>
        var s' := Emit(s, s.requests[r].operation, status);
        if status >= 200 || over then s'.(requests := s.requests - {r}) else s'
      case Incoming => s
      case Failed => s.(requests := s.requests - {r})
      case Drop => s.(requests := s.requests - {r})
  }

  function Apply(s: State, step: Step): State {
    match step.place
    case OfMessage(m) => OnMessage(s, m, step.action)
    case OfInvite(c) => OnInvite(s, c, step.action)
    case OfBye(c) => OnBye(s, c, step.action)
    case OfSubscribe(u) => OnSubscribe(s, u, step.action)
    case OfRequest(r, call) => OnRequest(s, r, call, step.action)
  }

  function Run(steps: seq<Step>): State {
    if steps == [] then NOTHING else Apply(Run(steps[..|steps| - 1]), steps[|steps| - 1])
  }

  /** How many final responses were reported for an operation. */
  function Finals(events: seq<Event>, operation: nat): nat {
    if events == [] then 0
    else
      var last := events[|events| - 1];
      Finals(events[..|events| - 1], operation) + (if last.operation == operation && last.status >= 200 then 1 else 0)
  }

  lemma FinalsSnoc(events: seq<Event>, event: Event, operation: nat)
    ensures Finals(events + [event], operation)
         == Finals(events, operation) + if event.operation == operation && event.status >= 200 then 1 else 0
  {
    assert (events + [event])[..|events|] == events;
  }

  // ---- Each place tracks at most one operation ----------------------------------------

  /** The operation a place waits for; zero when it waits for none. */
  function Tracked(s: State, p: Place): nat {
    match p
    case OfMessage(m) => if m in s.messages && !s.messages[m].finalEmitted then s.messages[m].operation else 0
    case OfInvite(c) => if c in s.calls && !s.calls[c].inviteFinal then s.calls[c].operation else 0
    case OfBye(c) => if c in s.calls then s.calls[c].dialogOperation else 0
    case OfSubscribe(u) => if u in s.subscriptions then s.subscriptions[u] else 0
    case OfRequest(r, call) => if r in s.requests && s.requests[r].call == call then s.requests[r].operation else 0
  }

  /** Each tracked operation was issued, is tracked in one place and has no final response yet. */
  ghost predicate Inv(s: State) {
    && (forall p, q :: Tracked(s, p) != 0 && Tracked(s, p) == Tracked(s, q) ==> p == q)
    && (forall p :: Tracked(s, p) != 0 ==> Tracked(s, p) in s.issued && Finals(s.events, Tracked(s, p)) == 0)
    && (forall op: nat :: Finals(s.events, op) <= (if op in s.issued then 1 else 0))
    && 0 !in s.issued
  }

  /** A place keeps its operation until it lets go of it; only the idle place `p` takes a new one. */
  ghost predicate Keeps(s: State, s': State, p: Place, q: Place) {
    || Tracked(s', q) == Tracked(s, q)
    || Tracked(s', q) == 0
    || (Tracked(s, q) == 0 && q == p && Fresh(s, Tracked(s', q)) && Tracked(s', q) in s'.issued)
  }

  /** A final response is reported only for the operation its place tracks, which then lets go of it. */
  ghost predicate Reports(s: State, s': State, p: Place) {
    && s.issued <= s'.issued && (0 in s'.issued ==> 0 in s.issued)
    && (s'.events == s.events || (
          && |s'.events| == |s.events| + 1
          && s'.events == s.events + [s'.events[|s.events|]]
          && (s'.events[|s.events|].status >= 200 ==>
                s'.events[|s.events|].operation == Tracked(s, p) != 0 && Tracked(s', p) == 0)))
  }

  ghost predicate Follows(s: State, s': State, p: Place) {
    Reports(s, s', p) && forall q :: Keeps(s, s', p, q)
  }

  lemma MessageFollows(s: State, m: nat, action: Action)
    ensures Follows(s, OnMessage(s, m, action), OfMessage(m))
  {
  }

  lemma InviteFollows(s: State, c: nat, action: Action)
    ensures Follows(s, OnInvite(s, c, action), OfInvite(c))
  {
  }

  lemma ByeFollows(s: State, c: nat, action: Action)
    ensures Follows(s, OnBye(s, c, action), OfBye(c))
  {
  }

  lemma SubscribeFollows(s: State, u: nat, action: Action)
    ensures Follows(s, OnSubscribe(s, u, action), OfSubscribe(u))
  {
  }

  lemma RequestFollows(s: State, r: nat, call: Option<nat>, action: Action)
    ensures Follows(s, OnRequest(s, r, call, action), OfRequest(r, call))
  {
  }

  lemma StepFollows(s: State, step: Step)
    ensures Follows(s, Apply(s, step), step.place)
  {
    match step.place
    case OfMessage(m) => MessageFollows(s, m, step.action);
    case OfInvite(c) => InviteFollows(s, c, step.action);
    case OfBye(c) => ByeFollows(s, c, step.action);
    case OfSubscribe(u) => SubscribeFollows(s, u, step.action);
    case OfRequest(r, call) => RequestFollows(s, r, call, step.action);
  }

  lemma FollowsFinals(s: State, s': State, p: Place, op: nat)
    requires Reports(s, s', p)
    ensures Finals(s'.events, op) == Finals(s.events, op)
         || (Finals(s'.events, op) == Finals(s.events, op) + 1 && op == Tracked(s, p) != 0 && Tracked(s', p) == 0)
  {
    if s'.events != s.events {
      FinalsSnoc(s.events, s'.events[|s.events|], op);
    }
  }

  lemma FollowsTracked(s: State, s': State, p: Place, q: Place)
    requires Inv(s) && Reports(s, s', p) && Keeps(s, s', p, q) && Tracked(s', q) != 0
    ensures Tracked(s', q) in s'.issued && Finals(s'.events, Tracked(s', q)) == 0
  {
    FollowsFinals(s, s', p, Tracked(s', q));
  }

  lemma FollowsDistinct(s: State, s': State, p: Place, q: Place, r: Place)
    requires Inv(s) && Keeps(s, s', p, q) && Keeps(s, s', p, r)
    requires Tracked(s', q) != 0 && Tracked(s', q) == Tracked(s', r)
    ensures q == r
  {
  }

  lemma FollowsInv(s: State, s': State, p: Place)
    requires Inv(s) && Follows(s, s', p)
    ensures Inv(s')
  {
    forall op: nat
      ensures Finals(s'.events, op) <= (if op in s'.issued then 1 else 0)
    {
      FollowsFinals(s, s', p, op);
    }
    forall q | Tracked(s', q) != 0
      ensures Tracked(s', q) in s'.issued && Finals(s'.events, Tracked(s', q)) == 0
    {
      FollowsTracked(s, s', p, q);
    }
    forall q, r | Tracked(s', q) != 0 && Tracked(s', q) == Tracked(s', r)
      ensures q == r
    {
      FollowsDistinct(s, s', p, q, r);
    }
  }

  lemma {:induction false} RunInv(steps: seq<Step>)
    ensures Inv(Run(steps))
  {
    if steps != [] {
      var s := Run(steps[..|steps| - 1]);
      RunInv(steps[..|steps| - 1]);
      StepFollows(s, steps[|steps| - 1]);
      FollowsInv(s, Run(steps), steps[|steps| - 1].place);
    }
  }

  /** No run reports two final responses for one operation, and none while it is still tracked. */
  lemma FinalResponseOnce(steps: seq<Step>, operation: nat)
    ensures Finals(Run(steps).events, operation) <= 1
    ensures forall p :: Tracked(Run(steps), p) == operation != 0 ==> Finals(Run(steps).events, operation) == 0
  {
    RunInv(steps);
  }

  /** A tracked operation is never replaced: its place lets go of it before taking another. */
  lemma NeverReplaced(s: State, step: Step, p: Place)
    requires Tracked(s, p) != 0
    ensures Tracked(Apply(s, step), p) in {Tracked(s, p), 0}
  {
    StepFollows(s, step);
    assert Keeps(s, Apply(s, step), step.place, p);
  }

  // ---- What is reported -------------------------------------------------------------------

  /** A final status is reported for the operation its place tracks, which then lets go of it. */
  lemma FinalIsReported(s: State, p: Place, status: int, over: bool)
    requires Tracked(s, p) != 0 && status >= 200
    ensures var s' := Apply(s, Step(p, Status(status, over)));
            && s'.events == s.events + [Response(Tracked(s, p), status)]
            && Tracked(s', p) == 0 && s'.issued == s.issued
  {
  }

  /** A provisional status is reported too, except for a MESSAGE, and the place goes on waiting. */
  lemma ProvisionalIsReported(s: State, p: Place, status: int)
    requires Tracked(s, p) != 0 && 100 <= status < 200
    ensures var s' := Apply(s, Step(p, Status(status, false)));
            && s'.events == (if p.OfMessage? then s.events else s.events + [Response(Tracked(s, p), status)])
            && Tracked(s', p) == Tracked(s, p)
  {
  }

  /** Without a status, nothing is reported; a request whose transaction is over is given up all the same. */
  lemma NoStatusIsSilent(s: State, p: Place, status: int, over: bool)
    requires status < 100
    ensures var s' := Apply(s, Step(p, Status(status, over)));
            && s'.events == s.events
            && Tracked(s', p) == (if p.OfRequest? && over then 0 else Tracked(s, p))
  {
  }

  /** A place that waits for nothing has no final response to report. */
  lemma IdleIsSilent(s: State, p: Place, status: int, over: bool)
    requires Tracked(s, p) == 0 && status >= 200
    requires p.OfMessage? && p.record in s.messages ==> s.messages[p.record].operation != 0
    ensures Apply(s, Step(p, Status(status, over))).events == s.events
  {
  }

  /** Sends, failures and records that come or go report nothing. */
  lemma OnlyStatusReports(s: State, p: Place, action: Action)
    requires !action.Status?
    ensures Apply(s, Step(p, action)).events == s.events
  {
  }

  lemma {:induction false} FinalsGrow(before: seq<Step>, later: seq<Step>, operation: nat)
    ensures Finals(Run(before).events, operation) <= Finals(Run(before + later).events, operation)
  {
    if later == [] {
      assert before + later == before;
    } else {
      var front, last := later[..|later| - 1], later[|later| - 1];
      FinalsGrow(before, front, operation);
      assert (before + later)[..|before + later| - 1] == before + front && (before + later)[|before + later| - 1] == last;
      StepFollows(Run(before + front), last);
      FollowsFinals(Run(before + front), Run(before + later), last.place, operation);
    }
  }

  /** Once its place gets a final status, a tracked operation has exactly one final response, whatever follows. */
  lemma FinalResponseExactlyOnce(before: seq<Step>, p: Place, status: int, over: bool, later: seq<Step>)
    requires Tracked(Run(before), p) != 0 && status >= 200
    ensures Finals(Run(before + [Step(p, Status(status, over))] + later).events, Tracked(Run(before), p)) == 1
  {
    var step, operation := Step(p, Status(status, over)), Tracked(Run(before), p);
    assert (before + [step])[..|before|] == before;
    FinalIsReported(Run(before), p, status, over);
    FinalsSnoc(Run(before).events, Response(operation, status), operation);
    FinalsGrow(before + [step], later, operation);
    FinalResponseOnce(before + [step] + later, operation);
  }

  /** An accepted request is tracked at its place from then on. */
  lemma SendIsTracked(s: State, p: Place, operation: nat)
    requires operation != 0 && operation !in s.issued && CallsMade(s)
    requires match p
             case OfMessage(m) => m !in s.messages
             case OfInvite(c) => c !in s.made
             case OfBye(c) => c in s.calls && Tracked(s, p) == 0
             case OfSubscribe(u) => Tracked(s, p) == 0
             case OfRequest(r, call) => r !in s.requests && (call.Some? ==> call.value in s.calls)
    ensures var s' := Apply(s, Step(p, Send(operation)));
            Tracked(s', p) == operation && s'.issued == s.issued + {operation}
  {
  }

  /** A send that fails is tracked no more. */
  lemma FailureIsForgotten(s: State, p: Place)
    requires !p.OfMessage?
    ensures Tracked(Apply(s, Step(p, Failed)), p) == 0
  {
  }

  /** A record that ends, or a request whose transaction is over, takes its operation along. */
  lemma EndIsForgotten(s: State, p: Place, status: int)
    requires p.OfInvite? || p.OfSubscribe? || p.OfRequest?
    ensures Tracked(Apply(s, Step(p, Drop)), p) == 0
    ensures p.OfRequest? ==> Tracked(Apply(s, Step(p, Status(status, true))), p) == 0
    ensures p.OfInvite? ==> p.record !in Apply(s, Step(p, Drop)).calls
    ensures p.OfSubscribe? ==> p.record !in Apply(s, Step(p, Drop)).subscriptions
  {
  }

  /** A call made by the peer has nothing to report for its INVITE, and takes a BYE like any other. */
  lemma PeersCallIsSilent(s: State, c: nat, status: int, over: bool, operation: nat)
    requires c !in s.calls && c !in s.made && operation != 0 && operation !in s.issued
    ensures var s' := Apply(s, Step(OfInvite(c), Incoming));
            && s'.events == s.events && Tracked(s', OfInvite(c)) == 0
            && Apply(s', Step(OfInvite(c), Status(status, over))).events == s.events
            && Tracked(Apply(s', Step(OfBye(c), Send(operation))), OfBye(c)) == operation
  {
  }

  /** A call number is used once: neither a new INVITE nor a peer's takes one that was used. */
  lemma CallsAreNotReused(s: State, c: nat)
    requires c in s.made
    ensures Apply(s, Step(OfInvite(c), Incoming)) == s
  {
  }

  /** A busy place, a missing call and a used operation id leave everything as it was. */
  lemma RefusedSendChangesNothing(s: State, p: Place, operation: nat)
    requires || operation == 0 || operation in s.issued
             || (p.OfInvite? && (p.record in s.calls || p.record in s.made))
             || (p.OfBye? && (p.record !in s.calls || Tracked(s, p) != 0))
             || (p.OfSubscribe? && Tracked(s, p) != 0)
             || (p.OfRequest? && p.call.Some? && p.call.value !in s.calls)
    ensures Apply(s, Step(p, Send(operation))) == s
  {
  }

  // ---- A call may wait for several operations at once --------------------------------------

  /** The places where an operation of a call can wait: its INVITE, its BYE, and each INFO. */
  predicate OfCall(p: Place, c: nat) {
    p == OfInvite(c) || p == OfBye(c) || (p.OfRequest? && p.call == Some(c))
  }

  /** Another place than `p` waits for an operation of the call. */
  ghost predicate Waiting(s: State, c: nat, p: Place) {
    exists q :: q != p && OfCall(q, c) && Tracked(s, q) != 0
  }

  ghost predicate TwoTracked(s: State, c: nat) {
    exists p :: OfCall(p, c) && Tracked(s, p) != 0 && Waiting(s, c, p)
  }

  /**
   The sends the shim accepts without looking at the call's other operations: a BYE
   while the INVITE has no final response (it goes out as a CANCEL) or an INFO is on
   its way, and an INFO while any other operation of the call is.
   */
  ghost predicate UnguardedSend(s: State, step: Step, c: nat) {
    && step.action.Send?
    && Waiting(s, c, step.place)
    && (|| (step.place == OfBye(c) && ByeAccepted(s, c, step.action.operation))
        || (step.place.OfRequest? && step.place.call == Some(c) &&
            RequestAccepted(s, step.place.record, step.place.call, step.action.operation)))
  }

  /** Every call and every request's call is one that was made. */
  predicate CallsMade(s: State) {
    && (forall c :: c in s.calls ==> c in s.made)
    && (forall r :: r in s.requests && s.requests[r].call.Some? ==> s.requests[r].call.value in s.made)
  }

  lemma InviteCallsMade(s: State, c: nat, action: Action)
    requires CallsMade(s)
    ensures CallsMade(OnInvite(s, c, action))
  {
    assert OnInvite(s, c, action).requests == s.requests;
  }

  lemma ByeCallsMade(s: State, c: nat, action: Action)
    requires CallsMade(s)
    ensures CallsMade(OnBye(s, c, action))
  {
    assert OnBye(s, c, action).requests == s.requests && OnBye(s, c, action).made == s.made;
  }

  lemma RequestCallsMade(s: State, r: nat, call: Option<nat>, action: Action)
    requires CallsMade(s)
    ensures CallsMade(OnRequest(s, r, call, action))
  {
    assert OnRequest(s, r, call, action).calls == s.calls && OnRequest(s, r, call, action).made == s.made;
  }

  lemma CallsMadeStep(s: State, step: Step)
    requires CallsMade(s)
    ensures CallsMade(Apply(s, step))
  {
    match step.place
    case OfMessage(m) =>
    case OfInvite(c) => InviteCallsMade(s, c, step.action);
    case OfBye(c) => ByeCallsMade(s, c, step.action);
    case OfSubscribe(u) =>
    case OfRequest(r, call) => RequestCallsMade(s, r, call, step.action);
  }

  lemma {:induction false} RunCallsMade(steps: seq<Step>)
    ensures CallsMade(Run(steps))
  {
    if steps != [] {
      RunCallsMade(steps[..|steps| - 1]);
      CallsMadeStep(Run(steps[..|steps| - 1]), steps[|steps| - 1]);
    }
  }

  /** Only an accepted send makes a place wait for a new operation, and a new call has no other. */
  lemma NewlyTracked(s: State, step: Step, c: nat, p: Place)
    requires CallsMade(s) && OfCall(p, c) && Tracked(s, p) == 0 && Tracked(Apply(s, step), p) != 0
    ensures step.place == p && step.action.Send?
    ensures p == OfInvite(c) ==> !Waiting(s, c, p)
    ensures p == OfBye(c) ==> ByeAccepted(s, c, step.action.operation)
    ensures p.OfRequest? ==> RequestAccepted(s, p.record, p.call, step.action.operation)
  {
    StepFollows(s, step);
    assert Keeps(s, Apply(s, step), step.place, p);
  }

  lemma TwoNeedUnguardedSend(s: State, step: Step, c: nat)
    requires CallsMade(s) && TwoTracked(Apply(s, step), c)
    ensures TwoTracked(s, c) || UnguardedSend(s, step, c)
  {
    var s' := Apply(s, step);
    var p :| OfCall(p, c) && Tracked(s', p) != 0 && Waiting(s', c, p);
    var q :| q != p && OfCall(q, c) && Tracked(s', q) != 0;
    if Tracked(s, p) == 0 {
      NewlyTracked(s, step, c, p);
    }
    if Tracked(s, q) == 0 {
      NewlyTracked(s, step, c, q);
    }
  }

  lemma UnguardedSendMakesTwo(s: State, step: Step, c: nat)
    requires UnguardedSend(s, step, c)
    ensures TwoTracked(Apply(s, step), c)
  {
    var q :| q != step.place && OfCall(q, c) && Tracked(s, q) != 0;
    var s' := Apply(s, step);
    assert Tracked(s', step.place) == step.action.operation;
    assert Tracked(s', q) == Tracked(s, q);
    assert Waiting(s', c, step.place);
  }

  ghost predicate EverTwo(steps: seq<Step>, c: nat) {
    steps != [] && (TwoTracked(Run(steps), c) || EverTwo(steps[..|steps| - 1], c))
  }

  ghost predicate EverUnguarded(steps: seq<Step>, c: nat) {
    steps != [] && (UnguardedSend(Run(steps[..|steps| - 1]), steps[|steps| - 1], c) || EverUnguarded(steps[..|steps| - 1], c))
  }

  /**
   A call waits for two operations at some point of a run exactly when a BYE was
   accepted on it while its INVITE or an INFO was on its way, or an INFO while any
   other of its operations was. Two BYEs are never on their way together.
   */
  lemma {:induction false} TwoOutstandingExactly(steps: seq<Step>, c: nat)
    ensures EverTwo(steps, c) <==> EverUnguarded(steps, c)
  {
    if steps != [] {
      var before, step := steps[..|steps| - 1], steps[|steps| - 1];
      TwoOutstandingExactly(before, c);
      RunCallsMade(before);
      if TwoTracked(Run(steps), c) {
        TwoNeedUnguardedSend(Run(before), step, c);
        if TwoTracked(Run(before), c) {
          assert before != [];
        }
      }
      if UnguardedSend(Run(before), step, c) {
        UnguardedSendMakesTwo(Run(before), step, c);
      }
    }
  }

  lemma RunPrefix(steps: seq<Step>, k: nat)
    requires k < |steps|
    ensures Run(steps[..k + 1]) == Apply(Run(steps[..k]), steps[k])
  {
    assert steps[..k + 1][..k] == steps[..k];
  }

  /** A run in which an INVITE is cancelled before it is answered. */
  lemma CancelledInviteTracksTwo()
    ensures TwoTracked(Run([Step(OfInvite(1), Send(7)), Step(OfBye(1), Send(8))]), 1)
  {
    var steps := [Step(OfInvite(1), Send(7)), Step(OfBye(1), Send(8))];
    var s1 := Apply(NOTHING, steps[0]);
    RunPrefix(steps, 0);
    RunPrefix(steps, 1);
    assert steps[..2] == steps;
    assert Tracked(s1, OfInvite(1)) == 7 && Waiting(s1, 1, OfBye(1));
    UnguardedSendMakesTwo(s1, steps[1], 1);
  }

  /** Whatever state a call is in, a BYE accepted behind an INFO makes two operations. */
  lemma InfoThenByeTracksTwo(s: State, c: nat, r: nat, info: nat, bye: nat)
    requires c in s.calls && s.calls[c].dialogOperation == 0 && r !in s.requests
    requires Fresh(s, info) && Fresh(s, bye) && info != bye
    ensures TwoTracked(Apply(Apply(s, Step(OfRequest(r, Some(c)), Send(info))), Step(OfBye(c), Send(bye))), c)
  {
    var s' := Apply(s, Step(OfRequest(r, Some(c)), Send(info)));
    assert Tracked(s', OfRequest(r, Some(c))) == info && Waiting(s', c, OfBye(c));
    UnguardedSendMakesTwo(s', Step(OfBye(c), Send(bye)), c);
  }

  lemma AnsweredCall(s: State)
    requires s == Apply(Apply(NOTHING, Step(OfInvite(1), Send(7))), Step(OfInvite(1), Status(200, false)))
    ensures 1 in s.calls && s.calls[1].dialogOperation == 0 && s.requests == map[] && s.issued == {7}
  {
  }

  /** A run in which an answered call is ended while an INFO is on its way. */
  lemma InfoAndByeTrackTwo()
    ensures TwoTracked(Run([Step(OfInvite(1), Send(7)), Step(OfInvite(1), Status(200, false)),
                            Step(OfRequest(1, Some(1)), Send(8)), Step(OfBye(1), Send(9))]), 1)
  {
    var steps := [Step(OfInvite(1), Send(7)), Step(OfInvite(1), Status(200, false)),
                  Step(OfRequest(1, Some(1)), Send(8)), Step(OfBye(1), Send(9))];
    RunPrefix(steps, 0);
    RunPrefix(steps, 1);
    RunPrefix(steps, 2);
    RunPrefix(steps, 3);
    assert steps[..4] == steps && steps[..0] == [];
    AnsweredCall(Run(steps[..2]));
    InfoThenByeTracksTwo(Run(steps[..2]), 1, 1, 8, 9);
  }

  // ---- The callbacks ----------------------------------------------------------------------

  datatype Result = Success | Busy | NotFound

  ghost predicate Sound(s: State) { Inv(s) && CallsMade(s) }

  lemma StepSound(s: State, step: Step)
    requires Sound(s)
    ensures Sound(Apply(s, step))
  {
    StepFollows(s, step);
    FollowsInv(s, Apply(s, step), step.place);
    CallsMadeStep(s, step);
  }

  /**
   The records as the owner thread keeps them, changed by its requests and by the
   callbacks PJSIP runs. `Valid` is what makes final responses unique.
   */
  class Tracker {
    var calls: map<nat, Call>
    var subscriptions: map<nat, nat>
    var messages: map<nat, Message>
    var requests: map<nat, Request>
    var events: seq<Event>
    ghost var made: set<nat>
    ghost var issued: set<nat>

    ghost function Contents(): State
      reads this
    {
      State(calls, made, subscriptions, messages, requests, issued, events)
    }

    ghost predicate Valid()
      reads this
    {
      Sound(Contents())
    }

    constructor ()
      ensures Valid() && Contents() == NOTHING
    {
      calls, subscriptions, messages, requests, events := map[], map[], map[], map[], [];
      made, issued := {}, {};
      new;
      RunInv([]);
    }

    method EmitTransactionEvent(operation: nat, status: int)
      modifies this`events
      ensures Contents() == Emit(old(Contents()), operation, status)
    {
      if operation == 0 || status < 100 {
        return;
      }
      events := events + [Response(operation, status)];
    }

    method OutboundCallback(m: nat, status: int)
      requires Valid() && m in messages && messages[m].operation != 0
      modifies this`messages, this`events
      ensures Valid() && Contents() == OnMessage(old(Contents()), m, Status(status, false))
    {
      StepSound(Contents(), Step(OfMessage(m), Status(status, false)));
      if status < 200 || messages[m].finalEmitted {
        return;
      }
      messages := messages[m := messages[m].(finalEmitted := true)];
      events := events + [Response(messages[m].operation, status)];
    }

    method ReportInvite(c: nat, status: int)
      requires c in calls
      modifies this`calls, this`events
      ensures Contents() == OnInvite(old(Contents()), c, Status(status, false))
    {
      if status >= 200 && calls[c].inviteFinal {
        return;
      }
      EmitTransactionEvent(calls[c].operation, status);
      if status >= 200 {
        calls := calls[c := calls[c].(inviteFinal := true)];
      }
    }

    method OnInviteTransaction(c: nat, status: int)
      requires Valid() && c in calls
      modifies this`calls, this`events
      ensures Valid() && Contents() == OnInvite(old(Contents()), c, Status(status, false))
    {
      StepSound(Contents(), Step(OfInvite(c), Status(status, false)));
      ReportInvite(c, status);
    }

    method ReportDialog(c: nat, status: int)
      requires c in calls
      modifies this`calls, this`events
      ensures Contents() == OnBye(old(Contents()), c, Status(status, false))
    {
      if calls[c].dialogOperation != 0 {
        EmitTransactionEvent(calls[c].dialogOperation, status);
        if status >= 200 {
          calls := calls[c := calls[c].(dialogOperation := 0)];
        }
      }
    }

    method OnDialogTransaction(c: nat, status: int)
      requires Valid() && c in calls
      modifies this`calls, this`events
      ensures Valid() && Contents() == OnBye(old(Contents()), c, Status(status, false))
    {
      StepSound(Contents(), Step(OfBye(c), Status(status, false)));
      ReportDialog(c, status);
    }

    method ReportSubscribe(u: nat, status: int)
      requires u in subscriptions
      modifies this`subscriptions, this`events
      ensures Contents() == OnSubscribe(old(Contents()), u, Status(status, false))
    {
      if subscriptions[u] == 0 {
        return;
      }
      EmitTransactionEvent(subscriptions[u], status);
      if status >= 200 {
        subscriptions := subscriptions[u := 0];
      }
    }

    method OnSubscribeTransaction(u: nat, status: int)
      requires Valid() && u in subscriptions
      modifies this`subscriptions, this`events
      ensures Valid() && Contents() == OnSubscribe(old(Contents()), u, Status(status, false))
    {
      StepSound(Contents(), Step(OfSubscribe(u), Status(status, false)));
      ReportSubscribe(u, status);
    }

    method OnTransactionState(r: nat, status: int, over: bool)
      requires Valid()
      modifies this`requests, this`events
      ensures Valid()
      ensures r in old(requests) ==> Contents() == OnRequest(old(Contents()), r, old(requests[r].call), Status(status, over))
      ensures r !in old(requests) ==> Contents() == old(Contents())
    {
      if r !in requests {
        return;
      }
      StepSound(Contents(), Step(OfRequest(r, requests[r].call), Status(status, over)));
      EmitTransactionEvent(requests[r].operation, status);
      if status >= 200 || over {
        requests := requests - {r};
      }
    }

    /** Accepts a BYE on a call, unless one is on its way already. */
    method StartBye(c: nat, operation: nat) returns (result: Result)
      requires Valid() && Fresh(Contents(), operation)
      modifies this`calls, this`issued
      ensures Valid() && Contents() == OnBye(old(Contents()), c, Send(operation))
      ensures result == if c !in old(calls) then NotFound else if old(calls[c].dialogOperation) != 0 then Busy else Success
    {
      StepSound(Contents(), Step(OfBye(c), Send(operation)));
      if c !in calls {
        return NotFound;
      }
      if calls[c].dialogOperation != 0 {
        return Busy;
      }
      calls := calls[c := calls[c].(dialogOperation := operation)];
      issued := issued + {operation};
      return Success;
    }

    /** Accepts an INFO on a call in a new transaction, whatever else is on its way. */
    method StartInfo(c: nat, r: nat, operation: nat) returns (result: Result)
      requires Valid() && Fresh(Contents(), operation) && r !in requests
      modifies this`requests, this`issued
      ensures Valid() && Contents() == OnRequest(old(Contents()), r, Some(c), Send(operation))
      ensures result == if c !in calls then NotFound else Success
    {
      StepSound(Contents(), Step(OfRequest(r, Some(c)), Send(operation)));
      if c !in calls {
        return NotFound;
      }
      requests := requests[r := Request(Some(c), operation)];
      issued := issued + {operation};
      return Success;
    }

    /** Accepts another SUBSCRIBE for the same event on a subscription, unless one is on its way already. */
    method RestartSubscribe(u: nat, sameEvent: bool, operation: nat) returns (result: Result)
      requires Valid() && Fresh(Contents(), operation)
      modifies this`subscriptions, this`issued
      ensures Valid()
      ensures result == if u !in old(subscriptions) then NotFound
                        else if old(subscriptions[u]) != 0 || !sameEvent then Busy
                        else Success
      ensures Contents() == if result == Success then OnSubscribe(old(Contents()), u, Send(operation)) else old(Contents())
    {
      StepSound(Contents(), Step(OfSubscribe(u), Send(operation)));
      if u !in subscriptions {
        return NotFound;
      }
      if subscriptions[u] != 0 || !sameEvent {
        return Busy;
      }
      subscriptions := subscriptions[u := operation];
      issued := issued + {operation};
      return Success;
    }
  }
}
