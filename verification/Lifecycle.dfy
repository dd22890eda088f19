/**
 The life of TCP associations across the socket side and the owner thread.

 Each connection's reader task pushes received messages, and finally its close,
 into one bounded channel that drops what does not fit. The owner thread moves
 channel items into typed queues, takes all queues at once, and processes
 completions, then receives, then closes, then invites and subscribes. Reader tasks,
 application calls and PJSIP activity interleave with these steps freely.
 */
module Lifecycle {
  import opened Lists
  import opened Sends

  /** An invite call or a subscription, bound to the association it was made on. */
  datatype Record = Record(id: nat, protocol: Protocol, association: nat)

  datatype Io =
    | Received(protocol: Protocol, association: nat)
    | Completed(send: nat, bytes: int)
    | ReaderClosed(association: nat)

  datatype Completion = Completion(send: nat, bytes: int)
  datatype Receive = Receive(protocol: Protocol, association: nat)

  /** `own` marks a close reported by the association's own reader, as opposed to one asked for by the application. */
  datatype Close = Close(association: nat, status: Status, own: bool)

  datatype Outbound = Invite(protocol: Protocol, association: nat) | Subscribe(protocol: Protocol, association: nat)

  datatype Queues = Queues(
    completions: seq<Completion>,
    receives: seq<Receive>,
    closes: seq<Close>,
    invites: seq<Outbound>,
    subscribes: seq<Outbound>)

  const NO_COMMANDS := Queues([], [], [], [], [])

  /** The owner thread's lists. */
  datatype Owner = Owner(sends: Table, invites: seq<Record>, subscriptions: seq<Record>, records: nat)

  datatype State = State(
    owner: Owner,
    nextAssociation: nat,
    open: set<nat>,
    channel: seq<Io>,
    capacity: nat,
    queued: Queues,
    batch: Queues,
    finished: set<nat>)

  datatype Step =
    // socket side
    | Accept
    | ReadMessage(association: nat)
    | ReadDatagram
    | ReadEnds(association: nat)
    | WriteEnds(send: nat, bytes: int)
    // owner thread
    | Drain(admitted: bool)
    | TakeQueues
    | ProcessCompletion
    | ProcessReceive
    | ProcessClose
    | ProcessOutbound
    // application calls
    | AskClose(association: nat, status: Status)
    | AskOutbound(command: Outbound)
    // PJSIP, from within any owner step
    | PjsipSend(transport: nat, hasCallback: bool, encodable: bool, takenOver: bool)
    | PjsipShutdown(transport: nat)
    | IncomingInvite(transport: nat)
    | DropInvite(record: nat)
    | DropSubscription(record: nat)

  function Start(capacity: nat, enableUdp: bool): State {
    var empty := Table([], [], 0, 0, NO_HISTORY);
    var owner := Owner(if enableUdp then AddTransport(empty, Udp, 0) else empty, [], [], 0);
    State(owner, 1, {}, [], capacity, NO_COMMANDS, NO_COMMANDS, {})
  }

  /** A full channel drops the item. */
  function Push(s: State, item: Io): State {
    if |s.channel| < s.capacity then s.(channel := s.channel + [item]) else s
  }

  function NotBoundTo(protocol: Protocol, association: nat): Record -> bool {
    (r: Record) => !(r.protocol == protocol && r.association == association)
  }
  function NotRecord(id: nat): Record -> bool { (r: Record) => r.id != id }

  /** Moves the oldest channel item into its queue; the receive entry point may refuse a packet. */
  function DrainOne(s: State, admitted: bool): State {
    if s.channel == [] then s
    else
      var s' := s.(channel := s.channel[1..]);
      match s.channel[0]
      case Received(protocol, association) =>
        if admitted then s'.(queued := s.queued.(receives := s.queued.receives + [Receive(protocol, association)])) else s'
      case Completed(send, bytes) =>
        s'.(queued := s.queued.(completions := s.queued.completions + [Completion(send, bytes)]))
      case ReaderClosed(association) =>
        s'.(queued := s.queued.(closes := s.queued.closes + [Close(association, Code(1), true)]))
  }

  /** A packet for an unknown TCP association creates its transport. */
  function ReceiveOne(o: Owner, r: Receive): Owner {
    if r.protocol == Tcp && FindTransport(o.sends.transports, Tcp, r.association).None? then
      o.(sends := AddTransport(o.sends, Tcp, r.association))
    else o
  }

  /** Closes the association's transport and, with it, the calls and subscriptions made on it. */
  function CloseOne(o: Owner, c: Close): Owner {
    var t := FindTransport(o.sends.transports, Tcp, c.association);
    if t.None? then o
    else o.(sends := CloseTransport(o.sends, t.value.id, c.status),
            invites := Filter(o.invites, NotBoundTo(Tcp, c.association)),
            subscriptions := Filter(o.subscriptions, NotBoundTo(Tcp, c.association)))
  }

  /** A new call or subscription needs a transport that serves its association. */
  function OutboundOne(o: Owner, command: Outbound): Owner {
    if FindTransport(o.sends.transports, command.protocol, command.association).None? then o
    else
      var r := Record(o.records + 1, command.protocol, command.association);
      match command
      case Invite(_, _) => o.(records := o.records + 1, invites := [r] + o.invites)
      case Subscribe(_, _) => o.(records := o.records + 1, subscriptions := [r] + o.subscriptions)
  }

  /** One step of the whole system; a step that is not enabled changes nothing. */
  function Apply(s: State, step: Step): State {
    var o, b := s.owner, s.batch;
    match step
    case Accept =>
      s.(nextAssociation := s.nextAssociation + 1, open := s.open + {s.nextAssociation})
    case ReadMessage(a) => if a in s.open then Push(s, Received(Tcp, a)) else s
    case ReadDatagram => Push(s, Received(Udp, 0))
    case ReadEnds(a) => if a in s.open then Push(s.(open := s.open - {a}), ReaderClosed(a)) else s
    case WriteEnds(send, bytes) => Push(s, Completed(send, bytes))
    case Drain(admitted) => if b == NO_COMMANDS then DrainOne(s, admitted) else s
    case TakeQueues => if b == NO_COMMANDS then s.(batch := s.queued, queued := NO_COMMANDS) else s
    case ProcessCompletion =>
      if b.completions == [] then s
      else s.(batch := b.(completions := b.completions[1..]),
              owner := o.(sends := CompleteSend(o.sends, b.completions[0].send, b.completions[0].bytes)))
    case ProcessReceive =>
      if b.completions != [] || b.receives == [] then s
      else s.(batch := b.(receives := b.receives[1..]), owner := ReceiveOne(o, b.receives[0]))
    case ProcessClose =>
      if b.completions != [] || b.receives != [] || b.closes == [] then s
      else s.(batch := b.(closes := b.closes[1..]),
              owner := CloseOne(o, b.closes[0]),
              finished := if b.closes[0].own then s.finished + {b.closes[0].association} else s.finished)
    case ProcessOutbound =>
      if b.completions != [] || b.receives != [] || b.closes != [] then s
      else if b.invites != [] then s.(batch := b.(invites := b.invites[1..]), owner := OutboundOne(o, b.invites[0]))
      else if b.subscribes != [] then
        s.(batch := b.(subscribes := b.subscribes[1..]), owner := OutboundOne(o, b.subscribes[0]))
      else s
    case AskClose(a, status) => s.(queued := s.queued.(closes := s.queued.closes + [Close(a, status, false)]))
    case AskOutbound(command) =>
      if command.Invite? then s.(queued := s.queued.(invites := s.queued.invites + [command]))
      else s.(queued := s.queued.(subscribes := s.queued.subscribes + [command]))
    case PjsipSend(t, hasCallback, encodable, takenOver) =>
      s.(owner := o.(sends := TransportSend(o.sends, t, hasCallback, encodable, takenOver)))
    case PjsipShutdown(t) => s.(owner := o.(sends := MarkShutdown(o.sends, t)))
    case IncomingInvite(id) =>
      var t := FindById(o.sends.transports, id);
      if t.None? then s
      else s.(owner := o.(records := o.records + 1,
                          invites := [Record(o.records + 1, t.value.protocol, t.value.association)] + o.invites))
    case DropInvite(id) => s.(owner := o.(invites := Filter(o.invites, NotRecord(id))))
    case DropSubscription(id) => s.(owner := o.(subscriptions := Filter(o.subscriptions, NotRecord(id))))
  }

  function Run(s: State, steps: seq<Step>): State {
    if steps == [] then s else Apply(Run(s, steps[..|steps| - 1]), steps[|steps| - 1])
  }

  // ---- What each step does ----------------------------------------------------------------

  /** The socket side's items go to the end of the channel as long as there is room. */
  lemma SocketSteps(s: State, a: nat, send: nat, bytes: int)
    ensures Apply(s, ReadMessage(a)).channel
         == (if a in s.open && |s.channel| < s.capacity then s.channel + [Received(Tcp, a)] else s.channel)
    ensures Apply(s, ReadDatagram).channel
         == (if |s.channel| < s.capacity then s.channel + [Received(Udp, 0)] else s.channel)
    ensures Apply(s, ReadEnds(a)).channel
         == (if a in s.open && |s.channel| < s.capacity then s.channel + [ReaderClosed(a)] else s.channel)
    ensures Apply(s, ReadEnds(a)).open == s.open - {a}
    ensures Apply(s, WriteEnds(send, bytes)).channel
         == (if |s.channel| < s.capacity then s.channel + [Completed(send, bytes)] else s.channel)
    ensures Apply(s, Accept).open == s.open + {s.nextAssociation} && Apply(s, Accept).nextAssociation == s.nextAssociation + 1
  {
  }

  /** The oldest item moves to the end of its queue; only a packet can be refused. */
  lemma DrainExactly(s: State, admitted: bool)
    requires s.channel != [] && s.batch == NO_COMMANDS
    ensures var s', q := Apply(s, Drain(admitted)), s.queued;
            && s'.channel == s.channel[1..] && s'.owner == s.owner && s'.batch == s.batch && s'.finished == s.finished
            && s'.queued.receives == q.receives +
                 (if s.channel[0].Received? && admitted then [Receive(s.channel[0].protocol, s.channel[0].association)] else [])
            && s'.queued.completions == q.completions +
                 (if s.channel[0].Completed? then [Completion(s.channel[0].send, s.channel[0].bytes)] else [])
            && s'.queued.closes == q.closes +
                 (if s.channel[0].ReaderClosed? then [Close(s.channel[0].association, Code(1), true)] else [])
            && s'.queued.invites == q.invites && s'.queued.subscribes == q.subscribes
  {
  }

  /** A packet leaves its association with a transport, made if there was none, and touches nothing else. */
  lemma ReceiveExactly(o: Owner, r: Receive)
    ensures var o' := ReceiveOne(o, r);
            && o'.invites == o.invites && o'.subscriptions == o.subscriptions && o'.records == o.records
            && o'.sends.pending == o.sends.pending && o'.sends.history == o.sends.history
            && (r.protocol == Udp ==> o' == o)
            && (r.protocol == Tcp ==>
                  && (exists t :: t in o'.sends.transports && t.protocol == Tcp && t.association == r.association)
                  && ((exists t :: t in o.sends.transports && t.protocol == Tcp && t.association == r.association) ==> o' == o)
                  && (o' != o ==> |o'.sends.transports| > 0 && o'.sends.transports[1..] == o.sends.transports))
  {
    var o' := ReceiveOne(o, r);
    if r.protocol == Tcp && FindTransport(o.sends.transports, Tcp, r.association).None? {
      assert o'.sends.transports[0] in o'.sends.transports;
    }
  }

  /** The calls and subscriptions a close takes off are those of its own TCP association, if that is served. */
  lemma CloseExactly(o: Owner, c: Close, r: Record)
    ensures (exists t :: t in o.sends.transports && t.protocol == Tcp && t.association == c.association) ==>
              && (r in CloseOne(o, c).invites <==> r in o.invites && (r.protocol != Tcp || r.association != c.association))
              && (r in CloseOne(o, c).subscriptions <==>
                    r in o.subscriptions && (r.protocol != Tcp || r.association != c.association))
    ensures (forall t :: t in o.sends.transports ==> t.protocol != Tcp || t.association != c.association) ==>
              CloseOne(o, c) == o
    ensures CloseOne(o, c).records == o.records
  {
  }

  /** The transports and sends of other associations outlive a close. */
  lemma CloseKeepsOthers(o: Owner, c: Close, r: Record, t: Transport, p: PendingSend)
    requires Unique(o.sends.transports, TransportId())
    ensures r.protocol != Tcp || r.association != c.association ==>
              (r in o.invites ==> r in CloseOne(o, c).invites) && (r in o.subscriptions ==> r in CloseOne(o, c).subscriptions)
    ensures t in o.sends.transports && (t.protocol != Tcp || t.association != c.association) ==>
              && t in CloseOne(o, c).sends.transports
              && (p in o.sends.pending && p.transport == t.id ==> p in CloseOne(o, c).sends.pending)
  {
    var found := FindTransport(o.sends.transports, Tcp, c.association);
    if found.Some? && t in o.sends.transports && (t.protocol != Tcp || t.association != c.association) {
      assert found.value in o.sends.transports && found.value != t;
    }
  }

  /** A call or subscription is made, in front of the others, exactly if its association is served. */
  lemma OutboundExactly(o: Owner, command: Outbound)
    ensures var o' := OutboundOne(o, command);
            var served := exists t :: t in o.sends.transports && t.protocol == command.protocol &&
                                      (t.protocol == Udp || t.association == command.association);
            var r := Record(o.records + 1, command.protocol, command.association);
            && o'.sends == o.sends
            && o'.invites == (if served && command.Invite? then [r] + o.invites else o.invites)
            && o'.subscriptions == (if served && command.Subscribe? then [r] + o.subscriptions else o.subscriptions)
            && o'.records == (if served then o.records + 1 else o.records)
  {
    FoundExactly(o.sends.transports, command.protocol, command.association);
  }

  /** The application's calls go to the end of their queues; taking the queues empties them. */
  lemma ApplicationSteps(s: State, a: nat, status: Status, command: Outbound)
    ensures Apply(s, AskClose(a, status)) == s.(queued := s.queued.(closes := s.queued.closes + [Close(a, status, false)]))
    ensures var q := Apply(s, AskOutbound(command)).queued;
            && q.invites == s.queued.invites + (if command.Invite? then [command] else [])
            && q.subscribes == s.queued.subscribes + (if command.Subscribe? then [command] else [])
            && q.receives == s.queued.receives && q.closes == s.queued.closes && q.completions == s.queued.completions
    ensures s.batch == NO_COMMANDS ==>
              Apply(s, TakeQueues).batch == s.queued && Apply(s, TakeQueues).queued == NO_COMMANDS
    ensures s.batch != NO_COMMANDS ==> Apply(s, TakeQueues) == s
  {
  }

  /** A peer's INVITE makes a call on the association of its transport. */
  lemma IncomingExactly(s: State, t: Transport)
    requires Unique(s.owner.sends.transports, TransportId()) && t in s.owner.sends.transports
    ensures Apply(s, IncomingInvite(t.id)).owner.invites
         == [Record(s.owner.records + 1, t.protocol, t.association)] + s.owner.invites
    ensures Apply(s, IncomingInvite(t.id)).owner.records == s.owner.records + 1
  {
    FoundById(s.owner.sends.transports, t);
  }

  lemma FoundById(ts: seq<Transport>, t: Transport)
    requires Unique(ts, TransportId()) && t in ts
    ensures FindById(ts, t.id) == Some(t)
  {
    var found := FindById(ts, t.id);
    assert found.value in ts && found.value.id == t.id;
  }

  /** What PJSIP does to a transport is done to the owner's table, and to nothing else. */
  lemma PjsipSteps(s: State, t: nat, hasCallback: bool, encodable: bool, takenOver: bool)
    ensures var s' := Apply(s, PjsipSend(t, hasCallback, encodable, takenOver));
            && s'.owner.sends == TransportSend(s.owner.sends, t, hasCallback, encodable, takenOver)
            && s' == s.(owner := s.owner.(sends := s'.owner.sends))
    ensures var s' := Apply(s, PjsipShutdown(t));
            s'.owner.sends == MarkShutdown(s.owner.sends, t) && s' == s.(owner := s.owner.(sends := s'.owner.sends))
  {
  }

  /** Calls and subscriptions end one by one. */
  lemma DropExactly(s: State, id: nat, r: Record)
    ensures r in Apply(s, DropInvite(id)).owner.invites <==> r in s.owner.invites && r.id != id
    ensures r in Apply(s, DropSubscription(id)).owner.subscriptions <==> r in s.owner.subscriptions && r.id != id
    ensures Apply(s, DropInvite(id)).owner.subscriptions == s.owner.subscriptions
    ensures Apply(s, DropSubscription(id)).owner.invites == s.owner.invites
  {
  }

  // ---- What a batch comes to -----------------------------------------------------------------

  function AllCompleted(t: Table, completions: seq<Completion>): Table
    decreases |completions|
  {
    if completions == [] then t
    else AllCompleted(CompleteSend(t, completions[0].send, completions[0].bytes), completions[1..])
  }

  function AllReceived(o: Owner, receives: seq<Receive>): Owner
    decreases |receives|
  {
    if receives == [] then o else AllReceived(ReceiveOne(o, receives[0]), receives[1..])
  }

  function AllClosed(o: Owner, closes: seq<Close>): Owner
    decreases |closes|
  {
    if closes == [] then o else AllClosed(CloseOne(o, closes[0]), closes[1..])
  }

  function AllMade(o: Owner, commands: seq<Outbound>): Owner
    decreases |commands|
  {
    if commands == [] then o else AllMade(OutboundOne(o, commands[0]), commands[1..])
  }

  /** What a batch makes of the owner's lists: kind by kind, and each kind in the order it was queued. */
  function Processed(o: Owner, b: Queues): Owner {
    var completed := o.(sends := AllCompleted(o.sends, b.completions));
    AllMade(AllMade(AllClosed(AllReceived(completed, b.receives), b.closes), b.invites), b.subscribes)
  }

  function Left(b: Queues): nat {
    |b.completions| + |b.receives| + |b.closes| + |b.invites| + |b.subscribes|
  }

  predicate IsProcessing(step: Step) {
    step.ProcessCompletion? || step.ProcessReceive? || step.ProcessClose? || step.ProcessOutbound?
  }

  /** Whichever kind a processing step tries, it never changes what the batch will come to, nor touches a new command. */
  lemma ProcessingConserves(s: State, step: Step)
    requires IsProcessing(step)
    ensures var s' := Apply(s, step);
            && Processed(s'.owner, s'.batch) == Processed(s.owner, s.batch)
            && Left(s'.batch) <= Left(s.batch)
            && s'.queued == s.queued && s'.channel == s.channel && s'.open == s.open
  {
    if step.ProcessCompletion? && s.batch.completions != [] {
      var o, c := s.owner, s.batch.completions[0];
      assert Apply(s, step).owner.(sends := AllCompleted(Apply(s, step).owner.sends, s.batch.completions[1..]))
          == o.(sends := AllCompleted(o.sends, s.batch.completions));
    }
  }

  /** As long as something is left of a batch, one of the kinds can go on. */
  lemma ProcessingGoesOn(s: State)
    requires s.batch != NO_COMMANDS
    ensures exists step :: IsProcessing(step) && Left(Apply(s, step).batch) == Left(s.batch) - 1
  {
    var b := s.batch;
    var step := if b.completions != [] then ProcessCompletion
                else if b.receives != [] then ProcessReceive
                else if b.closes != [] then ProcessClose
                else ProcessOutbound;
    assert IsProcessing(step) && Left(Apply(s, step).batch) == Left(b) - 1;
  }

  /**
   However the processing steps are tried, once nothing is left of a batch the owner's
   lists are what the batch's completions, receives, closes, invites and subscribes
   make of them in that order.
   */
  lemma {:induction false} BatchComesTo(s: State, steps: seq<Step>)
    requires forall i :: 0 <= i < |steps| ==> IsProcessing(steps[i])
    ensures Processed(Run(s, steps).owner, Run(s, steps).batch) == Processed(s.owner, s.batch)
    ensures Run(s, steps).batch == NO_COMMANDS ==> Run(s, steps).owner == Processed(s.owner, s.batch)
  {
    if steps != [] {
      var front, last := steps[..|steps| - 1], steps[|steps| - 1];
      BatchComesTo(s, front);
      assert IsProcessing(last);
      ProcessingConserves(Run(s, front), last);
    }
    var end := Run(s, steps);
    assert end.owner.(sends := end.owner.sends) == end.owner;
  }

  // ---- What every step keeps --------------------------------------------

  predicate Served(ts: seq<Transport>, association: nat) {
    exists t :: t in ts && t.protocol == Tcp && t.association == association
  }

  predicate SameAssociation(t: Transport, u: Transport) {
    t.protocol == Tcp == u.protocol && t.association == u.association
  }

  /** No two transports share an id or a TCP association. */
  predicate OneEach(ts: seq<Transport>) {
    forall t, u :: t in ts && u in ts && (t.id == u.id || SameAssociation(t, u)) ==> t == u
  }

  predicate AllServed(ts: seq<Transport>, records: seq<Record>) {
    forall r :: r in records && r.protocol == Tcp ==> Served(ts, r.association)
  }

  /** One transport per TCP association, and none of its calls or subscriptions without it. */
  predicate Bound(o: Owner) {
    && OneEach(o.sends.transports)
    && AllServed(o.sends.transports, o.invites)
    && AllServed(o.sends.transports, o.subscriptions)
  }

  /** The association's reader exists no more. */
  predicate ReaderGone(s: State, a: nat) {
    1 <= a < s.nextAssociation && a !in s.open
  }

  predicate NoneReceived(channel: seq<Io>, a: nat) {
    forall i :: 0 <= i < |channel| ==> channel[i] != Received(Tcp, a)
  }

  predicate NoneQueued(receives: seq<Receive>, a: nat) {
    forall i :: 0 <= i < |receives| ==> receives[i] != Receive(Tcp, a)
  }

  /** A reader's close is behind all its messages wherever it has got to on its way to the owner thread. */
  ghost predicate Ordered(s: State) {
    && 1 <= s.nextAssociation
    && (forall a :: a in s.open ==> 1 <= a < s.nextAssociation)
    && (forall i :: 0 <= i < |s.channel| && s.channel[i].ReaderClosed? ==>
          ReaderGone(s, s.channel[i].association) && NoneReceived(s.channel[i..], s.channel[i].association))
    && (forall c :: c in s.queued.closes && c.own ==>
          ReaderGone(s, c.association) && NoneReceived(s.channel, c.association))
    && (forall c :: c in s.batch.closes && c.own ==>
          ReaderGone(s, c.association) && NoneReceived(s.channel, c.association)
          && NoneQueued(s.queued.receives, c.association))
    && (forall a :: a in s.finished ==>
          ReaderGone(s, a) && NoneReceived(s.channel, a)
          && NoneQueued(s.queued.receives, a) && NoneQueued(s.batch.receives, a) && !Served(s.owner.sends.transports, a))
  }

  ghost predicate Good(s: State) {
    Inv(s.owner.sends) && Bound(s.owner) && Ordered(s)
  }

  lemma StartIsGood(capacity: nat, enableUdp: bool)
    ensures Good(Start(capacity, enableUdp))
  {
    EmptyInv();
    AddTransportInv(Table([], [], 0, 0, NO_HISTORY), Udp, 0);
  }

  /** A new runtime has the UDP transport if it was asked for, and nothing else; no association has number zero. */
  lemma StartExactly(capacity: nat, enableUdp: bool)
    ensures var s := Start(capacity, enableUdp);
            && (forall a :: FindTransport(s.owner.sends.transports, Udp, a).Some? <==> enableUdp)
            && (forall a :: FindTransport(s.owner.sends.transports, Tcp, a).None?)
            && s.owner.sends.pending == [] && s.owner.invites == [] && s.owner.subscriptions == []
            && s.open == {} && s.channel == [] && s.queued == s.batch == NO_COMMANDS && s.finished == {}
            && s.capacity == capacity && s.nextAssociation > 0
  {
    var ts := Start(capacity, enableUdp).owner.sends.transports;
    if enableUdp {
      assert ts == [ts[0]] && ts[0].protocol == Udp;
      forall a
        ensures FindTransport(ts, Udp, a).Some?
      {
        FoundExactly(ts, Udp, a);
        assert ts[0] in ts;
      }
    }
  }

  // Sends and transports.

  lemma SendsStep(s: State, step: Step)
    requires Inv(s.owner.sends)
    ensures Inv(Apply(s, step).owner.sends)
  {
    var b := s.batch;
    match step
    case ProcessCompletion =>
      if b.completions != [] {
        CompleteSendInv(s.owner.sends, b.completions[0].send, b.completions[0].bytes);
      }
    case ProcessReceive =>
      if b.completions == [] && b.receives != [] {
        AddTransportInv(s.owner.sends, Tcp, b.receives[0].association);
      }
    case ProcessClose =>
      if b.completions == [] && b.receives == [] && b.closes != [] {
        var t := FindTransport(s.owner.sends.transports, Tcp, b.closes[0].association);
        if t.Some? {
          CloseTransportInv(s.owner.sends, t.value.id, b.closes[0].status);
        }
      }
    case PjsipSend(t, hasCallback, encodable, takenOver) =>
      TransportSendInv(s.owner.sends, t, hasCallback, encodable, takenOver);
    case PjsipShutdown(t) => MarkShutdownInv(s.owner.sends, t);
    case _ =>
  }

  // Calls and subscriptions.

  lemma AddServes(ts: seq<Transport>, t: Transport)
    requires OneEach(ts) && t.protocol == Tcp && !Served(ts, t.association)
    requires forall u :: u in ts ==> u.id != t.id
    ensures OneEach([t] + ts)
    ensures forall a :: Served([t] + ts, a) <==> Served(ts, a) || a == t.association
  {
    var ts' := [t] + ts;
    assert ts'[0] == t;
    assert forall u :: u in ts' <==> u == t || u in ts;
    forall a
      ensures Served(ts', a) <==> Served(ts, a) || a == t.association
    {
      if u :| u in ts && u.protocol == Tcp && u.association == a {
        assert u in ts';
      }
    }
  }

  lemma RemoveServes(ts: seq<Transport>, t: Transport)
    requires OneEach(ts) && t in ts && t.protocol == Tcp
    ensures OneEach(Filter(ts, IsNotTransport(t.id)))
    ensures forall a :: Served(Filter(ts, IsNotTransport(t.id)), a) <==> Served(ts, a) && a != t.association
  {
    var ts' := Filter(ts, IsNotTransport(t.id));
    forall a
      ensures Served(ts', a) <==> Served(ts, a) && a != t.association
    {
      if Served(ts', a) {
        var u :| u in ts' && u.protocol == Tcp && u.association == a;
        assert SameAssociation(u, t) ==> u == t;
      }
      if Served(ts, a) && a != t.association {
        var u :| u in ts && u.protocol == Tcp && u.association == a;
        assert u in ts';
      }
    }
  }

  lemma ShutdownServes(s: Table, id: nat)
    requires OneEach(s.transports)
    ensures OneEach(MarkShutdown(s, id).transports)
    ensures forall a :: Served(MarkShutdown(s, id).transports, a) == Served(s.transports, a)
  {
    var ts, ts' := s.transports, MarkShutdown(s, id).transports;
    assert forall i :: 0 <= i < |ts| ==> ts'[i].id == ts[i].id && ts'[i].protocol == ts[i].protocol
                                         && ts'[i].association == ts[i].association;
    forall a
      ensures Served(ts', a) == Served(ts, a)
    {
      if i :| 0 <= i < |ts| && ts[i].protocol == Tcp && ts[i].association == a {
        assert ts'[i] in ts';
      }
    }
    forall t, u | t in ts' && u in ts' && (t.id == u.id || SameAssociation(t, u))
      ensures t == u
    {
      var i, j :| 0 <= i < |ts'| && ts'[i] == t && 0 <= j < |ts'| && ts'[j] == u;
      assert ts[i] in ts && ts[j] in ts && (SameAssociation(ts[i], ts[j]) || ts[i].id == ts[j].id);
    }
  }

  lemma CloseBound(o: Owner, c: Close)
    requires Bound(o)
    ensures Bound(CloseOne(o, c))
    ensures forall a :: Served(CloseOne(o, c).sends.transports, a) <==> Served(o.sends.transports, a) && a != c.association
  {
    var ts := o.sends.transports;
    var found := FindTransport(ts, Tcp, c.association);
    if found.Some? {
      RemoveServes(ts, found.value);
    } else {
      assert forall t :: t in ts ==> !Serves(t, Tcp, c.association);
    }
  }

  lemma ReceiveBound(o: Owner, r: Receive)
    requires Bound(o) && Linked(o.sends)
    ensures Bound(ReceiveOne(o, r))
    ensures forall a :: Served(ReceiveOne(o, r).sends.transports, a) ==> Served(o.sends.transports, a) || r == Receive(Tcp, a)
  {
    var ts := o.sends.transports;
    if r.protocol == Tcp && FindTransport(ts, Tcp, r.association).None? {
      assert forall t :: t in ts ==> !Serves(t, Tcp, r.association);
      AddServes(ts, Transport(o.sends.transportSequence + 1, Tcp, r.association, false));
    }
  }

  lemma OutboundBound(o: Owner, command: Outbound)
    requires Bound(o)
    ensures Bound(OutboundOne(o, command))
  {
    var found := FindTransport(o.sends.transports, command.protocol, command.association);
    assert found.Some? && command.protocol == Tcp ==> Served(o.sends.transports, command.association);
  }

  lemma BoundStep(s: State, step: Step)
    requires Bound(s.owner) && Linked(s.owner.sends)
    ensures Bound(Apply(s, step).owner)
  {
    var o, b := s.owner, s.batch;
    match step
    case ProcessReceive =>
      if b.completions == [] && b.receives != [] {
        ReceiveBound(o, b.receives[0]);
      }
    case ProcessClose =>
      if b.completions == [] && b.receives == [] && b.closes != [] {
        CloseBound(o, b.closes[0]);
      }
    case ProcessOutbound =>
      if b.completions == [] && b.receives == [] && b.closes == [] {
        if b.invites != [] {
          OutboundBound(o, b.invites[0]);
        } else if b.subscribes != [] {
          OutboundBound(o, b.subscribes[0]);
        }
      }
    case PjsipShutdown(t) => ShutdownServes(o.sends, t);
    case IncomingInvite(id) =>
      var t := FindById(o.sends.transports, id);
      assert t.Some? && t.value.protocol == Tcp ==> Served(o.sends.transports, t.value.association);
    case _ =>
  }

  // The order in which messages and closes travel.

  lemma PushOrdered(s: State, item: Io)
    requires Ordered(s)
    requires item.ReaderClosed? ==> ReaderGone(s, item.association)
    requires item.Received? && item.protocol == Tcp ==> item.association in s.open
    ensures Ordered(Push(s, item))
  {
    var s' := Push(s, item);
    if s' != s {
      assert s'.channel == s.channel + [item];
    }
  }

  lemma DrainOrdered(s: State, admitted: bool)
    requires Ordered(s) && s.batch == NO_COMMANDS
    ensures Ordered(DrainOne(s, admitted))
  {
    if s.channel != [] {
      var s' := DrainOne(s, admitted);
      assert s'.channel == s.channel[1..];
      assert forall a :: NoneReceived(s.channel, a) ==> NoneReceived(s'.channel, a);
      if s.channel[0].ReaderClosed? {
        assert forall j :: 0 < j < |s.channel| ==> s.channel[j] != Received(Tcp, s.channel[0].association);
      }
    }
  }

  lemma ReceiveOrdered(s: State)
    requires Ordered(s) && Bound(s.owner) && Linked(s.owner.sends) && s.batch.completions == [] && s.batch.receives != []
    ensures Ordered(Apply(s, ProcessReceive))
  {
    var receives := s.batch.receives;
    ReceiveBound(s.owner, receives[0]);
    assert forall a :: NoneQueued(receives, a) ==> NoneQueued(receives[1..], a) && receives[0] != Receive(Tcp, a);
  }

  lemma CloseOrdered(s: State)
    requires Ordered(s) && Bound(s.owner) && s.batch.completions == [] && s.batch.receives == [] && s.batch.closes != []
    ensures Ordered(Apply(s, ProcessClose))
  {
    var closes := s.batch.closes;
    CloseBound(s.owner, closes[0]);
    assert closes[0] in closes;
    assert forall c :: c in closes[1..] ==> c in closes;
  }

  /** Steps that touch neither readers, messages nor their own closes. */
  lemma SameTrafficOrdered(s: State, s': State)
    requires Ordered(s)
    requires s'.nextAssociation == s.nextAssociation && s'.open == s.open && s'.channel == s.channel
    requires s'.queued.receives == s.queued.receives && s'.batch.receives == s.batch.receives
    requires s'.batch.closes == s.batch.closes && s'.finished == s.finished
    requires forall c :: c in s'.queued.closes && c.own ==> c in s.queued.closes
    requires forall a :: Served(s'.owner.sends.transports, a) == Served(s.owner.sends.transports, a)
    ensures Ordered(s')
  {
  }

  lemma TakeOrdered(s: State)
    requires Ordered(s) && s.batch == NO_COMMANDS
    ensures Ordered(s.(batch := s.queued, queued := NO_COMMANDS))
  {
  }

  lemma AcceptOrdered(s: State)
    requires Ordered(s) && 1 <= s.nextAssociation
    ensures Ordered(Apply(s, Accept))
  {
    assert forall a :: ReaderGone(s, a) ==> ReaderGone(Apply(s, Accept), a);
  }

  lemma ReadEndsOrdered(s: State, a: nat)
    requires Ordered(s) && a in s.open
    ensures Ordered(Apply(s, ReadEnds(a)))
  {
    var s1 := s.(open := s.open - {a});
    assert forall x :: ReaderGone(s, x) ==> ReaderGone(s1, x);
    PushOrdered(s1, ReaderClosed(a));
  }

  lemma OrderedStep(s: State, step: Step)
    requires Ordered(s) && Bound(s.owner) && Linked(s.owner.sends)
    ensures Ordered(Apply(s, step))
  {
    var b := s.batch;
    match step
    case ReadMessage(a) =>
      if a in s.open {
        PushOrdered(s, Received(Tcp, a));
      }
    case ReadDatagram => PushOrdered(s, Received(Udp, 0));
    case ReadEnds(a) =>
      if a in s.open {
        ReadEndsOrdered(s, a);
      }
    case WriteEnds(send, bytes) => PushOrdered(s, Completed(send, bytes));
    case Drain(admitted) =>
      if b == NO_COMMANDS {
        DrainOrdered(s, admitted);
      }
    case ProcessReceive =>
      if b.completions == [] && b.receives != [] {
        ReceiveOrdered(s);
      }
    case ProcessClose =>
      if b.completions == [] && b.receives == [] && b.closes != [] {
        CloseOrdered(s);
      }
    case Accept => AcceptOrdered(s);
    case TakeQueues =>
      if b == NO_COMMANDS {
        TakeOrdered(s);
      }
    case PjsipShutdown(t) =>
      ShutdownServes(s.owner.sends, t);
      SameTrafficOrdered(s, Apply(s, step));
    case _ => SameTrafficOrdered(s, Apply(s, step));
  }

  // ---- Whole runs ---------------------------------------------------------

  lemma {:induction false} RunIsGood(s: State, steps: seq<Step>)
    requires Good(s)
    ensures Good(Run(s, steps))
  {
    if steps != [] {
      var before := Run(s, steps[..|steps| - 1]);
      RunIsGood(s, steps[..|steps| - 1]);
      SendsStep(before, steps[|steps| - 1]);
      BoundStep(before, steps[|steps| - 1]);
      OrderedStep(before, steps[|steps| - 1]);
    }
  }

  lemma {:induction false} RunSplits(s: State, steps: seq<Step>, later: seq<Step>)
    ensures Run(s, steps + later) == Run(Run(s, steps), later)
  {
    if later == [] {
      assert steps + later == steps;
    } else {
      var front, last := later[..|later| - 1], later[|later| - 1];
      RunSplits(s, steps, front);
      assert (steps + later)[..|steps + later| - 1] == steps + front;
      assert (steps + later)[|steps + later| - 1] == last;
    }
  }

  lemma {:induction false} FinishedStays(s: State, steps: seq<Step>)
    ensures s.finished <= Run(s, steps).finished
  {
    if steps != [] {
      FinishedStays(s, steps[..|steps| - 1]);
    }
  }

  /** Nothing of the association is left on the owner thread. */
  ghost predicate NoTrace(s: State, a: nat) {
    && (forall t :: t in s.owner.sends.transports ==> !(t.protocol == Tcp && t.association == a))
    && (forall p :: p in s.owner.sends.pending ==>
          exists t :: t in s.owner.sends.transports && t.id == p.transport && !(t.protocol == Tcp && t.association == a))
    && (forall r :: r in s.owner.invites ==> !(r.protocol == Tcp && r.association == a))
    && (forall r :: r in s.owner.subscriptions ==> !(r.protocol == Tcp && r.association == a))
  }

  /**
   Once the close reported by an association's own reader has been processed, no
   transport, pending send, call or subscription of that association exists, then
   or after any further steps, in every interleaving and whatever the channel drops.
   */
  lemma ClosedLeavesNoTrace(capacity: nat, enableUdp: bool, steps: seq<Step>, later: seq<Step>, a: nat)
    requires a in Run(Start(capacity, enableUdp), steps).finished
    ensures NoTrace(Run(Start(capacity, enableUdp), steps + later), a)
  {
    var start := Start(capacity, enableUdp);
    StartIsGood(capacity, enableUdp);
    RunSplits(start, steps, later);
    FinishedStays(Run(start, steps), later);
    RunIsGood(start, steps + later);
    FinishedHasNoTrace(Run(start, steps + later), a);
  }

  lemma FinishedHasNoTrace(s: State, a: nat)
    requires Good(s) && a in s.finished
    ensures NoTrace(s, a)
  {
    assert !Served(s.owner.sends.transports, a);
    forall p | p in s.owner.sends.pending
      ensures exists t :: t in s.owner.sends.transports && t.id == p.transport && !(t.protocol == Tcp && t.association == a)
    {
      assert OnList(s.owner.sends, p.transport);
    }
  }

  lemma PendingStep(s: State, step: Step, send: nat)
    requires send <= s.owner.sends.sendSequence
    ensures s.owner.sends.sendSequence <= Apply(s, step).owner.sends.sendSequence
    ensures IsPending(Apply(s, step).owner.sends, send) ==> IsPending(s.owner.sends, send)
  {
    var b, t := s.batch, s.owner.sends;
    match step
    case ProcessCompletion =>
      if b.completions != [] {
        CompletePending(t, b.completions[0].send, b.completions[0].bytes, send);
      }
    case ProcessClose =>
      if b.completions == [] && b.receives == [] && b.closes != [] {
        var serving := FindTransport(t.transports, Tcp, b.closes[0].association);
        if serving.Some? {
          ClosePending(t, serving.value.id, b.closes[0].status, send);
        }
      }
    case PjsipSend(id, hasCallback, encodable, takenOver) =>
      SendPending(t, id, hasCallback, encodable, takenOver, send);
    case _ =>
  }

  /** A send that was settled is never pending again, so a late or repeated completion of it changes nothing. */
  lemma {:induction false} SettledStaysSettled(s: State, steps: seq<Step>, send: nat, bytes: int)
    requires Good(s) && send <= s.owner.sends.sendSequence && !IsPending(s.owner.sends, send)
    ensures var t := Run(s, steps).owner.sends;
            send <= t.sendSequence && !IsPending(t, send) && CompleteSend(t, send, bytes) == t
  {
    RunIsGood(s, steps);
    CompleteSendInv(Run(s, steps).owner.sends, send, bytes);
    if steps != [] {
      var front := steps[..|steps| - 1];
      RunIsGood(s, front);
      SettledStaysSettled(s, front, send, bytes);
      PendingStep(Run(s, front), steps[|steps| - 1], send);
    }
  }

  /**
   In every run the callback of a send is made at most once and its reference is
   dropped at most once; shutdown leaves nothing pending, and by then the callback
   of every accepted send that has one was made, and its reference dropped, exactly once.
   */
  lemma SendsSettleExactlyOnce(capacity: nat, enableUdp: bool, steps: seq<Step>, send: nat)
    ensures var h := Run(Start(capacity, enableUdp), steps).owner.sends.history;
            CallbacksFor(h.callbacks, send) <= 1 && h.refsDropped[send] <= h.refsTaken[send] <= 1
    ensures var t := Run(Start(capacity, enableUdp), steps).owner.sends;
            var r := CloseAllTransports(t);
            && r.pending == []
            && r.history.refsDropped[send] == r.history.refsTaken[send]
            && (send in t.history.accepted ==>
                  && r.history.refsDropped[send] == 1
                  && CallbacksFor(r.history.callbacks, send) == (if t.history.accepted[send] then 1 else 0))
  {
    StartIsGood(capacity, enableUdp);
    RunIsGood(Start(capacity, enableUdp), steps);
    CloseAllLeavesNothing(Run(Start(capacity, enableUdp), steps).owner.sends);
    assert !IsPending(CloseAllTransports(Run(Start(capacity, enableUdp), steps).owner.sends), send);
  }

  // ---- What callbacks are told ---------------------------------------------------------------

  predicate HonestChannel(channel: seq<Io>, said: set<Step>) {
    forall i :: 0 <= i < |channel| && channel[i].Completed? ==> WriteEnds(channel[i].send, channel[i].bytes) in said
  }

  /** A queued close is a reader's own, with its fixed status, or one the application asked for. */
  predicate HonestQueues(q: Queues, said: set<Step>) {
    && (forall i :: 0 <= i < |q.completions| ==> WriteEnds(q.completions[i].send, q.completions[i].bytes) in said)
    && (forall i :: 0 <= i < |q.closes| ==>
          if q.closes[i].own then q.closes[i].status == Code(1)
          else AskClose(q.closes[i].association, q.closes[i].status) in said)
  }

  /** A callback was told what the writer reported, or the status of a close. */
  ghost predicate Truthful(c: Callback, said: set<Step>) {
    match c.outcome
    case Sent(bytes) => WriteEnds(c.send, bytes) in said
    case Failed(status) =>
      status == Code(1) || exists a, asked :: AskClose(a, asked) in said && status == CloseStatus(asked)
  }

  ghost predicate HonestCallbacks(cs: seq<Callback>, said: set<Step>) {
    forall c :: c in cs ==> Truthful(c, said)
  }

  ghost predicate Honest(s: State, said: set<Step>) {
    && HonestChannel(s.channel, said) && HonestQueues(s.queued, said) && HonestQueues(s.batch, said)
    && HonestCallbacks(s.owner.sends.history.callbacks, said)
  }

  lemma HonestMore(s: State, said: set<Step>, more: set<Step>)
    requires Honest(s, said) && said <= more
    ensures Honest(s, more)
  {
  }

  lemma CompletionHonest(t: Table, send: nat, bytes: int, said: set<Step>)
    requires HonestCallbacks(t.history.callbacks, said) && WriteEnds(send, bytes) in said
    ensures HonestCallbacks(CompleteSend(t, send, bytes).history.callbacks, said)
  {
  }

  lemma CloseHonest(t: Table, transport: nat, status: Status, said: set<Step>)
    requires HonestCallbacks(t.history.callbacks, said)
    requires status == Code(1) || exists a :: AskClose(a, status) in said
    ensures HonestCallbacks(CloseTransport(t, transport, status).history.callbacks, said)
  {
    forall c | c in CloseTransport(t, transport, status).history.callbacks
      ensures Truthful(c, said)
    {
      Sends.CloseExactly(t, transport, status, Transport(0, Tcp, 0, false), PendingSend(0, 0, false), c);
    }
  }

  lemma HonestTraffic(s: State, step: Step, said: set<Step>)
    requires Honest(s, said) && step in said
    ensures var s' := Apply(s, step);
            HonestChannel(s'.channel, said) && HonestQueues(s'.queued, said) && HonestQueues(s'.batch, said)
  {
  }

  lemma HonestHistory(s: State, step: Step, said: set<Step>)
    requires Honest(s, said)
    ensures HonestCallbacks(Apply(s, step).owner.sends.history.callbacks, said)
  {
    var b, t := s.batch, s.owner.sends;
    match step
    case ProcessCompletion =>
      if b.completions != [] {
        CompletionHonest(t, b.completions[0].send, b.completions[0].bytes, said);
      }
    case ProcessClose =>
      if b.completions == [] && b.receives == [] && b.closes != [] {
        var serving := FindTransport(t.transports, Tcp, b.closes[0].association);
        if serving.Some? {
          CloseHonest(t, serving.value.id, b.closes[0].status, said);
        }
      }
    case _ =>
  }

  lemma HonestStep(s: State, step: Step, said: set<Step>)
    requires Honest(s, said) && step in said
    ensures Honest(Apply(s, step), said)
  {
    HonestTraffic(s, step, said);
    HonestHistory(s, step, said);
  }

  function StepsOf(steps: seq<Step>): set<Step> { set x | x in steps }

  /**
   In every run a callback that is told how many bytes were sent is told what the
   writer of that very send reported; any other is told the status of a close.
   */
  lemma {:induction false} CallbacksTellTheTruth(capacity: nat, enableUdp: bool, steps: seq<Step>)
    ensures Honest(Run(Start(capacity, enableUdp), steps), StepsOf(steps))
  {
    if steps != [] {
      var front, last := steps[..|steps| - 1], steps[|steps| - 1];
      CallbacksTellTheTruth(capacity, enableUdp, front);
      assert StepsOf(front) <= StepsOf(steps) && last in steps;
      HonestMore(Run(Start(capacity, enableUdp), front), StepsOf(front), StepsOf(steps));
      HonestStep(Run(Start(capacity, enableUdp), front), last, StepsOf(steps));
    }
  }
}
