/**
 The transports of the owner thread and the sends handed to the socket side.

 A send accepted by a transport stays on the pending list until the socket side
 completes it or its transport is closed. The history records every callback
 made and every transmit-data reference taken and dropped.
 */
module Sends {
  import opened Lists

  datatype Protocol = Udp | Tcp

  datatype Status = Success | Shutdown | Code(code: int)

  /** What a send's callback is told: the bytes sent, or the status negated. */
  datatype Outcome = Sent(bytes: int) | Failed(status: Status)

  datatype Transport = Transport(id: nat, protocol: Protocol, association: nat, isShutdown: bool)

  datatype PendingSend = PendingSend(id: nat, transport: nat, hasCallback: bool)

  datatype Callback = Callback(send: nat, outcome: Outcome)

  datatype History = History(
    accepted: map<nat, bool>,
    callbacks: seq<Callback>,
    refsTaken: multiset<nat>,
    refsDropped: multiset<nat>)

  datatype Table = Table(
    transports: seq<Transport>,
    pending: seq<PendingSend>,
    transportSequence: nat,
    sendSequence: nat,
    history: History)

  const NO_HISTORY := History(map[], [], multiset{}, multiset{})

  function TransportId(): Transport -> nat { (t: Transport) => t.id }
  function SendId(): PendingSend -> nat { (p: PendingSend) => p.id }
  function IsNotTransport(id: nat): Transport -> bool { (t: Transport) => t.id != id }
  function NotSentOn(transport: nat): PendingSend -> bool { (p: PendingSend) => p.transport != transport }
  function SentOn(transport: nat): PendingSend -> bool { Not(NotSentOn(transport)) }

  predicate Serves(t: Transport, protocol: Protocol, association: nat) {
    t.protocol == protocol && (protocol == Udp || t.association == association)
  }

  /** The first transport of the list that serves the association. */
  function FindTransport(ts: seq<Transport>, protocol: Protocol, association: nat): (r: Option<Transport>)
    ensures r.Some? ==> r.value in ts && Serves(r.value, protocol, association)
    ensures r.None? ==> forall t :: t in ts ==> !Serves(t, protocol, association)
  {
    if ts == [] then None
    else if Serves(ts[0], protocol, association) then Some(ts[0])
    else FindTransport(ts[1..], protocol, association)
  }

  function FindById(ts: seq<Transport>, id: nat): (r: Option<Transport>)
    ensures r.Some? ==> r.value in ts && r.value.id == id
    ensures r.None? ==> forall t :: t in ts ==> t.id != id
  {
    if ts == [] then None
    else if ts[0].id == id then Some(ts[0])
    else FindById(ts[1..], id)
  }

  /** Creates and registers a transport in front of the list. */
  function AddTransport(s: Table, protocol: Protocol, association: nat): Table {
    s.(transportSequence := s.transportSequence + 1,
       transports := [Transport(s.transportSequence + 1, protocol, association, false)] + s.transports)
  }

  /** PJSIP marks a transport as shut down; the shim keeps it on its list. */
  function MarkShutdown(s: Table, id: nat): Table {
    s.(transports := seq(|s.transports|, i requires 0 <= i < |s.transports| =>
                           if s.transports[i].id == id then s.transports[i].(isShutdown := true) else s.transports[i]))
  }

  /** The socket side takes a send over: it is pending until settled. */
  function TakeOver(s: Table, transport: nat, hasCallback: bool): Table {
    var id := s.sendSequence + 1;
    s.(sendSequence := id,
       pending := [PendingSend(id, transport, hasCallback)] + s.pending,
       history := s.history.(refsTaken := s.history.refsTaken + multiset{id},
                             accepted := s.history.accepted[id := hasCallback]))
  }

  /** The socket side refuses a send: its reference is dropped again. */
  function TakeBack(s: Table): Table {
    var id := s.sendSequence + 1;
    s.(sendSequence := id,
       history := s.history.(refsTaken := s.history.refsTaken + multiset{id},
                             refsDropped := s.history.refsDropped + multiset{id}))
  }

  /**
   A send request of PJSIP. A transport that was closed or shut down refuses it,
   as does a message that cannot be encoded. Otherwise it gets the next send id
   and one reference; if the socket side does not take it over, both are undone.
   */
  function TransportSend(s: Table, transport: nat, hasCallback: bool, encodable: bool, takenOver: bool): Table {
    var t := FindById(s.transports, transport);
    if t.None? || t.value.isShutdown || !encodable then s
    else if takenOver then TakeOver(s, transport, hasCallback)
    else TakeBack(s)
  }

  /** An unlinked send: its callback, if any, is made once and its reference dropped. */
  function Settle(h: History, p: PendingSend, outcome: Outcome): History {
    h.(callbacks := if p.hasCallback then h.callbacks + [Callback(p.id, outcome)] else h.callbacks,
       refsDropped := h.refsDropped + multiset{p.id})
  }

  function SettleAll(h: History, ps: seq<PendingSend>, outcome: Outcome): History {
    if ps == [] then h else Settle(SettleAll(h, ps[..|ps| - 1], outcome), ps[|ps| - 1], outcome)
  }

  lemma SettleAllSnoc(h: History, ps: seq<PendingSend>, p: PendingSend, outcome: Outcome)
    ensures SettleAll(h, ps + [p], outcome) == Settle(SettleAll(h, ps, outcome), p, outcome)
  {
    assert (ps + [p])[..|ps|] == ps;
  }

  /** Fails every send still pending on a transport, in list order. */
  function FailTransportSends(s: Table, transport: nat, status: Status): Table {
    s.(pending := Filter(s.pending, NotSentOn(transport)),
       history := SettleAll(s.history, Filter(s.pending, SentOn(transport)), Failed(status)))
  }

  /** Takes a transport off the list and fails its sends. */
  function CloseTransport(s: Table, transport: nat, status: Status): Table {
    FailTransportSends(s.(transports := Filter(s.transports, IsNotTransport(transport))),
                       transport, CloseStatus(status))
  }

  /** The status a close tells the callbacks: never success. */
  function CloseStatus(status: Status): (r: Status)
    ensures r != Success && (status != Success ==> r == status)
  {
    if status == Success then Shutdown else status
  }

  /** The socket side reports a send as done; only a pending send is affected. */
  function CompleteSend(s: Table, send: nat, bytes: int): Table {
    match FindPending(s.pending, send)
    case None => s
    case Some(i) =>
      s.(pending := RemoveAt(s.pending, i), history := Settle(s.history, s.pending[i], Sent(bytes)))
  }

  function FindPending(ps: seq<PendingSend>, send: nat, i: nat := 0): (r: Option<nat>)
    requires i <= |ps|
    ensures r.Some? ==> i <= r.value < |ps| && ps[r.value].id == send
    ensures r.Some? ==> forall k :: i <= k < r.value ==> ps[k].id != send
    ensures r.None? ==> forall k :: i <= k < |ps| ==> ps[k].id != send
    decreases |ps| - i
  {
    if i == |ps| then None
    else if ps[i].id == send then Some(i)
    else FindPending(ps, send, i + 1)
  }

  /** Shutdown closes the transports one after another, first in the list first. */
  function CloseAllTransports(s: Table): Table
    decreases |s.transports|
  {
    if s.transports == [] then s
    else
      FilterShorter(s.transports);
      CloseAllTransports(CloseTransport(s, s.transports[0].id, Shutdown))
  }

  lemma FilterShorter(ts: seq<Transport>)
    requires ts != []
    ensures |Filter(ts, IsNotTransport(ts[0].id))| < |ts|
  {
    KeptMembers(ts[1..], IsNotTransport(ts[0].id));
  }

  // ---- What every step keeps --------------------------------------------

  function CallbacksFor(cs: seq<Callback>, send: nat): nat {
    if cs == [] then 0
    else CallbacksFor(cs[..|cs| - 1], send) + (if cs[|cs| - 1].send == send then 1 else 0)
  }

  predicate IsPending(s: Table, send: nat) {
    exists p :: p in s.pending && p.id == send
  }

  predicate OnList(s: Table, transport: nat) {
    exists t :: t in s.transports && t.id == transport
  }

  /** Numbers handed out are unique, and a pending send's transport is on the list. */
  ghost predicate Linked(s: Table) {
    && Unique(s.transports, TransportId())
    && Unique(s.pending, SendId())
    && (forall t :: t in s.transports ==> 1 <= t.id <= s.transportSequence)
    && (forall p :: p in s.pending ==> 1 <= p.id <= s.sendSequence && OnList(s, p.transport))
  }

  /**
   The account of every send id: a reference is taken once, and dropped once as
   soon as the send is no longer pending; the callback of an accepted send is made
   once at that same time, and no callback is made for any other id.
   */
  ghost predicate Accounted(s: Table) {
    var h := s.history;
    && (forall p :: p in s.pending ==> p.id in h.accepted && h.accepted[p.id] == p.hasCallback)
    && (forall id :: id in h.accepted ==> 1 <= id <= s.sendSequence)
    && (forall id: nat :: h.refsTaken[id] == if 1 <= id <= s.sendSequence then 1 else 0)
    && (forall id: nat :: h.refsDropped[id] == if 1 <= id <= s.sendSequence && !IsPending(s, id) then 1 else 0)
    && (forall id: nat :: CallbacksFor(h.callbacks, id)
                       == if id in h.accepted && h.accepted[id] && !IsPending(s, id) then 1 else 0)
  }

  ghost predicate Inv(s: Table) {
    Linked(s) && Accounted(s)
  }

  lemma EmptyInv()
    ensures Inv(Table([], [], 0, 0, NO_HISTORY))
  {
  }

  lemma AddTransportInv(s: Table, protocol: Protocol, association: nat)
    requires Inv(s)
    ensures Inv(AddTransport(s, protocol, association))
  {
    var r := AddTransport(s, protocol, association);
    UniqueCons(r.transports[0], s.transports, TransportId());
    forall p | p in r.pending
      ensures OnList(r, p.transport)
    {
      var t :| t in s.transports && t.id == p.transport;
      assert t in r.transports;
    }
    assert forall id :: IsPending(r, id) == IsPending(s, id);
  }

  lemma MarkShutdownInv(s: Table, id: nat)
    requires Inv(s)
    ensures Inv(MarkShutdown(s, id))
  {
    var r := MarkShutdown(s, id);
    assert forall i :: 0 <= i < |s.transports| ==> r.transports[i].id == s.transports[i].id;
    forall p | p in r.pending
      ensures OnList(r, p.transport)
    {
      var i :| 0 <= i < |s.transports| && s.transports[i].id == p.transport;
      assert r.transports[i] in r.transports;
    }
    assert forall id :: IsPending(r, id) == IsPending(s, id);
  }

  lemma TakeOverInv(s: Table, transport: nat, hasCallback: bool)
    requires Inv(s) && OnList(s, transport)
    ensures Inv(TakeOver(s, transport, hasCallback))
  {
    var r, id := TakeOver(s, transport, hasCallback), s.sendSequence + 1;
    var p := PendingSend(id, transport, hasCallback);
    assert !IsPending(s, id);
    UniqueCons(p, s.pending, SendId());
    assert r.pending[0] == p;
    assert forall q :: q in r.pending <==> q == p || q in s.pending;
    assert IsPending(r, id);
    assert forall k :: k != id ==> IsPending(r, k) == IsPending(s, k);
    assert forall k :: OnList(r, k) == OnList(s, k);
  }

  lemma TakeBackInv(s: Table)
    requires Inv(s)
    ensures Inv(TakeBack(s))
  {
    var r := TakeBack(s);
    assert !IsPending(s, s.sendSequence + 1);
    assert forall k :: OnList(r, k) == OnList(s, k);
    assert forall k :: IsPending(r, k) == IsPending(s, k);
  }

  lemma TransportSendInv(s: Table, transport: nat, hasCallback: bool, encodable: bool, takenOver: bool)
    requires Inv(s)
    ensures Inv(TransportSend(s, transport, hasCallback, encodable, takenOver))
  {
    var t := FindById(s.transports, transport);
    if t.Some? && !t.value.isShutdown && encodable {
      if takenOver {
        assert OnList(s, transport);
        TakeOverInv(s, transport, hasCallback);
      } else {
        TakeBackInv(s);
      }
    }
  }

  predicate HasId(ps: seq<PendingSend>, id: nat) {
    exists p :: p in ps && p.id == id
  }

  /** Settling sends with distinct ids counts each of them once. */
  lemma {:induction false} SettleAllCounts(h: History, ps: seq<PendingSend>, outcome: Outcome, id: nat)
    requires Unique(ps, SendId())
    ensures var r := SettleAll(h, ps, outcome);
            && r.accepted == h.accepted && r.refsTaken == h.refsTaken
            && r.refsDropped[id] == h.refsDropped[id] + (if HasId(ps, id) then 1 else 0)
            && CallbacksFor(r.callbacks, id)
            == CallbacksFor(h.callbacks, id) + (if exists p :: p in ps && p.id == id && p.hasCallback then 1 else 0)
  {
    if ps != [] {
      var front, last := ps[..|ps| - 1], ps[|ps| - 1];
      SettleAllCounts(h, front, outcome, id);
      var mid := SettleAll(h, front, outcome);
      assert forall p :: p in ps <==> p in front || p == last;
      assert forall p :: p in front ==> p.id != last.id;
      if last.hasCallback {
        assert (mid.callbacks + [Callback(last.id, outcome)])[..|mid.callbacks|] == mid.callbacks;
      }
    }
  }

  /** The account of one send id, when some pending sends are taken off and settled. */
  lemma SettleOne(s: Table, r: Table, ps: seq<PendingSend>, outcome: Outcome, id: nat)
    requires Accounted(s) && Unique(s.pending, SendId()) && Unique(ps, SendId())
    requires forall p :: p in ps ==> p in s.pending
    requires forall p :: p in r.pending <==> p in s.pending && p !in ps
    requires r.sendSequence == s.sendSequence && r.history == SettleAll(s.history, ps, outcome)
    requires forall p :: p in s.pending ==> 1 <= p.id <= s.sendSequence
    ensures r.history.refsDropped[id] == if 1 <= id <= r.sendSequence && !IsPending(r, id) then 1 else 0
    ensures CallbacksFor(r.history.callbacks, id)
         == if id in r.history.accepted && r.history.accepted[id] && !IsPending(r, id) then 1 else 0
  {
    SettleAllCounts(s.history, ps, outcome, id);
    if p :| p in ps && p.id == id {
      assert forall q :: q in s.pending && q.id == id ==> q == p;
      assert !IsPending(r, id) && IsPending(s, id);
    } else {
      assert IsPending(r, id) == IsPending(s, id);
    }
  }

  /** Taking some pending sends off the list and settling them keeps the account. */
  lemma SettleKeepsAccount(s: Table, r: Table, ps: seq<PendingSend>, outcome: Outcome)
    requires Accounted(s) && Unique(s.pending, SendId()) && Unique(ps, SendId())
    requires forall p :: p in ps ==> p in s.pending
    requires forall p :: p in r.pending <==> p in s.pending && p !in ps
    requires r.sendSequence == s.sendSequence && r.history == SettleAll(s.history, ps, outcome)
    requires forall p :: p in s.pending ==> 1 <= p.id <= s.sendSequence
    ensures Accounted(r)
  {
    SettleAllCounts(s.history, ps, outcome, 0);
    forall id: nat
      ensures r.history.refsDropped[id] == if 1 <= id <= r.sendSequence && !IsPending(r, id) then 1 else 0
      ensures CallbacksFor(r.history.callbacks, id)
           == if id in r.history.accepted && r.history.accepted[id] && !IsPending(r, id) then 1 else 0
    {
      SettleOne(s, r, ps, outcome, id);
    }
  }

  lemma CloseTransportInv(s: Table, transport: nat, status: Status)
    requires Inv(s)
    ensures Inv(CloseTransport(s, transport, status))
    ensures !OnList(CloseTransport(s, transport, status), transport)
    ensures forall p :: p in CloseTransport(s, transport, status).pending <==> p in s.pending && p.transport != transport
  {
    var r := CloseTransport(s, transport, status);
    UniqueFilter(s.transports, TransportId(), IsNotTransport(transport));
    UniqueFilter(s.pending, SendId(), NotSentOn(transport));
    UniqueFilter(s.pending, SendId(), SentOn(transport));
    forall p | p in r.pending
      ensures OnList(r, p.transport)
    {
      var t :| t in s.transports && t.id == p.transport;
      assert t in r.transports;
    }
    SettleKeepsAccount(s, r, Filter(s.pending, SentOn(transport)), Failed(if status == Success then Shutdown else status));
  }

  lemma CompleteSendInv(s: Table, send: nat, bytes: int)
    requires Inv(s)
    ensures Inv(CompleteSend(s, send, bytes))
    ensures !IsPending(s, send) ==> CompleteSend(s, send, bytes) == s
    ensures !IsPending(CompleteSend(s, send, bytes), send)
  {
    var r := CompleteSend(s, send, bytes);
    var found := FindPending(s.pending, send);
    if found.Some? {
      var p := s.pending[found.value];
      RemoveAtUnique(s.pending, found.value, SendId());
      assert [p][..0] == [] && SettleAll(s.history, [p], Sent(bytes)) == Settle(s.history, p, Sent(bytes));
      SettleKeepsAccount(s, r, [p], Sent(bytes));
      assert forall k :: OnList(r, k) == OnList(s, k);
    }
  }

  /** A completion or a close makes no send pending, and a send makes only a new one pending. */
  lemma CompletePending(s: Table, done: nat, bytes: int, send: nat)
    ensures CompleteSend(s, done, bytes).sendSequence == s.sendSequence
    ensures IsPending(CompleteSend(s, done, bytes), send) ==> IsPending(s, send)
  {
    var found := FindPending(s.pending, done);
    if found.Some? {
      var rest := RemoveAt(s.pending, found.value);
      assert forall k :: 0 <= k < |rest| ==> rest[k] in s.pending;
    }
  }

  lemma ClosePending(s: Table, transport: nat, status: Status, send: nat)
    ensures CloseTransport(s, transport, status).sendSequence == s.sendSequence
    ensures IsPending(CloseTransport(s, transport, status), send) ==> IsPending(s, send)
  {
  }

  lemma SendPending(s: Table, transport: nat, hasCallback: bool, encodable: bool, takenOver: bool, send: nat)
    requires send <= s.sendSequence
    ensures s.sendSequence <= TransportSend(s, transport, hasCallback, encodable, takenOver).sendSequence
    ensures IsPending(TransportSend(s, transport, hasCallback, encodable, takenOver), send) ==> IsPending(s, send)
  {
  }

  // ---- What each operation does --------------------------------------------------------------

  /** A transport in service takes a send exactly if the message can be encoded; it is then pending if taken over. */
  lemma SendExactly(s: Table, t: Transport, hasCallback: bool, encodable: bool, takenOver: bool)
    requires Unique(s.transports, TransportId()) && t in s.transports
    ensures var r := TransportSend(s, t.id, hasCallback, encodable, takenOver);
            && r.transports == s.transports && r.history.callbacks == s.history.callbacks
            && (t.isShutdown || !encodable ==> r == s)
            && (!t.isShutdown && encodable ==> r.sendSequence == s.sendSequence + 1)
            && (!t.isShutdown && encodable && takenOver ==>
                  && r.pending == [PendingSend(s.sendSequence + 1, t.id, hasCallback)] + s.pending
                  && r.history.accepted == s.history.accepted[s.sendSequence + 1 := hasCallback]
                  && r.history.refsDropped == s.history.refsDropped)
            && (!t.isShutdown && encodable && !takenOver ==>
                  r.pending == s.pending && r.history.accepted == s.history.accepted)
  {
    var found := FindById(s.transports, t.id);
    assert found == Some(t) by {
      assert found.value in s.transports && found.value.id == t.id;
    }
  }

  /** A transport that is gone takes no send. */
  lemma SendOnUnknown(s: Table, transport: nat, hasCallback: bool, encodable: bool, takenOver: bool)
    requires forall t :: t in s.transports ==> t.id != transport
    ensures TransportSend(s, transport, hasCallback, encodable, takenOver) == s
  {
  }

  lemma {:induction false} SettleAllCallbacks(h: History, ps: seq<PendingSend>, outcome: Outcome, c: Callback)
    ensures h.callbacks <= SettleAll(h, ps, outcome).callbacks
    ensures c in SettleAll(h, ps, outcome).callbacks <==>
              c in h.callbacks || exists p :: p in ps && p.hasCallback && c == Callback(p.id, outcome)
  {
    if ps != [] {
      var front, last := ps[..|ps| - 1], ps[|ps| - 1];
      SettleAllCallbacks(h, front, outcome, c);
      assert ps == front + [last];
    }
  }

  /** A completion takes exactly its send off, and tells its callback the bytes that were sent. */
  lemma CompleteExactly(s: Table, p: PendingSend, bytes: int, q: PendingSend)
    requires Unique(s.pending, SendId()) && p in s.pending
    ensures var r := CompleteSend(s, p.id, bytes);
            && r.transports == s.transports && r.sendSequence == s.sendSequence
            && (q in r.pending <==> q in s.pending && q.id != p.id)
            && r.history.callbacks == s.history.callbacks + (if p.hasCallback then [Callback(p.id, Sent(bytes))] else [])
            && r.history.accepted == s.history.accepted
  {
    var found := FindPending(s.pending, p.id).value;
    assert s.pending[found] == p;
    RemoveAtUnique(s.pending, found, SendId());
  }

  /** A completion of a send that is not pending does nothing. */
  lemma CompleteUnknown(s: Table, send: nat, bytes: int)
    requires !IsPending(s, send)
    ensures CompleteSend(s, send, bytes) == s
  {
    assert forall k :: 0 <= k < |s.pending| ==> s.pending[k].id != send;
  }

  /**
   Closing a transport takes it and its sends off, and nothing else; the callbacks of
   those sends are told the status, and no other callback is made.
   */
  lemma CloseExactly(s: Table, transport: nat, status: Status, t: Transport, p: PendingSend, c: Callback)
    ensures var r := CloseTransport(s, transport, status);
            && (t in r.transports <==> t in s.transports && t.id != transport)
            && (p in r.pending <==> p in s.pending && p.transport != transport)
            && s.history.callbacks <= r.history.callbacks
            && (c in r.history.callbacks <==>
                  || c in s.history.callbacks
                  || exists q :: q in s.pending && q.transport == transport && q.hasCallback &&
                       c == Callback(q.id, Failed(CloseStatus(status))))
  {
    var gone := Filter(s.pending, SentOn(transport));
    SettleAllCallbacks(s.history, gone, Failed(CloseStatus(status)), c);
    assert forall q :: q in gone <==> q in s.pending && q.transport == transport;
  }

  /** A new transport is in service for its association and has an id of its own. */
  lemma AddExactly(s: Table, protocol: Protocol, association: nat)
    ensures var r := AddTransport(s, protocol, association);
            && |r.transports| == |s.transports| + 1 && r.transports[1..] == s.transports
            && r.transports[0].protocol == protocol && r.transports[0].association == association
            && !r.transports[0].isShutdown && r.transports[0].id == s.transportSequence + 1 == r.transportSequence
            && r.pending == s.pending && r.history == s.history && r.sendSequence == s.sendSequence
  {
  }

  /** A transport is found for its protocol, and over TCP only for its own association. */
  lemma FoundExactly(ts: seq<Transport>, protocol: Protocol, association: nat)
    ensures FindTransport(ts, protocol, association).Some? <==>
              exists t :: t in ts && t.protocol == protocol && (t.protocol == Udp || t.association == association)
    ensures var found := FindTransport(ts, protocol, association);
            found.Some? && protocol == Tcp ==>
              found.value in ts && found.value.protocol == Tcp && found.value.association == association
  {
  }

  /** PJSIP's shutdown marks the one transport. */
  lemma ShutdownExactly(s: Table, id: nat, i: nat)
    requires i < |s.transports|
    ensures var r := MarkShutdown(s, id);
            && |r.transports| == |s.transports|
            && r.transports[i] == (if s.transports[i].id == id then s.transports[i].(isShutdown := true) else s.transports[i])
            && r.pending == s.pending && r.history == s.history
  {
  }

  lemma PendingNeedsTransport(s: Table)
    requires Linked(s) && s.pending != []
    ensures s.transports != []
  {
    assert s.pending[0] in s.pending && OnList(s, s.pending[0].transport);
  }

  /** Closing every transport leaves nothing pending, so shutdown's last drain loop finds nothing. */
  lemma {:induction false} CloseAllLeavesNothing(s: Table)
    requires Inv(s)
    ensures var r := CloseAllTransports(s); Inv(r) && r.transports == [] && r.pending == []
    ensures CloseAllTransports(s).history.accepted == s.history.accepted
    ensures CloseAllTransports(s).sendSequence == s.sendSequence
    decreases |s.transports|
  {
    if s.transports == [] {
      if s.pending != [] {
        PendingNeedsTransport(s);
        assert false;
      }
    } else {
      var id := s.transports[0].id;
      CloseTransportInv(s, id, Shutdown);
      FilterShorter(s.transports);
      UniqueFilter(s.pending, SendId(), SentOn(id));
      SettleAllCounts(s.history, Filter(s.pending, SentOn(id)), Failed(Shutdown), 0);
      CloseAllLeavesNothing(CloseTransport(s, id, Shutdown));
    }
  }
}
