/** The owner thread's lists, updated in place as the shim does. */
module OwnerThread {
  import opened Lists
  import opened Sends
  import opened Lifecycle

  class OwnerLists {
    var transports: seq<Transport>
    var pending: seq<PendingSend>
    var transportSequence: nat
    var sendSequence: nat
    var invites: seq<Record>
    var subscriptions: seq<Record>
    var records: nat
    ghost var history: History

    ghost function State(): Table
      reads this
    {
      Table(transports, pending, transportSequence, sendSequence, history)
    }

    ghost function All(): Owner
      reads this
    {
      Owner(State(), invites, subscriptions, records)
    }

    constructor ()
      ensures All() == Owner(Table([], [], 0, 0, NO_HISTORY), [], [], 0)
    {
      transports, pending, transportSequence, sendSequence := [], [], 0, 0;
      invites, subscriptions, records := [], [], 0;
      history := NO_HISTORY;
    }

    method FindServing(protocol: Protocol, association: nat) returns (r: Option<Transport>)
      ensures r == FindTransport(transports, protocol, association)
    {
      var i := 0;
      while i < |transports|
        invariant 0 <= i <= |transports|
        invariant FindTransport(transports, protocol, association) == FindTransport(transports[i..], protocol, association)
      {
        if transports[i].protocol == protocol && (protocol == Udp || transports[i].association == association) {
          return Some(transports[i]);
        }
        i := i + 1;
      }
      return None;
    }

    method Create(protocol: Protocol, association: nat) returns (t: Transport)
      modifies this`transports, this`transportSequence
      ensures State() == AddTransport(old(State()), protocol, association)
      ensures transports[0] == t
    {
      transportSequence := transportSequence + 1;
      t := Transport(transportSequence, protocol, association, false);
      transports := [t] + transports;
    }

    /**
     `takenOver` is the socket side's answer; a refused send is unlinked again and its
     reference dropped. Closing a transport shuts it down, so one off the list refuses.
     */
    method Send(t: Transport, hasCallback: bool, encodable: bool, takenOver: bool) returns (accepted: bool)
      requires FindById(transports, t.id) == Some(t) || (FindById(transports, t.id).None? && t.isShutdown)
      modifies this`pending, this`sendSequence, this`history
      ensures State() == TransportSend(old(State()), t.id, hasCallback, encodable, takenOver)
      ensures accepted == (!t.isShutdown && encodable && takenOver)
    {
      if t.isShutdown || !encodable {
        return false;
      }
      sendSequence := sendSequence + 1;
      var p := PendingSend(sendSequence, t.id, hasCallback);
      history := history.(refsTaken := history.refsTaken + multiset{p.id});
      pending := [p] + pending;
      if !takenOver {
        assert pending[1..] == old(pending);
        pending := pending[1..];
        history := history.(refsDropped := history.refsDropped + multiset{p.id});
        return false;
      }
      history := history.(accepted := history.accepted[p.id := hasCallback]);
      return true;
    }

    method FailSends(transport: nat, status: Status)
      modifies this`pending, this`history
      ensures State() == FailTransportSends(old(State()), transport, status)
    {
      ghost var all, before, keep := pending, history, NotSentOn(transport);
      ghost var gone: seq<PendingSend> := [];
      SplitLoopIsFilter(all, keep);
      var i := 0;
      while i < |pending|
        invariant 0 <= i <= |pending|
        invariant SplitLoop(pending, gone, i, keep) == SplitLoop(all, [], 0, keep)
        invariant history == SettleAll(before, gone, Failed(status))
        decreases |pending| - i
      {
        var p := pending[i];
        if p.transport != transport {
          i := i + 1;
        } else {
          SettleAllSnoc(before, gone, p, Failed(status));
          gone := gone + [p];
          pending := RemoveAt(pending, i);
          history := Settle(history, p, Failed(status));
        }
      }
    }

    method Close(transport: nat, status: Status)
      requires Unique(transports, TransportId())
      modifies this`transports, this`pending, this`history
      ensures State() == CloseTransport(old(State()), transport, status)
    {
      var i := 0;
      while i < |transports| && transports[i].id != transport
        invariant 0 <= i <= |transports|
        invariant forall k :: 0 <= k < i ==> transports[k].id != transport
      {
        i := i + 1;
      }
      if i < |transports| {
        FilterDropsOne(transports, i, IsNotTransport(transport));
        transports := RemoveAt(transports, i);
      } else {
        FilterAll(transports, IsNotTransport(transport));
      }
      FailSends(transport, if status == Success then Shutdown else status);
    }

    method Complete(send: nat, bytes: int) returns (found: bool)
      modifies this`pending, this`history
      ensures State() == CompleteSend(old(State()), send, bytes)
      ensures found == IsPending(old(State()), send)
    {
      var i := 0;
      while i < |pending|
        invariant 0 <= i <= |pending|
        invariant FindPending(pending, send) == FindPending(pending, send, i)
        invariant forall k :: 0 <= k < i ==> pending[k].id != send
      {
        if pending[i].id == send {
          var p := pending[i];
          pending := RemoveAt(pending, i);
          history := Settle(history, p, Sent(bytes));
          return true;
        }
        i := i + 1;
      }
      return false;
    }

    method DrainPending()
      modifies this`pending, this`history
      ensures pending == [] && history == SettleAll(old(history), old(pending), Failed(Shutdown))
    {
      ghost var all, before, done := pending, history, 0;
      while |pending| > 0
        invariant 0 <= done <= |all| && pending == all[done..]
        invariant history == SettleAll(before, all[..done], Failed(Shutdown))
        decreases |pending|
      {
        SettleAllSnoc(before, all[..done], pending[0], Failed(Shutdown));
        assert all[..done + 1] == all[..done] + [pending[0]];
        history := Settle(history, pending[0], Failed(Shutdown));
        pending := pending[1..];
        done := done + 1;
      }
      assert all[..done] == all;
    }

    /** Shutdown: close every transport, then drain what is still pending - which is nothing. */
    method Release()
      requires Inv(State())
      modifies this`transports, this`pending, this`history
      ensures State() == CloseAllTransports(old(State()))
      ensures transports == [] && pending == []
    {
      ghost var start := State();
      while |transports| > 0
        invariant Inv(State()) && CloseAllTransports(State()) == CloseAllTransports(start)
        decreases |transports|
      {
        FilterShorter(transports);
        CloseTransportInv(State(), transports[0].id, Shutdown);
        Close(transports[0].id, Shutdown);
      }
      CloseAllLeavesNothing(State());
      DrainPending();
    }
  
    method CloseInvites(protocol: Protocol, association: nat)
      modifies this`invites
      ensures invites == Filter(old(invites), NotBoundTo(protocol, association))
      ensures forall r :: r in invites <==> r in old(invites) && (r.protocol != protocol || r.association != association)
    {
      RemoveLoopIsFilter(invites, NotBoundTo(protocol, association));
      var i := 0;
      while i < |invites|
        invariant 0 <= i <= |invites|
        invariant RemoveLoop(invites, i, NotBoundTo(protocol, association))
               == RemoveLoop(old(invites), 0, NotBoundTo(protocol, association))
        decreases |invites| - i
      {
        if invites[i].protocol == protocol && invites[i].association == association {
          invites := RemoveAt(invites, i);
        } else {
          i := i + 1;
        }
      }
    }

    method CloseSubscriptions(protocol: Protocol, association: nat)
      modifies this`subscriptions
      ensures subscriptions == Filter(old(subscriptions), NotBoundTo(protocol, association))
      ensures forall r :: r in subscriptions <==> r in old(subscriptions) && (r.protocol != protocol || r.association != association)
    {
      RemoveLoopIsFilter(subscriptions, NotBoundTo(protocol, association));
      var i := 0;
      while i < |subscriptions|
        invariant 0 <= i <= |subscriptions|
        invariant RemoveLoop(subscriptions, i, NotBoundTo(protocol, association))
               == RemoveLoop(old(subscriptions), 0, NotBoundTo(protocol, association))
        decreases |subscriptions| - i
      {
        if subscriptions[i].protocol == protocol && subscriptions[i].association == association {
          subscriptions := RemoveAt(subscriptions, i);
        } else {
          i := i + 1;
        }
      }
    }

    method ProcessClose(command: Lifecycle.Close)
      requires Unique(transports, TransportId())
      modifies this`transports, this`pending, this`history, this`invites, this`subscriptions
      ensures Unique(transports, TransportId()) && All() == CloseOne(old(All()), command)
      ensures forall r :: r in old(invites) && (r.protocol != Tcp || r.association != command.association) ==> r in invites
      ensures forall r :: r in old(subscriptions) && (r.protocol != Tcp || r.association != command.association) ==>
                r in subscriptions
    {
      var t := FindServing(Tcp, command.association);
      if t.Some? {
        UniqueFilter(transports, TransportId(), IsNotTransport(t.value.id));
        Close(t.value.id, command.status);
        CloseInvites(Tcp, command.association);
        CloseSubscriptions(Tcp, command.association);
      }
    }

    method ProcessReceive(r: Receive) returns (t: Option<Transport>)
      modifies this`transports, this`transportSequence
      ensures All() == ReceiveOne(old(All()), r)
      ensures t == FindTransport(transports, r.protocol, r.association)
    {
      t := FindServing(r.protocol, r.association);
      if t.None? && r.protocol == Tcp {
        var created := Create(r.protocol, r.association);
        t := Some(created);
      }
    }

    method ProcessOutbound(command: Outbound)
      modifies this`invites, this`subscriptions, this`records
      ensures All() == OutboundOne(old(All()), command)
    {
      var t := FindServing(command.protocol, command.association);
      if t.None? {
        return;
      }
      records := records + 1;
      var r := Record(records, command.protocol, command.association);
      if command.Invite? {
        invites := [r] + invites;
      } else {
        subscriptions := [r] + subscriptions;
      }
    }
  }
}
