/** The source and order lists as the shim keeps them: searched and unlinked in place. */
module AdmissionLists {
  import opened Fields
  import opened Lists
  import opened Tables
  import opened Admission

  class DeviceLists {
    var sources: seq<Source>
    var orders: seq<Order>

    ghost function Contents(clock: nat): State
      reads this
    {
      State(sources, orders, clock)
    }

    method FindOrder(device: string) returns (i: nat)
      ensures i <= |orders|
      ensures Find(orders, OrderOf(), device) == if i < |orders| then Some(i) else None
    {
      i := 0;
      while i < |orders| && orders[i].device != device
        invariant i <= |orders|
        invariant Find(orders, OrderOf(), device) == Find(orders, OrderOf(), device, i)
      {
        i := i + 1;
      }
    }

    method FindSource(device: string) returns (i: nat)
      ensures i <= |sources|
      ensures Find(sources, DeviceOf(), device) == if i < |sources| then Some(i) else None
    {
      i := 0;
      while i < |sources| && sources[i].device != device
        invariant i <= |sources|
        invariant Find(sources, DeviceOf(), device) == Find(sources, DeviceOf(), device, i)
      {
        i := i + 1;
      }
    }

    method RemoveRegisterOrder(device: string)
      modifies this`orders
      ensures orders == Cut(old(orders), OrderOf(), device)
    {
      var i := FindOrder(device);
      if i < |orders| {
        orders := RemoveAt(orders, i);
      }
    }

    /** The shared tail of syncing and committing: find or make the record, then fill it in. */
    method StoreRegisterOrder(device: string, callId: string, cseq: nat)
      modifies this`orders
      ensures orders == SetOrder(old(orders), device, callId, cseq)
    {
      var i := FindOrder(device);
      if i == |orders| {
        orders, i := [Order(device, "", 0)] + orders, 0;
      }
      if |callId| >= CALL_ID_CAPACITY || '\0' in callId {
        return;
      }
      orders := orders[i := orders[i].(callId := callId, cseq := cseq)];
    }

    method SyncRegisterOrder(g: Grant)
      modifies this`orders
      ensures orders == Sync(old(orders), g)
    {
      if g.callId == "" || g.cseq == 0 {
        return;
      }
      StoreRegisterOrder(g.device, g.callId, g.cseq);
    }

    method CommitRegisterOrder(device: string, callId: string, cseq: int, expires: nat)
      modifies this`orders
      ensures orders == Commit(old(orders), device, callId, cseq, expires)
    {
      if cseq < 0 {
        return;
      }
      if expires == 0 {
        RemoveRegisterOrder(device);
        return;
      }
      StoreRegisterOrder(device, callId, cseq);
    }

    method RegisterOrderIsStale(device: string, callId: string, cseq: int) returns (stale: bool)
      ensures stale == Stale(orders, device, callId, cseq)
    {
      if cseq < 0 {
        return false;
      }
      var i := FindOrder(device);
      return i < |orders| && callId == orders[i].callId && cseq < orders[i].cseq;
    }

    /** Answers a REGISTER, committing its order once the response is out. */
    method CompleteRegister(r: Registration) returns (response: int)
      modifies this`orders
      ensures forall clock ::
        && response == Response(old(Contents(clock)), r)
        && Contents(clock) == Register(old(Contents(clock)), r)
    {
      response := r.answer;
      if response == OK {
        var stale := RegisterOrderIsStale(r.device, r.callId, r.cseq);
        if stale {
          response := SERVER_ERROR;
        }
      }
      if response == OK && r.sent {
        CommitRegisterOrder(r.device, r.callId, r.cseq, r.expires);
      }
    }

    method CleanupRecoverySources(now: nat)
      modifies this
      ensures forall clock :: Contents(now) == Cleanup(old(Contents(clock)), now)
    {
      ghost var all, before, keep := sources, orders, NotEnded(now);
      ghost var gone: seq<Source> := [];
      SplitLoopIsFilter(all, keep);
      var i := 0;
      while i < |sources|
        invariant 0 <= i <= |sources|
        invariant SplitLoop(sources, gone, i, keep) == SplitLoop(all, [], 0, keep)
        invariant orders == CutAll(before, OrderOf(), Devices(gone))
        decreases |sources| - i
      {
        var source := sources[i];
        if 0 < source.recovery && source.recovery <= now {
          assert !keep(source);
          sources := RemoveAt(sources, i);
          RemoveRegisterOrder(source.device);
          CutAllSnoc(before, OrderOf(), Devices(gone), source.device);
          assert Devices(gone + [source]) == Devices(gone) + [source.device];
          gone := gone + [source];
        } else {
          assert keep(source);
          i := i + 1;
        }
      }
    }

    method RegisteredSourceAllowed(r: Request, clock: nat, wait: nat) returns (allowed: bool)
      modifies this
      ensures r.device != "" ==> Contents(clock + wait) == Look(old(Contents(clock)), r, wait)
      ensures r.device == "" ==> Contents(clock) == old(Contents(clock))
      ensures allowed == Admitted(old(Contents(clock)), r, wait)
    {
      if r.device == "" {
        return false;
      }
      CleanupRecoverySources(clock + wait);
      assert Contents(clock + wait) == Cleanup(old(Contents(clock)), clock + wait);
      var i := 0;
      while i < |sources|
        invariant 0 <= i <= |sources|
        invariant sources == Look(old(Contents(clock)), r, wait).sources
        invariant forall k :: 0 <= k < i ==> !Matches(sources[k], r)
      {
        if Matches(sources[i], r) {
          return true;
        }
        i := i + 1;
      }
      return false;
    }

    /** Updates the device's source in place, or puts a new one at the front. */
    method StoreSource(g: Grant, recovery: nat)
      modifies this
      ensures forall clock :: Contents(clock) == Store(old(Contents(clock)), g, recovery)
    {
      var i := FindSource(g.device);
      SyncRegisterOrder(g);
      if i < |sources| {
        sources := sources[i := sources[i].(transport := g.transport, generation := sources[i].generation + 1,
                                            recovery := recovery, address := g.address)];
      } else {
        sources := [Source(g.device, g.transport, g.address, 1, recovery)] + sources;
      }
    }

    method AllowRegisteredSource(g: Grant) returns (accepted: bool)
      modifies this
      ensures accepted == GrantAccepted(g)
      ensures forall clock :: Contents(clock) == AllowRegistered(old(Contents(clock)), g)
    {
      if !GrantAccepted(g) {
        return false;
      }
      StoreSource(g, 0);
      return true;
    }

    method AllowRecoverySource(g: Grant, ttl: nat, clock: nat, wait: nat, more: nat) returns (accepted: bool)
      modifies this
      ensures accepted == (GrantAccepted(g) && ttl > 0)
      ensures var after := AllowRecovery(old(Contents(clock)), g, ttl, wait, more);
              sources == after.sources && orders == after.orders
    {
      if !GrantAccepted(g) || ttl == 0 {
        return false;
      }
      CleanupRecoverySources(clock + wait);
      ghost var cleaned := Contents(clock + wait);
      assert cleaned == Cleanup(old(Contents(clock)), clock + wait);
      assert AllowRecovery(old(Contents(clock)), g, ttl, wait, more) == Recover(cleaned, g, ttl, more);
      RecoverSource(g, ttl, clock + wait, more);
      return true;
    }

    /** The part after cleaning up: a live source stays, anything else is replaced. */
    method RecoverSource(g: Grant, ttl: nat, clock: nat, more: nat)
      modifies this
      ensures Contents(clock + more) == Recover(old(Contents(clock)), g, ttl, more).(clock := clock + more)
    {
      var i := FindSource(g.device);
      if i < |sources| && sources[i].recovery == 0 {
        return;
      }
      StoreSource(g, clock + more + ttl);
      assert Contents(clock) == Store(old(Contents(clock)), g, clock + more + ttl);
    }

    method RemoveRegisteredSource(device: string) returns (accepted: bool)
      modifies this
      ensures accepted == (device != "" && Storable(device, DEVICE_CAPACITY))
      ensures forall clock :: Contents(clock) == RemoveRegistered(old(Contents(clock)), device)
    {
      if device == "" || !Storable(device, DEVICE_CAPACITY) {
        return false;
      }
      RemoveRegisterOrder(device);
      ghost var all, keep := sources, NotDevice(device);
      RemoveLoopIsFilter(all, keep);
      var i := 0;
      while i < |sources|
        invariant 0 <= i <= |sources|
        invariant RemoveLoop(sources, i, keep) == RemoveLoop(all, 0, keep)
        invariant orders == Cut(old(orders), OrderOf(), device)
        decreases |sources| - i
      {
        if sources[i].device == device {
          sources := RemoveAt(sources, i);
        } else {
          i := i + 1;
        }
      }
      return true;
    }
  }
}
