/**
 Which devices may send OPTIONS and MESSAGE, and which REGISTER is out of date.

 The runtime keeps a list of registered sources and a list of register orders, one
 record per device in each. A source is live, or a recovery that ends at a given
 time; ended recoveries are only unlinked by a poll or when somebody looks, together
 with the device's register order. Time is the runtime's monotonic clock, so each step says
 how long it waited.
 */
module Admission {
  import opened Fields
  import opened Lists
  import opened Tables

  const OK := 200
  const SERVER_ERROR := 500

  /** `recovery` is zero for a live source, and otherwise the time the recovery ends. */
  datatype Source = Source(device: string, transport: TransportType, address: string, generation: nat, recovery: nat)

  datatype Order = Order(device: string, callId: string, cseq: nat)

  /** What the application grants a device, with the registration that earned it. */
  datatype Grant = Grant(device: string, transport: TransportType, address: string, callId: string, cseq: nat)

  datatype State = State(sources: seq<Source>, orders: seq<Order>, clock: nat)

  const NOTHING := State([], [], 0)

  function DeviceOf(): Source -> string { (x: Source) => x.device }

  function OrderOf(): Order -> string { (x: Order) => x.device }

  predicate GrantAccepted(g: Grant) {
    && g.transport != Other
    && g.device != "" && Storable(g.device, DEVICE_CAPACITY)
    && g.address != "" && Storable(g.address, ADDRESS_CAPACITY)
  }

  // ---- Register orders ---------------------------------------------------------------

  /** Finds or makes the device's record, and stores the registration if its Call-ID fits. */
  function SetOrder(orders: seq<Order>, device: string, callId: string, cseq: nat): seq<Order> {
    if Storable(callId, CALL_ID_CAPACITY) then Put(orders, OrderOf(), Order(device, callId, cseq))
    else if Find(orders, OrderOf(), device).Some? then orders
    else Put(orders, OrderOf(), Order(device, "", 0))
  }

  function Sync(orders: seq<Order>, g: Grant): seq<Order> {
    if g.callId == "" || g.cseq == 0 then orders else SetOrder(orders, g.device, g.callId, g.cseq)
  }

  function Commit(orders: seq<Order>, device: string, callId: string, cseq: int, expires: nat): seq<Order> {
    if cseq < 0 then orders
    else if expires == 0 then Cut(orders, OrderOf(), device)
    else SetOrder(orders, device, callId, cseq)
  }

  predicate Stale(orders: seq<Order>, device: string, callId: string, cseq: int) {
    && cseq >= 0
    && var order := Get(orders, OrderOf(), device);
       order.Some? && order.value.callId == callId && cseq < order.value.cseq
  }

  // ---- Sources --------------------------------------------------------------------------

  predicate Ended(x: Source, now: nat) { 0 < x.recovery <= now }

  function NotEnded(now: nat): Source -> bool { (x: Source) => !Ended(x, now) }

  function Devices(sources: seq<Source>): (r: seq<string>)
    ensures |r| == |sources| && forall i :: 0 <= i < |r| ==> r[i] == sources[i].device
  {
    seq(|sources|, i requires 0 <= i < |sources| => sources[i].device)
  }

  /** Unlinks the ended recoveries, each with its device's register order. */
  function Cleanup(s: State, now: nat): State {
    State(Filter(s.sources, NotEnded(now)),
          CutAll(s.orders, OrderOf(), Devices(Filter(s.sources, Not(NotEnded(now))))),
          now)
  }

  /** The device's next record: its generation counts the grants it has had. */
  function Granted(sources: seq<Source>, g: Grant, recovery: nat): Source {
    var known := Get(sources, DeviceOf(), g.device);
    Source(g.device, g.transport, g.address, (if known.Some? then known.value.generation else 0) + 1, recovery)
  }

  function Store(s: State, g: Grant, recovery: nat): State {
    s.(orders := Sync(s.orders, g), sources := Put(s.sources, DeviceOf(), Granted(s.sources, g, recovery)))
  }

  function AllowRegistered(s: State, g: Grant): State {
    if GrantAccepted(g) then Store(s, g, 0) else s
  }

  /** A recovery never replaces a live source; the clock is read again for the end time. */
  function Recover(s: State, g: Grant, ttl: nat, more: nat): State {
    var known := Get(s.sources, DeviceOf(), g.device);
    if known.Some? && known.value.recovery == 0 then s
    else Store(s, g, s.clock + more + ttl).(clock := s.clock + more)
  }

  function AllowRecovery(s: State, g: Grant, ttl: nat, wait: nat, more: nat): State {
    if !GrantAccepted(g) || ttl == 0 then s else Recover(Cleanup(s, s.clock + wait), g, ttl, more)
  }

  function RemoveRegistered(s: State, device: string): State {
    if device == "" || !Storable(device, DEVICE_CAPACITY) then s
    else s.(orders := Cut(s.orders, OrderOf(), device), sources := Filter(s.sources, NotDevice(device)))
  }

  function NotDevice(device: string): Source -> bool { (x: Source) => x.device != device }

  /** An OPTIONS or MESSAGE arrives. */
  datatype Request = Request(device: string, transport: TransportType, address: string, message: bool)

  predicate Matches(x: Source, r: Request) {
    x.device == r.device && (x.recovery == 0 || r.message) && x.transport == r.transport && x.address == r.address
  }

  function Look(s: State, r: Request, wait: nat): State {
    if r.device == "" then s else Cleanup(s, s.clock + wait)
  }

  ghost predicate Admitted(s: State, r: Request, wait: nat) {
    r.device != "" && exists x :: x in Look(s, r, wait).sources && Matches(x, r)
  }

  // ---- Runs -------------------------------------------------------------------------------

  /** A REGISTER that authentication would answer with `answer`. */
  datatype Registration = Registration(device: string, callId: string, cseq: int, expires: nat, answer: int, sent: bool)

  function Response(s: State, r: Registration): int {
    if r.answer == OK && Stale(s.orders, r.device, r.callId, r.cseq) then SERVER_ERROR else r.answer
  }

  predicate Accepted(s: State, r: Registration) {
    Response(s, r) == OK && r.sent
  }

  function Register(s: State, r: Registration): State {
    if Accepted(s, r) then s.(orders := Commit(s.orders, r.device, r.callId, r.cseq, r.expires)) else s
  }

  datatype Step =
    | StepRegistered(grant: Grant)
    | StepRecovery(grant: Grant, ttl: nat, wait: nat, more: nat)
    | StepRemove(device: string)
    | StepRequest(request: Request, wait: nat)
    | StepPoll(wait: nat)
    | StepRegister(registration: Registration)

  function Apply(s: State, step: Step): State {
    match step
    case StepRegistered(g) => AllowRegistered(s, g)
    case StepRecovery(g, ttl, wait, more) => AllowRecovery(s, g, ttl, wait, more)
    case StepRemove(device) => RemoveRegistered(s, device)
    case StepRequest(r, wait) => Look(s, r, wait)
    case StepPoll(wait) => Cleanup(s, s.clock + wait)
    case StepRegister(r) => Register(s, r)
  }

  function Run(steps: seq<Step>): State {
    if steps == [] then NOTHING else Apply(Run(steps[..|steps| - 1]), steps[|steps| - 1])
  }

  // ---- The admission map the source list stands for ------------------------------------------

  datatype Entry = Entry(transport: TransportType, address: string, recovery: nat)

  /** One entry per device, never cleaned up. */
  datatype Book = Book(entries: map<string, Entry>, clock: nat)

  function NoteRecovery(book: Book, g: Grant, ttl: nat, more: nat): Book {
    if g.device in book.entries && book.entries[g.device].recovery == 0 then book
    else Book(book.entries[g.device := Entry(g.transport, g.address, book.clock + more + ttl)], book.clock + more)
  }

  function Note(book: Book, step: Step): Book {
    match step
    case StepRegistered(g) =>
      if GrantAccepted(g) then book.(entries := book.entries[g.device := Entry(g.transport, g.address, 0)]) else book
    case StepRecovery(g, ttl, wait, more) =>
      if !GrantAccepted(g) || ttl == 0 then book
      else NoteRecovery(book.(clock := book.clock + wait), g, ttl, more)
    case StepRemove(device) =>
      if device == "" || !Storable(device, DEVICE_CAPACITY) then book else book.(entries := book.entries - {device})
    case StepRequest(r, wait) =>
      if r.device == "" then book else book.(clock := book.clock + wait)
    case StepPoll(wait) => book.(clock := book.clock + wait)
    case StepRegister(_) => book
  }

  function Replay(steps: seq<Step>): Book {
    if steps == [] then Book(map[], 0) else Note(Replay(steps[..|steps| - 1]), steps[|steps| - 1])
  }

  /** OPTIONS needs a live entry; MESSAGE also passes on a recovery that has not ended. */
  predicate Admits(book: Book, r: Request, now: nat) {
    && r.device != "" && r.device in book.entries
    && var e := book.entries[r.device];
       && e.transport == r.transport && e.address == r.address
       && (e.recovery == 0 || (r.message && now < e.recovery))
  }

  /** The list holds each device's entry, except that an ended one may be gone. */
  predicate SameEntry(sources: seq<Source>, book: Book, d: string) {
    match Get(sources, DeviceOf(), d)
    case Some(x) => d in book.entries && book.entries[d] == Entry(x.transport, x.address, x.recovery)
    case None => d in book.entries ==> 0 < book.entries[d].recovery <= book.clock
  }

  ghost predicate Refines(s: State, book: Book) {
    && s.clock == book.clock && Unique(s.sources, DeviceOf())
    && forall d :: SameEntry(s.sources, book, d)
  }

  lemma CleanupRefines(s: State, book: Book, wait: nat)
    requires Refines(s, book)
    ensures Refines(Cleanup(s, s.clock + wait), book.(clock := book.clock + wait))
  {
    var now := s.clock + wait;
    forall d
      ensures SameEntry(Cleanup(s, now).sources, book.(clock := now), d)
    {
      assert SameEntry(s.sources, book, d);
      GetFilter(s.sources, DeviceOf(), NotEnded(now), d);
    }
    UniqueFilter(s.sources, DeviceOf(), NotEnded(now));
  }

  lemma StoreRefines(s: State, book: Book, g: Grant, recovery: nat, more: nat)
    requires Refines(s, book)
    ensures Refines(Store(s, g, recovery).(clock := s.clock + more),
                    Book(book.entries[g.device := Entry(g.transport, g.address, recovery)], s.clock + more))
  {
    var x := Granted(s.sources, g, recovery);
    var book' := Book(book.entries[g.device := Entry(g.transport, g.address, recovery)], s.clock + more);
    GetPut(s.sources, DeviceOf(), x, g.device);
    forall d
      ensures SameEntry(Put(s.sources, DeviceOf(), x), book', d)
    {
      assert SameEntry(s.sources, book, d);
      GetPut(s.sources, DeviceOf(), x, d);
    }
  }

  lemma RemoveRefines(s: State, book: Book, device: string)
    requires Refines(s, book)
    ensures Refines(RemoveRegistered(s, device), Note(book, StepRemove(device)))
  {
    UniqueFilter(s.sources, DeviceOf(), NotDevice(device));
    forall d
      ensures SameEntry(Filter(s.sources, NotDevice(device)), book.(entries := book.entries - {device}), d)
    {
      assert SameEntry(s.sources, book, d);
      GetFilter(s.sources, DeviceOf(), NotDevice(device), d);
    }
  }

  lemma RegisteredRefines(s: State, book: Book, g: Grant)
    requires Refines(s, book)
    ensures Refines(AllowRegistered(s, g), Note(book, StepRegistered(g)))
  {
    if GrantAccepted(g) {
      StoreRefines(s, book, g, 0, 0);
      assert Store(s, g, 0).(clock := s.clock + 0) == Store(s, g, 0);
    }
  }

  lemma RecoverRefines(s: State, book: Book, g: Grant, ttl: nat, more: nat)
    requires Refines(s, book)
    ensures Refines(Recover(s, g, ttl, more), NoteRecovery(book, g, ttl, more))
  {
    assert SameEntry(s.sources, book, g.device);
    StoreRefines(s, book, g, s.clock + more + ttl, more);
  }

  lemma RecoveryRefines(s: State, book: Book, g: Grant, ttl: nat, wait: nat, more: nat)
    requires Refines(s, book)
    ensures Refines(AllowRecovery(s, g, ttl, wait, more), Note(book, StepRecovery(g, ttl, wait, more)))
  {
    if GrantAccepted(g) && ttl != 0 {
      var s1, book1 := Cleanup(s, s.clock + wait), book.(clock := book.clock + wait);
      assert AllowRecovery(s, g, ttl, wait, more) == Recover(s1, g, ttl, more);
      assert Note(book, StepRecovery(g, ttl, wait, more)) == NoteRecovery(book1, g, ttl, more);
      CleanupRefines(s, book, wait);
      RecoverRefines(s1, book1, g, ttl, more);
    }
  }

  lemma StepRefines(s: State, book: Book, step: Step)
    requires Refines(s, book)
    ensures Refines(Apply(s, step), Note(book, step))
  {
    match step
    case StepRegistered(g) => RegisteredRefines(s, book, g);
    case StepRecovery(g, ttl, wait, more) => RecoveryRefines(s, book, g, ttl, wait, more);
    case StepRemove(device) => RemoveRefines(s, book, device);
    case StepRequest(r, wait) => CleanupRefines(s, book, wait);
    case StepPoll(wait) => CleanupRefines(s, book, wait);
    case StepRegister(r) =>
  }

  lemma {:induction false} RunRefines(steps: seq<Step>)
    ensures Refines(Run(steps), Replay(steps))
  {
    if steps == [] {
      assert forall d :: SameEntry([], Book(map[], 0), d);
    } else {
      RunRefines(steps[..|steps| - 1]);
      StepRefines(Run(steps[..|steps| - 1]), Replay(steps[..|steps| - 1]), steps[|steps| - 1]);
    }
  }

  /** After any history, a request is admitted exactly when replaying that history admits it. */
  lemma AdmittedExactly(steps: seq<Step>, r: Request, wait: nat)
    ensures Admitted(Run(steps), r, wait) <==> Admits(Replay(steps), r, Run(steps).clock + wait)
  {
    RunRefines(steps);
    var s, book := Run(steps), Replay(steps);
    if r.device != "" {
      CleanupRefines(s, book, wait);
      var clean := Cleanup(s, s.clock + wait).sources;
      assert SameEntry(clean, book.(clock := book.clock + wait), r.device);
      GetFilter(s.sources, DeviceOf(), NotEnded(s.clock + wait), r.device);
      if x :| x in clean && Matches(x, r) {
        GetRecord(clean, DeviceOf(), x);
      }
    }
  }

  // ---- The registrations the order table stands for -------------------------------------------

  datatype Stamp = Stamp(callId: string, cseq: nat)

  predicate EndedDevice(s: State, now: nat, d: string) {
    var x := Get(s.sources, DeviceOf(), d);
    x.Some? && Ended(x.value, now)
  }

  function Forget(latest: map<string, Stamp>, s: State, now: nat): map<string, Stamp> {
    map d | d in latest && !EndedDevice(s, now, d) :: latest[d]
  }

  function Stamped(latest: map<string, Stamp>, device: string, callId: string, cseq: nat): map<string, Stamp> {
    if Storable(callId, CALL_ID_CAPACITY) then latest[device := Stamp(callId, cseq)] else latest
  }

  function Synced(latest: map<string, Stamp>, g: Grant): map<string, Stamp> {
    if g.callId == "" || g.cseq == 0 then latest else Stamped(latest, g.device, g.callId, g.cseq)
  }

  function LearnRecovery(latest: map<string, Stamp>, s: State, g: Grant): map<string, Stamp> {
    var known := Get(s.sources, DeviceOf(), g.device);
    if known.Some? && known.value.recovery == 0 then latest else Synced(latest, g)
  }

  /** The latest registration of each device, forgotten when it unregisters, is removed or its recovery ends. */
  function Learn(latest: map<string, Stamp>, s: State, step: Step): map<string, Stamp> {
    match step
    case StepRegistered(g) => if GrantAccepted(g) then Synced(latest, g) else latest
    case StepRecovery(g, ttl, wait, _) =>
      if !GrantAccepted(g) || ttl == 0 then latest
      else LearnRecovery(Forget(latest, s, s.clock + wait), Cleanup(s, s.clock + wait), g)
    case StepRemove(device) =>
      if device == "" || !Storable(device, DEVICE_CAPACITY) then latest else latest - {device}
    case StepRequest(r, wait) => if r.device == "" then latest else Forget(latest, s, s.clock + wait)
    case StepPoll(wait) => Forget(latest, s, s.clock + wait)
    case StepRegister(r) =>
      if !Accepted(s, r) || r.cseq < 0 then latest
      else if r.expires == 0 then latest - {r.device}
      else Stamped(latest, r.device, r.callId, r.cseq)
  }

  function Latest(steps: seq<Step>): map<string, Stamp> {
    if steps == [] then map[]
    else Learn(Latest(steps[..|steps| - 1]), Run(steps[..|steps| - 1]), steps[|steps| - 1])
  }

  /** A record whose Call-ID never fitted is blank, and never makes a REGISTER stale. */
  predicate SameOrder(orders: seq<Order>, latest: map<string, Stamp>, d: string) {
    match Get(orders, OrderOf(), d)
    case None => d !in latest
    case Some(o) => if d in latest then latest[d] == Stamp(o.callId, o.cseq) else o.callId == "" && o.cseq == 0
  }

  ghost predicate OrdersRefine(s: State, latest: map<string, Stamp>) {
    && Unique(s.orders, OrderOf()) && Unique(s.sources, DeviceOf())
    && forall d :: SameOrder(s.orders, latest, d)
  }

  lemma SetOrderGet(orders: seq<Order>, device: string, callId: string, cseq: nat, d: string)
    requires Unique(orders, OrderOf())
    ensures Unique(SetOrder(orders, device, callId, cseq), OrderOf())
    ensures Get(SetOrder(orders, device, callId, cseq), OrderOf(), d)
         == if d != device then Get(orders, OrderOf(), d)
            else if Storable(callId, CALL_ID_CAPACITY) then Some(Order(device, callId, cseq))
            else if Get(orders, OrderOf(), d).Some? then Get(orders, OrderOf(), d)
            else Some(Order(device, "", 0))
  {
    GetPut(orders, OrderOf(), Order(device, callId, cseq), d);
    GetPut(orders, OrderOf(), Order(device, "", 0), d);
  }

  lemma SyncOrder(orders: seq<Order>, g: Grant, d: string)
    requires Unique(orders, OrderOf())
    ensures Unique(Sync(orders, g), OrderOf())
    ensures d != g.device ==> Get(Sync(orders, g), OrderOf(), d) == Get(orders, OrderOf(), d)
    ensures forall latest :: SameOrder(orders, latest, d) ==> SameOrder(Sync(orders, g), Synced(latest, g), d)
  {
    SetOrderGet(orders, g.device, g.callId, g.cseq, d);
  }

  lemma EndedDevices(s: State, now: nat, d: string)
    requires Unique(s.sources, DeviceOf())
    ensures d in Devices(Filter(s.sources, Not(NotEnded(now)))) <==> EndedDevice(s, now, d)
  {
    var gone := Filter(s.sources, Not(NotEnded(now)));
    GetFilter(s.sources, DeviceOf(), Not(NotEnded(now)), d);
    if i :| 0 <= i < |gone| && Devices(gone)[i] == d {
      assert gone[i] in gone && gone[i].device == d;
    }
    if EndedDevice(s, now, d) {
      var i := Find(gone, DeviceOf(), d).value;
      assert Devices(gone)[i] == d;
    }
  }

  /** Cleaning up drops the orders of the devices whose recovery ended, and no other. */
  lemma CleanupOrder(s: State, now: nat, d: string)
    requires Unique(s.sources, DeviceOf()) && Unique(s.orders, OrderOf())
    ensures Unique(Cleanup(s, now).orders, OrderOf())
    ensures Get(Cleanup(s, now).orders, OrderOf(), d)
         == if EndedDevice(s, now, d) then None else Get(s.orders, OrderOf(), d)
  {
    EndedDevices(s, now, d);
    GetCutAll(s.orders, OrderOf(), Devices(Filter(s.sources, Not(NotEnded(now)))), d);
  }

  lemma CleanupOrders(s: State, latest: map<string, Stamp>, now: nat)
    requires OrdersRefine(s, latest)
    ensures OrdersRefine(Cleanup(s, now), Forget(latest, s, now))
  {
    UniqueFilter(s.sources, DeviceOf(), NotEnded(now));
    forall d
      ensures SameOrder(Cleanup(s, now).orders, Forget(latest, s, now), d)
      ensures Unique(Cleanup(s, now).orders, OrderOf())
    {
      assert SameOrder(s.orders, latest, d);
      CleanupOrder(s, now, d);
    }
    assert Unique(Cleanup(s, now).orders, OrderOf()) by { CleanupOrder(s, now, ""); }
  }

  lemma StoreOrders(s: State, latest: map<string, Stamp>, g: Grant, recovery: nat)
    requires OrdersRefine(s, latest)
    ensures OrdersRefine(Store(s, g, recovery), Synced(latest, g))
  {
    GetPut(s.sources, DeviceOf(), Granted(s.sources, g, recovery), "");
    SyncOrder(s.orders, g, "");
    forall d
      ensures SameOrder(Sync(s.orders, g), Synced(latest, g), d)
    {
      assert SameOrder(s.orders, latest, d);
      SyncOrder(s.orders, g, d);
    }
  }

  lemma CutOrders(orders: seq<Order>, latest: map<string, Stamp>, device: string)
    requires Unique(orders, OrderOf()) && forall d :: SameOrder(orders, latest, d)
    ensures Unique(Cut(orders, OrderOf(), device), OrderOf())
    ensures forall d :: SameOrder(Cut(orders, OrderOf(), device), latest - {device}, d)
  {
    GetCut(orders, OrderOf(), device, device);
    forall d
      ensures SameOrder(Cut(orders, OrderOf(), device), latest - {device}, d)
    {
      assert SameOrder(orders, latest, d);
      GetCut(orders, OrderOf(), device, d);
    }
  }

  lemma RegisterOrders(s: State, latest: map<string, Stamp>, r: Registration)
    requires OrdersRefine(s, latest)
    ensures OrdersRefine(Register(s, r), Learn(latest, s, StepRegister(r)))
  {
    if Accepted(s, r) && r.cseq >= 0 {
      if r.expires == 0 {
        CutOrders(s.orders, latest, r.device);
      } else {
        SetOrderGet(s.orders, r.device, r.callId, r.cseq, r.device);
        forall d
          ensures SameOrder(Register(s, r).orders, Stamped(latest, r.device, r.callId, r.cseq), d)
        {
          assert SameOrder(s.orders, latest, d);
          SetOrderGet(s.orders, r.device, r.callId, r.cseq, d);
        }
      }
    }
  }

  lemma RecoverOrders(s: State, latest: map<string, Stamp>, g: Grant, ttl: nat, more: nat)
    requires OrdersRefine(s, latest)
    ensures OrdersRefine(Recover(s, g, ttl, more), LearnRecovery(latest, s, g))
  {
    StoreOrders(s, latest, g, s.clock + more + ttl);
  }

  lemma RecoveryOrders(s: State, latest: map<string, Stamp>, g: Grant, ttl: nat, wait: nat, more: nat)
    requires OrdersRefine(s, latest)
    ensures OrdersRefine(AllowRecovery(s, g, ttl, wait, more), Learn(latest, s, StepRecovery(g, ttl, wait, more)))
  {
    if GrantAccepted(g) && ttl != 0 {
      var s1, kept := Cleanup(s, s.clock + wait), Forget(latest, s, s.clock + wait);
      assert AllowRecovery(s, g, ttl, wait, more) == Recover(s1, g, ttl, more);
      assert Learn(latest, s, StepRecovery(g, ttl, wait, more)) == LearnRecovery(kept, s1, g);
      CleanupOrders(s, latest, s.clock + wait);
      RecoverOrders(s1, kept, g, ttl, more);
    }
  }

  lemma RegisteredOrders(s: State, latest: map<string, Stamp>, g: Grant)
    requires OrdersRefine(s, latest)
    ensures OrdersRefine(AllowRegistered(s, g), Learn(latest, s, StepRegistered(g)))
  {
    if GrantAccepted(g) {
      StoreOrders(s, latest, g, 0);
    }
  }

  lemma RemoveOrders(s: State, latest: map<string, Stamp>, device: string)
    requires OrdersRefine(s, latest)
    ensures OrdersRefine(RemoveRegistered(s, device), Learn(latest, s, StepRemove(device)))
  {
    if device != "" && Storable(device, DEVICE_CAPACITY) {
      UniqueFilter(s.sources, DeviceOf(), NotDevice(device));
      CutOrders(s.orders, latest, device);
    }
  }

  lemma LookOrders(s: State, latest: map<string, Stamp>, r: Request, wait: nat)
    requires OrdersRefine(s, latest)
    ensures OrdersRefine(Look(s, r, wait), Learn(latest, s, StepRequest(r, wait)))
  {
    if r.device != "" {
      CleanupOrders(s, latest, s.clock + wait);
    }
  }

  lemma StepOrders(s: State, latest: map<string, Stamp>, step: Step)
    requires OrdersRefine(s, latest)
    ensures OrdersRefine(Apply(s, step), Learn(latest, s, step))
  {
    match step
    case StepRegistered(g) => RegisteredOrders(s, latest, g);
    case StepRecovery(g, ttl, wait, more) => RecoveryOrders(s, latest, g, ttl, wait, more);
    case StepRemove(device) => RemoveOrders(s, latest, device);
    case StepRequest(r, wait) => LookOrders(s, latest, r, wait);
    case StepPoll(wait) => CleanupOrders(s, latest, s.clock + wait);
    case StepRegister(r) => RegisterOrders(s, latest, r);
  }

  lemma {:induction false} RunOrders(steps: seq<Step>)
    ensures OrdersRefine(Run(steps), Latest(steps))
  {
    if steps == [] {
      assert forall d :: SameOrder([], map[], d);
    } else {
      RunOrders(steps[..|steps| - 1]);
      StepOrders(Run(steps[..|steps| - 1]), Latest(steps[..|steps| - 1]), steps[|steps| - 1]);
    }
  }

  /**
   After any history, a REGISTER that would pass is answered 500 exactly when the
   device's latest registration has the same Call-ID and a greater CSeq; a refused
   one leaves the table as it was, and the table has one record per device.
   */
  lemma StaleExactly(steps: seq<Step>, r: Registration)
    requires r.answer == OK
    ensures Response(Run(steps), r) == SERVER_ERROR <==>
              r.cseq >= 0 && r.device in Latest(steps) &&
              Latest(steps)[r.device].callId == r.callId && r.cseq < Latest(steps)[r.device].cseq
    ensures Response(Run(steps), r) != SERVER_ERROR ==> Response(Run(steps), r) == OK
    ensures Response(Run(steps), r) == SERVER_ERROR ==> Register(Run(steps), r) == Run(steps)
    ensures Unique(Run(steps).orders, OrderOf())
  {
    RunOrders(steps);
    assert SameOrder(Run(steps).orders, Latest(steps), r.device);
  }

  /**
   Only a 200 that was sent is remembered: a registration replaces the device's order if
   its Call-ID fits, an unregistration removes it, and no other device's order changes.
   A REGISTER that authentication refuses keeps its answer; one it would accept gets 200 or 500.
   */
  lemma RegisterExactly(s: State, r: Registration, d: string)
    requires Unique(s.orders, OrderOf())
    ensures r.answer != 200 ==> Response(s, r) == r.answer
    ensures r.answer == 200 ==> Response(s, r) == (if Stale(s.orders, r.device, r.callId, r.cseq) then 500 else 200)
    ensures Response(s, r) != 200 || !r.sent || r.cseq < 0 ==> Register(s, r) == s
    ensures Register(s, r).sources == s.sources && Register(s, r).clock == s.clock
    ensures d != r.device ==> Get(Register(s, r).orders, OrderOf(), d) == Get(s.orders, OrderOf(), d)
    ensures Response(s, r) == 200 && r.sent && r.cseq >= 0 ==>
              var order := Get(Register(s, r).orders, OrderOf(), r.device);
              if r.expires == 0 then order == None
              else if |r.callId| < 256 && '\0' !in r.callId then order == Some(Order(r.device, r.callId, r.cseq))
              else if Get(s.orders, OrderOf(), r.device).Some? then order == Get(s.orders, OrderOf(), r.device)
              else order == Some(Order(r.device, "", 0))
  {
    if Accepted(s, r) && r.cseq >= 0 {
      GetCut(s.orders, OrderOf(), r.device, d);
      GetCut(s.orders, OrderOf(), r.device, r.device);
      SetOrderGet(s.orders, r.device, r.callId, r.cseq, d);
      SetOrderGet(s.orders, r.device, r.callId, r.cseq, r.device);
    }
  }

  /** What a device has: its source and its register order. */
  function Held(s: State, d: string): (Option<Source>, Option<Order>) {
    (Get(s.sources, DeviceOf(), d), Get(s.orders, OrderOf(), d))
  }

  predicate LiveDevice(s: State, d: string) {
    Held(s, d).0.Some? && Held(s, d).0.value.recovery == 0
  }

  lemma CleanupKeepsLive(s: State, now: nat, d: string)
    requires Unique(s.sources, DeviceOf()) && Unique(s.orders, OrderOf()) && LiveDevice(s, d)
    ensures Held(Cleanup(s, now), d) == Held(s, d)
    ensures Unique(Cleanup(s, now).sources, DeviceOf()) && Unique(Cleanup(s, now).orders, OrderOf())
  {
    GetFilter(s.sources, DeviceOf(), NotEnded(now), d);
    CleanupOrder(s, now, d);
  }

  lemma RecoverKeepsLive(s: State, g: Grant, ttl: nat, more: nat, d: string)
    requires Unique(s.sources, DeviceOf()) && Unique(s.orders, OrderOf()) && LiveDevice(s, d)
    ensures Held(Recover(s, g, ttl, more), d) == Held(s, d)
  {
    if g.device != d {
      GetPut(s.sources, DeviceOf(), Granted(s.sources, g, s.clock + more + ttl), d);
      SyncOrder(s.orders, g, d);
    }
  }

  /** A live source survives any recovery grant untouched, and so does its register order. */
  lemma RecoveryKeepsLive(steps: seq<Step>, g: Grant, ttl: nat, wait: nat, more: nat, d: string)
    requires LiveDevice(Run(steps), d)
    ensures Held(AllowRecovery(Run(steps), g, ttl, wait, more), d) == Held(Run(steps), d)
  {
    RunOrders(steps);
    LiveIsKept(Run(steps), g, ttl, wait, more, d);
  }

  lemma LiveIsKept(s: State, g: Grant, ttl: nat, wait: nat, more: nat, d: string)
    requires Unique(s.sources, DeviceOf()) && Unique(s.orders, OrderOf()) && LiveDevice(s, d)
    ensures Held(AllowRecovery(s, g, ttl, wait, more), d) == Held(s, d)
  {
    if GrantAccepted(g) && ttl != 0 {
      var s1 := Cleanup(s, s.clock + wait);
      assert AllowRecovery(s, g, ttl, wait, more) == Recover(s1, g, ttl, more);
      CleanupKeepsLive(s, s.clock + wait, d);
      RecoverKeepsLive(s1, g, ttl, more, d);
    }
  }

  // ---- What a grant does -----------------------------------------------------------------------------

  /** A device and an address the records can hold, on a transport the stack has. */
  ghost predicate WellFormed(device: string, transport: TransportType, address: string) {
    && transport in {Udp, Tcp}
    && 1 <= |device| <= 127 && 1 <= |address| <= 63
    && (forall i :: 0 <= i < |device| ==> device[i] as int != 0)
    && (forall i :: 0 <= i < |address| ==> address[i] as int != 0)
  }

  lemma GrantAcceptedExactly(g: Grant)
    ensures GrantAccepted(g) <==> WellFormed(g.device, g.transport, g.address)
  {
    assert forall i :: 0 <= i < |g.device| && g.device[i] as int == 0 ==> g.device[i] == '\0';
    assert forall i :: 0 <= i < |g.address| && g.address[i] as int == 0 ==> g.address[i] == '\0';
    assert '\0' as int == 0;
  }

  /** How many grants in a row the device's record has had. */
  function Generation(s: State, d: string): nat {
    match Get(s.sources, DeviceOf(), d)
    case None => 0
    case Some(x) => x.generation
  }

  /** A request passes exactly when the device's one record matches it and has not ended. */
  lemma PassesExactly(s: State, r: Request, wait: nat)
    requires Unique(s.sources, DeviceOf())
    ensures var x := Get(s.sources, DeviceOf(), r.device);
            Admitted(s, r, wait)
            <==> r.device != "" && x.Some? && Matches(x.value, r) && !Ended(x.value, s.clock + wait)
  {
    var now := s.clock + wait;
    var seen := Filter(s.sources, NotEnded(now));
    GetFilter(s.sources, DeviceOf(), NotEnded(now), r.device);
    UniqueFilter(s.sources, DeviceOf(), NotEnded(now));
    GetFinds(seen, DeviceOf(), r.device);
    if r.device != "" {
      if x :| x in seen && Matches(x, r) {
        GetRecord(seen, DeviceOf(), x);
      }
    }
  }

  lemma StoreExactly(s: State, g: Grant, recovery: nat, d: string)
    requires Unique(s.sources, DeviceOf())
    ensures var after := Store(s, g, recovery).sources;
            && Unique(after, DeviceOf())
            && Get(after, DeviceOf(), g.device)
            == Some(Source(g.device, g.transport, g.address, Generation(s, g.device) + 1, recovery))
            && (d != g.device ==> Get(after, DeviceOf(), d) == Get(s.sources, DeviceOf(), d))
  {
    GetPut(s.sources, DeviceOf(), Granted(s.sources, g, recovery), g.device);
    GetPut(s.sources, DeviceOf(), Granted(s.sources, g, recovery), d);
  }

  /**
   A well-formed grant makes the device live at once: from then on its OPTIONS and
   MESSAGE pass from that address, however much later, and its generation goes up by
   one. Any other grant does nothing, and no grant touches another device's source.
   */
  lemma GrantExactly(steps: seq<Step>, g: Grant, message: bool, wait: nat, d: string)
    ensures var s := Run(steps); var after := AllowRegistered(s, g);
            if WellFormed(g.device, g.transport, g.address) then
              && Admitted(after, Request(g.device, g.transport, g.address, message), wait)
              && Generation(after, g.device) == Generation(s, g.device) + 1
              && (d != g.device ==> Get(after.sources, DeviceOf(), d) == Get(s.sources, DeviceOf(), d))
            else after == s
  {
    OneSourceEach(steps);
    GrantOn(Run(steps), g, message, wait, d);
  }

  lemma GrantOn(s: State, g: Grant, message: bool, wait: nat, d: string)
    requires Unique(s.sources, DeviceOf())
    ensures var after := AllowRegistered(s, g);
            if WellFormed(g.device, g.transport, g.address) then
              && Admitted(after, Request(g.device, g.transport, g.address, message), wait)
              && Generation(after, g.device) == Generation(s, g.device) + 1
              && (d != g.device ==> Get(after.sources, DeviceOf(), d) == Get(s.sources, DeviceOf(), d))
            else after == s
  {
    GrantAcceptedExactly(g);
    if GrantAccepted(g) {
      StoreExactly(s, g, 0, d);
      PassesExactly(Store(s, g, 0), Request(g.device, g.transport, g.address, message), wait);
    }
  }

  /**
   A well-formed recovery of a device that is not live admits its MESSAGEs, and not its
   OPTIONS, for as long as was asked for from the second reading of the clock.
   */
  lemma RecoveryExactly(steps: seq<Step>, s: State, g: Grant, ttl: nat, wait: nat, more: nat, after: State,
                        message: bool, later: nat)
    requires s == Run(steps) && after == AllowRecovery(s, g, ttl, wait, more)
    requires WellFormed(g.device, g.transport, g.address) && ttl > 0 && !LiveDevice(s, g.device)
    ensures after.clock == s.clock + wait + more
    ensures Admitted(after, Request(g.device, g.transport, g.address, message), later) <==> message && later < ttl
    ensures Generation(after, g.device)
         == if EndedDevice(s, s.clock + wait, g.device) then 1 else Generation(s, g.device) + 1
  {
    OneSourceEach(steps);
    RecoveryIsRecover(s, g, ttl, wait, more);
    RecoveredFrom(s, Cleanup(s, s.clock + wait), after, g, ttl, wait, more, message, later);
  }

  lemma OneSourceEach(steps: seq<Step>)
    ensures Unique(Run(steps).sources, DeviceOf())
  {
    RunOrders(steps);
  }

  lemma RecoveredFrom(s: State, clean: State, after: State, g: Grant, ttl: nat, wait: nat, more: nat, message: bool, later: nat)
    requires Unique(s.sources, DeviceOf()) && g.device != "" && ttl > 0 && !LiveDevice(s, g.device)
    requires clean == Cleanup(s, s.clock + wait) && after == Recover(clean, g, ttl, more)
    ensures after.clock == s.clock + wait + more
    ensures Admitted(after, Request(g.device, g.transport, g.address, message), later) <==> message && later < ttl
    ensures Generation(after, g.device)
         == if EndedDevice(s, s.clock + wait, g.device) then 1 else Generation(s, g.device) + 1
  {
    CleanupGeneration(s, clean, s.clock + wait, g.device);
    RecoverOn(clean, after, g, ttl, more, message, later);
  }

  lemma RecoveryIsRecover(s: State, g: Grant, ttl: nat, wait: nat, more: nat)
    requires WellFormed(g.device, g.transport, g.address) && ttl > 0
    ensures AllowRecovery(s, g, ttl, wait, more) == Recover(Cleanup(s, s.clock + wait), g, ttl, more)
  {
    GrantAcceptedExactly(g);
  }

  lemma CleanupGeneration(s: State, clean: State, now: nat, d: string)
    requires Unique(s.sources, DeviceOf()) && clean == Cleanup(s, now)
    ensures Unique(clean.sources, DeviceOf()) && clean.clock == now
    ensures LiveDevice(clean, d) <==> LiveDevice(s, d)
    ensures Generation(clean, d) == if EndedDevice(s, now, d) then 0 else Generation(s, d)
  {
    GetFilter(s.sources, DeviceOf(), NotEnded(now), d);
    UniqueFilter(s.sources, DeviceOf(), NotEnded(now));
  }

  lemma RecoverOn(s: State, after: State, g: Grant, ttl: nat, more: nat, message: bool, later: nat)
    requires Unique(s.sources, DeviceOf()) && g.device != "" && ttl > 0 && !LiveDevice(s, g.device)
    requires after == Recover(s, g, ttl, more)
    ensures after.clock == s.clock + more
    ensures Admitted(after, Request(g.device, g.transport, g.address, message), later) <==> message && later < ttl
    ensures Generation(after, g.device) == Generation(s, g.device) + 1
  {
    StoreExactly(s, g, s.clock + more + ttl, g.device);
    PassesExactly(after, Request(g.device, g.transport, g.address, message), later);
  }

  ghost predicate AllWellFormed(s: State) {
    forall x :: x in s.sources ==> WellFormed(x.device, x.transport, x.address) && x.generation >= 1
  }

  lemma StoredWell(s: State, g: Grant, recovery: nat)
    requires AllWellFormed(s) && WellFormed(g.device, g.transport, g.address)
    ensures AllWellFormed(Store(s, g, recovery))
  {
    forall x | x in Store(s, g, recovery).sources
      ensures WellFormed(x.device, x.transport, x.address) && x.generation >= 1
    {
      assert x in s.sources || x == Granted(s.sources, g, recovery);
    }
  }

  lemma StepWell(s: State, step: Step)
    requires AllWellFormed(s)
    ensures AllWellFormed(Apply(s, step))
  {
    match step
    case StepRegistered(g) =>
      GrantAcceptedExactly(g);
      if GrantAccepted(g) {
        StoredWell(s, g, 0);
      }
    case StepRecovery(g, ttl, wait, more) =>
      GrantAcceptedExactly(g);
      var clean := Cleanup(s, s.clock + wait);
      assert AllWellFormed(clean);
      if GrantAccepted(g) {
        StoredWell(clean, g, clean.clock + more + ttl);
      }
    case _ =>
  }

  /** After any history, only well-formed grants are stored, so nobody is admitted from an unknown transport. */
  lemma {:induction false} StoredAreWellFormed(steps: seq<Step>)
    ensures AllWellFormed(Run(steps))
  {
    if steps != [] {
      StoredAreWellFormed(steps[..|steps| - 1]);
      StepWell(Run(steps[..|steps| - 1]), steps[|steps| - 1]);
    }
  }

  // ---- Registrations between resets ---------------------------------------------------------------

  /** A grant whose sync leaves no registration, or only a later one with the same Call-ID. */
  predicate SyncKeeps(g: Grant, device: string, callId: string, floor: nat) {
    || g.device != device
    || g.callId == "" || g.cseq == 0 || !Storable(g.callId, CALL_ID_CAPACITY)
    || (g.callId == callId && g.cseq >= floor)
  }

  /**
   A step that does not reset the device's registration: its recovery does not end,
   it is not removed, it does not unregister or register with another Call-ID, and no
   grant syncs another Call-ID or an earlier CSeq. Grants without a registration,
   refused ones, and recoveries of a live device reset nothing.
   */
  predicate NoReset(s: State, step: Step, device: string, callId: string, floor: nat) {
    match step
    case StepRegistered(g) => !GrantAccepted(g) || SyncKeeps(g, device, callId, floor)
    case StepRecovery(g, ttl, wait, _) =>
      || !GrantAccepted(g) || ttl == 0
      || (&& !EndedDevice(s, s.clock + wait, device)
          && (SyncKeeps(g, device, callId, floor) || LiveDevice(s, device)))
    case StepRemove(d) => d != device || d == "" || !Storable(d, DEVICE_CAPACITY)
    case StepRequest(r, wait) => r.device == "" || !EndedDevice(s, s.clock + wait, device)
    case StepPoll(wait) => !EndedDevice(s, s.clock + wait, device)
    case StepRegister(r) =>
      || r.device != device || !Accepted(s, r) || r.cseq < 0
      || (r.expires > 0 && (!Storable(r.callId, CALL_ID_CAPACITY) || r.callId == callId))
  }

  predicate NoResets(before: seq<Step>, between: seq<Step>, device: string, callId: string, floor: nat) {
    between == [] || (
      && NoResets(before, between[..|between| - 1], device, callId, floor)
      && NoReset(Run(before + between[..|between| - 1]), between[|between| - 1], device, callId, floor))
  }

  /** The device's latest registration has this Call-ID and at least this CSeq. */
  predicate AtLeast(latest: map<string, Stamp>, device: string, callId: string, floor: nat) {
    device in latest && latest[device].callId == callId && latest[device].cseq >= floor
  }

  lemma RunSnoc(steps: seq<Step>, step: Step)
    ensures Run(steps + [step]) == Apply(Run(steps), step)
    ensures Latest(steps + [step]) == Learn(Latest(steps), Run(steps), step)
  {
    assert (steps + [step])[..|steps|] == steps;
  }

  lemma RegisterKeepsStamp(s: State, latest: map<string, Stamp>, r: Registration, device: string, callId: string, floor: nat)
    requires SameOrder(s.orders, latest, r.device) && AtLeast(latest, device, callId, floor)
    requires NoReset(s, StepRegister(r), device, callId, floor)
    ensures AtLeast(Learn(latest, s, StepRegister(r)), device, callId, floor)
  {
  }

  lemma RecoveryKeepsStamp(s: State, latest: map<string, Stamp>, g: Grant, ttl: nat, wait: nat, more: nat,
                           device: string, callId: string, floor: nat)
    requires Unique(s.sources, DeviceOf()) && Unique(s.orders, OrderOf()) && AtLeast(latest, device, callId, floor)
    requires NoReset(s, StepRecovery(g, ttl, wait, more), device, callId, floor)
    ensures AtLeast(Learn(latest, s, StepRecovery(g, ttl, wait, more)), device, callId, floor)
  {
    if GrantAccepted(g) && ttl != 0 {
      var s1, kept := Cleanup(s, s.clock + wait), Forget(latest, s, s.clock + wait);
      assert Learn(latest, s, StepRecovery(g, ttl, wait, more)) == LearnRecovery(kept, s1, g);
      assert AtLeast(kept, device, callId, floor);
      if LiveDevice(s, device) {
        CleanupKeepsLive(s, s.clock + wait, device);
      }
    }
  }

  lemma StampStays(s: State, latest: map<string, Stamp>, step: Step, device: string, callId: string, floor: nat)
    requires OrdersRefine(s, latest) && AtLeast(latest, device, callId, floor)
    requires NoReset(s, step, device, callId, floor)
    ensures AtLeast(Learn(latest, s, step), device, callId, floor)
  {
    match step
    case StepRegistered(g) =>
    case StepRecovery(g, ttl, wait, more) => RecoveryKeepsStamp(s, latest, g, ttl, wait, more, device, callId, floor);
    case StepRemove(d) =>
    case StepRequest(r, wait) =>
    case StepPoll(wait) =>
    case StepRegister(r) =>
      assert SameOrder(s.orders, latest, r.device);
      RegisterKeepsStamp(s, latest, r, device, callId, floor);
  }

  lemma {:induction false} LatestStays(before: seq<Step>, between: seq<Step>, device: string, callId: string, floor: nat)
    requires NoResets(before, between, device, callId, floor) && AtLeast(Latest(before), device, callId, floor)
    ensures AtLeast(Latest(before + between), device, callId, floor)
  {
    if between == [] {
      assert before + between == before;
    } else {
      var front, last := between[..|between| - 1], between[|between| - 1];
      LatestStays(before, front, device, callId, floor);
      assert before + between == (before + front) + [last];
      RunSnoc(before + front, last);
      RunOrders(before + front);
      StampStays(Run(before + front), Latest(before + front), last, device, callId, floor);
    }
  }

  /**
   Between resets, the accepted REGISTERs of a device with one Call-ID never go back
   in CSeq, whatever grants, requests and other REGISTERs come between them.
   */
  lemma RegistersNeverGoBack(before: seq<Step>, first: Registration, between: seq<Step>, second: Registration)
    requires Accepted(Run(before), first) && first.cseq >= 0 && first.expires > 0
    requires Storable(first.callId, CALL_ID_CAPACITY)
    requires NoResets(before + [StepRegister(first)], between, first.device, first.callId, first.cseq)
    requires second.device == first.device && second.callId == first.callId && second.cseq >= 0
    requires Accepted(Run(before + [StepRegister(first)] + between), second)
    ensures first.cseq <= second.cseq
  {
    var all := before + [StepRegister(first)] + between;
    RunSnoc(before, StepRegister(first));
    LatestStays(before + [StepRegister(first)], between, first.device, first.callId, first.cseq);
    RunOrders(all);
    assert SameOrder(Run(all).orders, Latest(all), first.device);
  }
}
