/**
 REGISTER requests waiting for a credential lookup.

 Requests of one device and realm share a lookup, which is announced once. A
 request leaves the list when its lookup completes, when its deadline passes, or
 when the runtime is released.
 */
module PendingAuth {
  import opened Fields
  import opened Lists

  /** A queued REGISTER; `ticket` tells otherwise equal requests apart. */
  datatype Pending = Pending(ticket: nat, lookup: nat, device: string, realm: string, deadline: nat)

  datatype Cause = Completed | TimedOut | Released

  datatype Departure = Departure(request: Pending, cause: Cause)

  datatype Status = Queued | TooMany | TooSmall | Refused

  datatype State = State(
    maxPending: nat,
    timeoutMs: nat,
    pending: seq<Pending>,
    count: int,
    lookupSequence: nat,
    arrivals: seq<Pending>,
    announced: seq<nat>,
    departures: seq<Departure>)

  function Empty(maxPending: nat, timeoutMs: nat): State {
    State(maxPending, timeoutMs, [], 0, 0, [], [], [])
  }

  /** The lookup already running for the device and realm, if any. */
  function RunningLookup(ps: seq<Pending>, device: string, realm: string, i: nat := 0): (r: Option<nat>)
    requires i <= |ps|
    ensures r.Some? ==> exists p :: p in ps && p.device == device && p.realm == realm && p.lookup == r.value
    ensures r.None? ==> forall k :: i <= k < |ps| ==> ps[k].device != device || ps[k].realm != realm
    decreases |ps| - i
  {
    if i == |ps| then None
    else if ps[i].device == device && ps[i].realm == realm then Some(ps[i].lookup)
    else RunningLookup(ps, device, realm, i + 1)
  }

  /** `ready` says whether packet, transport and transaction could be retained. */
  function Admission(s: State, device: string, realm: string, ready: bool): Status {
    if s.count >= s.maxPending then TooMany
    else if !Storable(device, DEVICE_CAPACITY) || !Storable(realm, REALM_CAPACITY) then TooSmall
    else if !ready then Refused
    else Queued
  }

  function Queue(s: State, device: string, realm: string, now: nat, ready: bool): State {
    if Admission(s, device, realm, ready) != Queued then s
    else
      var running := RunningLookup(s.pending, device, realm);
      var lookup := if running.Some? then running.value else s.lookupSequence + 1;
      var p := Pending(|s.arrivals| + 1, lookup, device, realm, now + s.timeoutMs);
      s.(pending := [p] + s.pending,
         count := s.count + 1,
         arrivals := s.arrivals + [p],
         lookupSequence := if running.Some? then s.lookupSequence else lookup,
         announced := if running.Some? then s.announced else s.announced + [lookup])
  }

  function OtherLookup(lookup: nat): Pending -> bool { (p: Pending) => p.lookup != lookup }
  function NotDue(now: nat): Pending -> bool { (p: Pending) => p.deadline > now }
  function Never(): Pending -> bool { (p: Pending) => false }

  function Leave(ps: seq<Pending>, cause: Cause): (ds: seq<Departure>)
    ensures |ds| == |ps|
  {
    seq(|ps|, i requires 0 <= i < |ps| => Departure(ps[i], cause))
  }

  /** The requests that fail the test leave the list, in list order. */
  function LeaveUnless(s: State, stay: Pending -> bool, cause: Cause): State {
    var gone := Filter(s.pending, Not(stay));
    s.(pending := Filter(s.pending, stay),
       count := s.count - |gone|,
       departures := s.departures + Leave(gone, cause))
  }

  function Complete(s: State, lookup: nat): State { LeaveUnless(s, OtherLookup(lookup), Completed) }
  function Expire(s: State, now: nat): State { LeaveUnless(s, NotDue(now), TimedOut) }
  function Release(s: State): State { LeaveUnless(s, Never(), Released) }

  datatype Step =
    | QueueRegister(device: string, realm: string, now: nat, ready: bool)
    | CompleteLookup(lookup: nat)
    | CheckDeadlines(now: nat)
    | ReleaseAll

  function Apply(s: State, step: Step): State {
    match step
    case QueueRegister(device, realm, now, ready) => Queue(s, device, realm, now, ready)
    case CompleteLookup(lookup) => Complete(s, lookup)
    case CheckDeadlines(now) => Expire(s, now)
    case ReleaseAll => Release(s)
  }

  function Run(s: State, steps: seq<Step>): State {
    if steps == [] then s else Apply(Run(s, steps[..|steps| - 1]), steps[|steps| - 1])
  }

  // ---- What every step keeps --------------------------------------------------

  function Requests(ds: seq<Departure>): (ps: seq<Pending>)
    ensures |ps| == |ds|
  {
    seq(|ds|, i requires 0 <= i < |ds| => ds[i].request)
  }

  predicate SameKey(p: Pending, q: Pending) {
    p.device == q.device && p.realm == q.realm
  }

  predicate Counted(s: State) {
    s.count == |s.pending| <= s.maxPending
  }

  /** Two outstanding requests share a lookup exactly if device and realm agree. */
  predicate SharedExactly(s: State) {
    && (forall p, q :: p in s.pending && q in s.pending ==> (p.lookup == q.lookup <==> SameKey(p, q)))
    && (forall p :: p in s.pending ==> 1 <= p.lookup <= s.lookupSequence)
  }

  /** Lookup ids are announced in order, each once. */
  predicate AnnouncedOnce(s: State) {
    |s.announced| == s.lookupSequence && forall i :: 0 <= i < |s.announced| ==> s.announced[i] == i + 1
  }

  /** Every request that ever arrived is either outstanding or has left, once. */
  predicate Conserved(s: State) {
    && multiset(s.arrivals) == multiset(s.pending) + multiset(Requests(s.departures))
    && (forall i :: 0 <= i < |s.arrivals| ==> s.arrivals[i].ticket == i + 1)
  }

  predicate Inv(s: State) {
    Counted(s) && SharedExactly(s) && AnnouncedOnce(s) && Conserved(s)
  }

  lemma QueueInv(s: State, device: string, realm: string, now: nat, ready: bool)
    requires Inv(s)
    ensures Inv(Queue(s, device, realm, now, ready))
  {
    if Admission(s, device, realm, ready) == Queued {
      var s' := Queue(s, device, realm, now, ready);
      var p := s'.pending[0];
      assert forall q :: q in s'.pending <==> q == p || q in s.pending;
      forall q | q in s.pending
        ensures p.lookup == q.lookup <==> SameKey(p, q)
      {
        var running := RunningLookup(s.pending, device, realm);
        if running.Some? {
          var r :| r in s.pending && r.device == device && r.realm == realm && r.lookup == running.value;
          assert p.lookup == q.lookup <==> r.lookup == q.lookup;
        }
      }
      assert multiset(s'.pending) == multiset{p} + multiset(s.pending);
    }
  }

  lemma RequestsConcat(ds: seq<Departure>, ps: seq<Pending>, cause: Cause)
    ensures Requests(ds + Leave(ps, cause)) == Requests(ds) + ps
  {
  }

  lemma LeaveInv(s: State, stay: Pending -> bool, cause: Cause)
    requires Inv(s)
    ensures Inv(LeaveUnless(s, stay, cause))
  {
    FilterPartition(s.pending, stay);
    RequestsConcat(s.departures, Filter(s.pending, Not(stay)), cause);
  }

  lemma StepInv(s: State, step: Step)
    requires Inv(s)
    ensures Inv(Apply(s, step))
  {
    match step
    case QueueRegister(device, realm, now, ready) => QueueInv(s, device, realm, now, ready);
    case CompleteLookup(lookup) => LeaveInv(s, OtherLookup(lookup), Completed);
    case CheckDeadlines(now) => LeaveInv(s, NotDue(now), TimedOut);
    case ReleaseAll => LeaveInv(s, Never(), Released);
  }

  lemma {:induction false} RunInv(s: State, steps: seq<Step>)
    requires Inv(s)
    ensures Inv(Run(s, steps))
  {
    if steps != [] {
      RunInv(s, steps[..|steps| - 1]);
      StepInv(Run(s, steps[..|steps| - 1]), steps[|steps| - 1]);
    }
  }

  lemma {:induction false} TicketsAreUnique(arrivals: seq<Pending>, p: Pending)
    requires forall i :: 0 <= i < |arrivals| ==> arrivals[i].ticket == i + 1
    ensures multiset(arrivals)[p] <= 1
  {
    if arrivals != [] {
      var front, last := arrivals[..|arrivals| - 1], arrivals[|arrivals| - 1];
      TicketsAreUnique(front, p);
      assert arrivals == front + [last];
      if p == last {
        assert p !in front;
      }
    }
  }

  /**
   In every run the counter is the list length and within the limit, outstanding
   requests share a lookup exactly if device and realm agree, each lookup id is
   announced once, and every queued request leaves at most once.
   */
  lemma EveryRunAccounts(maxPending: nat, timeoutMs: nat, steps: seq<Step>, p: Pending)
    ensures var s := Run(Empty(maxPending, timeoutMs), steps);
            && s.count == |s.pending| <= maxPending
            && (forall q, r :: q in s.pending && r in s.pending ==> (q.lookup == r.lookup <==> SameKey(q, r)))
            && (forall i, j :: 0 <= i < j < |s.announced| ==> s.announced[i] != s.announced[j])
            && (forall q :: q in s.pending ==> q.lookup in s.announced)
            && multiset(Requests(s.departures))[p] + multiset(s.pending)[p] == multiset(s.arrivals)[p] <= 1
  {
    RunInv(Empty(maxPending, timeoutMs), steps);
    var s := Run(Empty(maxPending, timeoutMs), steps);
    RunMax(Empty(maxPending, timeoutMs), steps);
    TicketsAreUnique(s.arrivals, p);
    forall q | q in s.pending
      ensures q.lookup in s.announced
    {
      assert s.announced[q.lookup - 1] == q.lookup;
    }
  }

  lemma {:induction false} RunMax(s: State, steps: seq<Step>)
    ensures Run(s, steps).maxPending == s.maxPending
  {
    if steps != [] {
      RunMax(s, steps[..|steps| - 1]);
    }
  }

  /** Release leaves nothing behind: every request that ever arrived has then left exactly once. */
  lemma ReleaseAccountsForAll(maxPending: nat, timeoutMs: nat, steps: seq<Step>, p: Pending)
    ensures var s := Release(Run(Empty(maxPending, timeoutMs), steps));
            && s.pending == [] && s.count == 0
            && (p in s.arrivals ==> multiset(Requests(s.departures))[p] == 1)
  {
    var s := Run(Empty(maxPending, timeoutMs), steps);
    RunInv(Empty(maxPending, timeoutMs), steps);
    LeaveInv(s, Never(), Released);
    FilterNone(s.pending, Never());
    TicketsAreUnique(s.arrivals, p);
  }

  predicate Outstanding(s: State, lookup: nat) {
    exists p :: p in s.pending && p.lookup == lookup
  }

  lemma OutstandingStep(s: State, step: Step, lookup: nat)
    requires Inv(s) && lookup <= s.lookupSequence
    ensures lookup <= Apply(s, step).lookupSequence
    ensures Outstanding(Apply(s, step), lookup) ==> Outstanding(s, lookup)
  {
    if step.QueueRegister? && Admission(s, step.device, step.realm, step.ready) == Queued {
      var s' := Apply(s, step);
      assert forall q :: q in s'.pending <==> q == s'.pending[0] || q in s.pending;
    }
  }

  /** A lookup id without outstanding requests is never used again, so completing it again changes nothing. */
  lemma {:induction false} AnsweredStaysAnswered(s: State, steps: seq<Step>, lookup: nat)
    requires Inv(s) && lookup <= s.lookupSequence && !Outstanding(s, lookup)
    ensures var t := Run(s, steps); lookup <= t.lookupSequence && !Outstanding(t, lookup) && Complete(t, lookup) == t
  {
    var t := Run(s, steps);
    if steps != [] {
      var front := steps[..|steps| - 1];
      RunInv(s, front);
      AnsweredStaysAnswered(s, front, lookup);
      OutstandingStep(Run(s, front), steps[|steps| - 1], lookup);
    }
    FilterAll(t.pending, OtherLookup(lookup));
    FilterNone(t.pending, Not(OtherLookup(lookup)));
  }


  /** Completing a lookup answers all requests of its device and realm together, and no others. */
  lemma CompleteAnswersTogether(s: State, p: Pending)
    requires Inv(s) && p in s.pending
    ensures var t := Complete(s, p.lookup);
            forall q :: q in t.pending <==> q in s.pending && !SameKey(q, p)
    ensures !Outstanding(Complete(s, p.lookup), p.lookup)
  {
  }

  // ---- What each step does, and why a request leaves -------------------------------------

  /** A REGISTER is queued exactly if there is room, its texts fit and its transaction is kept. */
  lemma QueuedExactly(s: State, device: string, realm: string, now: nat, ready: bool)
    ensures Admission(s, device, realm, ready) == Queued <==>
              s.count < s.maxPending && ready &&
              |device| < 128 && '\0' !in device && |realm| < 128 && '\0' !in realm
    ensures s.count >= s.maxPending ==> Admission(s, device, realm, ready) == TooMany
    ensures s.count < s.maxPending && (|device| >= 128 || '\0' in device || |realm| >= 128 || '\0' in realm) ==>
              Admission(s, device, realm, ready) == TooSmall
    ensures Admission(s, device, realm, ready) != Queued ==> Queue(s, device, realm, now, ready) == s
    ensures Admission(s, device, realm, ready) == Queued ==>
              var t := Queue(s, device, realm, now, ready);
              && |t.pending| == |s.pending| + 1 && t.pending[1..] == s.pending && t.departures == s.departures
              && t.pending[0].device == device && t.pending[0].realm == realm
              && t.pending[0].deadline == now + s.timeoutMs && t.arrivals == s.arrivals + [t.pending[0]]
              && t.count == s.count + 1
  {
  }

  /** A queued REGISTER joins the lookup that is running for its device and realm, or has a new one announced. */
  lemma QueueJoinsOrAnnounces(s: State, device: string, realm: string, now: nat, ready: bool)
    requires Inv(s) && Admission(s, device, realm, ready) == Queued
    ensures var t := Queue(s, device, realm, now, ready);
            if exists q :: q in s.pending && q.device == device && q.realm == realm then
              && t.announced == s.announced
              && forall q :: q in s.pending && q.device == device && q.realm == realm ==> t.pending[0].lookup == q.lookup
            else t.announced == s.announced + [t.pending[0].lookup]
  {
    QueueInv(s, device, realm, now, ready);
    var t := Queue(s, device, realm, now, ready);
    assert t.pending[0] in t.pending;
    assert forall q :: q in s.pending ==> q in t.pending;
    forall q | q in s.pending && q.device == device && q.realm == realm
      ensures t.pending[0].lookup == q.lookup
    {
      assert SameKey(t.pending[0], q);
    }
  }

  lemma LeaveMembers(ps: seq<Pending>, cause: Cause, d: Departure)
    ensures d in Leave(ps, cause) <==> d.request in ps && d.cause == cause
  {
    if d.request in ps && d.cause == cause {
      var i :| 0 <= i < |ps| && ps[i] == d.request;
      assert Leave(ps, cause)[i] == d;
    }
  }

  /** An answer takes off exactly the requests of its lookup. */
  lemma CompleteExactly(s: State, lookup: nat, p: Pending, d: Departure)
    ensures p in Apply(s, CompleteLookup(lookup)).pending <==> p in s.pending && p.lookup != lookup
    ensures d in Apply(s, CompleteLookup(lookup)).departures <==>
              d in s.departures || (d.cause == Completed && d.request in s.pending && d.request.lookup == lookup)
  {
    LeaveMembers(Filter(s.pending, Not(OtherLookup(lookup))), Completed, d);
  }

  /** A deadline check takes off exactly the requests whose deadline has come. */
  lemma ExpireExactly(s: State, now: nat, p: Pending, d: Departure)
    ensures p in Apply(s, CheckDeadlines(now)).pending <==> p in s.pending && now < p.deadline
    ensures d in Apply(s, CheckDeadlines(now)).departures <==>
              d in s.departures || (d.cause == TimedOut && d.request in s.pending && d.request.deadline <= now)
  {
    LeaveMembers(Filter(s.pending, Not(NotDue(now))), TimedOut, d);
  }

  lemma ReleaseExactly(s: State, d: Departure)
    ensures Apply(s, ReleaseAll).pending == []
    ensures d in Apply(s, ReleaseAll).departures <==> d in s.departures || (d.cause == Released && d.request in s.pending)
  {
    ReleaseTakesAll(s);
    LeaveMembers(s.pending, Released, d);
  }

  /** A request was queued by some step, with the deadline that step gave it. */
  ghost predicate Asked(steps: seq<Step>, p: Pending, timeoutMs: nat) {
    exists step :: step in steps && step.QueueRegister? && step.ready &&
      p.device == step.device && p.realm == step.realm && p.deadline == step.now + timeoutMs
  }

  /** What made a request leave: its answer, a check after its deadline, or the release. */
  ghost predicate Caused(steps: seq<Step>, d: Departure) {
    match d.cause
    case Completed => CompleteLookup(d.request.lookup) in steps
    case TimedOut => exists step :: step in steps && step.CheckDeadlines? && d.request.deadline <= step.now
    case Released => ReleaseAll in steps
  }

  lemma StillHolds(steps: seq<Step>, step: Step, p: Pending, d: Departure, timeoutMs: nat)
    ensures Asked(steps, p, timeoutMs) ==> Asked(steps + [step], p, timeoutMs)
    ensures Caused(steps, d) ==> Caused(steps + [step], d)
  {
    assert forall x :: x in steps ==> x in steps + [step];
  }

  lemma NewlyAsked(s: State, step: Step, p: Pending)
    requires p in Apply(s, step).arrivals && p !in s.arrivals
    ensures step.QueueRegister? && step.ready &&
            p.device == step.device && p.realm == step.realm && p.deadline == step.now + s.timeoutMs
  {
  }

  lemma NewlyCaused(s: State, step: Step, d: Departure)
    requires d in Apply(s, step).departures && d !in s.departures
    ensures Caused([step], d)
  {
    match step
    case QueueRegister(device, realm, now, ready) =>
    case CompleteLookup(lookup) =>
      CompleteExactly(s, lookup, d.request, d);
    case CheckDeadlines(now) =>
      ExpireExactly(s, now, d.request, d);
    case ReleaseAll =>
      ReleaseExactly(s, d);
  }

  /**
   Over every run each request has the deadline its REGISTER got, and each leaves for
   a reason: its own lookup was answered, its deadline had come when deadlines were
   checked, or everything was released.
   */
  lemma {:induction false} EveryDepartureHasItsCause(s: State, steps: seq<Step>, p: Pending, d: Departure)
    requires s.arrivals == [] && s.departures == []
    ensures Run(s, steps).timeoutMs == s.timeoutMs
    ensures p in Run(s, steps).arrivals ==> Asked(steps, p, s.timeoutMs)
    ensures d in Run(s, steps).departures ==> Caused(steps, d)
  {
    if steps != [] {
      var front, last := steps[..|steps| - 1], steps[|steps| - 1];
      var before := Run(s, front);
      EveryDepartureHasItsCause(s, front, p, d);
      assert steps == front + [last] && last in steps;
      StillHolds(front, last, p, d, s.timeoutMs);
      if p in Run(s, steps).arrivals && p !in before.arrivals {
        NewlyAsked(before, last, p);
      }
      if d in Run(s, steps).departures && d !in before.departures {
        NewlyCaused(before, last, d);
      }
    }
  }

  lemma ReleaseTakesAll(s: State)
    ensures Release(s) == s.(pending := [], count := s.count - |s.pending|,
                             departures := s.departures + Leave(s.pending, Released))
  {
    FilterNone(s.pending, Never());
    FilterAll(s.pending, Not(Never()));
  }

  /** The list of waiting requests, updated in place. */
  class PendingList {
    const maxPending: nat
    const timeoutMs: nat
    var pending: seq<Pending>
    var count: int
    var lookupSequence: nat
    var arrivals: seq<Pending>
    ghost var announced: seq<nat>
    ghost var departures: seq<Departure>

    ghost function All(): State
      reads this
    {
      State(maxPending, timeoutMs, pending, count, lookupSequence, arrivals, announced, departures)
    }

    /** The count is right and within the limit, lookups are shared exactly, and no request is lost. */
    ghost predicate Valid()
      reads this
    {
      Inv(All())
    }

    constructor (maxPending: nat, timeoutMs: nat)
      ensures Valid() && All() == Empty(maxPending, timeoutMs)
    {
      this.maxPending, this.timeoutMs := maxPending, timeoutMs;
      pending, count, lookupSequence := [], 0, 0;
      arrivals, announced, departures := [], [], [];
    }

    method QueueLookup(device: string, realm: string, now: nat, ready: bool) returns (status: Status)
      modifies this
      ensures All() == Queue(old(All()), device, realm, now, ready)
      ensures status == Admission(old(All()), device, realm, ready)
    {
      if count >= maxPending {
        return TooMany;
      }
      var lookup, i := 0, 0;
      while i < |pending|
        invariant 0 <= i <= |pending|
        invariant RunningLookup(pending, device, realm) == RunningLookup(pending, device, realm, i)
      {
        if pending[i].device == device && pending[i].realm == realm {
          break;
        }
        i := i + 1;
      }
      var running := i < |pending|;
      if !Storable(device, DEVICE_CAPACITY) || !Storable(realm, REALM_CAPACITY) {
        return TooSmall;
      }
      if !ready {
        return Refused;
      }
      if running {
        lookup := pending[i].lookup;
      } else {
        lookupSequence := lookupSequence + 1;
        lookup := lookupSequence;
        announced := announced + [lookup];
      }
      var p := Pending(|arrivals| + 1, lookup, device, realm, now + timeoutMs);
      pending := [p] + pending;
      count := count + 1;
      arrivals := arrivals + [p];
      return Queued;
    }

    method ProcessCommand(lookup: nat)
      modifies this`pending, this`count, this`departures
      ensures All() == Complete(old(All()), lookup)
    {
      SplitLoopIsFilter(pending, OtherLookup(lookup));
      ghost var gone := [];
      var i := 0;
      while i < |pending|
        invariant 0 <= i <= |pending| && count == old(count) - |gone| && departures == old(departures)
        invariant SplitLoop(pending, gone, i, OtherLookup(lookup)) == SplitLoop(old(pending), [], 0, OtherLookup(lookup))
        decreases |pending| - i
      {
        var p := pending[i];
        if p.lookup != lookup {
          i := i + 1;
        } else {
          pending, count := RemoveAt(pending, i), count - 1;
          gone := gone + [p];
        }
      }
      departures := departures + Leave(gone, Completed);
    }

    method ProcessTimeouts(now: nat)
      modifies this`pending, this`count, this`departures
      ensures All() == Expire(old(All()), now)
    {
      SplitLoopIsFilter(pending, NotDue(now));
      ghost var gone := [];
      var i := 0;
      while i < |pending|
        invariant 0 <= i <= |pending| && count == old(count) - |gone| && departures == old(departures)
        invariant SplitLoop(pending, gone, i, NotDue(now)) == SplitLoop(old(pending), [], 0, NotDue(now))
        decreases |pending| - i
      {
        var p := pending[i];
        if p.deadline > now {
          i := i + 1;
        } else {
          pending, count := RemoveAt(pending, i), count - 1;
          gone := gone + [p];
        }
      }
      departures := departures + Leave(gone, TimedOut);
    }

    /** Takes requests off the front until none is left, then resets the counter. */
    method ReleaseAll()
      requires count == |pending|
      modifies this`pending, this`count, this`departures
      ensures All() == Release(old(All()))
    {
      ReleaseTakesAll(All());
      ghost var done := 0;
      while |pending| > 0
        invariant 0 <= done <= |old(pending)| && pending == old(pending)[done..] && departures == old(departures)
        decreases |pending|
      {
        pending := pending[1..];
        done := done + 1;
      }
      departures := departures + Leave(old(pending), Released);
      count := 0;
    }

    /** A REGISTER that needs a credential is queued or refused. */
    method HandleRegister(device: string, realm: string, now: nat, ready: bool) returns (status: Status)
      requires Valid()
      modifies this
      ensures Valid() && All() == Apply(old(All()), QueueRegister(device, realm, now, ready))
      ensures status == Queued ==> count <= maxPending && |departures| + count == |arrivals|
    {
      QueueInv(All(), device, realm, now, ready);
      status := QueueLookup(device, realm, now, ready);
      ConservedLengths(All());
    }

    /** One poll: the completed lookups in their order, then the deadlines. */
    method Poll(lookups: seq<nat>, now: nat)
      requires Valid()
      modifies this
      ensures Valid() && All() == Run(old(All()), PollSteps(lookups) + [CheckDeadlines(now)])
    {
      var i := 0;
      while i < |lookups|
        invariant 0 <= i <= |lookups| && Valid()
        invariant All() == Run(old(All()), PollSteps(lookups[..i]))
      {
        LeaveInv(All(), OtherLookup(lookups[i]), Completed);
        ProcessCommand(lookups[i]);
        PollSnoc(old(All()), lookups, i);
        i := i + 1;
      }
      assert lookups[..i] == lookups;
      RunSnoc(old(All()), PollSteps(lookups), CheckDeadlines(now));
      LeaveInv(All(), NotDue(now), TimedOut);
      ProcessTimeouts(now);
    }
  }

  function PollSteps(lookups: seq<nat>): (steps: seq<Step>)
    ensures |steps| == |lookups| && forall i :: 0 <= i < |steps| ==> steps[i] == CompleteLookup(lookups[i])
  {
    seq(|lookups|, i requires 0 <= i < |lookups| => CompleteLookup(lookups[i]))
  }

  lemma RunSnoc(s: State, steps: seq<Step>, step: Step)
    ensures Run(s, steps + [step]) == Apply(Run(s, steps), step)
  {
    assert (steps + [step])[..|steps|] == steps;
  }

  lemma PollSnoc(s: State, lookups: seq<nat>, i: nat)
    requires i < |lookups|
    ensures Run(s, PollSteps(lookups[..i + 1])) == Complete(Run(s, PollSteps(lookups[..i])), lookups[i])
  {
    assert PollSteps(lookups[..i + 1]) == PollSteps(lookups[..i]) + [CompleteLookup(lookups[i])];
    RunSnoc(s, PollSteps(lookups[..i]), CompleteLookup(lookups[i]));
  }

  lemma ConservedLengths(s: State)
    requires Inv(s)
    ensures |s.departures| + s.count == |s.arrivals|
  {
    assert |multiset(s.arrivals)| == |multiset(s.pending)| + |multiset(Requests(s.departures))|;
  }
}
