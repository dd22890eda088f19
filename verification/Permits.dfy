/**
 One-shot permits for incoming INVITEs.

 The application grants a permit for a limited time; an INVITE is handed to the
 handler only if it takes a permit that fits it. Permits that have run out are
 unlinked whenever somebody looks at the list.
 */
module Permits {
  import opened Fields
  import opened Lists

  datatype Offer = Offer(transport: TransportType, address: string, sourceId: string, targetId: string, ttl: nat)

  /** A permit, numbered by the grant that made it. */
  datatype Permit = Permit(number: nat, offer: Offer, expires: nat)

  datatype Invite = Invite(transport: TransportType, address: string, fromUser: string, toUser: string, subject: string)

  predicate Grantable(o: Offer) {
    && o.transport != Other && o.ttl > 0
    && o.targetId != "" && Storable(o.targetId, DEVICE_CAPACITY)
    && o.sourceId != "" && Storable(o.sourceId, DEVICE_CAPACITY)
    && o.address != "" && Storable(o.address, ADDRESS_CAPACITY)
  }

  predicate OccursAt(text: string, part: string, i: nat) {
    i + |part| <= |text| && text[i..i + |part|] == part
  }

  ghost predicate Occurs(text: string, part: string) {
    exists i: nat :: OccursAt(text, part, i)
  }

  /** The search through the Subject: every offset in turn. */
  method SubjectContainsTarget(subject: string, target: string) returns (found: bool)
    ensures found == (target != "" && subject != "" && Occurs(subject, target))
  {
    if target == "" || subject == "" || |subject| < |target| {
      return false;
    }
    var offset := 0;
    while offset <= |subject| - |target|
      invariant 0 <= offset
      invariant forall i: nat :: i < offset ==> !OccursAt(subject, target, i)
    {
      if subject[offset..offset + |target|] == target {
        assert OccursAt(subject, target, offset);
        return true;
      }
      offset := offset + 1;
    }
    return false;
  }

  ghost predicate Fits(p: Permit, v: Invite) {
    && v.toUser == p.offer.sourceId
    && (v.fromUser == p.offer.targetId || (p.offer.targetId != "" && v.subject != "" && Occurs(v.subject, p.offer.targetId)))
    && p.offer.transport == v.transport && p.offer.address == v.address
  }

  function Running(now: nat): Permit -> bool { (p: Permit) => p.expires > now }

  /** The first permit at or after a position that fits. */
  ghost function FirstFit(list: seq<Permit>, v: Invite, i: nat := 0): (r: Option<nat>)
    requires i <= |list|
    ensures r.Some? ==> i <= r.value < |list| && Fits(list[r.value], v)
    ensures r.None? ==> forall j :: i <= j < |list| ==> !Fits(list[j], v)
    decreases |list| - i
  {
    if i == |list| then None
    else if Fits(list[i], v) then Some(i)
    else FirstFit(list, v, i + 1)
  }

  // ---- Runs --------------------------------------------------------------------------------

  /** The list, and what became of every permit that left it. */
  datatype State = State(list: seq<Permit>, granted: seq<Permit>, consumed: seq<Permit>, expired: seq<Permit>, handed: nat)

  const NOTHING := State([], [], [], [], 0)

  function Cleanup(s: State, now: nat): State {
    s.(list := Filter(s.list, Running(now)), expired := s.expired + Filter(s.list, Not(Running(now))))
  }

  /** The end time is taken before the list is cleaned, so the clock is read twice. */
  function Grant(s: State, o: Offer, now: nat, later: nat): State {
    if !Grantable(o) then s
    else
      var s1 := Cleanup(s, later);
      var p := Permit(|s.granted|, o, now + o.ttl);
      s1.(list := [p] + s1.list, granted := s1.granted + [p])
  }

  ghost function Take(s: State, v: Invite): State {
    match FirstFit(s.list, v)
    case None => s
    case Some(i) => s.(list := RemoveAt(s.list, i), consumed := s.consumed + [s.list[i]], handed := s.handed + 1)
  }

  ghost function Receive(s: State, v: Invite, now: nat): State { Take(Cleanup(s, now), v) }

  ghost predicate Handed(s: State, v: Invite, now: nat) { FirstFit(Cleanup(s, now).list, v).Some? }

  datatype Step = StepGrant(offer: Offer, now: nat, later: nat) | StepInvite(invite: Invite, now: nat)

  ghost function Apply(s: State, step: Step): State {
    match step
    case StepGrant(o, now, later) => Grant(s, o, now, later)
    case StepInvite(v, now) => Receive(s, v, now)
  }

  ghost function Run(steps: seq<Step>): State {
    if steps == [] then NOTHING else Apply(Run(steps[..|steps| - 1]), steps[|steps| - 1])
  }

  // ---- Conservation ---------------------------------------------------------------------------

  /** Every granted permit is held, consumed or expired, and is only one of them, once. */
  ghost predicate Accounted(s: State) {
    multiset(s.granted) == multiset(s.consumed) + multiset(s.expired) + multiset(s.list)
  }

  predicate Numbered(granted: seq<Permit>) {
    forall i :: 0 <= i < |granted| ==> granted[i].number == i
  }

  ghost predicate Inv(s: State) {
    Accounted(s) && Numbered(s.granted) && s.handed == |s.consumed|
  }

  lemma CleanupInv(s: State, now: nat)
    requires Inv(s)
    ensures Inv(Cleanup(s, now))
  {
    FilterPartition(s.list, Running(now));
  }

  lemma MultisetRemoveAt<T>(s: seq<T>, i: nat)
    requires i < |s|
    ensures multiset(s) == multiset(RemoveAt(s, i)) + multiset{s[i]}
  {
    assert s == s[..i] + [s[i]] + s[i + 1..];
  }

  lemma GrantInv(s: State, o: Offer, now: nat, later: nat)
    requires Inv(s)
    ensures Inv(Grant(s, o, now, later))
  {
    if Grantable(o) {
      CleanupInv(s, later);
      var s1, p := Cleanup(s, later), Permit(|s.granted|, o, now + o.ttl);
      MultisetSnoc(s1.granted, p);
      assert multiset([p] + s1.list) == multiset{p} + multiset(s1.list);
    }
  }

  lemma TakeInv(s: State, v: Invite)
    requires Inv(s)
    ensures Inv(Take(s, v))
  {
    var i := FirstFit(s.list, v);
    if i.Some? {
      MultisetRemoveAt(s.list, i.value);
      MultisetSnoc(s.consumed, s.list[i.value]);
    }
  }

  lemma StepInv(s: State, step: Step)
    requires Inv(s)
    ensures Inv(Apply(s, step))
  {
    match step
    case StepGrant(o, now, later) => GrantInv(s, o, now, later);
    case StepInvite(v, now) =>
      CleanupInv(s, now);
      TakeInv(Cleanup(s, now), v);
  }

  lemma {:induction false} RunInv(steps: seq<Step>)
    ensures Inv(Run(steps))
  {
    if steps != [] {
      RunInv(steps[..|steps| - 1]);
      StepInv(Run(steps[..|steps| - 1]), steps[|steps| - 1]);
    }
  }

  /** In every run, permits granted are permits consumed, expired and held; each consumed one let in one INVITE. */
  lemma PermitsAreConserved(steps: seq<Step>)
    ensures Accounted(Run(steps))
    ensures |Run(steps).granted| == |Run(steps).consumed| + |Run(steps).expired| + |Run(steps).list|
    ensures Run(steps).handed == |Run(steps).consumed|
  {
    RunInv(steps);
    var s := Run(steps);
    assert |multiset(s.granted)| == |multiset(s.consumed) + multiset(s.expired) + multiset(s.list)|;
  }

  /** No permit is used twice, and none is both used and held or expired. */
  lemma PermitIsUsedOnce(steps: seq<Step>, p: Permit)
    ensures var s := Run(steps);
            multiset(s.consumed)[p] + multiset(s.expired)[p] + multiset(s.list)[p] <= 1
  {
    RunInv(steps);
    NumberedOnce(Run(steps).granted, p);
  }

  lemma {:induction false} NumberedOnce(granted: seq<Permit>, p: Permit)
    requires Numbered(granted)
    ensures multiset(granted)[p] <= 1
    ensures p in granted ==> p.number < |granted|
  {
    if granted != [] {
      var front, last := granted[..|granted| - 1], granted[|granted| - 1];
      NumberedOnce(front, p);
      MultisetSnoc(front, last);
      assert granted == front + [last];
    }
  }

  // ---- Which INVITEs get in ------------------------------------------------------------------

  /** The time of the last look at the list, under a clock that does not go back. */
  function Clock(steps: seq<Step>): nat {
    if steps == [] then 0
    else
      match steps[|steps| - 1]
      case StepGrant(_, _, later) => later
      case StepInvite(_, now) => now
  }

  predicate Forward(steps: seq<Step>) {
    steps == [] || (
      && Forward(steps[..|steps| - 1])
      && Clock(steps[..|steps| - 1]) <= match steps[|steps| - 1] { case StepGrant(_, _, later) => later case StepInvite(_, now) => now })
  }

  predicate AllExpired(expired: seq<Permit>, clock: nat) {
    forall p :: p in expired ==> p.expires <= clock
  }

  lemma {:induction false} ExpiredAreOver(steps: seq<Step>)
    requires Forward(steps)
    ensures AllExpired(Run(steps).expired, Clock(steps))
  {
    if steps != [] {
      ExpiredAreOver(steps[..|steps| - 1]);
    }
  }

  /** An INVITE that is handed on uses up one held permit that fits it and has not run out; any other uses none. */
  lemma HandedUsesOne(s: State, v: Invite, now: nat)
    ensures var s' := Apply(s, StepInvite(v, now));
            if Handed(s, v, now) then
              && |s'.consumed| == |s.consumed| + 1
              && var used := s'.consumed[|s.consumed|];
                 && s'.consumed == s.consumed + [used] && s'.handed == s.handed + 1
                 && Fits(used, v) && used.expires > now && used in s.list
            else s' == Cleanup(s, now)
  {
    var list := Filter(s.list, Running(now));
    var i := FirstFit(list, v);
    if i.Some? {
      assert list[i.value] in list;
    }
  }

  lemma UnusedIsHeld(s: State, p: Permit, now: nat)
    requires Inv(s) && AllExpired(s.expired, now) && p.expires > now
    ensures p in s.granted && p !in s.consumed ==> p in s.list
    ensures p in s.list ==> p in s.granted && p !in s.consumed
  {
    NumberedOnce(s.granted, p);
    assert multiset(s.granted)[p] == multiset(s.consumed)[p] + multiset(s.expired)[p] + multiset(s.list)[p];
    assert p !in s.expired;
    assert p in s.granted <==> multiset(s.granted)[p] > 0;
    assert p in s.consumed <==> multiset(s.consumed)[p] > 0;
    assert p in s.list <==> multiset(s.list)[p] > 0;
  }

  /**
   With a clock that does not go back, an INVITE is handed on exactly when some granted
   permit fits it, has not run out and was not used before.
   */
  lemma HandedExactly(steps: seq<Step>, v: Invite, now: nat)
    requires Forward(steps) && Clock(steps) <= now
    ensures Handed(Run(steps), v, now) <==>
              exists p :: p in Run(steps).granted && Fits(p, v) && p.expires > now && p !in Run(steps).consumed
  {
    RunInv(steps);
    ExpiredAreOver(steps);
    HandedIffUnused(Run(steps), v, now);
  }

  lemma HandedIffUnused(s: State, v: Invite, now: nat)
    requires Inv(s) && AllExpired(s.expired, now)
    ensures Handed(s, v, now) <==> exists p :: p in s.granted && Fits(p, v) && p.expires > now && p !in s.consumed
  {
    var list := Cleanup(s, now).list;
    if Handed(s, v, now) {
      var p := list[FirstFit(list, v).value];
      assert p in list;
      UnusedIsHeld(s, p, now);
    }
    if p :| p in s.granted && Fits(p, v) && p.expires > now && p !in s.consumed {
      UnusedIsHeld(s, p, now);
      assert p in list;
    }
  }

  // ---- Whom a permit lets in, and for how long ---------------------------------------------

  /** The INVITE comes over the offered transport and address, to the offered source, from or about the target. */
  ghost predicate LetsIn(o: Offer, v: Invite) {
    && v.transport == o.transport && v.address == o.address && v.toUser == o.sourceId
    && (v.fromUser == o.targetId || exists before, after :: v.subject == before + (o.targetId + after))
  }

  /** An offer the application made at a time, with everything the shim asks of one. */
  ghost predicate Offered(steps: seq<Step>, o: Offer, at: nat) {
    && o.transport in {Udp, Tcp} && o.ttl > 0
    && 0 < |o.targetId| < 128 && 0 < |o.sourceId| < 128 && 0 < |o.address| < 64
    && '\0' !in o.targetId && '\0' !in o.sourceId && '\0' !in o.address
    && exists later :: StepGrant(o, at, later) in steps
  }

  lemma FitsExactly(p: Permit, v: Invite)
    requires p.offer.targetId != ""
    ensures Fits(p, v) <==> LetsIn(p.offer, v)
  {
    var part := p.offer.targetId;
    if v.subject != "" && Occurs(v.subject, part) {
      var i: nat :| OccursAt(v.subject, part, i);
      assert v.subject == v.subject[..i] + (part + v.subject[i + |part|..]);
    }
    if before, after :| v.subject == before + (part + after) {
      assert OccursAt(v.subject, part, |before|);
    }
  }

  /** A permit was offered by some step, and runs for the offered time from then. */
  ghost predicate FromOffer(steps: seq<Step>, p: Permit) {
    exists at: nat :: Offered(steps, p.offer, at) && p.expires == at + p.offer.ttl
  }

  lemma OfferStays(steps: seq<Step>, step: Step, p: Permit)
    requires FromOffer(steps, p)
    ensures FromOffer(steps + [step], p)
  {
    var at: nat :| Offered(steps, p.offer, at) && p.expires == at + p.offer.ttl;
    var later :| StepGrant(p.offer, at, later) in steps;
    assert StepGrant(p.offer, at, later) in steps + [step];
    assert Offered(steps + [step], p.offer, at);
  }

  lemma NewPermit(s: State, step: Step, p: Permit)
    requires p in Apply(s, step).granted && p !in s.granted
    ensures FromOffer([step], p)
  {
    assert step.StepGrant? && Grantable(step.offer) && p.offer == step.offer && p.expires == step.now + step.offer.ttl;
    assert StepGrant(step.offer, step.now, step.later) in [step];
    assert Offered([step], p.offer, step.now);
  }

  lemma {:induction false} PermitsAreOffered(steps: seq<Step>, p: Permit)
    requires p in Run(steps).granted
    ensures FromOffer(steps, p)
  {
    var front, last := steps[..|steps| - 1], steps[|steps| - 1];
    assert steps == front + [last];
    if p in Run(front).granted {
      PermitsAreOffered(front, p);
      OfferStays(front, last, p);
    } else {
      NewPermit(Run(front), last, p);
      var at: nat :| Offered([last], p.offer, at) && p.expires == at + p.offer.ttl;
      var later :| StepGrant(p.offer, at, later) in [last];
      assert StepGrant(p.offer, at, later) in steps;
      assert Offered(steps, p.offer, at);
    }
  }

  /** Whatever the clock does, an INVITE is only handed on under an offer that lets it in and has not run out. */
  lemma HandedWasOffered(steps: seq<Step>, v: Invite, now: nat)
    requires Handed(Run(steps), v, now)
    ensures exists o, at: nat :: Offered(steps, o, at) && LetsIn(o, v) && now < at + o.ttl
  {
    var p := HandedPermit(steps, v, now);
    PermitsAreOffered(steps, p);
    var at: nat :| Offered(steps, p.offer, at) && p.expires == at + p.offer.ttl;
    FitsExactly(p, v);
  }

  lemma HandedPermit(steps: seq<Step>, v: Invite, now: nat) returns (p: Permit)
    requires Handed(Run(steps), v, now)
    ensures p in Run(steps).granted && Fits(p, v) && now < p.expires
  {
    var s := Run(steps);
    RunInv(steps);
    var list := Filter(s.list, Running(now));
    p := list[FirstFit(list, v).value];
    assert p in list;
    HeldWasGranted(s, p);
  }

  lemma HeldWasGranted(s: State, p: Permit)
    requires Accounted(s) && p in s.list
    ensures p in s.granted
  {
    assert p in multiset(s.list);
    assert p in multiset(s.granted);
  }

  /** A usable offer lets its first INVITE in, if that comes within its time. */
  lemma OfferLetsIn(s: State, o: Offer, at: nat, v: Invite, now: nat)
    requires Grantable(o) && LetsIn(o, v) && now < at + o.ttl
    ensures Handed(Apply(s, StepGrant(o, at, at)), v, now)
  {
    var p := Permit(|s.granted|, o, at + o.ttl);
    FitsExactly(p, v);
    assert Grant(s, o, at, at).list[0] == p;
    assert p in Filter(Grant(s, o, at, at).list, Running(now));
  }

  /** What the shim asks of an offer. */
  lemma GrantableExactly(o: Offer)
    ensures Grantable(o) <==>
              && o.transport in {Udp, Tcp} && o.ttl > 0
              && 0 < |o.targetId| < 128 && 0 < |o.sourceId| < 128 && 0 < |o.address| < 64
              && '\0' !in o.targetId && '\0' !in o.sourceId && '\0' !in o.address
  {
  }

  /** Cleaning up moves exactly the permits that have run out from the list to the expired ones. */
  lemma CleanupExactly(s: State, now: nat, p: Permit)
    ensures p in Cleanup(s, now).list <==> p in s.list && now < p.expires
    ensures p in Cleanup(s, now).expired <==> p in s.expired || (p in s.list && p.expires <= now)
    ensures Cleanup(s, now).granted == s.granted && Cleanup(s, now).consumed == s.consumed
  {
  }

  // ---- The list as the shim keeps it ------------------------------------------------------------

  class PermitList {
    var allows: seq<Permit>
    ghost var granted: seq<Permit>
    ghost var consumed: seq<Permit>
    ghost var expired: seq<Permit>
    var next: nat

    ghost function Contents(): State
      reads this
    {
      State(allows, granted, consumed, expired, |consumed|)
    }

    /** Every granted permit is held, consumed or expired, once. */
    ghost predicate Valid()
      reads this
    {
      next == |granted| && Inv(Contents())
    }

    constructor ()
      ensures Valid() && Contents() == NOTHING
    {
      allows, granted, consumed, expired, next := [], [], [], [], 0;
      new;
      RunInv([]);
    }

    method CleanupIncomingInviteAllows(now: nat)
      modifies this`allows, this`expired
      ensures Contents() == Cleanup(old(Contents()), now)
    {
      ghost var all, before, keep := allows, expired, Running(now);
      ghost var gone: seq<Permit> := [];
      SplitLoopIsFilter(all, keep);
      var i := 0;
      while i < |allows|
        invariant 0 <= i <= |allows|
        invariant SplitLoop(allows, gone, i, keep) == SplitLoop(all, [], 0, keep)
        decreases |allows| - i
      {
        if allows[i].expires <= now {
          gone := gone + [allows[i]];
          allows := RemoveAt(allows, i);
        } else {
          i := i + 1;
        }
      }
      expired := before + gone;
    }

    method PushPermit(o: Offer, now: nat, later: nat) returns (accepted: bool)
      requires next == |granted|
      modifies this
      ensures next == |granted| && accepted == Grantable(o) && Contents() == Grant(old(Contents()), o, now, later)
    {
      if !Grantable(o) {
        return false;
      }
      var p := Permit(next, o, now + o.ttl);
      CleanupIncomingInviteAllows(later);
      allows := [p] + allows;
      granted := granted + [p];
      next := next + 1;
      return true;
    }

    /** Takes the first permit that fits the INVITE off the list. */
    method TakePermit(v: Invite, now: nat) returns (consumedOne: bool)
      requires next == |granted|
      modifies this
      ensures next == |granted| && Contents() == Receive(old(Contents()), v, now)
      ensures consumedOne == Handed(old(Contents()), v, now)
    {
      CleanupIncomingInviteAllows(now);
      ghost var cleaned := Contents();
      var i := 0;
      while i < |allows|
        invariant 0 <= i <= |allows|
        invariant next == |granted| && Contents() == cleaned
        invariant FirstFit(allows, v) == FirstFit(allows, v, i)
      {
        var p := allows[i];
        var inSubject := SubjectContainsTarget(v.subject, p.offer.targetId);
        if && v.toUser == p.offer.sourceId
           && (v.fromUser == p.offer.targetId || inSubject)
           && p.offer.transport == v.transport && p.offer.address == v.address
        {
          allows := RemoveAt(allows, i);
          consumed := consumed + [p];
          return true;
        }
        i := i + 1;
      }
      return false;
    }

    method AllowIncomingInvite(o: Offer, now: nat, later: nat) returns (accepted: bool)
      requires Valid()
      modifies this
      ensures Valid() && accepted == Grantable(o) && Contents() == Apply(old(Contents()), StepGrant(o, now, later))
    {
      StepInv(Contents(), StepGrant(o, now, later));
      accepted := PushPermit(o, now, later);
    }

    /** An INVITE is handed on if it takes a permit. */
    method ConsumeIncomingInviteAllow(v: Invite, now: nat) returns (consumedOne: bool)
      requires Valid()
      modifies this
      ensures Valid() && Contents() == Apply(old(Contents()), StepInvite(v, now))
      ensures consumedOne == Handed(old(Contents()), v, now)
    {
      StepInv(Contents(), StepInvite(v, now));
      consumedOne := TakePermit(v, now);
    }
  }
}
