/**
 The lifetime of invite-call and subscription records.

 A record is on the runtime's list and is reachable from its PJSIP session. An
 operation that calls into PJSIP holds its record, because PJSIP may run the
 callback that removes it. A removed record is freed at once if nobody holds it,
 and otherwise when the last hold is released.

 A session is created for one record, so a session and its record share a number.
 Touching a record that was freed sets `faulted`; so does freeing it again.
 */
module Holds {
  /** `session` is whether the record still names its session. */
  datatype Call = Call(active: nat, cleanupPending: bool, session: bool)

  /**
   `linked` holds the sessions whose module data still names their record;
   `frames` counts, per record, the operations that are inside PJSIP under a hold.
   */
  datatype State = State(
    heap: map<nat, Call>,
    listed: set<nat>,
    linked: set<nat>,
    created: nat,
    frames: multiset<nat>,
    freed: multiset<nat>,
    faulted: bool)

  const NOTHING := State(map[], {}, {}, 0, multiset{}, multiset{}, false)

  function Fault(s: State): State { s.(faulted := true) }

  function Free(s: State, c: nat): State {
    if c !in s.heap then Fault(s)
    else s.(heap := s.heap - {c}, freed := s.freed + multiset{c})
  }

  function Hold(s: State, c: nat): State {
    if c !in s.heap then Fault(s)
    else s.(heap := s.heap[c := s.heap[c].(active := s.heap[c].active + 1)])
  }

  function Release(s: State, c: nat): State {
    if c !in s.heap then Fault(s)
    else if s.heap[c].active == 0 then s
    else
      var call := s.heap[c].(active := s.heap[c].active - 1);
      var s' := s.(heap := s.heap[c := call]);
      if call.active == 0 && call.cleanupPending then Free(s', c) else s'
  }

  /** Takes a record off the list, and frees it unless it is held. */
  function Remove(s: State, c: nat): State {
    if c !in s.heap then Fault(s)
    else if s.heap[c].cleanupPending || c !in s.listed then s
    else
      var s' := s.(listed := s.listed - {c}, heap := s.heap[c := s.heap[c].(cleanupPending := true)]);
      if s.heap[c].active == 0 then Free(s', c) else s'
  }

  /** Cuts the connection between a record and its session, both ways. */
  function Unlink(s: State, c: nat): State {
    if c !in s.heap then Fault(s)
    else s.(linked := s.linked - {c}, heap := s.heap[c := s.heap[c].(session := false)])
  }

  /** What an association close does to one of its records. */
  function Detach(s: State, c: nat): State {
    if c !in s.heap then Fault(s)
    else Remove(if s.heap[c].session then Unlink(s, c) else s, c)
  }

  function Register(s: State, held: bool): State {
    var c := s.created;
    s.(created := c + 1,
       heap := s.heap[c := Call(if held then 1 else 0, false, true)],
       linked := s.linked + {c},
       listed := s.listed + {c},
       frames := if held then s.frames + multiset{c} else s.frames)
  }

  function Begin(s: State, c: nat): State {
    Hold(s, c).(frames := s.frames + multiset{c})
  }

  /** A failed first request takes its record back, unless a callback already did. */
  function Abandon(s: State, c: nat): State {
    if c !in s.heap then Fault(s)
    else if s.heap[c].cleanupPending then s
    else Remove(Unlink(s, c), c)
  }

  function End(s: State, c: nat): State {
    Release(s, c).(frames := s.frames - multiset{c})
  }

  datatype Step =
    | Created(held: bool)
    | BeginFromList(record: nat)
    | BeginFromSession(record: nat)
    | Finish(record: nat, failed: bool)
    | Callback(record: nat)
    | CloseAssociation(record: nat)

  /** One step; an operation starts from a record it finds, a callback from its session's module data. */
  function Apply(s: State, step: Step): State {
    match step
    case Created(held) => Register(s, held)
    case BeginFromList(c) => if c in s.listed then Begin(s, c) else s
    case BeginFromSession(c) => if c in s.linked then Begin(s, c) else s
    case Finish(c, failed) => if c in s.frames then End(if failed then Abandon(s, c) else s, c) else s
    case Callback(c) => if c in s.linked then Remove(Unlink(s, c), c) else s
    case CloseAssociation(c) => if c in s.listed then Detach(s, c) else s
  }

  function Run(s: State, steps: seq<Step>): State {
    if steps == [] then s else Apply(Run(s, steps[..|steps| - 1]), steps[|steps| - 1])
  }

  /** Stopping the runtime frees every listed record. */
  function Stop(s: State): State {
    s.(heap := s.heap - s.listed, listed := {}, linked := s.linked - s.listed,
       freed := s.freed + multiset(s.listed), faulted := s.faulted || !(s.listed <= s.heap.Keys))
  }

  // ---- What every step keeps -----------------------------------------------------

  /** What one live record promises. */
  predicate Live(c: nat, call: Call, listed: bool, linked: bool, held: nat) {
    && call.active == held
    && call.session == linked
    && (linked ==> listed)
    && (call.cleanupPending <==> !listed)
    && (call.cleanupPending ==> held > 0)
  }

  /** The whole account of one record: not yet created, live, or freed once and out of reach. */
  predicate Sound(s: State, c: nat) {
    if c in s.heap then
      && c < s.created && s.freed[c] == 0
      && Live(c, s.heap[c], c in s.listed, c in s.linked, s.frames[c])
    else
      && c !in s.listed && c !in s.linked && c !in s.frames
      && s.freed[c] == if c < s.created then 1 else 0
  }

  ghost predicate Inv(s: State) {
    !s.faulted && forall c: nat :: Sound(s, c)
  }

  /** A step that only touches one record keeps the invariant if it keeps that record sound. */
  lemma OneRecord(s: State, s': State, c: nat)
    requires Inv(s) && !s'.faulted && Sound(s', c)
    requires forall d: nat :: d != c ==> (Sound(s', d) <==> Sound(s, d))
    ensures Inv(s')
  {
  }

  lemma RemoveInv(s: State, c: nat)
    requires Inv(s) && c in s.heap && c !in s.linked
    ensures Inv(Remove(s, c)) && Remove(s, c).frames == s.frames
  {
    assert Sound(s, c);
    OneRecord(s, Remove(s, c), c);
  }

  lemma UnlinkInv(s: State, c: nat)
    requires Inv(s) && c in s.heap
    ensures Inv(Unlink(s, c))
  {
    assert Sound(s, c);
    OneRecord(s, Unlink(s, c), c);
  }

  lemma BeginInv(s: State, c: nat)
    requires Inv(s) && c in s.heap
    ensures Inv(Begin(s, c))
  {
    assert Sound(s, c);
    OneRecord(s, Begin(s, c), c);
  }

  lemma EndInv(s: State, c: nat)
    requires Inv(s) && c in s.frames
    ensures Inv(End(s, c))
  {
    assert Sound(s, c);
    OneRecord(s, End(s, c), c);
  }

  lemma StepInv(s: State, step: Step)
    requires Inv(s)
    ensures Inv(Apply(s, step))
  {
    match step
    case Created(held) =>
      assert Sound(s, s.created);
      OneRecord(s, Register(s, held), s.created);
    case BeginFromList(c) =>
      assert Sound(s, c);
      if c in s.listed {
        BeginInv(s, c);
      }
    case BeginFromSession(c) =>
      assert Sound(s, c);
      if c in s.linked {
        BeginInv(s, c);
      }
    case Finish(c, failed) =>
      assert Sound(s, c);
      if c in s.frames {
        if failed && !s.heap[c].cleanupPending {
          UnlinkInv(s, c);
          RemoveInv(Unlink(s, c), c);
          EndInv(Remove(Unlink(s, c), c), c);
        } else {
          EndInv(s, c);
        }
      }
    case Callback(c) =>
      assert Sound(s, c);
      if c in s.linked {
        UnlinkInv(s, c);
        RemoveInv(Unlink(s, c), c);
      }
    case CloseAssociation(c) =>
      assert Sound(s, c);
      if c in s.listed {
        if s.heap[c].session {
          UnlinkInv(s, c);
          RemoveInv(Unlink(s, c), c);
        } else {
          RemoveInv(s, c);
        }
      }
  }

  lemma {:induction false} RunInv(steps: seq<Step>)
    ensures Inv(Run(NOTHING, steps))
  {
    if steps == [] {
      assert forall c: nat :: Sound(NOTHING, c);
    } else {
      RunInv(steps[..|steps| - 1]);
      StepInv(Run(NOTHING, steps[..|steps| - 1]), steps[|steps| - 1]);
    }
  }

  /**
   Over every run, no freed record is touched, no record is freed twice or while
   an operation holds it, the list names no freed record, and no session names a
   record that is off the list, freed or still held.
   */
  lemma NothingFreedIsTouched(steps: seq<Step>, c: nat)
    ensures var s := Run(NOTHING, steps);
            && !s.faulted
            && s.freed[c] <= 1
            && (s.freed[c] == 1 ==> c !in s.heap && c !in s.listed && c !in s.frames)
            && (c !in s.listed ==> c !in s.linked)
            && (c in s.heap ==> s.heap[c].active == s.frames[c])
  {
    RunInv(steps);
    assert Sound(Run(NOTHING, steps), c);
  }

  /** A record leaves memory exactly when it is off the list and its last hold is gone. */
  lemma FreedExactly(steps: seq<Step>, c: nat)
    ensures var s := Run(NOTHING, steps);
            s.freed[c] == 1 <==> c < s.created && c !in s.listed && c !in s.frames
  {
    RunInv(steps);
    assert Sound(Run(NOTHING, steps), c);
  }

  /** Once nothing is inside PJSIP, stopping the runtime leaves every record freed exactly once. */
  lemma StopFreesEverything(steps: seq<Step>)
    requires Run(NOTHING, steps).frames == multiset{}
    ensures var s := Stop(Run(NOTHING, steps));
            && !s.faulted && s.heap == map[] && s.linked == {}
            && forall c: nat :: s.freed[c] == if c < s.created then 1 else 0
  {
    RunInv(steps);
    StopFrees(Run(NOTHING, steps));
  }

  lemma StopFrees(s: State)
    requires Inv(s) && s.frames == multiset{}
    ensures !Stop(s).faulted && Stop(s).heap == map[] && Stop(s).linked == {} && s.listed <= s.heap.Keys
    ensures forall c: nat :: Stop(s).freed[c] == if c < s.created then 1 else 0
  {
    forall c: nat
      ensures Sound(s, c) && (c in s.heap <==> c in s.listed) && (c in s.linked ==> c in s.listed)
    {
      assert Sound(s, c);
    }
    assert Stop(s).heap.Keys == {};
  }

  // ---- What each step does ----------------------------------------------------------------

  /** Touching a record that is not there, or freeing it, is a fault, whatever the operation. */
  lemma MissingRecordFaults(s: State, c: nat)
    requires c !in s.heap
    ensures Free(s, c).faulted && Hold(s, c).faulted && Release(s, c).faulted && Remove(s, c).faulted
    ensures Unlink(s, c).faulted && Detach(s, c).faulted && Abandon(s, c).faulted
    ensures Begin(s, c).faulted && End(s, c).faulted
    ensures c in s.listed ==> Stop(s).faulted
  {
  }

  /** A fault is never taken back. */
  lemma FaultStays(s: State, step: Step)
    requires s.faulted
    ensures Apply(s, step).faulted && Stop(s).faulted
  {
  }

  /** A record that was taken off: nothing names it any more, and it is freed as soon as nobody holds it. */
  predicate Gone(s: State, c: nat) {
    c !in s.listed && c !in s.linked && (c !in s.frames ==> c !in s.heap && s.freed[c] == 1)
  }

  /** No other record is touched. */
  ghost predicate OthersSame(s: State, s': State, c: nat) {
    forall d: nat :: d != c ==>
      && (d in s.heap <==> d in s'.heap) && (d in s.heap ==> s'.heap[d] == s.heap[d])
      && (d in s.listed <==> d in s'.listed) && (d in s.linked <==> d in s'.linked)
      && s.frames[d] == s'.frames[d] && s.freed[d] == s'.freed[d]
  }

  /** A new record is listed and linked, and held exactly by the request that made it. */
  lemma CreatedExactly(s: State, held: bool)
    requires Inv(s)
    ensures var s', c := Apply(s, Created(held)), s.created;
            && s'.created == c + 1 && c in s'.heap && c in s'.listed && c in s'.linked
            && s'.frames[c] == (if held then 1 else 0) && s'.heap[c].active == s'.frames[c] && s'.freed == s.freed
            && OthersSame(s, s', c)
  {
    assert Sound(s, s.created);
  }

  /** An operation that finds its record, through the list or its session, holds it once more. */
  lemma BegunExactly(s: State, c: nat)
    requires Inv(s)
    ensures c in s.listed ==> Apply(s, BeginFromList(c)).frames == s.frames + multiset{c}
    ensures c in s.listed ==> var s' := Apply(s, BeginFromList(c));
                              c in s.heap && c in s'.heap && s'.heap[c].active == s.heap[c].active + 1
    ensures c in s.linked ==> Apply(s, BeginFromSession(c)) == Apply(s, BeginFromList(c))
    ensures c !in s.listed ==> Apply(s, BeginFromList(c)) == s
    ensures c !in s.linked ==> Apply(s, BeginFromSession(c)) == s
    ensures OthersSame(s, Apply(s, BeginFromList(c)), c)
  {
    assert Sound(s, c);
  }

  /** The callback that ends a session, and the close of an association, take the record off for good. */
  lemma RemovedExactly(s: State, c: nat)
    requires Inv(s)
    ensures c in s.linked ==> Gone(Apply(s, Callback(c)), c)
    ensures c !in s.linked ==> Apply(s, Callback(c)) == s
    ensures c in s.listed ==> Gone(Apply(s, CloseAssociation(c)), c)
    ensures c !in s.listed ==> Apply(s, CloseAssociation(c)) == s
    ensures Apply(s, Callback(c)).frames == s.frames == Apply(s, CloseAssociation(c)).frames
    ensures OthersSame(s, Apply(s, Callback(c)), c) && OthersSame(s, Apply(s, CloseAssociation(c)), c)
  {
    assert Sound(s, c);
  }

  /** The end of an operation gives up one hold; a failed first request also takes its record off. */
  lemma FinishedExactly(s: State, c: nat, failed: bool)
    requires Inv(s) && c in s.frames
    ensures var s' := Apply(s, Finish(c, failed));
            && s'.frames == s.frames - multiset{c} && OthersSame(s, s', c)
            && (failed ==> Gone(s', c))
            && (!failed ==> (c in s'.listed <==> c in s.listed) && (c in s'.linked <==> c in s.linked))
            && (!failed && s.frames[c] == 1 && c !in s.listed ==> Gone(s', c))
  {
    assert Sound(s, c);
  }

  // ---- The list itself -------------------------------------------------------------

  function Elements(list: seq<nat>): set<nat> { set c | c in list }

  /** The records as the owner thread keeps them: a list that is searched, and the memory behind it. */
  class CallList {
    var heap: map<nat, Call>
    var list: seq<nat>
    var linked: set<nat>
    var created: nat
    ghost var frames: multiset<nat>
    ghost var freed: multiset<nat>

    ghost function Contents(): State
      reads this
    {
      State(heap, Elements(list), linked, created, frames, freed, false)
    }

    /** Every record is accounted for, and the list names none twice. */
    ghost predicate Valid()
      reads this
    {
      Inv(Contents()) && NoRepeats(list)
    }

    constructor ()
      ensures Valid() && Contents() == NOTHING
    {
      heap, list, linked, created := map[], [], {}, 0;
      frames, freed := multiset{}, multiset{};
      new;
      RunInv([]);
    }

    method FreeRecord(c: nat)
      requires c in heap
      modifies this`heap, this`freed
      ensures Contents() == Free(old(Contents()), c)
    {
      heap := heap - {c};
      freed := freed + multiset{c};
    }

    method CreateCall(held: bool) returns (c: nat)
      requires Valid()
      modifies this
      ensures Valid() && c == old(created) && Contents() == Apply(old(Contents()), Created(held))
    {
      StepInv(Contents(), Created(held));
      assert Sound(Contents(), created);
      c := created;
      created := created + 1;
      heap := heap[c := Call(if held then 1 else 0, false, true)];
      linked := linked + {c};
      list := [c] + list;
      assert Elements(list) == Elements(old(list)) + {c};
      frames := if held then frames + multiset{c} else frames;
    }

    method HoldCall(c: nat)
      requires Valid() && c in heap
      modifies this`heap, this`frames
      ensures Valid() && Contents() == Begin(old(Contents()), c)
    {
      BeginInv(Contents(), c);
      heap := heap[c := heap[c].(active := heap[c].active + 1)];
      frames := frames + multiset{c};
    }

    method ReleaseCall(c: nat)
      requires Valid() && c in frames
      modifies this`heap, this`frames, this`freed
      ensures Valid() && Contents() == End(old(Contents()), c)
    {
      assert Sound(Contents(), c);
      EndInv(Contents(), c);
      frames := frames - multiset{c};
      heap := heap[c := heap[c].(active := heap[c].active - 1)];
      if heap[c].active == 0 && heap[c].cleanupPending {
        FreeRecord(c);
      }
    }

    /** Searches the list for the record, takes it off, and frees it unless it is held. */
    method RemoveCall(c: nat)
      requires Valid() && c in heap && c !in linked
      modifies this`heap, this`list, this`freed
      ensures Valid() && Contents() == Remove(old(Contents()), c)
    {
      RemoveInv(Contents(), c);
      if heap[c].cleanupPending {
        return;
      }
      var i := 0;
      while i < |list|
        invariant 0 <= i <= |list|
        invariant c !in list[..i]
        invariant heap == old(heap) && list == old(list) && freed == old(freed)
      {
        if list[i] == c {
          TakenOff(list, i);
          list := list[..i] + list[i + 1..];
          heap := heap[c := heap[c].(cleanupPending := true)];
          if heap[c].active == 0 {
            FreeRecord(c);
          }
          return;
        }
        i := i + 1;
      }
    }

    method UnlinkSession(c: nat)
      requires Valid() && c in heap
      modifies this`heap, this`linked
      ensures Valid() && Contents() == Unlink(old(Contents()), c)
    {
      UnlinkInv(Contents(), c);
      linked := linked - {c};
      heap := heap[c := heap[c].(session := false)];
    }

    /** The callback that ends a session: it finds the record through the session, if there still is one. */
    method OnSessionEnd(c: nat)
      requires Valid()
      modifies this
      ensures Valid() && Contents() == Apply(old(Contents()), Callback(c))
      ensures c in old(linked) ==> c !in list && c !in linked
    {
      RemovedExactly(Contents(), c);
      assert Sound(Contents(), c);
      if c in linked {
        UnlinkSession(c);
        RemoveCall(c);
      }
    }

    /** The end of a held operation; a failed first request takes its record back unless a callback did. */
    method FinishOperation(c: nat, failed: bool)
      requires Valid() && c in frames
      modifies this
      ensures Valid() && Contents() == Apply(old(Contents()), Finish(c, failed))
    {
      assert Sound(Contents(), c);
      if failed && !heap[c].cleanupPending {
        UnlinkSession(c);
        RemoveCall(c);
      }
      ReleaseCall(c);
    }

    /** Closing an association detaches and removes each of its records. */
    method CloseAssociationCall(c: nat)
      requires Valid() && c in list
      modifies this
      ensures Valid() && Contents() == Apply(old(Contents()), CloseAssociation(c))
      ensures c !in list && c !in linked
    {
      RemovedExactly(Contents(), c);
      assert Sound(Contents(), c);
      if heap[c].session {
        UnlinkSession(c);
      }
      RemoveCall(c);
    }

    /** Stopping the runtime, with nothing left inside PJSIP. */
    method FreeAll()
      requires Valid() && frames == multiset{}
      modifies this
      ensures Contents() == Stop(old(Contents())) && heap == map[] && list == []
      ensures forall c: nat :: freed[c] == if c < created then 1 else 0
    {
      ghost var start := Contents();
      StopFrees(start);
      while list != []
        invariant NoRepeats(list) && Elements(list) <= heap.Keys && Stop(Contents()) == Stop(start)
        decreases |list|
      {
        FreeFirst();
      }
      assert Stop(Contents()).heap == heap;
    }

    method FreeFirst()
      requires list != [] && NoRepeats(list) && Elements(list) <= heap.Keys
      modifies this`heap, this`list, this`linked, this`freed
      ensures NoRepeats(list) && Elements(list) <= heap.Keys && |list| == |old(list)| - 1
      ensures Stop(Contents()) == Stop(old(Contents()))
    {
      var c := list[0];
      assert c in Elements(list);
      TakenOff(list, 0);
      assert list[..0] + list[1..] == list[1..];
      StopOne(Contents(), c);
      list := list[1..];
      linked := linked - {c};
      FreeRecord(c);
    }
  }

  /** Freeing one listed record first makes no difference to stopping. */
  lemma StopOne(s: State, c: nat)
    requires c in s.listed && c in s.heap
    ensures Stop(Free(s.(listed := s.listed - {c}, linked := s.linked - {c}), c)) == Stop(s)
  {
    assert multiset(s.listed) == multiset(s.listed - {c}) + multiset{c};
  }

  predicate NoRepeats(list: seq<nat>) {
    forall i, j :: 0 <= i < j < |list| ==> list[i] != list[j]
  }

  lemma TakenOff(list: seq<nat>, i: nat)
    requires i < |list| && NoRepeats(list)
    ensures Elements(list[..i] + list[i + 1..]) == Elements(list) - {list[i]}
    ensures NoRepeats(list[..i] + list[i + 1..])
  {
    var rest := list[..i] + list[i + 1..];
    forall x | x in list && x != list[i]
      ensures x in rest
    {
      var k :| 0 <= k < |list| && list[k] == x;
      assert rest[if k < i then k else k - 1] == x;
    }
  }
}
