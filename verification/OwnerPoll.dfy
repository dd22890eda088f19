/** The owner thread's turn: it takes all queued commands at once and processes them kind by kind. */
module OwnerPoll {
  import opened Lists
  import opened Sends
  import opened Lifecycle
  import opened OwnerThread

  function Repeat(step: Step, n: nat): seq<Step> { seq(n, _ => step) }

  lemma RepeatSnoc(s: State, step: Step, n: nat)
    ensures Run(s, Repeat(step, n + 1)) == Apply(Run(s, Repeat(step, n)), step)
  {
    assert Repeat(step, n + 1)[..n] == Repeat(step, n);
  }

  /** The steps of a turn over the given commands. */
  function PollSteps(q: Queues): seq<Step> {
    [TakeQueues] + (Repeat(ProcessCompletion, |q.completions|) + (Repeat(ProcessReceive, |q.receives|) +
      (Repeat(ProcessClose, |q.closes|) + Repeat(ProcessOutbound, |q.invites| + |q.subscribes|))))
  }

  /**
   The runtime: the owner's lists and the command queues, beside the socket side's
   readers and channel. `Valid` is what every run keeps.
   */
  class Runtime {
    const lists: OwnerLists
    var queued: Queues
    var batch: Queues
    ghost var nextAssociation: nat
    ghost var open: set<nat>
    ghost var channel: seq<Io>
    ghost var capacity: nat
    ghost var finished: set<nat>

    ghost function Contents(): State
      reads this, lists
    {
      State(lists.All(), nextAssociation, open, channel, capacity, queued, batch, finished)
    }

    ghost predicate Valid()
      reads this, lists
    {
      Good(Contents())
    }

    constructor (capacity: nat, enableUdp: bool)
      ensures Valid() && Contents() == Start(capacity, enableUdp) && fresh(lists)
    {
      lists := new OwnerLists();
      queued, batch := NO_COMMANDS, NO_COMMANDS;
      nextAssociation, open, channel, finished := 1, {}, [], {};
      this.capacity := capacity;
      new;
      if enableUdp {
        var t := lists.Create(Udp, 0);
      }
      StartIsGood(capacity, enableUdp);
    }

    method ProcessSendCompletions()
      modifies this`batch, lists
      ensures Contents() == Run(old(Contents()), Repeat(ProcessCompletion, |old(batch).completions|))
      ensures batch == old(batch).(completions := [])
    {
      ghost var start, n := Contents(), 0;
      while batch.completions != []
        invariant n + |batch.completions| == |old(batch).completions|
        invariant batch == old(batch).(completions := batch.completions)
        invariant Contents() == Run(start, Repeat(ProcessCompletion, n))
        decreases |batch.completions|
      {
        RepeatSnoc(start, ProcessCompletion, n);
        var command := batch.completions[0];
        batch := batch.(completions := batch.completions[1..]);
        var found := lists.Complete(command.send, command.bytes);
        n := n + 1;
      }
    }

    method ProcessReceives()
      requires batch.completions == []
      modifies this`batch, lists
      ensures Contents() == Run(old(Contents()), Repeat(ProcessReceive, |old(batch).receives|))
      ensures batch == old(batch).(receives := [])
    {
      ghost var start, n := Contents(), 0;
      while batch.receives != []
        invariant n + |batch.receives| == |old(batch).receives|
        invariant batch == old(batch).(receives := batch.receives)
        invariant Contents() == Run(start, Repeat(ProcessReceive, n))
        decreases |batch.receives|
      {
        RepeatSnoc(start, ProcessReceive, n);
        var command := batch.receives[0];
        batch := batch.(receives := batch.receives[1..]);
        var t := lists.ProcessReceive(command);
        n := n + 1;
      }
    }

    method CloseNext()
      requires batch.completions == [] && batch.receives == [] && batch.closes != []
      requires Unique(lists.transports, TransportId())
      modifies this`batch, this`finished, lists
      ensures Contents() == Apply(old(Contents()), ProcessClose) && Unique(lists.transports, TransportId())
    {
      var command := batch.closes[0];
      batch := batch.(closes := batch.closes[1..]);
      lists.ProcessClose(command);
      finished := if command.own then finished + {command.association} else finished;
    }

    /** Each close is carried out; one reported by the association's own reader finishes the association. */
    method ProcessCloses()
      requires batch.completions == [] && batch.receives == [] && Unique(lists.transports, TransportId())
      modifies this`batch, this`finished, lists
      ensures Contents() == Run(old(Contents()), Repeat(ProcessClose, |old(batch).closes|))
      ensures batch == old(batch).(closes := [])
    {
      ghost var start, n := Contents(), 0;
      while batch.closes != []
        invariant n + |batch.closes| == |old(batch).closes|
        invariant batch == old(batch).(closes := batch.closes) && Unique(lists.transports, TransportId())
        invariant Contents() == Run(start, Repeat(ProcessClose, n))
        decreases |batch.closes|
      {
        RepeatSnoc(start, ProcessClose, n);
        CloseNext();
        n := n + 1;
      }
    }

    /** All invites come before all subscribes. */
    method OutboundNext()
      requires batch.completions == [] && batch.receives == [] && batch.closes == []
      requires batch.invites != [] || batch.subscribes != []
      modifies this`batch, lists
      ensures Contents() == Apply(old(Contents()), ProcessOutbound)
      ensures batch.completions == [] && batch.receives == [] && batch.closes == []
      ensures |batch.invites| + |batch.subscribes| + 1 == |old(batch).invites| + |old(batch).subscribes|
    {
      if batch.invites != [] {
        var command := batch.invites[0];
        batch := batch.(invites := batch.invites[1..]);
        lists.ProcessOutbound(command);
      } else {
        var command := batch.subscribes[0];
        batch := batch.(subscribes := batch.subscribes[1..]);
        lists.ProcessOutbound(command);
      }
    }

    method ProcessOutbounds()
      requires batch.completions == [] && batch.receives == [] && batch.closes == []
      modifies this`batch, lists
      ensures Contents() == Run(old(Contents()), Repeat(ProcessOutbound, |old(batch).invites| + |old(batch).subscribes|))
      ensures batch == NO_COMMANDS
    {
      ghost var start, n, all := Contents(), 0, |batch.invites| + |batch.subscribes|;
      while batch.invites != [] || batch.subscribes != []
        invariant n + |batch.invites| + |batch.subscribes| == all
        invariant batch.completions == [] && batch.receives == [] && batch.closes == []
        invariant Contents() == Run(start, Repeat(ProcessOutbound, n))
        decreases |batch.invites| + |batch.subscribes|
      {
        RepeatSnoc(start, ProcessOutbound, n);
        OutboundNext();
        n := n + 1;
      }
    }

    /** Takes all queued commands and processes them. */
    method ProcessIoCommands()
      requires batch == NO_COMMANDS && Unique(AfterReceives(Contents()).owner.sends.transports, TransportId())
      modifies this, lists
      ensures Contents() == Run(old(Contents()), PollSteps(old(queued)))
      ensures batch == NO_COMMANDS
    {
      ghost var s0, q := Contents(), queued;
      RunOne(s0, TakeQueues);
      batch, queued := queued, NO_COMMANDS;
      ghost var s1 := Contents();
      assert s1 == Run(s0, [TakeQueues]);
      ProcessSendCompletions();
      ghost var s2 := Contents();
      assert s2 == Run(s1, Repeat(ProcessCompletion, |q.completions|));
      ProcessReceives();
      ghost var s3 := Contents();
      assert s3 == Run(s2, Repeat(ProcessReceive, |q.receives|)) == AfterReceives(s0);
      ProcessCloses();
      ghost var s4 := Contents();
      assert s4 == Run(s3, Repeat(ProcessClose, |q.closes|));
      ProcessOutbounds();
      PollRuns(s0, q);
    }

    /**
     One turn of the owner thread. Afterwards every command that was queued has been
     processed, and nothing is left of an association whose own close was among them.
     */
    method Poll()
      requires Valid() && batch == NO_COMMANDS
      modifies this, lists
      ensures Valid() && queued == NO_COMMANDS && batch == NO_COMMANDS
      ensures Contents() == Run(old(Contents()), PollSteps(old(queued)))
      ensures lists.All() == Processed(old(lists.All()), old(queued))
      ensures forall c :: c in old(queued).closes && c.own ==> NoTrace(Contents(), c.association)
    {
      TurnIsGood(Contents());
      TurnComesTo(Contents());
      ProcessIoCommands();
    }
  }

  /** The state in which the turn has processed its receives. */
  function AfterReceives(s: State): State {
    Run(Run(Run(s, [TakeQueues]), Repeat(ProcessCompletion, |s.queued.completions|)), Repeat(ProcessReceive, |s.queued.receives|))
  }

  lemma TurnIsGood(s: State)
    requires Good(s) && s.batch == NO_COMMANDS
    ensures Unique(AfterReceives(s).owner.sends.transports, TransportId())
    ensures var end := Run(s, PollSteps(s.queued));
            && Good(end) && end.queued == NO_COMMANDS
            && forall c :: c in s.queued.closes && c.own ==> NoTrace(end, c.association)
  {
    var s1 := Run(s, [TakeQueues]);
    var s2 := Run(s1, Repeat(ProcessCompletion, |s.queued.completions|));
    var end := Run(s, PollSteps(s.queued));
    RunIsGood(s, [TakeQueues]);
    RunIsGood(s1, Repeat(ProcessCompletion, |s.queued.completions|));
    RunIsGood(s2, Repeat(ProcessReceive, |s.queued.receives|));
    RunIsGood(s, PollSteps(s.queued));
    TurnFinishes(s);
    forall c | c in s.queued.closes && c.own
      ensures NoTrace(end, c.association)
    {
      FinishedHasNoTrace(end, c.association);
    }
  }

  /** A turn makes of the owner's lists what the queued commands come to. */
  lemma TurnComesTo(s: State)
    requires s.batch == NO_COMMANDS
    ensures var end := Run(s, PollSteps(s.queued));
            end.batch == NO_COMMANDS ==> end.owner == Processed(s.owner, s.queued)
  {
    var parts := PollSteps(s.queued)[1..];
    assert PollSteps(s.queued) == [TakeQueues] + parts;
    RunSplits(s, [TakeQueues], parts);
    RunOne(s, TakeQueues);
    OnlyProcessing(s.queued);
    PartsComeTo(s, Run(s, [TakeQueues]), parts);
  }

  lemma OnlyProcessing(q: Queues)
    ensures forall i :: 1 <= i < |PollSteps(q)| ==> IsProcessing(PollSteps(q)[i])
  {
  }

  lemma PartsComeTo(s: State, taken: State, parts: seq<Step>)
    requires s.batch == NO_COMMANDS && taken == Apply(s, TakeQueues)
    requires forall i :: 0 <= i < |parts| ==> IsProcessing(parts[i])
    ensures Run(taken, parts).batch == NO_COMMANDS ==> Run(taken, parts).owner == Processed(s.owner, s.queued)
  {
    BatchComesTo(taken, parts);
  }

  /** What a processing step does to queues, batch and finished associations. */
  lemma StepTakesOne(s: State, r: State, step: Step)
    requires r == Apply(s, step)
    ensures step == ProcessCompletion && s.batch.completions != [] ==>
              r.queued == s.queued && r.batch == s.batch.(completions := s.batch.completions[1..])
    ensures step == ProcessReceive && s.batch.completions == [] && s.batch.receives != [] ==>
              r.queued == s.queued && r.batch == s.batch.(receives := s.batch.receives[1..])
    ensures step == ProcessClose && s.batch.completions == [] && s.batch.receives == [] && s.batch.closes != [] ==>
              && r.queued == s.queued && r.batch == s.batch.(closes := s.batch.closes[1..])
              && s.finished <= r.finished && (s.batch.closes[0].own ==> s.batch.closes[0].association in r.finished)
    ensures step == ProcessOutbound ==> r.queued == s.queued
  {
  }

  lemma DropOneMore<T>(s: seq<T>, n: nat)
    requires 0 < n <= |s|
    ensures s[n - 1..][1..] == s[n..] && s[n - 1..][0] == s[n - 1]
  {
  }

  lemma {:induction false} CompletionsOnly(s: State, n: nat, r: State)
    requires n <= |s.batch.completions| && r == Run(s, Repeat(ProcessCompletion, n))
    ensures r.queued == s.queued && r.batch == s.batch.(completions := s.batch.completions[n..])
  {
    if n > 0 {
      var t := Run(s, Repeat(ProcessCompletion, n - 1));
      CompletionsOnly(s, n - 1, t);
      RepeatSnoc(s, ProcessCompletion, n - 1);
      StepTakesOne(t, r, ProcessCompletion);
      DropOneMore(s.batch.completions, n);
    } else {
      assert Repeat(ProcessCompletion, 0) == [];
    }
  }

  lemma {:induction false} ReceivesOnly(s: State, n: nat, r: State)
    requires s.batch.completions == [] && n <= |s.batch.receives| && r == Run(s, Repeat(ProcessReceive, n))
    ensures r.queued == s.queued && r.batch == s.batch.(receives := s.batch.receives[n..])
  {
    if n > 0 {
      var t := Run(s, Repeat(ProcessReceive, n - 1));
      ReceivesOnly(s, n - 1, t);
      RepeatSnoc(s, ProcessReceive, n - 1);
      StepTakesOne(t, r, ProcessReceive);
      DropOneMore(s.batch.receives, n);
    } else {
      assert Repeat(ProcessReceive, 0) == [];
    }
  }

  lemma {:induction false} ClosesFinish(s: State, n: nat, r: State)
    requires s.batch.completions == [] && s.batch.receives == [] && n <= |s.batch.closes|
    requires r == Run(s, Repeat(ProcessClose, n))
    ensures r.queued == s.queued && r.batch == s.batch.(closes := s.batch.closes[n..])
    ensures forall i :: 0 <= i < n && s.batch.closes[i].own ==> s.batch.closes[i].association in r.finished
  {
    if n > 0 {
      var t := Run(s, Repeat(ProcessClose, n - 1));
      ClosesFinish(s, n - 1, t);
      RepeatSnoc(s, ProcessClose, n - 1);
      StepTakesOne(t, r, ProcessClose);
      DropOneMore(s.batch.closes, n);
    } else {
      assert Repeat(ProcessClose, 0) == [];
    }
  }

  lemma {:induction false} OutboundsOnly(s: State, n: nat, r: State)
    requires r == Run(s, Repeat(ProcessOutbound, n))
    ensures r.queued == s.queued
  {
    if n > 0 {
      var t := Run(s, Repeat(ProcessOutbound, n - 1));
      OutboundsOnly(s, n - 1, t);
      RepeatSnoc(s, ProcessOutbound, n - 1);
      StepTakesOne(t, r, ProcessOutbound);
    } else {
      assert Repeat(ProcessOutbound, 0) == [];
    }
  }

  /** The commands of a turn, taken in five parts. */
  lemma PartsFinish(q: Queues, s1: State, s2: State, s3: State, s4: State, end: State)
    requires s1.batch == q
    requires s2 == Run(s1, Repeat(ProcessCompletion, |q.completions|))
    requires s3 == Run(s2, Repeat(ProcessReceive, |q.receives|))
    requires s4 == Run(s3, Repeat(ProcessClose, |q.closes|))
    requires end == Run(s4, Repeat(ProcessOutbound, |q.invites| + |q.subscribes|))
    ensures end.queued == s1.queued
    ensures forall i :: 0 <= i < |q.closes| && q.closes[i].own ==> q.closes[i].association in end.finished
  {
    CompletionsOnly(s1, |q.completions|, s2);
    ReceivesOnly(s2, |q.receives|, s3);
    ClosesFinish(s3, |q.closes|, s4);
    OutboundsOnly(s4, |q.invites| + |q.subscribes|, end);
    FinishedStays(s4, Repeat(ProcessOutbound, |q.invites| + |q.subscribes|));
  }

  lemma TurnFinishes(s: State)
    requires s.batch == NO_COMMANDS
    ensures var end := Run(s, PollSteps(s.queued));
            && end.queued == NO_COMMANDS
            && forall c :: c in s.queued.closes && c.own ==> c.association in end.finished
  {
    var q := s.queued;
    PollRuns(s, q);
    RunOne(s, TakeQueues);
    var s1 := Run(s, [TakeQueues]);
    var s2 := Run(s1, Repeat(ProcessCompletion, |q.completions|));
    var s3 := Run(s2, Repeat(ProcessReceive, |q.receives|));
    PartsFinish(q, s1, s2, s3, Run(s3, Repeat(ProcessClose, |q.closes|)), Run(s, PollSteps(q)));
  }

  lemma RunOne(s: State, step: Step)
    ensures Run(s, [step]) == Apply(s, step)
  {
    assert [step][..0] == [];
  }

  /** The turn in its five parts. */
  lemma PollRuns(s: State, q: Queues)
    ensures var s1 := Run(s, [TakeQueues]);
            var s2 := Run(s1, Repeat(ProcessCompletion, |q.completions|));
            var s3 := Run(s2, Repeat(ProcessReceive, |q.receives|));
            var s4 := Run(s3, Repeat(ProcessClose, |q.closes|));
            Run(s, PollSteps(q)) == Run(s4, Repeat(ProcessOutbound, |q.invites| + |q.subscribes|))
  {
    var d := Repeat(ProcessOutbound, |q.invites| + |q.subscribes|);
    var c := Repeat(ProcessClose, |q.closes|) + d;
    var b := Repeat(ProcessReceive, |q.receives|) + c;
    var a := Repeat(ProcessCompletion, |q.completions|) + b;
    var s1 := Run(s, [TakeQueues]);
    var s2 := Run(s1, Repeat(ProcessCompletion, |q.completions|));
    var s3 := Run(s2, Repeat(ProcessReceive, |q.receives|));
    RunSplits(s, [TakeQueues], a);
    RunSplits(s1, Repeat(ProcessCompletion, |q.completions|), b);
    RunSplits(s2, Repeat(ProcessReceive, |q.receives|), c);
    RunSplits(s3, Repeat(ProcessClose, |q.closes|), d);
  }
}
