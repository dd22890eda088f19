/**
 The allocator of CSeq numbers: one atomic counter, advanced by compare-and-exchange.

 Threads interleave freely. A thread's first load may be out of date, an exchange may
 fail for no reason, and what a failed exchange reads may be out of date as well.
 */
module Cseq {
  import opened Lists

  const MAX_SIP_CSEQ := 0x7fff_ffff

  function Successor(current: nat, max: nat): nat {
    if current >= max then 1 else current + 1
  }

  /** The counter, the value each allocating thread expects in it, and the values handed out so far. */
  datatype State = State(sequence: nat, expected: map<nat, nat>, returned: seq<nat>)

  const INITIAL := State(0, map[], [])

  datatype Step =
    | Load(thread: nat, seen: nat)
    | Exchange(thread: nat, spurious: bool, seen: nat)

  function Apply(s: State, step: Step, max: nat): State {
    match step
    case Load(t, seen) =>
      if t in s.expected then s else s.(expected := s.expected[t := seen])
    case Exchange(t, spurious, seen) =>
      if t !in s.expected then s
      else if s.expected[t] == s.sequence && !spurious then
        var next := Successor(s.sequence, max);
        State(next, s.expected - {t}, s.returned + [next])
      else s.(expected := s.expected[t := seen])
  }

  function RunFrom(s: State, steps: seq<Step>, max: nat): State {
    if steps == [] then s else Apply(RunFrom(s, steps[..|steps| - 1], max), steps[|steps| - 1], max)
  }

  function Run(steps: seq<Step>, max: nat): State { RunFrom(INITIAL, steps, max) }

  /** What the n-th allocation returns, counting from zero. */
  function Nth(n: nat, max: nat): nat
    requires max > 0
  {
    n % max + 1
  }

  lemma {:induction false} LargeProduct(d: nat, m: nat)
    requires d > 0
    ensures d * m >= m
  {
    if d > 1 {
      LargeProduct(d - 1, m);
      assert d * m == (d - 1) * m + m;
    }
  }

  lemma LargeMultiple(d: int, m: int)
    requires m > 0 && d != 0
    ensures d * m >= m || d * m <= -m
  {
    LargeProduct(if d > 0 then d else -d, m);
  }

  /** A multiple of `m` strictly between -m and m is zero. */
  lemma SmallMultiple(d: int, m: int)
    requires m > 0 && -m < d * m < m
    ensures d == 0
  {
    if d != 0 {
      LargeMultiple(d, m);
    }
  }

  lemma RemainderIs(x: nat, q: nat, r: nat, m: nat)
    requires x == q * m + r && r < m
    ensures x % m == r
  {
    var d := q - x / m;
    assert x == (x / m) * m + x % m;
    assert d * m == q * m - (x / m) * m;
    SmallMultiple(d, m);
  }

  lemma NextNth(n: nat, max: nat)
    requires max > 0
    ensures Successor(Nth(n, max), max) == Nth(n + 1, max)
  {
    var q, r := n / max, n % max;
    assert n == q * max + r;
    if r == max - 1 {
      assert (q + 1) * max == q * max + max;
      RemainderIs(n + 1, q + 1, 0, max);
    } else {
      RemainderIs(n + 1, q, r + 1, max);
    }
  }

  predicate InOrder(s: State, max: nat)
    requires max > 0
  {
    && (forall i :: 0 <= i < |s.returned| ==> s.returned[i] == Nth(i, max))
    && s.sequence == if s.returned == [] then 0 else s.returned[|s.returned| - 1]
  }

  lemma {:induction false} RunInOrder(steps: seq<Step>, max: nat)
    requires max > 0
    ensures InOrder(Run(steps, max), max)
  {
    if steps != [] {
      var s := Run(steps[..|steps| - 1], max);
      RunInOrder(steps[..|steps| - 1], max);
      if s.returned == [] {
        assert Successor(0, max) == 1 == Nth(0, max) by { RemainderIs(0, 0, 0, max); }
      } else {
        NextNth(|s.returned| - 1, max);
      }
    }
  }

  /** Whatever the interleaving, the n-th allocation from zero returns the n-th number of the cycle 1..max. */
  lemma AllocationsCycle(steps: seq<Step>, max: nat, n: nat)
    requires max > 0 && n < |Run(steps, max).returned|
    ensures Run(steps, max).returned[n] == n % max + 1
    ensures 1 <= Run(steps, max).returned[n] <= max
  {
    RunInOrder(steps, max);
  }

  /** Any max consecutive allocations are distinct. */
  lemma WindowIsDistinct(steps: seq<Step>, max: nat, i: nat, j: nat)
    requires max > 0 && i < j < |Run(steps, max).returned| && j < i + max
    ensures Run(steps, max).returned[i] != Run(steps, max).returned[j]
  {
    RunInOrder(steps, max);
    NearbyRemainders(i, j, max);
  }

  lemma NearbyRemainders(i: nat, j: nat, max: nat)
    requires max > 0 && i < j < i + max
    ensures i % max != j % max
  {
    var d := j / max - i / max;
    assert i == (i / max) * max + i % max && j == (j / max) * max + j % max;
    assert d * max == (j / max) * max - (i / max) * max;
    if i % max == j % max {
      SmallMultiple(d, max);
    }
  }

  /**
   Nobody waits for ever: after any run, a thread that reads the counter as it stands
   and then exchanges undisturbed gets the next number, and is done.
   */
  lemma UndisturbedThreadGetsTheNext(steps: seq<Step>, max: nat, t: nat, seen: nat)
    requires max > 0
    ensures var s := Run(steps, max);
            var read := if t in s.expected then Exchange(t, true, s.sequence) else Load(t, s.sequence);
            var after := Apply(Apply(s, read, max), Exchange(t, false, seen), max);
            after.returned == s.returned + [|s.returned| % max + 1] && t !in after.expected
  {
    var s := Run(steps, max);
    RunInOrder(steps, max);
    if s.returned == [] {
      RemainderIs(0, 0, 0, max);
    } else {
      NextNth(|s.returned| - 1, max);
    }
  }

  /** The numbers handed out for SIP requests fit section 8.1.1.5 of RFC 3261: positive and below 2^31. */
  lemma SipNumbersInRange(steps: seq<Step>, n: nat)
    requires n < |Run(steps, MAX_SIP_CSEQ).returned|
    ensures 1 <= Run(steps, MAX_SIP_CSEQ).returned[n] < 0x8000_0000
  {
    AllocationsCycle(steps, MAX_SIP_CSEQ, n);
  }

  // ---- One thread's loop ---------------------------------------------------------------------

  /** What meets one attempt: the value the other threads left, whether it fails anyway, and what it reads then. */
  datatype Turn = Turn(found: nat, spurious: bool, seen: nat)

  class Atomic {
    var value: nat
  }

  /** The attempt that goes through, if any, for a thread expecting `current`. */
  function Winning(turns: seq<Turn>, current: nat): Option<nat> {
    if turns == [] then None
    else if turns[0].found == current && !turns[0].spurious then Some(0)
    else
      match Winning(turns[1..], turns[0].seen)
      case None => None
      case Some(k) => Some(k + 1)
  }

  /** What the thread expects after its turns. */
  function Expecting(turns: seq<Turn>, current: nat): nat {
    if turns == [] then current else turns[|turns| - 1].seen
  }

  lemma {:induction false} WinningSnoc(turns: seq<Turn>, current: nat, turn: Turn)
    requires Winning(turns, current) == None
    ensures Winning(turns + [turn], current)
         == if turn.found == Expecting(turns, current) && !turn.spurious then Some(|turns|) else None
  {
    if turns == [] {
      assert turns + [turn] == [turn] && [turn][1..] == [];
    } else {
      assert (turns + [turn])[1..] == turns[1..] + [turn];
      WinningSnoc(turns[1..], turns[0].seen, turn);
    }
  }

  /** The turns of one thread in a run, from the state in which it has loaded until it wins. */
  function TurnsOf(s: State, steps: seq<Step>, max: nat, t: nat, loaded: nat): seq<Turn> {
    if steps == [] then []
    else
      var before, last := steps[..|steps| - 1], steps[|steps| - 1];
      var turns := TurnsOf(s, before, max, t, loaded);
      if Winning(turns, loaded).None? && last.Exchange? && last.thread == t then
        turns + [Turn(RunFrom(s, before, max).sequence, last.spurious, last.seen)]
      else turns
  }

  /**
   A thread's loop is its part of a run: as long as no turn wins the thread is still
   trying, and the winning turn is the step of the run that hands out the very number
   the loop returns.
   */
  lemma {:induction false} LoopIsPartOfRun(s: State, steps: seq<Step>, max: nat, t: nat) returns (j: nat)
    requires t in s.expected
    ensures var turns := TurnsOf(s, steps, max, t, s.expected[t]);
            match Winning(turns, s.expected[t])
            case None =>
              var end := RunFrom(s, steps, max);
              t in end.expected && end.expected[t] == Expecting(turns, s.expected[t])
            case Some(k) =>
              && k == |turns| - 1 && j < |steps| && steps[j].Exchange? && steps[j].thread == t
              && RunFrom(s, steps[..j + 1], max).returned
              == RunFrom(s, steps[..j], max).returned + [Successor(turns[k].found, max)]
  {
    j := 0;
    if steps != [] {
      var before, last := steps[..|steps| - 1], steps[|steps| - 1];
      var loaded := s.expected[t];
      j := LoopIsPartOfRun(s, before, max, t);
      var turns := TurnsOf(s, before, max, t, loaded);
      if Winning(turns, loaded).Some? {
        assert steps[..j + 1] == before[..j + 1] && steps[..j] == before[..j];
      } else if last.Exchange? && last.thread == t {
        var turn := Turn(RunFrom(s, before, max).sequence, last.spurious, last.seen);
        WinningSnoc(turns, loaded, turn);
        j := |steps| - 1;
        assert steps[..j + 1] == steps && steps[..j] == before;
      }
    }
  }

  /** Tries until an exchange succeeds, or the turns run out. */
  method NextAtomicValue(sequence: Atomic, max: nat, loaded: nat, turns: seq<Turn>) returns (result: Option<nat>)
    modifies sequence
    ensures match Winning(turns, loaded)
            case None => result == None
            case Some(k) => k < |turns| && result == Some(Successor(turns[k].found, max)) && sequence.value == result.value
  {
    var current: nat, i: nat := loaded, 0;
    while i < |turns|
      invariant 0 <= i <= |turns|
      invariant match Winning(turns[i..], current)
                case None => Winning(turns, loaded) == None
                case Some(k) => Winning(turns, loaded) == Some(i + k)
    {
      sequence.value := turns[i].found;
      var next := if current >= max then 1 else current + 1;
      if sequence.value == current && !turns[i].spurious {
        sequence.value := next;
        return Some(next);
      }
      assert turns[i..][1..] == turns[i + 1..];
      current := turns[i].seen;
      i := i + 1;
    }
    return None;
  }
}
