/**
 The owner thread's receive path: bytes of one TCP association are copied,
 behind the remainder kept from earlier packets, into one receive buffer of
 `maxPacket` bytes and offered to PJSIP, which reports how many it consumed.

 PJSIP is a parameter. `Consumer` may answer anything, and may answer the same
 buffer differently each time; `FrontMessages` is the consumer that takes exactly
 the complete messages at the front of what it is offered.
 */
module Reassembly {
  import opened Lists
  import opened Framing

  datatype Status = Ok | InvalidArgument | InvalidOperation | Overflow

  /** Bytes consumed of the buffer offered as the `n`-th packet. */
  type Consumer = (nat, Bytes) -> int

  /** A buffer offered to PJSIP and the front part of it that was consumed. */
  datatype Offer = Offer(buffer: Bytes, taken: Bytes)

  /** What one receive call did: its status, the offers it made, the new remainder. */
  datatype Reception = Reception(status: Status, offers: seq<Offer>, remainder: Bytes)

  function Min(a: nat, b: nat): nat {
    if a < b then a else b
  }

  /** How one pass of the loop ends: with a result, or with bytes still to look at. */
  datatype Pass =
    | Stop(r: Reception)
    | Again(buffer: Bytes, taken: Bytes, rest: Bytes, later: Bytes)

  /** One pass: fill the buffer behind the remainder, offer it, keep what was not consumed. */
  function OnePass(remainder: Bytes, data: Bytes, tick: nat, consume: Consumer, maxPacket: nat): (p: Pass)
    ensures p.Again? ==> 0 < |p.rest| + |p.later| < |remainder| + |data|
  {
    if |remainder| > maxPacket then Stop(Reception(Overflow, [], remainder))
    else
      var copyLen := Min(|data|, maxPacket - |remainder|);
      var buffer, later := remainder + data[..copyLen], data[copyLen..];
      var consumed := consume(tick, buffer);
      if consumed < 0 || consumed > |buffer| then Stop(Reception(InvalidOperation, [Offer(buffer, [])], remainder))
      else
        var taken, rest := buffer[..consumed], buffer[consumed..];
        if consumed == 0 && |buffer| == maxPacket && later != [] then
          Stop(Reception(Overflow, [Offer(buffer, [])], rest))
        else if later == [] && (consumed == 0 || rest == []) then
          Stop(Reception(Ok, [Offer(buffer, taken)], rest))
        else
          Again(buffer, taken, rest, later)
  }

  /** A pass that goes on only moves bytes: the buffer splits into its consumed part and the rest. */
  lemma AgainSplits(remainder: Bytes, data: Bytes, tick: nat, consume: Consumer, maxPacket: nat)
    requires OnePass(remainder, data, tick, consume, maxPacket).Again?
    ensures var p := OnePass(remainder, data, tick, consume, maxPacket); var c := consume(tick, p.buffer);
            && 0 < c <= |p.buffer| <= maxPacket
            && p.taken == p.buffer[..c] && p.rest == p.buffer[c..]
            && p.buffer == p.taken + p.rest
            && p.buffer + p.later == remainder + data
  {
  }

  lemma OkTakesAll(remainder: Bytes, data: Bytes, tick: nat, consume: Consumer, maxPacket: nat)
    requires OnePass(remainder, data, tick, consume, maxPacket).Stop?
    requires OnePass(remainder, data, tick, consume, maxPacket).r.status == Ok
    ensures var r := OnePass(remainder, data, tick, consume, maxPacket).r;
            |r.offers| == 1 && r.offers[0].taken + r.remainder == remainder + data
  {
  }

  /** The stream loop over the remainder and the bytes of `data` not yet copied. */
  function Receive(remainder: Bytes, data: Bytes, tick: nat, consume: Consumer, maxPacket: nat): Reception
    decreases |remainder| + |data|
  {
    match OnePass(remainder, data, tick, consume, maxPacket)
    case Stop(r) => r
    case Again(buffer, taken, rest, later) =>
      After([Offer(buffer, taken)], Receive(rest, later, tick + 1, consume, maxPacket))
  }

  function After(offers: seq<Offer>, r: Reception): Reception {
    r.(offers := offers + r.offers)
  }

  lemma NextPass(goal: Reception, offers: seq<Offer>,
                 remainder: Bytes, data: Bytes, tick: nat, consume: Consumer, maxPacket: nat)
      returns (pass: Pass, left: Reception)
    requires goal == After(offers, Receive(remainder, data, tick, consume, maxPacket))
    ensures pass == OnePass(remainder, data, tick, consume, maxPacket)
    ensures pass.Stop? ==> goal == After(offers, pass.r)
    ensures pass.Again? ==> |pass.rest| + |pass.later| < |remainder| + |data|
    ensures pass.Again? ==> left == Receive(pass.rest, pass.later, tick + 1, consume, maxPacket)
    ensures pass.Again? ==> goal == After(offers + [Offer(pass.buffer, pass.taken)], left)
  {
    left := goal;
    pass := OnePass(remainder, data, tick, consume, maxPacket);
    match pass
    case Stop(r) =>
    case Again(buffer, taken, rest, later) =>
      left := Receive(rest, later, tick + 1, consume, maxPacket);
      ConcatAssociative(offers, [Offer(buffer, taken)], left.offers);
  }

  /** Whatever the consumer answers, no empty or oversized buffer is offered and the remainder stays within a packet. */
  lemma {:induction false} AnyConsumerBounds(remainder: Bytes, data: Bytes, tick: nat, consume: Consumer, maxPacket: nat)
    requires 0 < |remainder| + |data|
    requires |remainder| <= maxPacket && 0 < maxPacket
    ensures var r := Receive(remainder, data, tick, consume, maxPacket);
            && (forall o :: o in r.offers ==> 0 < |o.buffer| <= maxPacket)
            && |r.remainder| <= maxPacket
    decreases |remainder| + |data|
  {
    match OnePass(remainder, data, tick, consume, maxPacket)
    case Stop(r) =>
    case Again(buffer, taken, rest, later) =>
      AgainSplits(remainder, data, tick, consume, maxPacket);
      AnyConsumerBounds(rest, later, tick + 1, consume, maxPacket);
  }

  /** All bytes consumed, in order. */
  function Taken(offers: seq<Offer>): Bytes {
    if offers == [] then [] else offers[0].taken + Taken(offers[1..])
  }

  /** Whatever the consumer answers, a successful call accounts for every byte, in order. */
  lemma {:induction false} AnyConsumerConserves(remainder: Bytes, data: Bytes, tick: nat, consume: Consumer, maxPacket: nat)
    ensures var r := Receive(remainder, data, tick, consume, maxPacket);
            && (forall o :: o in r.offers ==> o.taken <= o.buffer)
            && (r.status == Ok ==> Taken(r.offers) + r.remainder == remainder + data)
    decreases |remainder| + |data|
  {
    var pass := OnePass(remainder, data, tick, consume, maxPacket);
    if pass.Stop? {
      if pass.r.status == Ok {
        OkTakesAll(remainder, data, tick, consume, maxPacket);
        TakenCons(pass.r.offers[0], []);
      }
    } else {
      AgainSplits(remainder, data, tick, consume, maxPacket);
      AnyConsumerConserves(pass.rest, pass.later, tick + 1, consume, maxPacket);
      var r := Receive(pass.rest, pass.later, tick + 1, consume, maxPacket);
      TakenCons(Offer(pass.buffer, pass.taken), r.offers);
      ConcatAssociative(pass.taken, Taken(r.offers), r.remainder);
      ConcatAssociative(pass.taken, pass.rest, pass.later);
    }
  }

  /**
   Whatever the consumer answers, a successful call asks until nothing is left or the
   consumer takes nothing of what is left, and an overflow leaves a full buffer of which it takes nothing.
   */
  lemma {:induction false} AsksUntilRefused(remainder: Bytes, data: Bytes, tick: nat, consume: Consumer, maxPacket: nat)
    requires |remainder| <= maxPacket
    ensures var r := Receive(remainder, data, tick, consume, maxPacket);
            && r.offers != []
            && var last := r.offers[|r.offers| - 1];
               && (r.status == Ok ==> r.remainder == [] || (last.taken == [] && last.buffer == r.remainder))
               && (r.status == Overflow ==> last.taken == [] && last.buffer == r.remainder && |r.remainder| == maxPacket)
               && (r.status != InvalidOperation ==> consume(tick + |r.offers| - 1, last.buffer) == |last.taken|)
    decreases |remainder| + |data|
  {
    match OnePass(remainder, data, tick, consume, maxPacket)
    case Stop(r) =>
    case Again(buffer, taken, rest, later) =>
      AgainSplits(remainder, data, tick, consume, maxPacket);
      AsksUntilRefused(rest, later, tick + 1, consume, maxPacket);
  }

  lemma TakenCons(first: Offer, offers: seq<Offer>)
    ensures Taken([first] + offers) == first.taken + Taken(offers)
  {
    assert ([first] + offers)[1..] == offers;
  }

  /** The consumer that takes exactly the complete messages at the front of its buffer. */
  function FrontMessages(bodyLen: BodyRule): Consumer {
    (n: nat, buffer: Bytes) => |buffer| - |Frame(buffer, bodyLen).rest|
  }

  /** The messages that consumer handed on, buffer by buffer. */
  function Delivered(offers: seq<Offer>, bodyLen: BodyRule): seq<Bytes> {
    if offers == [] then [] else Frame(offers[0].buffer, bodyLen).messages + Delivered(offers[1..], bodyLen)
  }

  lemma DeliveredCons(first: Offer, offers: seq<Offer>, bodyLen: BodyRule)
    ensures Delivered([first] + offers, bodyLen) == Frame(first.buffer, bodyLen).messages + Delivered(offers, bodyLen)
  {
    assert ([first] + offers)[1..] == offers;
  }

  /** Framing that stops at the first message longer than a packet. */
  function FitFrame(s: Bytes, bodyLen: BodyRule, maxPacket: nat): (f: Framed)
    ensures |f.rest| <= |s|
    ensures MessageLength(f.rest, bodyLen).Some? ==> MessageLength(f.rest, bodyLen).value > maxPacket
    decreases |s|
  {
    match MessageLength(s, bodyLen)
    case None => Framed([], s)
    case Some(n) =>
      if n > maxPacket then Framed([], s)
      else
        var f := FitFrame(s[n..], bodyLen, maxPacket);
        Framed([s[..n]] + f.messages, f.rest)
  }

  /** Every message of the stream, and what is left over, fits in one packet. */
  predicate Fits(s: Bytes, bodyLen: BodyRule, maxPacket: nat) {
    |FitFrame(s, bodyLen, maxPacket).rest| <= maxPacket
  }

  lemma {:induction false} FitFrameIsFrame(s: Bytes, bodyLen: BodyRule, maxPacket: nat)
    requires Fits(s, bodyLen, maxPacket)
    ensures FitFrame(s, bodyLen, maxPacket) == Frame(s, bodyLen)
    decreases |s|
  {
    match MessageLength(s, bodyLen)
    case None =>
    case Some(n) =>
      if n <= maxPacket {
        FitFrameIsFrame(s[n..], bodyLen, maxPacket);
      }
  }

  lemma {:induction false} FitFrameAppend(s: Bytes, t: Bytes, bodyLen: BodyRule, maxPacket: nat)
    ensures var f := FitFrame(s, bodyLen, maxPacket); var g := FitFrame(f.rest + t, bodyLen, maxPacket);
            FitFrame(s + t, bodyLen, maxPacket) == Framed(f.messages + g.messages, g.rest)
    decreases |s|
  {
    var n := MessageLength(s, bodyLen);
    if n.Some? && n.value <= maxPacket {
      MessageLengthStable(s, t, bodyLen);
      assert (s + t)[..n.value] == s[..n.value] && (s + t)[n.value..] == s[n.value..] + t;
      FitFrameAppend(s[n.value..], t, bodyLen, maxPacket);
      var f := FitFrame(s[n.value..], bodyLen, maxPacket);
      var g := FitFrame(f.rest + t, bodyLen, maxPacket);
      ConcatAssociative([s[..n.value]], f.messages, g.messages);
    }
  }

  /** A stream stuck behind an oversized message stays stuck, however it continues. */
  lemma StuckStaysStuck(s: Bytes, t: Bytes, bodyLen: BodyRule, maxPacket: nat)
    requires FitFrame(s, bodyLen, maxPacket).messages == [] && |s| >= maxPacket
    ensures |s| + |t| > maxPacket ==> FitFrame(s + t, bodyLen, maxPacket) == Framed([], s + t)
    ensures |s| + |t| > maxPacket ==> FitFrame(s[..maxPacket] + t, bodyLen, maxPacket).messages == []
  {
    var n := MessageLength(s + t, bodyLen);
    assert (s + t)[..|s|] == s;
    if n.Some? && n.value <= maxPacket {
      MessageLengthPrefix(s + t, |s|, bodyLen);
    }
    var w := s[..maxPacket] + t;
    var m := MessageLength(w, bodyLen);
    assert w[..maxPacket] == s[..maxPacket];
    assert s[..maxPacket] + s[maxPacket..] == s;
    if m.Some? && m.value <= maxPacket {
      MessageLengthPrefix(w, maxPacket, bodyLen);
      MessageLengthStable(s[..maxPacket], s[maxPacket..], bodyLen);
    }
  }

  /** What the consumer leaves of a buffer is the leftover of framing it. */
  lemma FrontMessagesRest(buffer: Bytes, tick: nat, bodyLen: BodyRule)
    ensures 0 <= FrontMessages(bodyLen)(tick, buffer) <= |buffer|
    ensures buffer[FrontMessages(bodyLen)(tick, buffer)..] == Frame(buffer, bodyLen).rest
    ensures FrontMessages(bodyLen)(tick, buffer) == 0 ==> Frame(buffer, bodyLen) == Framed([], buffer)
  {
    var f := Frame(buffer, bodyLen);
    FrameConserves(buffer, bodyLen);
    assert (Flatten(f.messages) + f.rest)[|Flatten(f.messages)|..] == f.rest;
    if f.messages != [] {
      assert f.messages[0] == buffer[..MessageLength(buffer, bodyLen).value];
    }
  }

  lemma BufferFindsNext(buffer: Bytes, later: Bytes, bodyLen: BodyRule, maxPacket: nat)
    requires |buffer| <= maxPacket
    ensures var f := Frame(buffer, bodyLen); var g := FitFrame(f.rest + later, bodyLen, maxPacket);
            FitFrame(buffer + later, bodyLen, maxPacket) == Framed(f.messages + g.messages, g.rest)
  {
    FitFrameIsFrame(buffer, bodyLen, maxPacket);
    FitFrameAppend(buffer, later, bodyLen, maxPacket);
  }

  /** A pass that ends the loop has either looked at everything, or is stuck in front of a full buffer. */
  lemma StopCases(remainder: Bytes, data: Bytes, tick: nat, consume: Consumer, maxPacket: nat)
      returns (buffer: Bytes, later: Bytes)
    requires |remainder| <= maxPacket
    requires OnePass(remainder, data, tick, consume, maxPacket).Stop?
    ensures |buffer| <= maxPacket && buffer + later == remainder + data
    ensures var r, c := OnePass(remainder, data, tick, consume, maxPacket).r, consume(tick, buffer);
            && |r.offers| == 1 && r.offers[0].buffer == buffer
            && (0 <= c <= |buffer| ==>
                  && r.remainder == buffer[c..]
                  && (later == [] ==> r.status == Ok)
                  && (later != [] ==> r.status == Overflow && |buffer| == maxPacket && c == 0))
  {
    var copyLen := Min(|data|, maxPacket - |remainder|);
    buffer, later := remainder + data[..copyLen], data[copyLen..];
  }

  lemma FinalPassExact(remainder: Bytes, data: Bytes, tick: nat, bodyLen: BodyRule, maxPacket: nat)
    requires |remainder| <= maxPacket && 0 < maxPacket
    requires OnePass(remainder, data, tick, FrontMessages(bodyLen), maxPacket).Stop?
    ensures var r := OnePass(remainder, data, tick, FrontMessages(bodyLen), maxPacket).r;
            ExactFor(r, FitFrame(remainder + data, bodyLen, maxPacket), bodyLen, maxPacket)
  {
    var buffer, later := StopCases(remainder, data, tick, FrontMessages(bodyLen), maxPacket);
    FrontMessagesRest(buffer, tick, bodyLen);
    FitFrameIsFrame(buffer, bodyLen, maxPacket);
    if later == [] {
      assert buffer == remainder + data;
    } else {
      StuckStaysStuck(buffer, later, bodyLen, maxPacket);
      assert (buffer + later)[..maxPacket] == buffer;
    }
  }

  predicate ExactFor(r: Reception, f: Framed, bodyLen: BodyRule, maxPacket: nat) {
    && Delivered(r.offers, bodyLen) == f.messages
    && r.status == (if |f.rest| <= maxPacket then Ok else Overflow)
    && r.remainder == f.rest[..Min(|f.rest|, maxPacket)]
  }

  lemma ExactForCons(first: Offer, r: Reception, g: Framed, bodyLen: BodyRule, maxPacket: nat)
    requires ExactFor(r, g, bodyLen, maxPacket)
    ensures ExactFor(After([first], r), Framed(Frame(first.buffer, bodyLen).messages + g.messages, g.rest), bodyLen, maxPacket)
  {
    DeliveredCons(first, r.offers, bodyLen);
  }

  /**
   One receive call, exactly: it delivers the messages of remainder and data up to
   the first that does not fit a packet, and succeeds if and only if all of them,
   and the leftover, do. On success the leftover is the new remainder.
   */
  lemma {:induction false} ReceiveExact(remainder: Bytes, data: Bytes, tick: nat, bodyLen: BodyRule, maxPacket: nat)
    requires |remainder| <= maxPacket && 0 < maxPacket
    ensures ExactFor(Receive(remainder, data, tick, FrontMessages(bodyLen), maxPacket),
                     FitFrame(remainder + data, bodyLen, maxPacket), bodyLen, maxPacket)
    decreases |remainder| + |data|
  {
    var pass := OnePass(remainder, data, tick, FrontMessages(bodyLen), maxPacket);
    if pass.Stop? {
      FinalPassExact(remainder, data, tick, bodyLen, maxPacket);
    } else {
      AgainSplits(remainder, data, tick, FrontMessages(bodyLen), maxPacket);
      ReceiveExact(pass.rest, pass.later, tick + 1, bodyLen, maxPacket);
      AgainExact(remainder, data, tick, bodyLen, maxPacket, pass,
                 Receive(pass.rest, pass.later, tick + 1, FrontMessages(bodyLen), maxPacket));
    }
  }

  lemma AgainExact(remainder: Bytes, data: Bytes, tick: nat, bodyLen: BodyRule, maxPacket: nat, pass: Pass, r: Reception)
    requires pass.Again? && pass == OnePass(remainder, data, tick, FrontMessages(bodyLen), maxPacket)
    requires ExactFor(r, FitFrame(pass.rest + pass.later, bodyLen, maxPacket), bodyLen, maxPacket)
    ensures ExactFor(After([Offer(pass.buffer, pass.taken)], r), FitFrame(remainder + data, bodyLen, maxPacket), bodyLen, maxPacket)
  {
    FrontMessagesRest(pass.buffer, tick, bodyLen);
    AgainSplits(remainder, data, tick, FrontMessages(bodyLen), maxPacket);
    BufferFindsNext(pass.buffer, pass.later, bodyLen, maxPacket);
    ExactForCons(Offer(pass.buffer, pass.taken), r, FitFrame(pass.rest + pass.later, bodyLen, maxPacket), bodyLen, maxPacket);
  }

  /** The receive calls of one association: the status of each, the messages handed on, the remainder left. */
  datatype Session = Session(statuses: seq<Status>, delivered: seq<Bytes>, remainder: Bytes)

  predicate AllOk(statuses: seq<Status>) {
    forall i :: 0 <= i < |statuses| ==> statuses[i] == Ok
  }

  /** What a call keeps of the bytes behind the last message. */
  function Carried(f: Framed, maxPacket: nat): Bytes {
    f.rest[..Min(|f.rest|, maxPacket)]
  }

  /** Resuming from what a call keeps finds the messages that the joined stream continues with. */
  lemma ResumeFromCarried(first: Bytes, later: Bytes, bodyLen: BodyRule, maxPacket: nat)
    ensures var f := FitFrame(first, bodyLen, maxPacket);
            var g := FitFrame(Carried(f, maxPacket) + later, bodyLen, maxPacket);
            var whole := FitFrame(first + later, bodyLen, maxPacket);
            && FitFrame(Carried(f, maxPacket), bodyLen, maxPacket).messages == []
            && whole.messages == f.messages + g.messages
            && (|f.rest| <= maxPacket ==> whole.rest == g.rest)
            && (|f.rest| > maxPacket ==> |whole.rest| > maxPacket)
            && Carried(whole, maxPacket) == Carried(g, maxPacket)
  {
    var f := FitFrame(first, bodyLen, maxPacket);
    FitFrameAppend(first, later, bodyLen, maxPacket);
    RemainderHasNoMessage(f, bodyLen, maxPacket);
    if |f.rest| > maxPacket {
      StuckStaysStuck(f.rest, later, bodyLen, maxPacket);
    } else {
      assert Carried(f, maxPacket) == f.rest;
    }
  }

  /** The calls of a session did what framing `f` of the whole stream calls for. */
  predicate SessionExact(s: Session, f: Framed, maxPacket: nat) {
    && s.delivered == f.messages
    && (AllOk(s.statuses) <==> |f.rest| <= maxPacket)
    && s.remainder == Carried(f, maxPacket)
  }

  /**
   A whole stream, one receive call per chunk, exactly: however it is cut into
   chunks, the loop delivers the messages of the stream up to the first that does
   not fit a packet, keeps the bytes behind them up to one packet, and every call
   succeeds if and only if the whole stream fits.
   */
  function ReceiveAll(remainder: Bytes, chunks: seq<Bytes>, tick: nat, bodyLen: BodyRule, maxPacket: nat): (s: Session)
    requires |remainder| <= maxPacket && 0 < maxPacket
    requires FitFrame(remainder, bodyLen, maxPacket).messages == []
    ensures SessionExact(s, FitFrame(remainder + Flatten(chunks), bodyLen, maxPacket), maxPacket)
    decreases |chunks|
  {
    if chunks == [] then
      assert remainder + Flatten(chunks) == remainder;
      Session([], [], remainder)
    else
      assert remainder + Flatten(chunks) == (remainder + chunks[0]) + Flatten(chunks[1..]);
      ReceiveExact(remainder, chunks[0], tick, bodyLen, maxPacket);
      ResumeFromCarried(remainder + chunks[0], Flatten(chunks[1..]), bodyLen, maxPacket);
      var r := Receive(remainder, chunks[0], tick, FrontMessages(bodyLen), maxPacket);
      var later := ReceiveAll(r.remainder, chunks[1..], tick + |r.offers|, bodyLen, maxPacket);
      AllOkCons(r.status, later.statuses);
      Session([r.status] + later.statuses, Delivered(r.offers, bodyLen) + later.delivered, later.remainder)
  }

  lemma AllOkCons(first: Status, later: seq<Status>)
    ensures AllOk([first] + later) <==> first == Ok && AllOk(later)
  {
    var all := [first] + later;
    assert all[0] == first && forall i :: 0 <= i < |later| ==> all[i + 1] == later[i];
  }

  lemma RemainderHasNoMessage(f: Framed, bodyLen: BodyRule, maxPacket: nat)
    requires MessageLength(f.rest, bodyLen).Some? ==> MessageLength(f.rest, bodyLen).value > maxPacket
    ensures FitFrame(f.rest[..Min(|f.rest|, maxPacket)], bodyLen, maxPacket).messages == []
  {
    var w := Min(|f.rest|, maxPacket);
    if MessageLength(f.rest[..w], bodyLen).Some? {
      assert f.rest[..w] + f.rest[w..] == f.rest;
      MessageLengthStable(f.rest[..w], f.rest[w..], bodyLen);
    }
  }

  /** A stream that is a prefix of messages that each fit a packet fits, so it never overflows. */
  lemma {:induction false} PrefixOfMessagesFits(stream: Bytes, messages: seq<Bytes>, bodyLen: BodyRule, maxPacket: nat)
    requires stream <= Flatten(messages)
    requires forall m :: m in messages ==> IsMessage(m, bodyLen) && |m| <= maxPacket
    ensures Fits(stream, bodyLen, maxPacket)
    decreases |messages|
  {
    if messages != [] {
      var m := messages[0];
      if |stream| >= |m| {
        assert m in messages && stream[..|m|] == m;
        MessageLengthStable(m, stream[|m|..], bodyLen);
        assert m + stream[|m|..] == stream;
        assert stream[|m|..] <= Flatten(messages[1..]);
        PrefixOfMessagesFits(stream[|m|..], messages[1..], bodyLen, maxPacket);
      } else if MessageLength(stream, bodyLen).Some? {
        MessageLengthStable(stream, m[|stream|..], bodyLen);
        assert stream + m[|stream|..] == m;
      }
    }
  }

  /**
   Streams of well-sized messages, cut anywhere and stopped anywhere, are delivered
   without overflow as the very messages that framing the whole stream gives.
   */
  lemma WellSizedStreamIsDelivered(chunks: seq<Bytes>, messages: seq<Bytes>, bodyLen: BodyRule, maxPacket: nat)
    requires 0 < maxPacket
    requires Flatten(chunks) <= Flatten(messages)
    requires forall m :: m in messages ==> IsMessage(m, bodyLen) && |m| <= maxPacket
    ensures var s := ReceiveAll([], chunks, 0, bodyLen, maxPacket);
            && AllOk(s.statuses)
            && Framed(s.delivered, s.remainder) == Frame(Flatten(chunks), bodyLen)
            && s.delivered <= messages
  {
    var stream := Flatten(chunks);
    PrefixOfMessagesFits(stream, messages, bodyLen, maxPacket);
    FitFrameIsFrame(stream, bodyLen, maxPacket);
    assert [] + stream == stream;
    FrameOfPrefix(stream, messages, bodyLen);
    ExactSession(ReceiveAll([], chunks, 0, bodyLen, maxPacket), Frame(stream, bodyLen), maxPacket);
  }

  lemma ExactSession(s: Session, f: Framed, maxPacket: nat)
    requires SessionExact(s, f, maxPacket) && |f.rest| <= maxPacket
    ensures AllOk(s.statuses) && Framed(s.delivered, s.remainder) == f
  {
  }

  lemma FrameOfPrefix(stream: Bytes, messages: seq<Bytes>, bodyLen: BodyRule)
    requires stream <= Flatten(messages)
    requires forall m :: m in messages ==> IsMessage(m, bodyLen)
    ensures Frame(stream, bodyLen).messages <= messages
  {
    var tail := Flatten(messages)[|stream|..];
    calc {
      Frame(stream, bodyLen).messages;
      <= { FrameAppend(stream, tail, bodyLen); }
      Frame(stream + tail, bodyLen).messages;
      == { assert stream + tail == Flatten(messages) + []; }
      Frame(Flatten(messages) + [], bodyLen).messages;
      == { FrameOfMessages(messages, [], bodyLen); }
      messages + [];
      == messages;
    }
  }

  /**
   The two framers together. The socket reader cuts the stream into messages, the
   bounded channel may drop any of them, and each one kept reaches the receive
   loop as one packet. Losing messages never desynchronises the loop: exactly the
   kept messages are delivered, and nothing is ever carried over.
   */
  lemma {:induction false} KeptMessagesAreDelivered(kept: seq<Bytes>, tick: nat, bodyLen: BodyRule, maxPacket: nat)
    requires 0 < maxPacket
    requires forall m :: m in kept ==> IsMessage(m, bodyLen) && |m| <= maxPacket
    ensures var s := ReceiveAll([], kept, tick, bodyLen, maxPacket);
            AllOk(s.statuses) && s.delivered == kept && s.remainder == []
  {
    PrefixOfMessagesFits(Flatten(kept), kept, bodyLen, maxPacket);
    FitFrameIsFrame(Flatten(kept), bodyLen, maxPacket);
    FrameOfMessages(kept, [], bodyLen);
    assert Flatten(kept) + [] == Flatten(kept) == [] + Flatten(kept);
    assert kept + [] == kept;
  }

  /** A datagram is offered once and must be consumed whole. */
  function ReceiveDatagram(data: Bytes, tick: nat, consume: Consumer, maxPacket: nat): Status {
    if |data| > maxPacket then Overflow
    else if consume(tick, data) == |data| then Ok
    else InvalidOperation
  }

  /** A datagram that does not fit is refused, and one that fits must be consumed to its last byte. */
  lemma DatagramExactly(data: Bytes, tick: nat, consume: Consumer, maxPacket: nat)
    ensures |data| > maxPacket <==> ReceiveDatagram(data, tick, consume, maxPacket) == Overflow
    ensures ReceiveDatagram(data, tick, consume, maxPacket) == Ok <==> |data| <= maxPacket && consume(tick, data) == |data|
    ensures ReceiveDatagram(data, tick, consume, maxPacket) in {Ok, Overflow, InvalidOperation}
  {
  }

  /** One association's transport, with the receive buffer it shares with the runtime. */
  class CustomTransport {
    const datagram: bool
    const maxPacket: nat
    const packet: array<byte>
    var remainder: array<byte>
    var remainderLen: nat
    var packetsOffered: nat

    ghost predicate Valid()
      reads this
    {
      0 < maxPacket == packet.Length && remainderLen <= remainder.Length && packet != remainder
    }

    ghost function Remainder(): Bytes
      requires Valid()
      reads this, remainder
    {
      remainder[..remainderLen]
    }

    constructor (datagram: bool, maxPacket: nat)
      requires 0 < maxPacket
      ensures Valid() && Remainder() == [] && fresh(packet) && fresh(remainder)
      ensures this.datagram == datagram && this.maxPacket == maxPacket
    {
      this.datagram, this.maxPacket := datagram, maxPacket;
      packet := new byte[maxPacket];
      remainder := new byte[0];
      remainderLen, packetsOffered := 0, 0;
    }

    /** Keeps `len` bytes of the receive buffer, growing the store only when they do not fit. */
    method SaveRemainder(start: nat, len: nat)
      requires Valid() && start + len <= packet.Length
      modifies this`remainder, this`remainderLen, remainder
      ensures Valid() && (remainder == old(remainder) || fresh(remainder))
      ensures Remainder() == old(packet[start..start + len])
    {
      if len == 0 {
        remainderLen := 0;
        return;
      }
      if remainder.Length < len {
        remainder := new byte[len];
      }
      forall i | 0 <= i < len {
        remainder[i] := packet[start + i];
      }
      remainderLen := len;
    }

    /** Offers the first `len` bytes of the receive buffer to PJSIP and checks its answer. */
    method DeliverReceiveBuffer(len: nat, consume: Consumer) returns (status: Status, consumed: nat)
      requires Valid() && len <= packet.Length
      modifies this`packetsOffered
      ensures packetsOffered == old(packetsOffered) + 1
      ensures var c := consume(old(packetsOffered), packet[..len]);
              if 0 <= c <= len then status == Ok && consumed == c else status == InvalidOperation && consumed == 0
    {
      var processed := consume(packetsOffered, packet[..len]);
      packetsOffered := packetsOffered + 1;
      if processed < 0 || processed > len {
        return InvalidOperation, 0;
      }
      return Ok, processed;
    }

    /** Copies the remainder and then as much new data as fits behind it into the receive buffer. */
    method FillBuffer(data: Bytes) returns (copyLen: nat)
      requires Valid() && remainderLen <= maxPacket
      modifies packet
      ensures copyLen == Min(|data|, maxPacket - remainderLen)
      ensures packet[..remainderLen + copyLen] == Remainder() + data[..copyLen]
    {
      forall i | 0 <= i < remainderLen {
        packet[i] := remainder[i];
      }
      copyLen := |data|;
      if copyLen > maxPacket - remainderLen {
        copyLen := maxPacket - remainderLen;
      }
      forall i | 0 <= i < copyLen {
        packet[remainderLen + i] := data[i];
      }
    }

    /** One pass of the reassembly loop over the data not yet copied. */
    method ReceivePass(data: Bytes, consume: Consumer, ghost pass: Pass)
        returns (finished: bool, status: Status, later: Bytes, ghost offers: seq<Offer>)
      requires Valid() && pass == OnePass(Remainder(), data, packetsOffered, consume, maxPacket)
      modifies this`remainder, this`remainderLen, this`packetsOffered, remainder, packet
      ensures Valid() && (remainder == old(remainder) || fresh(remainder))
      ensures finished ==> pass == Stop(Reception(status, offers, Remainder()))
      ensures !finished ==> pass.Again? && offers == [Offer(pass.buffer, pass.taken)]
      ensures !finished ==> pass.Again? && pass.rest == Remainder() && pass.later == later
      ensures !finished ==> packetsOffered == old(packetsOffered) + 1
    {
      if remainderLen > maxPacket {
        return true, Overflow, data, [];
      }
      var copyLen := FillBuffer(data);
      var combinedLen := remainderLen + copyLen;
      ghost var buffer := packet[..combinedLen];
      var delivered, consumed := DeliverReceiveBuffer(combinedLen, consume);
      if delivered != Ok {
        return true, delivered, data, [Offer(buffer, [])];
      }
      SaveRemainder(consumed, combinedLen - consumed);
      assert Remainder() == buffer[consumed..];
      later := data[copyLen..];
      if consumed == 0 && combinedLen == maxPacket && |later| > 0 {
        return true, Overflow, later, [Offer(buffer, [])];
      }
      finished := |later| == 0 && (consumed == 0 || remainderLen == 0);
      return finished, Ok, later, [Offer(buffer, buffer[..consumed])];
    }

    /** A pass takes the loop towards its goal, or ends it there. */
    method StreamPass(data: Bytes, consume: Consumer, ghost goal: Reception, ghost before: seq<Offer>)
        returns (finished: bool, status: Status, later: Bytes, ghost offers: seq<Offer>)
      requires Valid() && goal == After(before, Receive(Remainder(), data, packetsOffered, consume, maxPacket))
      modifies this`remainder, this`remainderLen, this`packetsOffered, remainder, packet
      ensures Valid() && (remainder == old(remainder) || fresh(remainder))
      ensures finished ==> goal == Reception(status, offers, Remainder())
      ensures !finished ==> goal == After(offers, Receive(Remainder(), later, packetsOffered, consume, maxPacket))
      ensures !finished ==> remainderLen + |later| < old(remainderLen) + |data|
    {
      ghost var pass, left := NextPass(goal, before, Remainder(), data, packetsOffered, consume, maxPacket);
      ghost var made;
      finished, status, later, made := ReceivePass(data, consume, pass);
      offers := before + made;
    }

    /** Receives one stream packet: passes until the data is used up or the buffer is stuck. */
    method ReceiveStream(data: Bytes, consume: Consumer) returns (status: Status, ghost offers: seq<Offer>)
      requires Valid()
      modifies this`remainder, this`remainderLen, this`packetsOffered, remainder, packet
      ensures Valid() && (remainder == old(remainder) || fresh(remainder))
      ensures Reception(status, offers, Remainder())
           == Receive(old(Remainder()), data, old(packetsOffered), consume, maxPacket)
    {
      ghost var goal := Receive(Remainder(), data, packetsOffered, consume, maxPacket);
      var finished, later := false, data;
      offers, status := [], Ok;
      while !finished
        invariant Valid() && (remainder == old(remainder) || fresh(remainder))
        invariant !finished ==> goal == After(offers, Receive(Remainder(), later, packetsOffered, consume, maxPacket))
        invariant finished ==> goal == Reception(status, offers, Remainder())
        decreases !finished, remainderLen + |later|
      {
        finished, status, later, offers := StreamPass(later, consume, goal, offers);
      }
    }

    /** Receives one datagram, which must fit the buffer and be consumed whole. */
    method ReceiveWhole(data: Bytes, consume: Consumer) returns (status: Status, ghost offers: seq<Offer>)
      requires Valid()
      modifies this`packetsOffered, packet
      ensures status == ReceiveDatagram(data, old(packetsOffered), consume, maxPacket)
      ensures |data| > maxPacket ==> status == Overflow && offers == []
      ensures |data| <= maxPacket ==>
                && |offers| == 1 && offers[0].buffer == data
                && status == if consume(old(packetsOffered), data) == |data| then Ok else InvalidOperation
    {
      if |data| > maxPacket {
        return Overflow, [];
      }
      forall i | 0 <= i < |data| {
        packet[i] := data[i];
      }
      assert packet[..|data|] == data;
      var delivered, consumed := DeliverReceiveBuffer(|data|, consume);
      return if delivered == Ok && consumed == |data| then Ok else InvalidOperation, [Offer(data, data[..consumed])];
    }

    /** Receives one packet of the association. */
    method ReceiveOnTransport(data: Bytes, consume: Consumer) returns (status: Status, ghost offers: seq<Offer>)
      requires Valid()
      modifies this`remainder, this`remainderLen, this`packetsOffered, remainder, packet
      ensures Valid() && (remainder == old(remainder) || fresh(remainder))
      ensures data == [] ==> status == InvalidArgument && offers == [] && Remainder() == old(Remainder())
      ensures data != [] && datagram ==>
                && status == ReceiveDatagram(data, old(packetsOffered), consume, maxPacket)
                && |offers| == (if |data| > maxPacket then 0 else 1) && (offers != [] ==> offers[0].buffer == data)
                && Remainder() == old(Remainder())
      ensures data != [] && !datagram ==>
                Reception(status, offers, Remainder()) == Receive(old(Remainder()), data, old(packetsOffered), consume, maxPacket)
    {
      offers := [];
      if |data| == 0 {
        return InvalidArgument, [];
      }
      if datagram {
        status, offers := ReceiveWhole(data, consume);
      } else {
        status, offers := ReceiveStream(data, consume);
      }
    }
  }
}
