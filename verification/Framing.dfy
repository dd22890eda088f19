/**
 SIP message framing on a TCP byte stream, as done by the socket reader task:
 a message is a header block ended by the first CRLF CRLF, followed by as many
 body bytes as its header block announces (section 18.3 of RFC 3261).

 Everything here is stated for an arbitrary rule `bodyLen` that maps a header
 block to its announced body length; `ContentLength.Announced` is the rule the reader uses.
 */
module Framing {
  import opened Lists

  type byte = b: int | 0 <= b < 256
  type Bytes = seq<byte>
  type BodyRule = Bytes -> nat

  /** The messages cut from the front of a stream and the bytes left over. */
  datatype Framed = Framed(messages: seq<Bytes>, rest: Bytes)

  const CR: byte := 13
  const LF: byte := 10

  predicate DelimiterAt(s: Bytes, i: nat) {
    i + 3 < |s| && s[i] == CR && s[i + 1] == LF && s[i + 2] == CR && s[i + 3] == LF
  }

  /** The position of the first CRLF CRLF at or after `i`. */
  function HeaderEnd(s: Bytes, i: nat := 0): (r: Option<nat>)
    ensures r.Some? ==> i <= r.value && DelimiterAt(s, r.value)
    ensures r.Some? ==> forall k :: i <= k < r.value ==> !DelimiterAt(s, k)
    ensures r.None? ==> forall k :: i <= k ==> !DelimiterAt(s, k)
    decreases |s| - i
  {
    if |s| <= i + 3 then None
    else if DelimiterAt(s, i) then Some(i)
    else HeaderEnd(s, i + 1)
  }

  /** The length of the complete message at the front of `s`, if there is one. */
  function MessageLength(s: Bytes, bodyLen: BodyRule): (r: Option<nat>)
    ensures r.Some? ==> 4 <= r.value <= |s|
  {
    match HeaderEnd(s)
    case None => None
    case Some(h) =>
      var n := h + 4 + bodyLen(s[..h]);
      if n <= |s| then Some(n) else None
  }

  /** Cuts every complete message from the front of `s`. */
  function Frame(s: Bytes, bodyLen: BodyRule): (f: Framed)
    ensures MessageLength(f.rest, bodyLen).None?
    decreases |s|
  {
    match MessageLength(s, bodyLen)
    case None => Framed([], s)
    case Some(n) =>
      var f := Frame(s[n..], bodyLen);
      Framed([s[..n]] + f.messages, f.rest)
  }

  /** No byte is lost, invented or moved: the messages followed by the leftover are the stream. */
  lemma {:induction false} FrameConserves(s: Bytes, bodyLen: BodyRule)
    ensures Flatten(Frame(s, bodyLen).messages) + Frame(s, bodyLen).rest == s
    decreases |s|
  {
    match MessageLength(s, bodyLen)
    case None =>
    case Some(n) =>
      var f := Frame(s[n..], bodyLen);
      FrameConserves(s[n..], bodyLen);
      FlattenCons(s[..n], f.messages);
      ConcatAssociative(s[..n], Flatten(f.messages), f.rest);
  }

  function Flatten(parts: seq<Bytes>): Bytes {
    if parts == [] then [] else parts[0] + Flatten(parts[1..])
  }

  lemma FlattenCons(first: Bytes, parts: seq<Bytes>)
    ensures Flatten([first] + parts) == first + Flatten(parts)
  {
    assert ([first] + parts)[1..] == parts;
  }

  /** A message recognised at the front of a stream stays recognised when bytes are appended ... */
  lemma MessageLengthStable(s: Bytes, t: Bytes, bodyLen: BodyRule)
    requires MessageLength(s, bodyLen).Some?
    ensures MessageLength(s + t, bodyLen) == MessageLength(s, bodyLen)
  {
    var h := HeaderEnd(s).value;
    assert DelimiterAt(s + t, h);
    assert forall k :: 0 <= k < h ==> DelimiterAt(s + t, k) == DelimiterAt(s, k);
    assert (s + t)[..h] == s[..h];
  }

  /** ... and when bytes behind it are taken away. */
  lemma MessageLengthPrefix(s: Bytes, m: nat, bodyLen: BodyRule)
    requires MessageLength(s, bodyLen).Some?
    requires MessageLength(s, bodyLen).value <= m <= |s|
    ensures MessageLength(s[..m], bodyLen) == MessageLength(s, bodyLen)
  {
    var h := HeaderEnd(s).value;
    assert DelimiterAt(s[..m], h);
    assert forall k :: 0 <= k < h ==> DelimiterAt(s[..m], k) == DelimiterAt(s, k);
    assert s[..m][..h] == s[..h];
  }

  /** Framing a longer stream resumes from the bytes left over so far. */
  lemma {:induction false} FrameAppend(s: Bytes, t: Bytes, bodyLen: BodyRule)
    ensures Frame(s + t, bodyLen)
         == Framed(Frame(s, bodyLen).messages + Frame(Frame(s, bodyLen).rest + t, bodyLen).messages,
                   Frame(Frame(s, bodyLen).rest + t, bodyLen).rest)
    decreases |s|
  {
    match MessageLength(s, bodyLen)
    case None =>
    case Some(n) =>
      MessageLengthStable(s, t, bodyLen);
      assert (s + t)[..n] == s[..n] && (s + t)[n..] == s[n..] + t;
      FrameAppend(s[n..], t, bodyLen);
      var f := Frame(s[n..], bodyLen);
      ConcatAssociative([s[..n]], f.messages, Frame(f.rest + t, bodyLen).messages);
  }

  /** Feeding the reader chunk by chunk: each chunk is appended to the buffer, then every complete message is cut. */
  function FeedAll(buffer: Bytes, chunks: seq<Bytes>, bodyLen: BodyRule): Framed
    decreases |chunks|
  {
    if chunks == [] then Framed([], buffer)
    else
      var f := Frame(buffer + chunks[0], bodyLen);
      var g := FeedAll(f.rest, chunks[1..], bodyLen);
      Framed(f.messages + g.messages, g.rest)
  }

  lemma {:induction false} FeedAllFromBuffer(buffer: Bytes, chunks: seq<Bytes>, bodyLen: BodyRule)
    requires MessageLength(buffer, bodyLen).None?
    ensures FeedAll(buffer, chunks, bodyLen) == Frame(buffer + Flatten(chunks), bodyLen)
    decreases |chunks|
  {
    if chunks == [] {
      assert buffer + Flatten(chunks) == buffer;
    } else {
      var s, t := buffer + chunks[0], Flatten(chunks[1..]);
      ConcatAssociative(buffer, chunks[0], t);
      FrameAppend(s, t, bodyLen);
      FeedAllFromBuffer(Frame(s, bodyLen).rest, chunks[1..], bodyLen);
    }
  }

  /**
   However the stream is cut into chunks, the reader hands on the same messages
   and keeps the same leftover, and together they are the bytes of the stream.
   */
  lemma ChunkingIsInvisible(chunks: seq<Bytes>, bodyLen: BodyRule)
    ensures FeedAll([], chunks, bodyLen) == Frame(Flatten(chunks), bodyLen)
    ensures Flatten(FeedAll([], chunks, bodyLen).messages) + FeedAll([], chunks, bodyLen).rest == Flatten(chunks)
  {
    FeedAllFromBuffer([], chunks, bodyLen);
    FrameConserves(Flatten(chunks), bodyLen);
    assert [] + Flatten(chunks) == Flatten(chunks);
  }

  /** A byte string that frames to itself and nothing else. */
  predicate IsMessage(m: Bytes, bodyLen: BodyRule) {
    MessageLength(m, bodyLen) == Some(|m|)
  }

  lemma FrameMessageFirst(m: Bytes, t: Bytes, bodyLen: BodyRule)
    requires IsMessage(m, bodyLen)
    ensures Frame(m + t, bodyLen) == Framed([m] + Frame(t, bodyLen).messages, Frame(t, bodyLen).rest)
  {
    MessageLengthStable(m, t, bodyLen);
    assert (m + t)[..|m|] == m && (m + t)[|m|..] == t;
  }

  /** Framing recovers exactly the messages a sender wrote one after another. */
  lemma {:induction false} FrameOfMessages(messages: seq<Bytes>, tail: Bytes, bodyLen: BodyRule)
    requires forall m :: m in messages ==> IsMessage(m, bodyLen)
    ensures Frame(Flatten(messages) + tail, bodyLen)
         == Framed(messages + Frame(tail, bodyLen).messages, Frame(tail, bodyLen).rest)
    decreases |messages|
  {
    if messages == [] {
      assert Flatten(messages) + tail == tail;
    } else {
      var t, f := Flatten(messages[1..]) + tail, Frame(tail, bodyLen);
      calc {
        Frame(Flatten(messages) + tail, bodyLen);
        { ConcatAssociative(messages[0], Flatten(messages[1..]), tail); }
        Frame(messages[0] + t, bodyLen);
        { FrameMessageFirst(messages[0], t, bodyLen); }
        Framed([messages[0]] + Frame(t, bodyLen).messages, Frame(t, bodyLen).rest);
        { FrameOfMessages(messages[1..], tail, bodyLen); }
        Framed([messages[0]] + (messages[1..] + f.messages), f.rest);
        { ConcatAssociative([messages[0]], messages[1..], f.messages); }
        Framed(messages + f.messages, f.rest);
      }
    }
  }

  lemma {:induction false} FramedAreMessages(s: Bytes, bodyLen: BodyRule)
    ensures forall m :: m in Frame(s, bodyLen).messages ==> IsMessage(m, bodyLen)
    decreases |s|
  {
    match MessageLength(s, bodyLen)
    case None =>
    case Some(n) =>
      MessageLengthPrefix(s, n, bodyLen);
      FramedAreMessages(s[n..], bodyLen);
  }

  /** The per-connection reader: a growing buffer from which complete messages are drained. */
  class StreamReader {
    var buffer: Bytes

    constructor ()
      ensures buffer == []
    {
      buffer := [];
    }

    /** Removes and returns the complete message at the front of the buffer, if any. */
    method NextSipMessage(bodyLen: BodyRule) returns (message: Option<Bytes>)
      modifies this
      ensures message.None? <==> MessageLength(old(buffer), bodyLen).None?
      ensures message.None? ==> buffer == old(buffer)
      ensures message.Some? ==> IsMessage(message.value, bodyLen) && message.value + buffer == old(buffer)
      ensures message.Some? ==> Some(|message.value|) == MessageLength(old(buffer), bodyLen)
    {
      var headerEnd := 0;
      while headerEnd + 3 < |buffer| && !DelimiterAt(buffer, headerEnd)
        invariant forall k :: 0 <= k < headerEnd ==> !DelimiterAt(buffer, k)
      {
        headerEnd := headerEnd + 1;
      }
      if |buffer| <= headerEnd + 3 {
        return None;
      }
      var messageLen := headerEnd + 4 + bodyLen(buffer[..headerEnd]);
      if |buffer| < messageLen {
        return None;
      }
      MessageLengthPrefix(buffer, messageLen, bodyLen);
      message := Some(buffer[..messageLen]);
      buffer := buffer[messageLen..];
    }

    /** One successful read: append the chunk, then drain every complete message. */
    method Receive(chunk: Bytes, bodyLen: BodyRule) returns (messages: seq<Bytes>)
      modifies this
      ensures Framed(messages, buffer) == Frame(old(buffer) + chunk, bodyLen)
    {
      buffer := buffer + chunk;
      ghost var stream := buffer;
      messages := [];
      FrameAppend([], stream, bodyLen);
      while true
        invariant Frame(stream, bodyLen)
               == Framed(messages + Frame(buffer, bodyLen).messages, Frame(buffer, bodyLen).rest)
        decreases |buffer|
      {
        ghost var before := buffer;
        var message := NextSipMessage(bodyLen);
        if message.None? {
          break;
        }
        assert before[..|message.value|] == message.value && before[|message.value|..] == buffer;
        ConcatAssociative(messages, [message.value], Frame(buffer, bodyLen).messages);
        messages := messages + [message.value];
      }
    }
  }
}
