# gmv_pjsip, verified

A Dafny model of the stateful core of `gmv_pjsip`: a Rust crate and a C shim that run a
GB28181 SIP signalling stack on PJSIP. The model covers what the two layers keep between
calls: bytes of a TCP stream, transports and pending sends, digest nonces, waiting
REGISTERs, call and subscription records, tracked operations, admission tables, the
retransmission cache, INVITE permits, the CSeq counter, and the text that leaves the C
side and comes back.

How it is arranged:

- Code that changes records in place is a class whose lists are `seq` fields; each method
  is proved equal to a function on values. What the system promises is then proved about
  those functions, mostly over every run of a state machine built from them, and where a
  class has a run invariant, its `Valid()` is that invariant.
- PJSIP itself is not modelled. What it may do is a parameter: the consumer of received
  bytes, the order and status of callbacks, the outcome of a send, the printed text of a URI.
- Clocks are parameters. Where a result needs a clock that does not go back, its steps say
  how long they waited; where it does not, the time of each step is arbitrary.
- Integers are unbounded except where a width is part of the behaviour (nonce counts, CSeq,
  ports, buffer sizes, `usize` body lengths).

| file | what it models |
|---|---|
| `Framing.dfy`, `ContentLength.dfy` | the socket reader's cutting of a TCP stream into messages |
| `Reassembly.dfy` | the shim's receive loop with its packet buffer and saved remainder |
| `Sends.dfy`, `Lifecycle.dfy` | transports, pending sends, and an association from accept to close |
| `OwnerThread.dfy`, `OwnerPoll.dfy` | the owner thread's lists and its turn over all queued commands |
| `Nonces.dfy`, `PendingAuth.dfy` | digest nonces with their usage records; REGISTERs waiting for a credential |
| `Holds.dfy`, `Operations.dfy` | lifetime of call and subscription records; one final response per operation |
| `Admission.dfy`, `AdmissionLists.dfy` | registered and recovery sources, register orders |
| `RecentRequests.dfy`, `Permits.dfy` | the retransmission cache; one-shot permits for incoming INVITEs |
| `Cseq.dfy`, `RouteSet.dfy`, `Sdp.dfy` | the CSeq allocator; the route set's round trip; SDP text |
| `Fields.dfy`, `Lists.dfy`, `Tables.dfy`, `Text.dfy`, `Decimal.dfy` | fixed-size fields, list unlinking, keyed lists, Rust's lines and words, decimal text |

Three properties do not hold as one might first state them, and are proved with the exact
condition instead:

- A call can wait for two operations at once. `TwoOutstandingExactly` shows that this happens
  exactly when a BYE is accepted while the INVITE or an INFO is on its way, or an INFO while any
  other operation of the call is; only a second BYE is ever refused as busy.
  `CancelledInviteTracksTwo` and `InfoAndByeTrackTwo` are such runs.
- A route set does not always come back. `RouteSet.RoundTripExactly` shows that it does exactly
  when every route is non-empty and free of NUL, CR and LF and together they fit the buffer;
  `CarriageReturnIsLost` is a family of route sets that come back changed.
- A built SDP does not always parse back. `Sdp.RoundTripExactly` shows that it does exactly when
  the address is a single word; `SpacedAddressIsLost` is one that is lost.

`BarsCollide` and `TwoRequestsOneKey` show why the key of the retransmission cache needs Call-IDs
and methods without `|`.

## Model

| member | source | states |
|---|---|---|
| `Framing.ChunkingIsInvisible` | src/io.rs:327-345 | feeding a stream in any chunks gives the messages and leftover of feeding it whole, and messages followed by leftover are the stream |
| `Framing.FrameConserves` | src/io.rs:406-414 | the messages cut from a buffer followed by what is left are the buffer |
| `Framing.FrameAppend` | src/io.rs:327-345 | framing a longer stream is framing its front, then the leftover with the rest |
| `Framing.FeedAllFromBuffer` | src/io.rs:327-345 | the same as chunking, starting from a buffer that already holds a partial message |
| `Framing.MessageLengthStable` | src/io.rs:406-414 | once a message is complete, later bytes never change where it ends |
| `Framing.FrameOfMessages` | src/io.rs:406-414 | messages written one after another are cut into exactly those messages |
| `Framing.FramedAreMessages` | src/io.rs:406-414 | everything that is cut off is one whole message by the length rule |
| `Framing.StreamReader.NextSipMessage` | src/io.rs:406-414 | drains the message at the front exactly if one is complete, and otherwise leaves the buffer alone |
| `Framing.StreamReader.Receive` | src/io.rs:327-345 | a read drains all complete messages of buffer and chunk and keeps the rest |
| `ContentLength.AnnouncedExactly` | src/io.rs:416-423 | any header that is valid UTF-8 announces what the first of its lines with a usable Content-Length declares, and no body without one |
| `ContentLength.DeclaredOf` | src/io.rs:416-423 | the field is read in any letter case and with any white space around the number |
| `ContentLength.WrittenMessageIsFramed` | src/io.rs:406-423 | header lines in UTF-8 and a body of the declared length are cut from the front of a stream as one message |
| `ContentLength.DecodeExactly` | src/io.rs:416-423 | bytes decode to a text exactly if they are its UTF-8 encoding, so a header is readable exactly if it encodes some text |
| `ContentLength.OtherFieldsDeclareNothing` | src/io.rs:416-423 | a line without a colon or with any other field name declares no length |
| `ContentLength.OneContentLength` | src/io.rs:416-423 | a header with one Content-Length among lines with other names announces that number |
| `ContentLength.NoContentLength` | src/io.rs:416-423 | a header without the field announces no body |
| `ContentLength.InvalidTextAnnouncesNothing` | src/io.rs:416-423 | a header that is not UTF-8 announces no body |
| `ContentLength.ParseSizeExactly` | src/io.rs:416-423 | a length is digits after an optional plus sign with a value that fits 64 bits |
| `ContentLength.LowerExactly` | src/io.rs:416-423 | lowering a name changes its capital ASCII letters and nothing else |
| `Reassembly.AnyConsumerBounds` | gmv_pjsip_sys/shim_transport.inc:719-773 | for any consumer the loop never offers an empty or oversized buffer and the remainder stays within one packet |
| `Reassembly.AnyConsumerConserves` | gmv_pjsip_sys/shim_transport.inc:719-773 | for any consumer, on success the consumed bytes followed by the new remainder are the old remainder followed by the data |
| `Reassembly.ReceiveExact` | gmv_pjsip_sys/shim_transport.inc:689-774 | one receive call delivers the messages up to the first that does not fit a packet, and succeeds exactly if all of them and the leftover fit |
| `Reassembly.ReceiveAll` | gmv_pjsip_sys/shim_transport.inc:689-774 | however a stream is cut into calls, the delivered messages, the remainder (also after an overflow) and whether any call overflows depend only on the whole stream |
| `Reassembly.WellSizedStreamIsDelivered` | gmv_pjsip_sys/shim_transport.inc:647-774 | a prefix of well-sized messages, in any chunks, never overflows and is delivered as framing it whole would give |
| `Reassembly.PrefixOfMessagesFits` | gmv_pjsip_sys/shim_transport.inc:719-773 | a prefix of well-sized messages never holds anything the packet buffer cannot |
| `Reassembly.KeptMessagesAreDelivered` | gmv_pjsip_sys/shim_transport.inc:647-774 | messages cut by the socket reader and kept by the lossy channel are delivered as they are, with nothing carried over |
| `Reassembly.StuckStaysStuck` | gmv_pjsip_sys/shim_transport.inc:719-773 | behind a message that does not fit, nothing more is delivered however the stream goes on |
| `Reassembly.CustomTransport.SaveRemainder` | gmv_pjsip_sys/shim_transport.inc:476-496 | keeps exactly the given bytes of the packet buffer as the remainder, growing the store only when they do not fit |
| `Reassembly.CustomTransport.DeliverReceiveBuffer` | gmv_pjsip_sys/shim_transport.inc:647-687 | offers the filled part of the buffer and takes a result outside 0..len for an error |
| `Reassembly.CustomTransport.FillBuffer` | gmv_pjsip_sys/shim_transport.inc:719-745 | puts the remainder and as much data as fits into the packet buffer |
| `Reassembly.CustomTransport.ReceivePass` | gmv_pjsip_sys/shim_transport.inc:719-773 | one turn of the loop is the specified pass |
| `Reassembly.CustomTransport.ReceiveStream` | gmv_pjsip_sys/shim_transport.inc:719-773 | the loop over arrays computes the specified reception |
| `Reassembly.CustomTransport.ReceiveWhole` | gmv_pjsip_sys/shim_transport.inc:701-717 | a datagram is offered once, must fit, and must be consumed whole |
| `Reassembly.CustomTransport.ReceiveOnTransport` | gmv_pjsip_sys/shim_transport.inc:689-774 | an empty packet is refused; datagrams and streams are told apart and handled, with the offers made, as above |
| `Reassembly.DatagramExactly` | gmv_pjsip_sys/shim_transport.inc:701-717 | a datagram overflows exactly if it does not fit, and succeeds exactly if it fits and is consumed whole |
| `Reassembly.AsksUntilRefused` | gmv_pjsip_sys/shim_transport.inc:719-773 | for any consumer a successful call asks until nothing is left or it takes nothing of what is left, and an overflow leaves a full buffer of which it takes nothing |
| `Sends.AddTransportInv` | gmv_pjsip_sys/shim_transport.inc:299-415 | creating a transport keeps list and accounts of the sends in order |
| `Sends.TransportSendInv` | gmv_pjsip_sys/shim_transport.inc:210-285 | a send takes one reference, and is undone completely if it is refused |
| `Sends.CloseTransportInv` | gmv_pjsip_sys/shim_transport.inc:433-474 | closing a transport settles each of its sends once and touches no other |
| `Sends.CompleteSendInv` | gmv_pjsip_sys/shim.c:1847-1876 | a completion settles the named send once, and an unknown one changes nothing |
| `Sends.SettleAllCounts` | gmv_pjsip_sys/shim_transport.inc:433-454 | failing a list of sends makes one callback and drops one reference for each |
| `Sends.CloseAllLeavesNothing` | gmv_pjsip_sys/shim.c:2082-2099 | closing all transports leaves nothing pending for the last drain loop |
| `Sends.SendExactly` | gmv_pjsip_sys/shim_transport.inc:210-285 | a send on a transport in service gets the next id and waits in front, and is gone again, without a callback, if the host refuses it; one that cannot go out changes nothing |
| `Sends.SendOnUnknown` | gmv_pjsip_sys/shim_transport.inc:210-285 | a send on a transport that is gone changes nothing |
| `Sends.CompleteExactly` | gmv_pjsip_sys/shim.c:1847-1876 | completing a pending send removes it and no other, and tells its callback the number it completed with |
| `Sends.CompleteUnknown` | gmv_pjsip_sys/shim.c:1847-1876 | completing any other send changes nothing |
| `Sends.CloseExactly` | gmv_pjsip_sys/shim_transport.inc:456-474 | a close removes the transport and its sends and no others, and tells each of their callbacks the status of the close |
| `Sends.CloseStatus` | gmv_pjsip_sys/shim_transport.inc:433-454 | a close without a failure status is reported as a shutdown |
| `Sends.AddExactly` | gmv_pjsip_sys/shim_transport.inc:299-415 | a new transport stands in front with a new id, in service |
| `Sends.FoundExactly` | gmv_pjsip_sys/shim_transport.inc:417-431 | a transport is found exactly if one serves the protocol and, for TCP, the association |
| `Lifecycle.ClosedLeavesNoTrace` | src/runtime.rs:683-757 | once an association's own close was processed, no transport, send, call or subscription of it exists then or ever again, in every interleaving and with dropped items |
| `Lifecycle.SendsSettleExactlyOnce` | gmv_pjsip_sys/shim_transport.inc:210-285 | in every run a callback is made and a reference dropped at most once, and exactly once by shutdown |
| `Lifecycle.SettledStaysSettled` | gmv_pjsip_sys/shim.c:1847-1876 | a late or repeated completion of a settled send changes nothing |
| `Lifecycle.RunIsGood` | src/io.rs:234-361 | every run keeps the order of receive and close items and the link from records to transports |
| `Lifecycle.DrainOrdered` | src/runtime.rs:683-757 | moving an item from the channel to the owner's queues never lets a receive follow its association's close |
| `Lifecycle.CloseBound` | gmv_pjsip_sys/shim.c:1551-1594 | a close takes the association's transport, calls and subscriptions together |
| `Lifecycle.ReceiveBound` | gmv_pjsip_sys/shim.c:1795-1845 | a receive makes at most one transport per association |
| `Lifecycle.StartExactly` | gmv_pjsip_sys/shim_transport.inc:299-415 | a new runtime has its UDP transport exactly if enabled, and nothing else |
| `Lifecycle.SocketSteps` | src/io.rs:234-361 | what a reader hands over goes to the end of the channel as long as there is room; its end also closes the association |
| `Lifecycle.DrainExactly` | src/runtime.rs:683-757 | the oldest item goes to the end of its queue; only a packet can be refused |
| `Lifecycle.ReceiveExactly` | gmv_pjsip_sys/shim.c:1795-1845 | a TCP packet leaves its association with a transport, made exactly if there was none, and touches nothing else |
| `Lifecycle.CloseExactly` | gmv_pjsip_sys/shim.c:1551-1594 | a close takes off exactly its association's calls and subscriptions, and nothing if the association is not served |
| `Lifecycle.CloseKeepsOthers` | gmv_pjsip_sys/shim.c:1878-1900 | transports, sends, calls and subscriptions of other associations outlive a close |
| `Lifecycle.OutboundExactly` | gmv_pjsip_sys/shim_command_dispatch.inc:76-93 | a call or subscription is made in front of its list exactly if its association is served |
| `Lifecycle.IncomingExactly` | gmv_pjsip_sys/shim.c:1735-1765 | a peer's INVITE makes a call on the association of its transport |
| `Lifecycle.DropExactly` | gmv_pjsip_sys/shim.c:1196-1230 | calls and subscriptions end one by one |
| `Lifecycle.BatchComesTo` | gmv_pjsip_sys/shim.c:1905-1952 | however the processing steps are tried, a batch comes to its completions, receives, closes, invites and subscribes in that order, each kind first in first out |
| `Lifecycle.ProcessingConserves` | gmv_pjsip_sys/shim.c:1905-1952 | no processing step changes what the batch will come to, nor touches a new command |
| `Lifecycle.ProcessingGoesOn` | gmv_pjsip_sys/shim.c:1905-1952 | as long as something is left of a batch, one kind can go on |
| `Lifecycle.CallbacksTellTheTruth` | gmv_pjsip_sys/shim_transport.inc:433-454 | in every run a callback that reports bytes reports a completion of that very send, and one that reports a failure the status of a close that was asked for or read |
| `OwnerThread.OwnerLists.FindServing` | gmv_pjsip_sys/shim_transport.inc:417-431 | finds a transport in service for protocol and association, exactly if there is one |
| `OwnerThread.OwnerLists.Send` | gmv_pjsip_sys/shim_transport.inc:210-285 | queues a send and takes it back if the host refuses it |
| `OwnerThread.OwnerLists.FailSends` | gmv_pjsip_sys/shim_transport.inc:433-454 | unlinks and settles in list order every send of one transport |
| `OwnerThread.OwnerLists.Close` | gmv_pjsip_sys/shim_transport.inc:456-474 | unlinks the transport and fails its sends |
| `OwnerThread.OwnerLists.Complete` | gmv_pjsip_sys/shim.c:1847-1876 | settles the send with the given id, if it is pending |
| `OwnerThread.OwnerLists.Release` | gmv_pjsip_sys/shim.c:2082-2099 | closes every transport; the drain that follows finds nothing |
| `OwnerThread.OwnerLists.CloseInvites` | gmv_pjsip_sys/shim.c:1551-1572 | unlinks exactly the association's calls |
| `OwnerThread.OwnerLists.CloseSubscriptions` | gmv_pjsip_sys/shim.c:1573-1594 | unlinks exactly the association's subscriptions |
| `OwnerThread.OwnerLists.ProcessClose` | gmv_pjsip_sys/shim.c:1878-1900 | one close command is one close step |
| `OwnerThread.OwnerLists.ProcessReceive` | gmv_pjsip_sys/shim.c:1795-1845 | one receive command is one receive step |
| `OwnerThread.OwnerLists.ProcessOutbound` | gmv_pjsip_sys/shim_command_dispatch.inc:76-93 | a call or subscription is made only on an association that has a transport |
| `OwnerPoll.Runtime.constructor` | gmv_pjsip_sys/shim_transport.inc:299-415 | a new runtime is the start of a run, with its UDP transport if enabled, and keeps what runs keep |
| `OwnerPoll.Runtime.ProcessSendCompletions` | gmv_pjsip_sys/shim.c:1847-1876 | the queued completions are that many completion steps |
| `OwnerPoll.Runtime.ProcessReceives` | gmv_pjsip_sys/shim.c:1795-1845 | the queued receives are that many receive steps |
| `OwnerPoll.Runtime.ProcessCloses` | gmv_pjsip_sys/shim.c:1878-1900 | the queued closes are that many close steps |
| `OwnerPoll.Runtime.ProcessOutbounds` | gmv_pjsip_sys/shim.c:1945-1951 | all queued invites are processed before all subscribes |
| `OwnerPoll.Runtime.ProcessIoCommands` | gmv_pjsip_sys/shim.c:1905-1952 | all queues are taken at once and processed kind by kind, as a run of the whole system |
| `OwnerPoll.Runtime.Poll` | gmv_pjsip_sys/shim.c:1905-1952 | a turn of the mutable runtime is a run, keeps what runs keep, and leaves nothing of any association whose own close was queued |
| `OwnerPoll.TurnIsGood` | gmv_pjsip_sys/shim.c:1905-1952 | after a turn nothing is left of an association whose own close was queued |
| `OwnerPoll.TurnComesTo` | gmv_pjsip_sys/shim.c:1905-1952 | once a turn has emptied its batch, the owner's lists are what the queued commands come to |
| `Nonces.UsesAreNeverReplayed` | gmv_pjsip_sys/shim_auth.inc:167-225 | in every run accepted counts of one nonce, user and client nonce strictly increase, a use without qop is accepted at most once, and usage counts are right and at most 64 |
| `Nonces.AcceptedExactly` | gmv_pjsip_sys/shim_auth.inc:167-225 | a use is accepted exactly if the nonce is live, the user has or can get a record, and the use is newer than all accepted ones |
| `Nonces.StatusExact` | gmv_pjsip_sys/shim_auth.inc:38-59 | a nonce is live, stale or unknown exactly as it is held and unexpired, held and expired, or not held; no live nonce is unlinked |
| `Nonces.UseInv` | gmv_pjsip_sys/shim_auth.inc:167-225 | a use keeps the records standing for exactly the accepted uses |
| `Nonces.ParseNonceCount` | gmv_pjsip_sys/shim_auth.inc:61-82 | the nonce count is the base-16 value of its eight digits, and zero is refused |
| `Nonces.NonceTable.Status` | gmv_pjsip_sys/shim_auth.inc:38-59 | the cursor loop unlinks and classifies as specified |
| `Nonces.NonceTable.CommitUsage` | gmv_pjsip_sys/shim_auth.inc:167-225 | records a use in place as specified |
| `Nonces.NonceTable.IssueNonce` | gmv_pjsip_sys/shim_auth.inc:227-243 | a challenge puts a fresh nonce at the front and keeps the table true to the accepted uses |
| `Nonces.NonceTable.CheckNonce` | gmv_pjsip_sys/shim_auth.inc:38-59 | classifying a nonce keeps the table true to the accepted uses |
| `Nonces.NonceTable.UseCredential` | gmv_pjsip_sys/shim_auth.inc:711-722 | the table never accepts a replay, whatever was asked of it before |
| `Nonces.NonceCountRoundTrip` | gmv_pjsip_sys/shim_auth.inc:61-82 | every 32-bit count but zero is read back from its eight hexadecimal digits, in either case |
| `Nonces.NotACount` | gmv_pjsip_sys/shim_auth.inc:61-82 | anything that is not eight hexadecimal digits is refused |
| `Nonces.IssuedIsLive` | gmv_pjsip_sys/shim_auth.inc:227-243 | a nonce just issued is live for five minutes and stale after that, in front of the others |
| `Nonces.FirstUseIsAccepted` | gmv_pjsip_sys/shim_auth.inc:167-225 | the first use of a fresh nonce is accepted whatever its count |
| `Nonces.CheckLeavesUnexpired` | gmv_pjsip_sys/shim_auth.inc:38-59 | unless the walk stops at the live nonce asked for, a check leaves exactly the unexpired nonces |
| `Nonces.UseIsRecorded` | gmv_pjsip_sys/shim_auth.inc:167-225 | a use is recorded exactly when it is accepted, with its nonce, user, client nonce and count |
| `PendingAuth.EveryRunAccounts` | gmv_pjsip_sys/shim_auth.inc:576-684 | in every run the count is the list length and within the limit, lookups are shared exactly by device and realm, each is announced once, and each request leaves at most once |
| `PendingAuth.ReleaseAccountsForAll` | gmv_pjsip_sys/shim.c:1959-1969 | release empties the list; every request that ever arrived has left exactly once |
| `PendingAuth.AnsweredStaysAnswered` | gmv_pjsip_sys/shim_auth.inc:777-792 | a lookup without waiting requests is never used again, so completing it again changes nothing |
| `PendingAuth.CompleteAnswersTogether` | gmv_pjsip_sys/shim_auth.inc:777-792 | one answer completes all requests of its device and realm and no others |
| `PendingAuth.PendingList.QueueLookup` | gmv_pjsip_sys/shim_auth.inc:576-684 | refuses over the limit or with unusable text, and otherwise joins or starts a lookup |
| `PendingAuth.PendingList.ProcessCommand` | gmv_pjsip_sys/shim_auth.inc:777-792 | unlinks the requests of one lookup |
| `PendingAuth.PendingList.ProcessTimeouts` | gmv_pjsip_sys/shim_auth.inc:810-853 | unlinks exactly the requests that are due |
| `PendingAuth.PendingList.ReleaseAll` | gmv_pjsip_sys/shim.c:1959-1969 | unlinks all requests |
| `PendingAuth.PendingList.HandleRegister` | gmv_pjsip_sys/shim_auth.inc:576-684 | queueing keeps the accounts, and arrivals are departures and waiting requests |
| `PendingAuth.PendingList.Poll` | gmv_pjsip_sys/shim_auth.inc:794-853 | completed lookups in their order, then deadlines, as a run that keeps the accounts |
| `PendingAuth.EveryDepartureHasItsCause` | gmv_pjsip_sys/shim_auth.inc:777-853 | in every run each request has the deadline its own REGISTER got, and leaves because its own lookup was answered, its deadline had come, or everything was released |
| `PendingAuth.QueuedExactly` | gmv_pjsip_sys/shim_auth.inc:576-684 | a REGISTER is queued exactly if there is room, its texts fit and its transaction is kept; it then waits in front with the deadline the timeout gives, and a refused one changes nothing |
| `PendingAuth.QueueJoinsOrAnnounces` | gmv_pjsip_sys/shim_auth.inc:576-684 | it joins the lookup of its device and realm if there is one, and otherwise a new one is announced |
| `PendingAuth.CompleteExactly` | gmv_pjsip_sys/shim_auth.inc:777-792 | an answer takes exactly the requests of its lookup, each with that answer |
| `PendingAuth.ExpireExactly` | gmv_pjsip_sys/shim_auth.inc:810-853 | a request still waits exactly if the time is before its deadline; the others leave as timed out |
| `PendingAuth.ReleaseExactly` | gmv_pjsip_sys/shim.c:1959-1969 | release takes every request, each as released |
| `Holds.NothingFreedIsTouched` | gmv_pjsip_sys/shim.c:1180-1230 | in every run no freed record is touched, none is freed twice or while held, and no session names a record that is off the list |
| `Holds.FreedExactly` | gmv_pjsip_sys/shim.c:1186-1214 | a record is freed exactly when it is off the list and its last hold is gone |
| `Holds.StopFreesEverything` | gmv_pjsip_sys/shim.c:2033-2060 | with nothing inside PJSIP, stopping leaves every record freed exactly once |
| `Holds.StepInv` | gmv_pjsip_sys/shim_invite.inc:161-194 | every operation, callback and close keeps hold counts, list, session links and freed records consistent |
| `Holds.EndInv` | gmv_pjsip_sys/shim.c:1186-1194 | the end of an operation gives up its hold and frees the record if it was the last one on a removed record |
| `Holds.RemoveInv` | gmv_pjsip_sys/shim.c:1196-1214 | removing a record whose session link is cut frees it or leaves it to its holders |
| `Holds.CallList.HoldCall` | gmv_pjsip_sys/shim.c:1180-1184 | adds one hold |
| `Holds.CallList.ReleaseCall` | gmv_pjsip_sys/shim.c:1186-1194 | drops one hold and frees a removed record with the last |
| `Holds.CallList.RemoveCall` | gmv_pjsip_sys/shim.c:1196-1214 | unlinks the record by search, and frees it unless it is held |
| `Holds.CallList.CreateCall` | gmv_pjsip_sys/shim_invite.inc:136-180 | a new record is listed, linked and, for a request, held |
| `Holds.CallList.OnSessionEnd` | gmv_pjsip_sys/shim.c:1216-1230 | the callback that ends a session detaches and removes its record |
| `Holds.CallList.FinishOperation` | gmv_pjsip_sys/shim_invite.inc:184-194 | a failed first request takes its record back unless a callback did, and the hold ends |
| `Holds.CallList.CloseAssociationCall` | gmv_pjsip_sys/shim.c:1551-1594 | an association close detaches and removes a record, held or not |
| `Holds.CallList.FreeAll` | gmv_pjsip_sys/shim.c:2033-2060 | stopping frees every record ever made exactly once |
| `Holds.CreatedExactly` | gmv_pjsip_sys/shim_invite.inc:136-180 | a new record is listed, linked and held once if a request made it, and no other record changes |
| `Holds.BegunExactly` | gmv_pjsip_sys/shim.c:1180-1184 | an operation on a listed record adds one hold, one on any other record changes nothing, and no other record is touched |
| `Holds.RemovedExactly` | gmv_pjsip_sys/shim.c:1196-1230 | after the end of its session or the close of its association a record is off the list, named by no session, and freed unless held |
| `Holds.FinishedExactly` | gmv_pjsip_sys/shim_invite.inc:184-194 | the end of an operation gives up one hold; a failed first request leaves its record off the list, named by no session and, with the last hold, freed |
| `Holds.FaultStays` | gmv_pjsip_sys/shim.c:1180-1230 | a fault is never taken back |
| `Holds.MissingRecordFaults` | gmv_pjsip_sys/shim.c:1180-1230 | touching or freeing a record that is not there is seen as a fault, whatever the operation, so that none in any run means none was touched |
| `Operations.FinalResponseOnce` | gmv_pjsip_sys/shim.c:1079-1113 | no run reports two final responses for one operation, nor any while it is still tracked |
| `Operations.NeverReplaced` | gmv_pjsip_sys/shim_subscription.inc:51-76 | a tracked operation is never overwritten by another |
| `Operations.TwoOutstandingExactly` | gmv_pjsip_sys/shim_dialog.inc:190-285 | a call waits for two operations exactly when a BYE was accepted while its INVITE or an INFO was on its way, or an INFO while any other of its operations was |
| `Operations.CancelledInviteTracksTwo` | gmv_pjsip_sys/shim_dialog.inc:196-216 | a run in which an INVITE is cancelled before it is answered |
| `Operations.InfoAndByeTrackTwo` | gmv_pjsip_sys/shim_dialog.inc:218-285 | a run in which an answered call is ended while an INFO is on its way |
| `Operations.FollowsInv` | gmv_pjsip_sys/shim.c:1239-1310 | any step that reports only what its place tracks, and lets go of it with a final response, keeps final responses unique |
| `Operations.StepFollows` | gmv_pjsip_sys/shim.c:1640-1664 | all five paths are such steps |
| `Operations.Tracker.EmitTransactionEvent` | gmv_pjsip_sys/shim.c:1138-1168 | reports a status of at least 100 for a tracked operation and nothing else |
| `Operations.Tracker.OutboundCallback` | gmv_pjsip_sys/shim.c:1079-1113 | a MESSAGE reports its first final status only |
| `Operations.Tracker.OnInviteTransaction` | gmv_pjsip_sys/shim.c:1267-1291 | an INVITE reports provisional statuses and its first final one |
| `Operations.Tracker.OnDialogTransaction` | gmv_pjsip_sys/shim.c:1292-1310 | a BYE or CANCEL reports until its first final status |
| `Operations.Tracker.OnSubscribeTransaction` | gmv_pjsip_sys/shim.c:1450-1481 | a SUBSCRIBE reports until its first final status |
| `Operations.Tracker.OnTransactionState` | gmv_pjsip_sys/shim.c:1640-1664 | an INFO reports until a final status or the end of its transaction |
| `Operations.Tracker.StartBye` | gmv_pjsip_sys/shim_dialog.inc:190-216 | a BYE is refused without a call, busy while one is tracked, and otherwise tracked |
| `Operations.Tracker.StartInfo` | gmv_pjsip_sys/shim_dialog.inc:218-285 | an INFO is refused without a call and otherwise tracked, whatever else is on its way |
| `Operations.Tracker.RestartSubscribe` | gmv_pjsip_sys/shim_subscription.inc:51-76 | another SUBSCRIBE is refused without a subscription, busy while one is tracked or for another event, and otherwise tracked |
| `Operations.FinalResponseExactlyOnce` | gmv_pjsip_sys/shim.c:1138-1168 | in every run a final status reported to a place that tracks an operation gives exactly one final response for it, then and ever after |
| `Operations.FinalIsReported` | gmv_pjsip_sys/shim.c:1138-1168 | a final status for a tracked operation appends that very event and ends the tracking |
| `Operations.ProvisionalIsReported` | gmv_pjsip_sys/shim.c:1138-1168 | a status from 100 to 199 is reported on the four places that report them, and the operation stays tracked |
| `Operations.NoStatusIsSilent` | gmv_pjsip_sys/shim.c:1138-1168 | a status below 100 reports nothing |
| `Operations.IdleIsSilent` | gmv_pjsip_sys/shim.c:1138-1168 | a place that tracks nothing reports nothing |
| `Operations.OnlyStatusReports` | gmv_pjsip_sys/shim.c:1079-1113 | nothing but a status report makes an event |
| `Operations.SendIsTracked` | gmv_pjsip_sys/shim_dialog.inc:190-285 | an accepted send is tracked in its place |
| `Operations.FailureIsForgotten` | gmv_pjsip_sys/shim_dialog.inc:190-285 | a send that fails is tracked no more |
| `Operations.RefusedSendChangesNothing` | gmv_pjsip_sys/shim_dialog.inc:190-285 | a busy place, a missing call and a used operation id leave everything as it was |
| `Operations.EndIsForgotten` | gmv_pjsip_sys/shim.c:1640-1664 | the end of a call, a subscription or a request's transaction ends its tracking |
| `Operations.PeersCallIsSilent` | gmv_pjsip_sys/shim.c:1239-1291 | a call made by the peer reports nothing for its INVITE and takes a BYE like any other |
| `Operations.CallsAreNotReused` | gmv_pjsip_sys/shim.c:1239-1291 | a call number that was used makes no second call |
| `Admission.AdmittedExactly` | gmv_pjsip_sys/shim.c:591-636 | after any history OPTIONS is admitted exactly on a live entry of the same transport and address in the replayed map, MESSAGE also on a recovery that has not ended |
| `Admission.RunRefines` | gmv_pjsip_sys/shim.c:2589-2631 | the lazily cleaned list stands for a map with one entry per device |
| `Admission.RecoveryKeepsLive` | gmv_pjsip_sys/shim.c:2659-2700 | a recovery grant never changes a live source or its register order |
| `Admission.StaleExactly` | gmv_pjsip_sys/shim_auth.inc:290-307 | a REGISTER is answered 500 exactly if the device's latest registration has its Call-ID and a greater CSeq; the order table is then unchanged and has one record per device |
| `Admission.RunOrders` | gmv_pjsip_sys/shim_auth.inc:309-351 | the order table stands for the latest registration of each device, forgotten on unregister, removal and recovery end |
| `Admission.RegistersNeverGoBack` | gmv_pjsip_sys/shim_auth.inc:725-756 | between resets (unregister, other Call-ID, removal, recovery end, sync of another Call-ID or an earlier CSeq) accepted REGISTERs with one storable Call-ID never go back in CSeq |
| `Admission.CleanupOrder` | gmv_pjsip_sys/shim.c:591-609 | cleaning up drops the orders of devices whose recovery ended and no others |
| `Admission.GrantExactly` | gmv_pjsip_sys/shim.c:2565-2631 | a well-formed grant admits the device's OPTIONS and MESSAGE from then on and counts one generation; any other does nothing, and other devices are untouched |
| `Admission.RecoveryExactly` | gmv_pjsip_sys/shim.c:2633-2707 | a recovery of a device that is not live admits its MESSAGEs, and not its OPTIONS, exactly for the time asked for |
| `Admission.StoredAreWellFormed` | gmv_pjsip_sys/shim.c:2565-2587 | after any history every stored source has a known transport and a device and an address that fit |
| `Admission.GrantAcceptedExactly` | gmv_pjsip_sys/shim.c:2565-2587 | a grant is taken exactly with UDP or TCP, 1 to 127 characters of device and 1 to 63 of address, without NUL |
| `Admission.RegisterExactly` | gmv_pjsip_sys/shim_auth.inc:725-756 | only a 200 that was sent is remembered, replacing or on unregister removing the device's order and no other; an answer that is not 200 stands, and a 200 stays or becomes 500 |
| `AdmissionLists.DeviceLists.RemoveRegisterOrder` | gmv_pjsip_sys/shim.c:546-563 | unlinks the device's first record |
| `AdmissionLists.DeviceLists.SyncRegisterOrder` | gmv_pjsip_sys/shim.c:565-589 | finds or makes the record, and keeps it blank or old if the Call-ID does not fit |
| `AdmissionLists.DeviceLists.CommitRegisterOrder` | gmv_pjsip_sys/shim_auth.inc:309-351 | stores, or on unregister removes, the device's record |
| `AdmissionLists.DeviceLists.RegisterOrderIsStale` | gmv_pjsip_sys/shim_auth.inc:290-307 | compares with the device's record only |
| `AdmissionLists.DeviceLists.CompleteRegister` | gmv_pjsip_sys/shim_auth.inc:725-756 | answers 500 if stale and commits only a 200 that was sent |
| `AdmissionLists.DeviceLists.CleanupRecoverySources` | gmv_pjsip_sys/shim.c:591-609 | the cursor loop unlinks ended recoveries and their orders |
| `AdmissionLists.DeviceLists.RegisteredSourceAllowed` | gmv_pjsip_sys/shim.c:611-636 | cleans up, then admits on the first match |
| `AdmissionLists.DeviceLists.AllowRegisteredSource` | gmv_pjsip_sys/shim.c:2565-2631 | updates the source in place or puts a new one at the front |
| `AdmissionLists.DeviceLists.AllowRecoverySource` | gmv_pjsip_sys/shim.c:2633-2707 | cleans up, keeps a live source, and otherwise stores the recovery |
| `AdmissionLists.DeviceLists.RemoveRegisteredSource` | gmv_pjsip_sys/shim.c:2709-2742 | removes the device's order and all its sources |
| `RecentRequests.DuplicateExactly` | gmv_pjsip_sys/shim_auth.inc:1010-1040 | a request is taken for a duplicate exactly if its key arrived under 5000 ms ago and there were never 512 keys inserted after it and unexpired at one time |
| `RecentRequests.FewInsertionsKeepRecent` | gmv_pjsip_sys/shim_auth.inc:1010-1040 | a key that arrived under 5000 ms ago is recognised if fewer than 512 keys were inserted since its own insertion |
| `RecentRequests.Run` | gmv_pjsip_sys/shim_auth.inc:946-1040 | after any arrivals keys are unique and at most 512, entries carry their keys' last arrival, and a key is absent only if expired or crowded out |
| `RecentRequests.DuplicateArrivedBefore` | gmv_pjsip_sys/shim_auth.inc:976-1040 | with no bar in Call-IDs and methods, a duplicate agrees with an earlier request in all six fields |
| `RecentRequests.CacheIsBounded` | gmv_pjsip_sys/shim_auth.inc:946-974 | the cache never has a repeated key nor more than 512 entries |
| `RecentRequests.KeyInjective` | gmv_pjsip_sys/shim_auth.inc:976-1008 | plain requests with one key are the same |
| `RecentRequests.BarsCollide` | gmv_pjsip_sys/shim_auth.inc:976-1008 | with bars allowed in Call-ID and method, pairs of different requests share their key |
| `RecentRequests.TwoRequestsOneKey` | gmv_pjsip_sys/shim_auth.inc:976-1008 | two such requests that both have a key |
| `RecentRequests.InsertPlaced` | gmv_pjsip_sys/shim_auth.inc:962-974 | the entry an insertion pushes off the end is exactly the one with 512 unexpired later insertions |
| `RecentRequests.RecentList.CleanupRecentRequests` | gmv_pjsip_sys/shim_auth.inc:946-960 | unlinks the expired entries and keeps the count right |
| `RecentRequests.RecentList.TrimRecentRequests` | gmv_pjsip_sys/shim_auth.inc:962-974 | drops entries from the tail down to 512 |
| `RecentRequests.RecentList.RecentRequestSeen` | gmv_pjsip_sys/shim_auth.inc:1010-1040 | refreshes a known key where it stands, or inserts a new one at the front |
| `RecentRequests.KeyExactly` | gmv_pjsip_sys/shim_auth.inc:976-1008 | a request has a key exactly if Call-ID, method and branch are there and its text fits 767 characters |
| `RecentRequests.PrintedExactly` | gmv_pjsip_sys/shim_auth.inc:976-1008 | a field is printed up to its first NUL |
| `Permits.PermitsAreConserved` | gmv_pjsip_sys/shim.c:638-688 | in every run permits granted are permits consumed, expired and held, and every consumed one let in one INVITE |
| `Permits.PermitIsUsedOnce` | gmv_pjsip_sys/shim.c:657-688 | no permit is used twice, or both used and held or expired |
| `Permits.HandedExactly` | gmv_pjsip_sys/shim_auth.inc:1074-1080 | an INVITE is handed on exactly if a granted permit fits it, has not run out and was not used |
| `Permits.HandedUsesOne` | gmv_pjsip_sys/shim.c:657-688 | it then uses up one held, unexpired permit that fits; any other INVITE uses none |
| `Permits.SubjectContainsTarget` | gmv_pjsip_sys/shim.c:507-534 | finds the target in the Subject exactly if it occurs there |
| `Permits.PermitList.CleanupIncomingInviteAllows` | gmv_pjsip_sys/shim.c:638-655 | unlinks exactly the permits that have run out |
| `Permits.PermitList.AllowIncomingInvite` | gmv_pjsip_sys/shim.c:2744-2788 | refuses an unusable offer, and otherwise puts a new permit at the front of the cleaned list |
| `Permits.PermitList.ConsumeIncomingInviteAllow` | gmv_pjsip_sys/shim.c:657-688 | takes the first permit that fits |
| `Permits.HandedWasOffered` | gmv_pjsip_sys/shim.c:657-688 | in every run each INVITE that was let in matches, in transport, address, source and Subject, an offer made earlier whose time had not run out |
| `Permits.HandedPermit` | gmv_pjsip_sys/shim.c:657-688 | an INVITE that is handed on fits a granted permit that has not run out |
| `Permits.OfferLetsIn` | gmv_pjsip_sys/shim.c:2744-2788 | an INVITE that matches a fresh offer is handed on |
| `Permits.FitsExactly` | gmv_pjsip_sys/shim.c:657-688 | a permit fits exactly by transport, address, source and the target occurring in the Subject |
| `Permits.GrantableExactly` | gmv_pjsip_sys/shim.c:2744-2788 | an offer is taken exactly with a known transport, a time to live and texts that fit |
| `Permits.CleanupExactly` | gmv_pjsip_sys/shim.c:638-655 | a permit stays exactly as long as its time has not run out |
| `Cseq.AllocationsCycle` | src/runtime.rs:65-74 | under any interleaving the n-th allocation, from zero, returns n mod max plus one |
| `Cseq.WindowIsDistinct` | src/runtime.rs:65-74 | any max consecutive allocations are distinct |
| `Cseq.SipNumbersInRange` | src/runtime.rs:61-78 | allocated CSeq numbers are positive and below 2^31, as section 8.1.1.5 of RFC 3261 asks |
| `Cseq.NextAtomicValue` | src/runtime.rs:65-74 | the loop returns the successor of the value its exchange replaced, at the first attempt that goes through |
| `Cseq.LoopIsPartOfRun` | src/runtime.rs:65-74 | in any interleaving a thread's turns are its loop: the winning one hands out the very number the loop returns, and before it the thread is still trying |
| `Cseq.UndisturbedThreadGetsTheNext` | src/runtime.rs:65-74 | after any run a thread that reads the counter as it stands and exchanges undisturbed gets the next number of the cycle |
| `RouteSet.RoundTripExactly` | src/runtime.rs:1317-1337 | routes come back unchanged and in order exactly if each is non-empty without NUL, CR, LF and they fit the buffer |
| `RouteSet.OversizedExportsNothing` | gmv_pjsip_sys/shim.c:906-928 | a list that does not fit is exported as empty, never in part |
| `RouteSet.CarriageReturnIsLost` | src/runtime.rs:1679-1681 | a carriage return at the end of a route that is not the last is lost on the way |
| `RouteSet.AppendRoute` | gmv_pjsip_sys/shim.c:908-924 | one turn of the export loop writes inside the buffer and refuses an empty route or one that leaves no room |
| `RouteSet.SplitOfJoin` | src/runtime.rs:1679-1681 | valid routes joined by line feeds are split into the same routes by Rust and by the shim |
| `RouteSet.ExportRouteSet` | gmv_pjsip_sys/shim.c:906-928 | the loop writes inside its buffer and exports all routes or nothing |
| `RouteSet.SplitRouteSet` | gmv_pjsip_sys/shim_dialog.inc:42-67 | the cursor loop yields the non-empty lines in order |
| `Sdp.RoundTripExactly` | src/gb28181/sdp.rs:13-56 | parsing a built play or talk SDP recovers name, address, port, RTP/AVP, the payload and the ssrc text exactly if the address is one word |
| `Sdp.SpacedAddressIsLost` | src/gb28181/sdp.rs:13-56 | an address that is not recovered |
| `Sdp.RoundTrip` | src/gb28181/sdp.rs:105-118 | the same for every word as address, for both kinds, all codecs and all modes |
| `Sdp.SsrcIsTenDigits` | src/gb28181/sdp.rs:46-48 | the ssrc text has ten digits whose decimal value is the ssrc |
| `Sdp.ParseLossy` | src/gb28181/sdp.rs:13-35 | the loop over trimmed lines computes the specified reading |
| `Sdp.LinesOfRender` | src/gb28181/sdp.rs:50-56 | the built text has the built lines |
| `Sdp.LastTaggedWins` | src/gb28181/sdp.rs:13-35 | in any text the last s=, c=, m= or y= line is the one that counts, an m= line only with three words or more |
| `Sdp.UntaggedStays` | src/gb28181/sdp.rs:13-35 | a field without a line stays as it was |
| `Sdp.ReadLineExactly` | src/gb28181/sdp.rs:13-35 | what one line changes, for any line |
| `Sdp.ParsePortExactly` | src/gb28181/sdp.rs:24-29 | a port is digits after an optional plus sign with a value that fits 16 bits |
| `Sdp.PlayText` | src/gb28181/sdp.rs:50-56 | the play SDP, line by line |
| `Sdp.TalkText` | src/gb28181/sdp.rs:105-118 | the talk SDP, line by line, for every codec and mode |

## Left out

- PJSIP and PJLIB: parser, timers, transactions, digest computation, pools and URI printing are parameters or assumptions.
- Sockets, tokio tasks, TLS, logging and thread start and join: only channel order, dropped items and association ids are kept.
- FFI structs and argument checks beyond those that decide a modelled outcome: each is settled by one branch.
- Allocation failure: every `calloc` is taken to succeed.
- 64-bit clocks and counters: end times, generations, ids and `header + 4 + body` lengths do not wrap around.
- Restored dialogs: their records have a second reference and no session, so `Holds` does not cover them; their route text is in `RouteSet` and their tracked operation in `Operations`.
- The C side's logging framer with its LF LF fallback (gmv_pjsip_sys/shim_transport.inc:498-645): it only feeds the log.
- The dialog route saved for in-dialog requests (gmv_pjsip_sys/shim_transport.inc:52-208): depends on foreign address handling.
- Which SUBSCRIBE response belongs to which request when an automatic refresh overlaps: the code keeps one operation id, and so does the model.
- Packets injected by the test helper of the shim.
- `src/auth`, `src/gb28181/xml.rs`, `src/message.rs`, `src/transport.rs`: thin wrappers and formatting that would only add easy members.
- Reassembly.ReceiveAll: the packet size is a parameter, because PJSIP's constant is not part of this model.
- Holds.NothingFreedIsTouched: calls and subscriptions share one list here; the source keeps two lists with the same code.
- RouteSet.ExportRouteSet: a URI is assumed to print whenever it leaves room in the buffer.
- Reassembly.CustomTransport.DeliverReceiveBuffer: the sender's address is taken to be valid; with an invalid one the source returns before it offers the packet, and keeps the remainder as it was.
- OwnerThread.OwnerLists.ProcessReceive: finds or creates the transport; delivering the packet on it is `Reassembly`.
- OwnerPoll.Runtime.Poll: what PJSIP does in between (sends, shutdowns, new and ended calls) is not part of the method; `Lifecycle` interleaves it freely with the same steps.
- Cseq.NextAtomicValue: the turns of the other threads are given as a finite list, so the loop may run out of turns.
