# A verified model of the Sponge TCP stack

This project models the data path of Sponge, a user-space TCP: the byte stream, the reassembler, sequence-number
arithmetic, sender, receiver and connection, plus the ARP interface beneath it and the checksummed TCP and IPv4
codecs. Each component appears twice:

- as **step functions on values** (`Reassembly`, `Senders`, `Receivers`, `Connections`, `Arp`, the codecs), which say
  what every call does, branch by branch;
- as **classes updated in place** (`ByteStream`, `StreamReassembler`, `TCPReceiver`, `TCPSender`, `TCPConnection`,
  `NetworkInterface`, `InternetChecksum`, `NetParser`), whose methods keep the program's loops and assignments and are
  proved to compute the step functions.

On top of the step functions stand the run theorems. `Networks` builds a transition system of two endpoints and the
logs of everything each ever sent; a delivery picks any logged segment any number of times, so loss, duplication and
reordering are all covered. `EndToEnd`, `Buffering`, `Emission`, `Progress`, `Closing`, `FinHistory`, `ClosedWindow`,
`GiveUp`, `Timing`, `SenderRuns`, `OrderIndependence`, `ArpRuns`, `ArpDelivery` and `ArpExchange` prove their results
about all runs.

Where the code does not do what its documentation says, the code is followed and the difference is a result:

- `unwrap` leaves the 64-bit range in the last 2^32 block (`Wrapping.UnwrapNearestIff` and `Wrapping.RoundTripIff` give
  the exact conditions).
- The "no end yet" marker of the reassembler is 2^32-1, so order independence holds exactly for streams up to that
  length (`OrderIndependence.IndependentIff`).
- An endpoint can close cleanly without ever sending its FIN. `EndToEnd.CleanCloseDelivers` says exactly when: the
  window had no room for the FIN when the stream was ended, and no ack was accepted after that.
  `FinLost.ClosedButFinNeverSent` is a family of such runs, `ClosedWindow.ClosesWithoutFin` the calls that do it.
- After a zero-window ack with nothing in flight no timer runs, so the sender is stuck until it is given another ack;
  `ClosedWindow.StuckUntilFreed` says exactly which ones free it, `FinLost.StuckIsReached` gets there.
- Against a silent peer the connection gives up exactly when the known window is open or the attempts are used up
  (`GiveUp.SilenceInAnyRun`); with a closed window it never does, and `FinLost.PatienceIsReached` gets there.
- A datagram sent after an ARP request from its hop overtakes those still queued; `ArpDelivery.OrderKeptIff` and
  `ArpDelivery.SendKeepsOrderIff` say exactly when order survives.
- `TCPSegment::parse` and `IPv4Datagram::parse` drop the header parser's verdict, so a short data offset, a wrong IP
  version and a wrong IPv4 header checksum are accepted (`TcpCodec.SegmentAcceptedIff`, `TcpCodec.ShortOffsetAccepted`,
  `Ipv4Codec.DatagramAcceptedIff`, `Ipv4Codec.WrongVersionAccepted`, `Ipv4Codec.ChecksumIsIgnored`).

What callers must respect, and the code itself does not check: the receive capacity is positive, nothing is written
after the end of a stream, `tick` and `segment_received` are called on an active connection, and in the runs of two
endpoints each stream stays under 2^31 bytes and all segments an endpoint hears come from its one peer.

`dafny verify dfyconfig.toml` checks everything.

## Model

| member | source | states |
|---|---|---|
| `Wrapping.UnwrapNearestIff` | libsponge/wrapping_integers.cc:29-52 | for every input, `unwrap` returns the 64-bit number that wraps to `n` and is nearest to the checkpoint, the lower one on a tie, if and only if the checkpoint is not in the last block with the missing next block nearer |
| `Wrapping.RoundTripIff` | libsponge/wrapping_integers.cc:14-52 | for all 64-bit numbers, `unwrap(wrap(v))` is `v` if and only if `v` is at most 2^31 behind the checkpoint, less than 2^31 ahead, or ahead within the first block, or `unwrap` runs off the end of the range and `v` lies in the first block |
| `ByteStreams.ByteStream.Write` | libsponge/byte_stream.cc:16-24 | appends exactly the bytes that fit and returns their number |
| `ByteStreams.ByteStream.Read` | libsponge/byte_stream.cc:43-50 | returns the next bytes in the order written and removes them |
| `ByteStreams.ByteStream.PeekOutput` | libsponge/byte_stream.cc:27-30 | returns the bytes a read would return |
| `ByteStreams.ByteStream.PopOutput` | libsponge/byte_stream.cc:33-38 | removes the bytes a read would remove |
| `ByteStreams.ByteStream.Eof` | libsponge/byte_stream.cc:68-70 | true exactly when the input has ended and everything written has been read |
| `StreamReassemblers.StreamReassembler.MergeTo` | libsponge/stream_reassembler.cc:19-28 | extends a node by the parts of a touching one that stick out, keeping its own bytes |
| `StreamReassemblers.StreamReassembler.MergeLoop` | libsponge/stream_reassembler.cc:53-72 | the merge loop terminates and leaves no interval that touches the merged node; set and node together hold the same bytes as before, and the byte count stays right |
| `StreamReassemblers.StreamReassembler.Absorb` | libsponge/stream_reassembler.cc:53-72 | starting one interval before the upper bound is enough to find every touching interval |
| `StreamReassemblers.StreamReassembler.Commit` | libsponge/stream_reassembler.cc:74-77 | the write of a committed node is never truncated, and reaching the end index ends the output |
| `StreamReassemblers.StreamReassembler.PushSubstring` | libsponge/stream_reassembler.cc:30-82 | every push is the step of the index-to-byte model; intervals stay sorted, non-empty, separated by gaps and inside the window; the unassembled count is the number of distinct stored indices; buffered plus unassembled bytes stay within the capacity |
| `StreamReassemblers.StreamReassembler.ReadOutput` | libsponge/stream_reassembler.hh:55-56 | reading from the assembled stream keeps the reassembler's invariant and opens the window |
| `StreamReassemblers.StreamReassembler.UnassembledBytes` | libsponge/stream_reassembler.cc:84 | counts each stored index once |
| `StreamReassemblers.StreamReassembler.Empty` | libsponge/stream_reassembler.cc:86 | true exactly when nothing is stored |
| `Reassembly.MemoryBound` | libsponge/stream_reassembler.cc:30-82 | assembled-but-unread plus stored bytes never exceed the capacity |
| `Reassembly.PushAgrees` | libsponge/stream_reassembler.cc:30-82 | pushing a true excerpt of a stream keeps everything held in agreement with that stream |
| `OrderIndependence.RunClosedForm` | libsponge/stream_reassembler.cc:30-82 | after any history of excerpts and reads the assembled bytes are the stream up to the first index nobody brought, the stored ones are the rest, and the end status follows |
| `OrderIndependence.Independent` | libsponge/stream_reassembler.cc:30-82 | two histories with the same excerpts in any order and multiplicity end alike |
| `OrderIndependence.MarkerBreaksOrder` | libsponge/stream_reassembler.hh:32 | beyond the marker two orders of the same two excerpts end differently |
| `OrderIndependence.IndependentIff` | libsponge/stream_reassembler.cc:30-82 | order never matters if and only if the stream is at most 2^32-1 bytes long |
| `Receivers.TCPReceiver.SegmentReceived` | libsponge/tcp_receiver.cc:14-38 | computes the receiver step: synchronise on SYN, recover the index, drop what misses the window, push the rest |
| `Receivers.TCPReceiver.Ackno` | libsponge/tcp_receiver.cc:40-49 | absent before a SYN, afterwards the first number not assembled, counting the FIN once the stream has ended |
| `Receivers.TCPReceiver.GetWindowSize` | libsponge/tcp_receiver.cc:51-53 | capacity minus unread bytes |
| `Receivers.ReceiveMonotone` | libsponge/tcp_receiver.cc:14-53 | no segment moves the acknowledgment number or the advertised edge back, or undoes the end of the stream |
| `Receivers.ConsumeMonotone` | libsponge/tcp_receiver.cc:40-53 | reading keeps the acknowledgment number and never moves the edge back |
| `Buffering.SynBringsData` | libsponge/tcp_receiver.cc:15-37 | any SYN synchronises the receiver, and of the data it carries just the bytes inside the window are held |
| `Buffering.DeliveryIsKept` | libsponge/tcp_receiver.cc:24-37 | in every run, after any delivery the receiver holds exactly what it held and the segment's bytes inside its window, ahead of the missing byte or not, all of them the bytes the peer wrote; and it knows of the end exactly if it did or the FIN starts inside the window |
| `TCPSenders.TCPSender.Fill` | libsponge/tcp_sender.cc:37-74 | computes the step that sends the SYN, or what fits the window and the FIN behind it |
| `TCPSenders.TCPSender.Segmentize` | libsponge/tcp_sender.cc:58-73 | the segmentation loop computes the recursive cut into payloads of at most 1000 bytes |
| `TCPSenders.TCPSender.OnAck` | libsponge/tcp_sender.cc:77-105 | computes the ack step: reject, pop, reset the timer, move the edge, fill or probe |
| `TCPSenders.TCPSender.PopBuffer` | libsponge/tcp_sender.cc:85-89 | drops exactly the fully covered segments from the front and says whether there was one |
| `TCPSenders.TCPSender.OnTick` | libsponge/tcp_sender.cc:108-124 | computes the timer step: retransmit the oldest segment on expiry and back off unless the window is closed |
| `TCPSenders.TCPSender.EmptyAck` | libsponge/tcp_sender.cc:130-139 | an empty segment, or the SYN if nothing has been sent |
| `TCPSenders.Timer.Advance` | libsponge/tcp_sender.hh:29-31 | elapsed time grows by the given amount |
| `SenderProofs.AckReceivedKeeps` | libsponge/tcp_sender.cc:77-105 | any ack at all keeps tiling, genuineness of everything queued, and window discipline |
| `SenderProofs.FillWindowKeeps` | libsponge/tcp_sender.cc:37-74 | filling sends only exact pieces of SYN, stream and FIN and never past the edge |
| `SenderProofs.TilesCover` | libsponge/tcp_sender.cc:30-34 | the queue holds a segment covering every number between the last ack and the next number |
| `SenderProofs.TilesTotal` | libsponge/tcp_sender.cc:35 | bytes in flight is the total sequence length of the queue |
| `SenderProofs.TickKeepsTimer` | libsponge/tcp_sender.cc:108-124 | after any tick the timeout is the initial one doubled once per retransmission and the timer has not expired |
| `SenderProofs.AckKeepsTimer` | libsponge/tcp_sender.cc:90-95 | after any ack the timer law holds, and an empty queue means a timer at rest |
| `SenderRuns.EveryRun` | libsponge/tcp_sender.cc:30-139 | in every run against an arbitrary peer: tiling, exactness of everything emitted, at most one probe past the edge, the edge is the highest ever accepted, and the timer law |
| `TCPConnections.TCPConnection.SegmentReceived` | libsponge/tcp_connection.cc:67-85 | computes the connection step for a segment, including reset, early end and replies |
| `TCPConnections.TCPConnection.Elapse` | libsponge/tcp_connection.cc:99-107 | computes the connection step for passing time, giving up after eight retransmissions |
| `TCPConnections.TCPConnection.Write` | libsponge/tcp_connection.cc:91-96 | computes the write step and returns how much was accepted |
| `TCPConnections.TCPConnection.EndInputStream` | libsponge/tcp_connection.cc:109-114 | computes the step that ends the outgoing stream |
| `TCPConnections.TCPConnection.Connect` | libsponge/tcp_connection.cc:116-119 | computes the step that opens the connection |
| `TCPConnections.TCPConnection.Drain` | libsponge/tcp_connection.cc:36-48 | every queued segment goes out in order with the receiver's current acknowledgment and window |
| `TCPConnections.TCPConnection.CheckClosing` | libsponge/tcp_connection.cc:26-35 | closes exactly when both streams are over and the endpoint need not linger any longer |
| `TCPConnections.TCPConnection.Shutdown` | libsponge/tcp_connection.cc:15-25 | marks both streams and sends at most one reset |
| `Links.ReceiveKeeps` | libsponge/tcp_receiver.cc:14-38 | any segment the peer ever sent keeps what the receiver holds in step with what was sent |
| `Links.AckBound` | libsponge/tcp_sender.cc:77-82 | an ack taken from the log is read back exactly and names something assembled |
| `Duplexes.DeliverKeeps` | libsponge/tcp_connection.cc:67-85 | a delivery keeps both directions and both logs consistent |
| `Networks.EveryRun` | libsponge/tcp_connection.cc:15-119 | every run of two endpoints keeps the invariant of the pair |
| `EndToEnd.AssembledIsPrefix` | libsponge/tcp_receiver.cc:14-38 | in every run the assembled bytes are a prefix of those written, and all of them once the receiver reports the end |
| `EndToEnd.NothingIsLost` | libsponge/tcp_sender.cc:77-89 | in every run last ack <= receiver's next number <= sender's next number, and the queue holds what the receiver waits for |
| `EndToEnd.AwaitedSegmentAdvances` | libsponge/tcp_receiver.cc:24-36 | in every run any copy of the awaited segment moves the receiver on if and only if the window is open, or the segment is the SYN, or it brings the FIN behind bytes of which none is missing |
| `EndToEnd.EverythingSentIsExact` | libsponge/tcp_sender.cc:25-74 | in every run each segment ever sent is a reset or exactly the piece its number names |
| `EndToEnd.EdgesNeverRetreat` | libsponge/tcp_connection.cc:36-50 | along everything an endpoint sends, acknowledgment number and right window edge never move back |
| `EndToEnd.CleanCloseDelivers` | libsponge/tcp_connection.cc:26-35 | an endpoint inactive without an error has had all its bytes assembled; the peer saw its FIN, and the FIN was sent and acknowledged, if and only if the window had room for it at the event that ended the stream or an ack was accepted after that event |
| `EndToEnd.LingersBeforeClosing` | libsponge/tcp_connection.cc:26-32 | a lingering endpoint closes only after ten initial timeouts of silence; one that does not linger has seen its peer's end |
| `Progress.SentFits` | libsponge/tcp_sender.cc:96-104 | in every run the sender's window edge never passes what its peer's receiver has announced, nothing sent passes it by more than one number, and with an open window at the peer the oldest segment in flight has room there to its end |
| `Progress.RoundRaisesAckIff` | libsponge/tcp_sender.cc:108-124 | from any reached state with both sides active, something in flight and attempts left: a tick that expires the timer, the delivery of that repetition and the delivery of the peer's last reply are possible and raise the last acknowledged number if and only if the receiver has the segment already or can make use of it, as it always can with an open window |
| `Emission.WhatIsSent` | libsponge/tcp_connection.cc:36-119 | in every run each call adds to the log just this: fresh pieces that tile the numbers added and are cut as large as allowed, then one empty segment at the next number exactly when the call delivered something that occupies numbers; on time passing the oldest segment when the timer expires, or one bare reset when the attempts are used up; and nothing to the peer's log |
| `Emission.FillFresh` | libsponge/tcp_sender.cc:58-73 | what filling emits tiles the numbers it adds, every segment but the last has 1000 bytes, and the FIN rides on the last data |
| `Emission.NoAnswerToAnswers` | libsponge/tcp_connection.cc:79-84 | in every run a delivered segment that occupies no numbers and lets nothing new be sent leaves both logs as they are |
| `Emission.HeadersAreCurrent` | libsponge/tcp_connection.cc:36-48 | in every run each segment but a reset leaves with an ack exactly when there is something to acknowledge, and with the acknowledgment number and window of that moment |
| `Closing.ClosedIff` | libsponge/tcp_connection.cc:26-35 | in every run an endpoint without an error is inactive if and only if its peer's stream has ended, its own is taken and acknowledged, and its peer ended first or nothing was heard for ten initial timeouts |
| `Closing.LingerIff` | libsponge/tcp_connection.cc:74-77 | in every run an endpoint is spared lingering if and only if its peer's stream ended while its own still had something to give |
| `Closing.SilenceIsTrueTime` | libsponge/tcp_connection.cc:63-68 | in every run the clocks show the true time since the last delivery, modulo 2^32 |
| `Closing.LingeringEndsIff` | libsponge/tcp_connection.cc:99-107 | from any reached state with both streams over, passing time closes the endpoint exactly when the silence has lasted ten initial timeouts |
| `Closing.ResetEnds` | libsponge/tcp_connection.cc:67-72 | in every run a reset makes the endpoint inactive with both streams in error and nothing sent |
| `Closing.WriteTakes` | libsponge/tcp_connection.cc:91-96 | in every run a write takes exactly the bytes for which the outbound buffer has room, behind those written before |
| `Closing.ReadOpensWindow` | libsponge/tcp_receiver.cc:51-53 | in every run reading takes what is there, up to what is asked for, and opens the window by as much |
| `FinHistory.EndSendsFinIff` | libsponge/tcp_connection.cc:109-114 | ending the stream sends the FIN if and only if the window has room for everything unsent and one more |
| `FinHistory.AckAfterEnd` | libsponge/tcp_sender.cc:96-104 | after the end of the stream, an accepted ack that leaves nothing in flight has made the FIN go out, through the open window or as the probe |
| `FinHistory.FinSentIff` | libsponge/tcp_sender.cc:53-104 | in every run, once everything sent is acknowledged, the FIN is among it if and only if some event called for it: an end with room, or an accepted ack after the end |
| `ClosedWindow.StuckUntilFreed` | libsponge/tcp_sender.cc:53-110 | from any reached state with nothing in flight, a full window and the FIN unsent, in every continuation the sender moves on if and only if it accepts an ack that opens the window or finds something to probe with; until then only empty segments leave, and none without a delivery |
| `ClosedWindow.SegmentFreesIff` | libsponge/tcp_sender.cc:77-105 | a delivery to a stuck endpoint advances its next number or its window edge exactly when it carries such an ack, and is otherwise answered with at most an empty segment |
| `ClosedWindow.ClosesWithoutFin` | libsponge/tcp_connection.cc:26-35 | a stuck endpoint with nothing unsent emits nothing when its stream is ended or time passes, and closes without a FIN if and only if its peer has finished and it does not linger or has heard nothing for ten initial timeouts |
| `FinLost.ClosedButFinNeverSent` | libsponge/tcp_sender.cc:53-56 | for any sequence numbers, timeouts and capacities and any data of one segment that exactly fills the peer's buffer, a run that ends in such a close |
| `FinLost.StuckIsReached` | libsponge/tcp_sender.cc:96-104 | for the same family, a run that leaves an active endpoint with a stuck sender |
| `FinLost.PatienceIsReached` | libsponge/tcp_sender.cc:115-124 | one more byte written and an old zero-window ack delivered again leave the probe in flight at an endpoint that will never give up |
| `GiveUp.BackOffBounded` | libsponge/tcp_connection.cc:99-107 | in every run of two endpoints the timeout is the initial one times a power of two, at most 256 |
| `GiveUp.SilenceEndsInReset` | libsponge/tcp_connection.cc:99-107 | against a silent peer, with the window open or the attempts used up, enough ticks of at least 1 ms end in one reset and two stream errors |
| `GiveUp.ClosedWindowNeverGivesUp` | libsponge/tcp_sender.cc:115-124 | with the window closed and attempts left, no ticks whatever make the connection give up |
| `GiveUp.SilenceInAnyRun` | libsponge/tcp_connection.cc:15-25 | anywhere in any run with something in flight, after 255 initial timeouts and one more tick the connection has given up if and only if the window was open or the attempts were used up |
| `Timing.SilentIff` | libsponge/tcp_sender.cc:108-124 | against a silent peer ticks emit nothing if and only if, with the time elapsed before, they add up to less than the timeout |
| `Timing.NotBeforeTime` | libsponge/tcp_connection.cc:99-107 | the connection does not give up before all ticks but the last add up to the timeouts that are left |
| `Timing.GivesUpExactlyAt` | libsponge/tcp_connection.cc:99-107 | with ticks of one millisecond it gives up after every remaining timeout in full and one tick more, no sooner and no later |
| `Timing.AckResets` | libsponge/tcp_sender.cc:83-95 | exactly the acks that acknowledge something new restart the timer and restore the initial timeout |
| `Timing.TimerIsTrue` | libsponge/tcp_sender.cc:77-124 | in every run against an arbitrary peer the elapsed time is the true time in flight since something new was acknowledged or a segment repeated, and the timeout is the initial one doubled once per repetition into an open window since then |
| `NetworkInterfaces.NetworkInterface.Send` | libsponge/network_interface.cc:32-64 | computes the step: send at once, or queue and ask unless asked within five seconds |
| `NetworkInterfaces.NetworkInterface.Receive` | libsponge/network_interface.cc:74-119 | computes the step for a frame: filter, deliver, learn, answer or flush |
| `NetworkInterfaces.NetworkInterface.FlushQueue` | libsponge/network_interface.cc:108-111 | every waiting frame goes out addressed, oldest first |
| `NetworkInterfaces.NetworkInterface.Tick` | libsponge/network_interface.cc:122-130 | forgets exactly the mappings older than thirty seconds, in whatever order they are visited |
| `ArpRuns.StepIsOperation` | libsponge/network_interface.cc:32-130 | a step of a run is exactly the interface's operation |
| `ArpRuns.RequestsAreSpaced` | libsponge/network_interface.cc:39-61 | in every run requests for one hop are at least 5000 ms of true time apart |
| `ArpRuns.TablesAgree` | libsponge/network_interface.cc:86-130 | in every run the two cache tables know the same addresses |
| `ArpExchange.ExchangeDelivers` | libsponge/network_interface.cc:32-119 | from any state of an interface, a datagram for an unknown address is asked for in one frame, answered in one frame, and when the answer is heard the cache is right and everything that waited leaves in order, addressed so that the other interface takes it in |
| `ArpExchange.Bystander` | libsponge/network_interface.cc:74-79 | an interface ignores a frame that is neither for it nor broadcast |
| `ArpExchange.AnswersIff` | libsponge/network_interface.cc:91-114 | hearing a frame, an interface emits one answer and nothing else if the frame asks for its own address, and no answer otherwise |
| `ArpExchange.AsksIff` | libsponge/network_interface.cc:39-61 | in every run a send asks if and only if the hop is unknown and no request is on record or the last one lies 5000 ms back, modulo 2^32 |
| `ArpExchange.KeptLongEnough` | libsponge/network_interface.cc:122-130 | in every run an address heard less than 30000 ms ago is known |
| `ArpExchange.ForgottenIff` | libsponge/network_interface.cc:122-130 | in every run a tick forgets exactly the addresses heard 30000 ms ago or more, modulo 2^32 |
| `ArpDelivery.NothingLostOrDoubled` | libsponge/network_interface.cc:32-64 | in every run each datagram handed over is exactly once emitted or waiting |
| `ArpDelivery.OrderIsKept` | libsponge/network_interface.cc:105-114 | datagrams of a hop leave in order in every run in which none of that hop is sent past its waiting queue |
| `ArpDelivery.OrderKeptIff` | libsponge/network_interface.cc:32-114 | for datagrams that all differ, the order of a hop is kept if and only if none is sent past its queue: once broken it stays broken |
| `ArpDelivery.SendKeepsOrderIff` | libsponge/network_interface.cc:39-43 | a send keeps the order of its hop if and only if the address is unknown or nothing but copies of the same datagram waits |
| `ArpDelivery.OvertakingChangesOrder` | libsponge/network_interface.cc:91-104 | a run in which a request from the hop makes a later datagram overtake |
| `ArpDelivery.SentWhereAnnounced` | libsponge/network_interface.cc:86-111 | in every run a datagram frame goes to the address its hop announced last |
| `Checksums.InternetChecksum.Add` | libsponge/util/util.cc:89-98 | the byte loop computes the recursive sum with its parity |
| `Checksums.InternetChecksum.Value` | libsponge/util/util.cc:100-108 | the carry loop terminates with the complement of the folded sum |
| `Checksums.AddConcat` | libsponge/util/util.cc:89-98 | feeding chunks is feeding their concatenation |
| `Checksums.FoldMeaning` | libsponge/util/util.cc:100-108 | folding keeps the value modulo 65535 and zero only for zero |
| `Checksums.ChecksumZeroIff` | libsponge/util/util.cc:87-108 | up to 65535 bytes the checksum is zero if and only if the exact sum is a positive multiple of 65535 |
| `Checksums.PatchIsUnique` | libsponge/util/util.cc:87-108 | a buffer that checks out holds the very checksum that would be filled in, unless it holds 0xFFFF |
| `Checksums.OneByteErrorDetected` | libsponge/util/util.cc:87-108 | changing any one byte of a buffer that checks out is noticed |
| `Parsers.NetParser.ParseInt` | libsponge/util/parser.cc:26-43 | reads a big-endian integer and consumes it, or reports a short packet and returns 0 |
| `Parsers.NetParser.Skip` | libsponge/util/parser.cc:45-51 | consumes a prefix or reports a short packet |
| `Parsers.UnparseInt` | libsponge/util/parser.cc:53-60 | appends the big-endian bytes |
| `Parsers.TakeEncoded` | libsponge/util/parser.cc:26-60 | parsing the fields of an encoding gives back the values and leaves the rest |
| `Parsers.TakeAllIff` | libsponge/util/parser.cc:20-43 | a run of fields parses if and only if there are enough bytes |
| `Parsers.EncodeTaken` | libsponge/util/parser.cc:26-60 | writing out the fields just parsed gives back the bytes they came from |
| `TcpCodec.WriteHeader` | libsponge/tcp_helpers/tcp_header.cc:51-78 | fails exactly below five words, otherwise produces the padded header |
| `TcpCodec.ReadHeader` | libsponge/tcp_helpers/tcp_header.cc:17-48 | computes the header parse and what is left in the parser |
| `TcpCodec.HeaderBytes` | libsponge/tcp_helpers/tcp_header.cc:17-34 | every field is read from the bytes and bits that section 3.1 of RFC 793 gives it |
| `TcpCodec.HeaderVerdictIff` | libsponge/tcp_helpers/tcp_header.cc:36-47 | each verdict of the header parser in terms of byte 12 and the size |
| `TcpCodec.WriteSegment` | libsponge/tcp_helpers/tcp_segment.cc:30-45 | produces the segment with its checksum filled in |
| `TcpCodec.ReadSegment` | libsponge/tcp_helpers/tcp_segment.cc:12-23 | computes the segment parse |
| `TcpCodec.SegmentRoundTrip` | libsponge/tcp_helpers/tcp_segment.cc:12-45 | parsing a serialized segment gives back all fields and the payload without an error |
| `TcpCodec.ReserializeIff` | libsponge/tcp_helpers/tcp_segment.cc:12-45 | serializing what was parsed from an accepted buffer gives the buffer back byte for byte if and only if the data offset is at least five words, reserved bits and options are zero, and the checksum field is not 0xFFFF |
| `TcpCodec.SegmentAcceptedIff` | libsponge/tcp_helpers/tcp_segment.cc:12-23 | a buffer parses without an error if and only if it checks out, has 20 bytes, and the data offset in byte 12 is below five words or within the buffer; and which bytes are then the payload |
| `TcpCodec.ShortOffsetAccepted` | libsponge/tcp_helpers/tcp_header.cc:36-38 | any sixteen bytes announcing fewer than five words parse without an error once the checksum is filled in, although the header parser objects |
| `TcpCodec.SegmentCorruptionRejected` | libsponge/tcp_helpers/tcp_segment.cc:13-17 | any single changed byte turns an accepted segment into a checksum error |
| `Ipv4Codec.WriteHeader` | libsponge/tcp_helpers/ipv4_header.cc:78-110 | fails exactly for a wrong version or too short a header, otherwise produces the padded header |
| `Ipv4Codec.ReadHeader` | libsponge/tcp_helpers/ipv4_header.cc:23-75 | computes the header parse with its checks in order |
| `Ipv4Codec.HeaderBytes` | libsponge/tcp_helpers/ipv4_header.cc:31-47 | every field is read from the bytes and bits that section 3.1 of RFC 791 gives it |
| `Ipv4Codec.HeaderVerdictIff` | libsponge/tcp_helpers/ipv4_header.cc:49-74 | each complaint of the header parser exactly when it is the first that applies, in terms of bytes 0, 2 and 3 and the header's checksum |
| `Ipv4Codec.PseudoIsSum` | libsponge/tcp_helpers/ipv4_header.cc:125-131 | the pseudo-header sum is the sum of the twelve pseudo-header bytes of section 3.1 of RFC 793 |
| `Ipv4Codec.ChecksumCoversPseudo` | libsponge/tcp_helpers/ipv4_header.cc:125-131 | a segment's checksum is the one over pseudo-header and segment |
| `Ipv4Codec.MisdirectedRejected` | libsponge/tcp_helpers/tcp_segment.cc:12-17 | a nested segment is rejected once any byte of an address, or the protocol, has changed |
| `Ipv4Codec.WriteDatagram` | libsponge/tcp_helpers/ipv4_datagram.cc:23-41 | fails exactly when lengths or header do not fit, otherwise fills in the checksum |
| `Ipv4Codec.ReadDatagram` | libsponge/tcp_helpers/ipv4_datagram.cc:11-21 | computes the datagram parse |
| `Ipv4Codec.DatagramRoundTrip` | libsponge/tcp_helpers/ipv4_datagram.cc:11-41 | parsing a serialized datagram gives back all fields and the payload, with a checksum the header parser accepts |
| `Ipv4Codec.ReserializeIff` | libsponge/tcp_helpers/ipv4_datagram.cc:11-41 | serializing what was parsed from an accepted buffer gives the buffer back byte for byte if and only if it is version 4 with at least five words, reserved bit and options are zero, options come only with the right total length, and the header checksum is correct and not 0xFFFF |
| `Ipv4Codec.ChecksumIsIgnored` | libsponge/tcp_helpers/ipv4_datagram.cc:11-21 | any checksum field parses without an error, although the header parser finds it wrong exactly when it is |
| `Ipv4Codec.DatagramAcceptedIff` | libsponge/tcp_helpers/ipv4_datagram.cc:11-21 | a buffer parses without an error if and only if it has 20 bytes and version, header length and total length in bytes 0, 2 and 3 are well-formed or happen to announce as many bytes as follow the fixed header |
| `Ipv4Codec.WrongVersionAccepted` | libsponge/tcp_helpers/ipv4_header.cc:49-60 | any fields with a five-word header and the right total length come back without an error, although the header parser objects to any version but 4 |
| `Ipv4Codec.NestedRoundTrip` | libsponge/tcp_helpers/ipv4_header.cc:125-131 | a TCP segment inside a datagram survives both codecs, with the pseudo-header sum recomputed from the parsed header |

## Left out

- Positions, byte counts and the sender's timer are unbounded naturals; 64-bit wrap-around is modelled only in `unwrap`, and 32-bit wrap-around only in sequence numbers, the clocks of the connection and the interface, and the checksum.
- The router and its forwarding table: its ordering of routes is not a strict weak order, so longest-prefix match is not what the code computes.
- Sockets, event loop, threads, file descriptors and the TUN/TAP adapters, including the port filter of TCP over IP.
- The ARP and Ethernet header codecs: frames in the ARP model carry decoded payloads.
- Ports, the urgent field and options play no part in the connection model; they appear only in the codecs.
- The random choice of the initial sequence number, logging, reference-counted buffers, the string summaries of states, and the destructor of the connection.
- NetworkInterfaces.NetworkInterface.Tick: models the filter that the expiry loop intends; the C++ loop erases from the map it iterates over.
