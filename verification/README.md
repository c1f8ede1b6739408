# PStream in Dafny

A model of the transport core of PStream, a multipath fork of gQUIC, with proofs about it. Each
module follows one component of the repository:

- `VolumeScheduler`: how a stream's bytes are split over paths with different delays and bandwidths, and
  when the split finishes as early as any split can.
- `StreamReassembly`: the sorter that puts stream frames in order.
- `FlowControl` and `FlowProtocol`: the flow controllers and their manager, and two endpoints that use
  them over a network that loses, repeats and reorders.
- `ByteOrder`, `Float16`, `PacketNumber`: integers, the 16-bit float and truncated packet numbers.
- `AckWire`: the ACK frame on the wire.
- `SentPackets`, `SentPacketHandling`, `ReceivedPackets`: both ends of acknowledgement, with
  `AckEndToEnd` for whole runs of the two.
- `Frames`, `StreamFraming`, `Packing`: frames, filling a packet, writing it and taking it apart.
- `StreamDelivery`: a stream from what is written to it, through framer and sorter, to its reader.
- `RingLists`: the linked list behind packet histories, intervals and gaps.
- `OliaCongestion`: coupled congestion control.
- `StreamsMaps`, `StreamTrees`: the life of stream numbers, and the dependency tree.
- `Basics`: what several modules share.

Objects that the repository updates in place are classes, their loops are methods with invariants, and
what they compute is stated against functions and predicates on values. Times, the answers of congestion
control and random choices are parameters. `dafny verify dfyconfig.toml` checks everything.

Some statements that one would expect are false of the code. They are stated with the condition under
which they hold, which is exact unless said otherwise, and most with an input on which they fail:

- The allocation is not always optimal: two paths with the same delay stop the levelling loop
  (`VolumeScheduler.AllotmentOptimality`, `VolumeScheduler.SharedDelayExample`).
- A frame that ends at the maximum byte count is refused by the sorter, although a gap is there
  (`StreamReassembly.StreamFrameSorter.Push`).
- A receive window can shrink if half of its increment exceeds the maximum increment by more than one
  (`FlowProtocol.SteadyIsExact`, `FlowProtocol.ShrinkingExample`). Data sent within the windows can be reported as
  a violation if and only if that is so for the stream windows, or for the connection window while the stream
  windows are not 0 (`FlowProtocol.SafetyIsExact`).
- The first window update can take credit back, if it announces less than was sent on the strength of
  the initial window (`StreamFraming.StreamFramer.Grant`).
- An ACK frame does not always fit into a packet, whatever the comment in `packet_packer.go` says
  (`AckWire.AckMayNotFit`), and cannot be written at all if its first gap is too long
  (`AckWire.FirstGapDecides`).
- A packet does not always come apart into the frames that were put into it. A STOP_WAITING frame is cut without
  an error if its delta needs more bytes than the packet number has, and the peer rejects it or stops waiting for
  too much (`Frames.StopWaitingIsExact`, `Frames.CutExample`, `Packing.PacketPacker.PackPacket`). The header has
  room for all deltas of 48 bits if its length is chosen from a least unacknowledged number that is not above the
  frame's (`Frames.HeaderHasRoom`).
- A PING is lost if a STOP_WAITING frame is waiting on the path: the check that keeps back a STOP_WAITING
  frame alone takes it for one. Otherwise it takes a waiting ACK frame off the path
  (`Packing.PacketPacker.PackPacket`).
- The best path is chosen by products of 64 bits. While they fit it is the best one, but ten packets between
  losses and 100 milliseconds are too much: of two such paths the slower one is chosen, in either order, and the
  faster one gives to it if its window is larger (`OliaCongestion.PlacesAreStandings`, one way;
  `OliaCongestion.WrapExample`, `OliaCongestion.WrapShares`).
- A stream number of this side that is only next to be opened is treated as closed, and so is 0
  (`StreamsMaps.StreamsMap.GetOrOpenStream`).
- The client does not keep to its limit on outgoing streams, and counts its own streams against the limit
  on those of the server (`StreamsMaps.ClientOpensAny`, `StreamsMaps.ClientRefusesPeer`).
- Round robin does not always go on where it stopped: streams 1 and 3 are passed over in the list, but the index does
  not move past them, so that streams have their turn again (`StreamsMaps.TurnGoesOn`, `StreamsMaps.TurnExample`).
- A stream of the peer that is removed before it was accepted is waited for in vain, and none after it is
  ever accepted (`StreamsMaps.StreamsMap.AcceptStream`).
- A stream cannot be made to depend on the root again (`StreamTrees.StreamTree.NotBackToRoot`).

## Model

| member | source | states |
|---|---|---|
| `VolumeScheduler.Allocate` | scheduler.go:737-836 | for any delay-ordered paths and any size, the volumes are non-negative and sum to the size; every path with volume finishes at one time T and every unused path has delay at least T, or the loop stopped at a shared delay; the split is optimal (no other split finishes earlier) if and only if no shared delay stops it |
| `VolumeScheduler.LevelIsOptimal` | scheduler.go:737-836 | a split in which used paths finish at T and unused ones are no faster than T has the smallest possible maximum finishing time |
| `VolumeScheduler.UnevenIsNotOptimal` | scheduler.go:737-836 | a split over all paths in which one path finishes before the last one is beaten by another split: the converse of optimality |
| `VolumeScheduler.CutShort` | scheduler.go:812-836 | if the loop stops at a shared delay below the slowest with volume left, the result is not optimal |
| `VolumeScheduler.AllotmentOptimality` | scheduler.go:737-836 | the outcome of the two loops is optimal exactly when the delays are levelable: no delay below the slowest is shared unless the size is used up before it |
| `VolumeScheduler.SharedDelayExample` | scheduler.go:812-815 | a concrete input with two equal delays that is not levelable, so that the allocation is not optimal |
| `VolumeScheduler.CloseGap` | scheduler.go:757-778 | one round of levelling raises exactly the faster paths to the next delay, with nothing gained or lost in total |
| `VolumeScheduler.UseUp` | scheduler.go:779-801 | if the volume ends within a gap, it is spent so that the faster paths finish together |
| `VolumeScheduler.ShareLeftover` | scheduler.go:817-836 | what is left after the loop is shared in proportion to bandwidth: the whole size is split, and the finishing times of all paths move by the same amount |
| `VolumeScheduler.SortByDelay` | scheduler.go:714-731 | the usable paths in an order of ascending delay, none lost or repeated |
| `VolumeScheduler.Selection` | scheduler.go:841-850 | the paths that received volume, each once |
| `VolumeScheduler.ChoosePaths` | scheduler.go:626-853 | from all paths to the volumes: the split is over exactly the paths that may send, have not potentially failed and are not the initial one, each once, with their delays and the stream's share of their bandwidths; it is of the whole size in bits, with the optimality above, and what is selected are the paths with any of it, in bytes |
| `VolumeScheduler.UsableIsExact` | scheduler.go:665-683 | which paths are used, told from their flags and their number |
| `VolumeScheduler.ShareIsProportional` | scheduler.go:685-702 | a stream gets of the bandwidth what its priority is of the sum of all priorities on the path |
| `StreamReassembly.StreamFrameSorter.Push` | stream_frame_sorter.go:32-144 | for every frame that is a slice of the stream, and every state reached before: the gap list stays sorted, separated and equal to the complement of the received bytes; queued live frames tile what was received; the result is duplicate exactly if every byte was already received, too many gaps exactly if what is now received has more than 2500, and no end gap exactly at the maximum byte count |
| `StreamReassembly.StreamFrameSorter.Pop` | stream_frame_sorter.go:146-153 | the popped frame starts at the read position, which moves to its end, and the invariant is kept |
| `StreamReassembly.StreamFrameSorter.Head` | stream_frame_sorter.go:155-161 | there is a head with data exactly when the byte at the read position was received |
| `StreamReassembly.StreamFrameSorter.Drain` | stream_frame_sorter.go:146-161 | popping until there is no head delivers exactly the received bytes from the read position up to the first gap |
| `StreamReassembly.Run` | stream_frame_sorter.go:32-161 | any sequence of arrivals and reads, in any order, overlap or duplication: what is read is the longest prefix of the stream that arrived; the session closes if and only if some prefix of the arrivals leaves more than 2500 gaps, and never with fewer than 2500 arrivals |
| `StreamReassembly.FindGap` | stream_frame_sorter.go:54-68 | the first gap that the frame can touch, or that all of the frame was received; some gap is always found |
| `StreamReassembly.CoverGaps` | stream_frame_sorter.go:78-94 | exactly the gaps between the first and the last touched one are removed, with the queued frames that start in them; the walk fails exactly if the frame ends at the maximum byte count |
| `StreamReassembly.ShrinkGaps` | stream_frame_sorter.go:104-130 | the first and last touched gap are cut to what is still missing |
| `StreamReassembly.PushKeepsTiling` | stream_frame_sorter.go:32-144 | inserting a frame and dropping the superseded ones leaves a tiling of the received bytes by live frames |
| `StreamReassembly.CarveIsComplement` | stream_frame_sorter.go:104-130 | after the gaps are cut, they are the complement of the old bytes and the new ones together |
| `StreamReassembly.GapCount` | stream_frame_sorter.go:132-134 | the gap list has as many entries as there are gaps in what was received, counted without the list |
| `StreamReassembly.OneMoreGap` | stream_frame_sorter.go:119-125 | a frame makes at most one more gap |
| `StreamReassembly.FewArrivals` | stream_frame_sorter.go:132-134 | fewer than 2500 arrivals never leave too many gaps |
| `FlowControl.FlowController.SendWindowSize` | internal/flowcontrol/flow_controller.go:66-109 | what may still be sent is the least number that makes up for what is left of the window, or of the initial one before any update, and 0 beyond it |
| `FlowControl.FlowController.UpdateSendWindow` | internal/flowcontrol/flow_controller.go:94-100 | the window becomes the larger of itself and the offset, and the result says whether it grew |
| `FlowControl.FlowController.UpdateHighestReceived` | internal/flowcontrol/flow_controller.go:120-130 | the highest offset only grows, by the reported increment; a smaller offset is reported |
| `FlowControl.FlowController.MaybeUpdateWindow` | internal/flowcontrol/flow_controller.go:150-169 | an update is due exactly when less than half of the increment is left, or the unsigned difference wraps around to less; it sets the window to the increment beyond what was read and the time to now, and otherwise nothing changes |
| `FlowControl.FlowController.MaybeAdjustWindowIncrement` | internal/flowcontrol/flow_controller.go:172-206 | the increment doubles, up to its maximum, exactly if there was an update or a read before, the round trip time is known and less than two of the longer round trips have passed; nothing else changes |
| `FlowControl.IncrementOfRun` | internal/flowcontrol/flow_controller.go:138-206 | over every run of reads, receptions and updates of a controller: after n fast updates the increment is 2^n times the initial one, up to its maximum |
| `FlowControl.WindowOfRun` | internal/flowcontrol/flow_controller.go:150-169 | after any such run, an update that is due leaves the window at the increment beyond what was read, and one that is not due changes nothing |
| `FlowControl.FlowController.EnsureMinimumWindowIncrement` | internal/flowcontrol/flow_controller.go:211-216 | the increment is raised to a minimum, within its maximum |
| `FlowControl.FlowControlManager.NewStream` | internal/flowcontrol/flow_control_manager.go:44-53 | a stream gets one controller, and an existing one is kept |
| `FlowControl.FlowControlManager.RemoveStream` | internal/flowcontrol/flow_control_manager.go:56-60 | exactly that stream's controller goes |
| `FlowControl.FlowControlManager.ResetStream` | internal/flowcontrol/flow_control_manager.go:65-90 | data beyond the final offset is reported exactly if a higher offset was received, and then nothing changes; otherwise the final offset is accounted for as received |
| `FlowControl.FlowControlManager.UpdateHighestReceived` | internal/flowcontrol/flow_control_manager.go:95-130 | the stream's highest offset becomes the larger one, and the connection grows by as much if the stream contributes; a violation is reported exactly if one of the two windows is exceeded |
| `FlowControl.FlowControlManager.AddBytesRead` | internal/flowcontrol/flow_control_manager.go:133-148 | reading counts on the stream and, if it contributes, on the connection |
| `FlowControl.FlowControlManager.AddBytesSent` | internal/flowcontrol/flow_control_manager.go:188-203 | sending counts on the stream and, if it contributes, on the connection |
| `FlowControl.FlowControlManager.SendWindowSize` | internal/flowcontrol/flow_control_manager.go:250-265 | the smaller of the stream's and the connection's credit |
| `FlowControl.FlowControlManager.UpdateWindow` | internal/flowcontrol/flow_control_manager.go:275-291 | the credit of the stream or the connection becomes the larger of itself and the offset |
| `FlowControl.FlowControlManager.GetWindowUpdates` | internal/flowcontrol/flow_control_manager.go:150-169 | whatever order the map is walked in: every stream and the connection are updated; exactly what is due, or all if forced, is announced, each once with its new window; the connection first meets the largest demand of its streams, which is one and a half times a stream's increment, within its maximum |
| `FlowControl.RoundIsExact` | internal/flowcontrol/flow_control_manager.go:150-169 | the same about the values: what a round comes to does not depend on the order of the streams |
| `FlowProtocol.StepIsSafe` | internal/flowcontrol/flow_control_manager.go:44-291 | every step of two endpoints that follow the code (open, close, send, resend, reset, read, grant, deliver any message sent so far, at any time, any number of times) keeps the protocol invariant |
| `FlowProtocol.RunIsSafe` | internal/flowcontrol/flow_control_manager.go:95-203 | the invariant holds after every run of both endpoints, over any loss, duplication and reordering |
| `FlowProtocol.NoViolation` | internal/flowcontrol/flow_controller.go:218-220 | in every such run, with half of each initial window at most one more than the maximum (for the connection only if the streams have a window at all), no delivery of any STREAM or RST_STREAM frame sent so far is reported as a violation, at stream or connection level |
| `FlowProtocol.BufferBound` | internal/flowcontrol/flow_control_manager.go:95-130 | in every such run, at both endpoints, what is received and not read is bounded by the larger of the initial and the maximum window, and the connection counts the sums over its streams |
| `FlowProtocol.WindowsOnlyGrow` | internal/flowcontrol/flow_controller.go:150-206 | no step of such a run shrinks a receive window |
| `FlowProtocol.SteadyIsExact` | internal/flowcontrol/flow_controller.go:150-206 | for every increment and maximum: no update of any controller with them lowers its window if and only if half of the increment is at most one more than the maximum |
| `FlowProtocol.StreamViolation` | internal/flowcontrol/flow_controller.go:150-220 | for all parameters whose stream window is not steady, a run of two endpoints in which a frame sent within the windows is reported as too much data |
| `FlowProtocol.ConnectionViolation` | internal/flowcontrol/flow_control_manager.go:95-169 | the same for all parameters whose connection window is not steady, however small the stream windows are, unless they are 0: a run with one stream for each byte of the connection window |
| `FlowProtocol.SafetyIsExact` | internal/flowcontrol/flow_controller.go:150-220 | for all parameters: no run with any sound matching peer has a violation if and only if the stream window is steady, and the connection window is steady or the streams have none |
| `FlowProtocol.ShrinkingExample` | internal/flowcontrol/flow_controller.go:172-206 | the family of the converse at an initial window of 100 and a maximum of 10: the window falls from 100 to 61 |
| `FlowProtocol.UpdatedGrows` | internal/flowcontrol/flow_controller.go:150-206 | an update of a controller that is steady, or of which nothing was read, never lowers its window, and keeps it within its bounds |
| `AckWire.RoundTrip` | internal/wire/ack_frame.go:38-347 | for every well-formed frame below 2^48 whose first gap fits: parsing what is written gives the same path, largest packet and ranges, up to the lowest ranges that did not fit, the delay as rounded by the float format, and leaves the rest of the input alone |
| `AckWire.WritableIsLongest` | internal/wire/ack_frame.go:416-442 | the ranges that are written are the longest prefix whose blocks number at most 254 |
| `AckWire.AssembleRanges` | internal/wire/ack_frame.go:106-155 | assembling the blocks of any ranges, with any gaps, gives back the ranges |
| `AckWire.AssembleLong` | internal/wire/ack_frame.go:106-147 | a gap of any length, spread over blocks of length zero, is put together again |
| `AckWire.EncodedLength` | internal/wire/ack_frame.go:350-369 | the announced length is the length that is written |
| `AckWire.FirstGapDecides` | internal/wire/ack_frame.go:341-343 | some range after the first is written if and only if the first gap is at most 254 * 255 |
| `AckWire.PacketZeroIsRejected` | internal/wire/ack_frame.go:98-104 | a frame without missing packets that reaches down to packet 0 is rejected by the parser |
| `AckWire.AckFits` | internal/wire/ack_frame.go:350-369 | an ACK frame takes at most 1286 bytes if no range is longer than 2^32 - 1 |
| `AckWire.AckMayNotFit` | packet_packer.go:339-354 | a well-formed frame of 1795 bytes: it is not true that an ACK always fits |
| `AckWire.SentIsValid` | internal/wire/ack_frame.go:376-412 | what arrives passes the validation of the parser |
| `AckWire.WriteAckFrame` | internal/wire/ack_frame.go:203-347 | the writer emits the encoding, and fails exactly if the frame is inconsistent or its first gap does not fit |
| `AckWire.WriteRange` | internal/wire/ack_frame.go:281-333 | the blocks of one range, with their number |
| `AckWire.NumWritableRanges` | internal/wire/ack_frame.go:416-442 | one more than the number of blocks that will be written |
| `AckWire.MissingDeltaLength` | internal/wire/ack_frame.go:444-469 | the bytes that the longest range needs |
| `AckWire.DeltaLengthIsLeast` | internal/wire/ack_frame.go:444-469 | no fewer bytes would do for the longest range |
| `AckWire.PrefixLayout` | internal/wire/ack_frame.go:203-270 | where the fields are: type bits, path, largest acknowledged, delay, number of blocks, first block |
| `AckWire.ParseAckFrame` | internal/wire/ack_frame.go:38-200 | the parser computes the parse function, with its errors, for every input |
| `AckWire.ParseBlockList` | internal/wire/ack_frame.go:113-152 | the block loop assembles the ranges, and drops one that was never completed |
| `AckWire.UnfinishedIsDropped` | internal/wire/ack_frame.go:123-152 | blocks without a length at the end leave the ranges from before them |
| `AckWire.ParsedIsSensible` | internal/wire/ack_frame.go:98-165 | every accepted frame acknowledges its largest packet, no range begins below the lowest packet, and packet 0 is claimed without ranges only by itself |
| `AckWire.SkipTimestampSection` | internal/wire/ack_frame.go:167-198 | the timestamps are skipped |
| `AckWire.TimestampsAreSkipped` | internal/wire/ack_frame.go:167-198 | for every number of timestamps, exactly their bytes are skipped, or the input ends too early |
| `Float16.Encode` | internal/utils/float16.go:54-86 | the shift loop finds the representation of the largest representable value at most v, clamped at the maximum |
| `Float16.RoundTrip` | internal/utils/float16.go:25-86 | encoding a decoded value gives it back, for all 16-bit values |
| `Float16.RepresentationIsUnique` | internal/utils/float16.go:54-86 | there is one representation of the largest representable value at most v |
| `Float16.DecodeIsMonotone` | internal/utils/float16.go:25-51 | decoding is strictly monotone |
| `Float16.RepresentationIsMonotone` | internal/utils/float16.go:54-86 | encoding is monotone |
| `Float16.RelativeError` | internal/utils/float16.go:54-86 | the rounding error is below 2^-11 of the value |
| `PacketNumber.InferIsExact` | internal/protocol/packet_number.go:4-28 | for all 64-bit numbers: a truncated number is inferred if and only if it is less than half an epoch from the next expected one, with ties, the first and the last epoch, and the wrap-around after the last number |
| `PacketNumber.TruncationIsInvertible` | internal/protocol/packet_number.go:4-42 | with the length chosen for the least unacknowledged number, inferring gives the number back unless the receiver is half an epoch ahead |
| `PacketNumber.LengthForHeader` | internal/protocol/packet_number.go:32-42 | the least of 2, 4 and 6 bytes that has twice the distance to the least unacknowledged number, or 6 |
| `PacketNumber.LengthFor` | internal/protocol/packet_number.go:45-56 | the least number of bytes that holds the packet number |
| `ByteOrder.WriteThenReadLow` | internal/utils/byteorder_big_endian.go:17-149 | of any integer exactly the low bytes are read back |
| `ByteOrder.WriteThenRead` | internal/utils/byteorder_big_endian.go:17-149 | an integer that fits is read back, in either byte order, whatever follows it |
| `ByteOrder.ReadThenWrite` | internal/utils/byteorder_big_endian.go:17-149 | the converse: the bytes that are read are those that are written for the value |
| `ByteOrder.WriteAt` | internal/utils/byteorder_big_endian.go:92-149 | which byte of the number goes where, in either order |
| `SentPackets.DetermineNewlyAcked` | ackhandler/sent_packet_handler.go:299-335 | the two-pointer scan returns exactly the packets that the frame acknowledges, in order; it fails if and only if a packet lies within the frame's bounds but above all its ranges |
| `SentPackets.ValidFrame` | ackhandler/sent_packet_handler.go:323-327 | no packet lies there for a frame that passed the parser: the error is unreachable |
| `SentPackets.RangeDecides` | ackhandler/sent_packet_handler.go:315-328 | with the lower ranges passed, the current range alone decides |
| `SentPackets.WithoutOne` | ackhandler/sent_packet_handler.go:513-518 | removing a packet from the history takes its length, and nothing else, off the sum |
| `SentPackets.StripIsExact` | ackhandler/retransmittable.go:6-25 | what is kept of a packet: every frame but ACK and STOP_WAITING, as often as it was there, and in order |
| `SentPackets.RetransmittableIsExact` | ackhandler/packet.go:36-58 | a packet has something to retransmit exactly if it has a frame that is not about closing or acknowledging |
| `SentPacketHandling.SentPacketHandler.SentPacket` | ackhandler/sent_packet_handler.go:135-183 | accepted exactly if the number is new and there is room; then the packet is appended if it has any frame but ACK and STOP_WAITING, with exactly these frames in order, its bytes count, and the numbers left out are remembered up to the latest ten |
| `SentPacketHandling.SentPacketHandler.ReceivedAck` | ackhandler/sent_packet_handler.go:185-258 | the verdict in each case; if processed, exactly the acknowledged packets leave as acknowledged, then exactly those overtaken too long ago are handed over, the loss timer is that of the oldest packet left, and skipped numbers below are forgotten; the ledger invariant is kept |
| `SentPacketHandling.SentPacketHandler.VerdictCases` | ackhandler/sent_packet_handler.go:185-205 | the verdict told from the numbers: unsent, duplicate, ignored below the least unacknowledged number, about a skipped number, or processed, each exactly |
| `SentPacketHandling.SentPacketHandler.ReceivedClosePath` | ackhandler/sent_packet_handler.go:260-297 | the same without the check for old frames, and everything up to the largest acknowledged number is handed over |
| `SentPacketHandling.SentPacketHandler.OnPacketAcked` | ackhandler/sent_packet_handler.go:513-518 | one packet moves from the history to the acknowledged ones |
| `SentPacketHandling.SentPacketHandler.QueueForRetransmission` | ackhandler/sent_packet_handler.go:595-601 | one packet moves from the history to the end of the queue, and the next STOP_WAITING covers it and nothing beyond |
| `SentPacketHandling.SentPacketHandler.DetectLost` | ackhandler/sent_packet_handler.go:419-451 | exactly the overtaken and overdue packets are handed over, in order |
| `SentPacketHandling.FindLost` | ackhandler/sent_packet_handler.go:426-442 | exactly the overtaken and overdue packets, and the deadline of the oldest packet that stays |
| `SentPacketHandling.LostIsExact` | ackhandler/sent_packet_handler.go:419-451 | a packet is found lost if and only if its number is at most the largest acknowledged one and it was sent longer ago than the delay |
| `SentPacketHandling.DeadlineIsExact` | ackhandler/sent_packet_handler.go:419-442 | the loss timer is that of the oldest overtaken packet that is not overdue, and there is none exactly if all of them are overdue |
| `SentPacketHandling.TimerFindsLost` | ackhandler/sent_packet_handler.go:419-484 | after the loss timer, something is lost |
| `SentPacketHandling.SentPacketHandler.SetInflightAsLost` | ackhandler/sent_packet_handler.go:453-473 | exactly the packets up to the largest acknowledged one are handed over |
| `SentPacketHandling.SentPacketHandler.OnAlarm` | ackhandler/sent_packet_handler.go:475-507 | nothing unless a packet in flight has a frame that is not about closing or acknowledging; otherwise overdue packets, or the last one as a probe, or after two probes the oldest two, or all if the path failed, are handed over in order |
| `SentPacketHandling.SentPacketHandler.RetransmitAll` | ackhandler/sent_packet_handler.go:564-569 | the whole history is handed over in order |
| `SentPacketHandling.SentPacketHandler.RetransmitOldestTwo` | ackhandler/sent_packet_handler.go:577-581 | the first two packets, or as many as there are, are handed over |
| `SentPacketHandling.SentPacketHandler.DequeuePacketForRetransmission` | ackhandler/sent_packet_handler.go:520-532 | the queue is first in, first out |
| `SentPacketHandling.SentPacketHandler.DuplicatePacket` | ackhandler/sent_packet_handler.go:603-605 | a copy is queued, on its own account |
| `SentPacketHandling.SentPacketHandler.LeastUnacked` | ackhandler/sent_packet_handler.go:124-129 | the lowest number in flight, or the one after the largest acknowledged; every packet below it has been acknowledged or handed over |
| `SentPacketHandling.SentPacketHandler.SendingAllowed` | ackhandler/sent_packet_handler.go:542-556 | a packet that may be sent is not refused for lack of room, and exceeds the congestion window only for a retransmission; one that may not be sent lacks one of the two |
| `SentPacketHandling.SentPacketHandler.GetStopWaitingFrame` | ackhandler/stop_waiting_manager.go:16-37 | a new frame announces more than every earlier one, and never more than was sent; a forced one repeats the last, or makes it if it was lost |
| `SentPacketHandling.ExactlyOnePlace` | ackhandler/sent_packet_handler.go:135-183 | by the ledger, a packet that was sent is in flight, acknowledged or handed over, and in no two of these |
| `SentPacketHandling.SkipTo` | ackhandler/sent_packet_handler.go:144-150 | the numbers between two packets are remembered, up to the latest ten |
| `SentPacketHandling.LatestIsSuffix` | ackhandler/sent_packet_handler.go:144-150 | what is remembered is the end of all skipped numbers, ten of them or all |
| `SentPacketHandling.CollectSkipped` | ackhandler/sent_packet_handler.go:648-657 | exactly the skipped numbers above the bound are kept |
| `ReceivedPackets.Register` | ackhandler/received_packet_history.go:28-75 | the set of numbers gains exactly p, intervals stay sorted and apart although only the previous one is looked at for merging; it fails exactly at the limit |
| `ReceivedPackets.DeleteUpTo` | ackhandler/received_packet_history.go:78-93 | the set loses exactly the numbers up to p |
| `ReceivedPackets.AckRanges` | ackhandler/received_packet_history.go:96-108 | the intervals from the highest down |
| `ReceivedPackets.Merged` | ackhandler/received_packet_history.go:52-58 | a number that closes a gap makes one interval of two |
| `ReceivedPackets.FrameIsExact` | ackhandler/received_packet_handler.go:125-148 | the frame acknowledges exactly the numbers of the history |
| `ReceivedPackets.ReceivedPacketHandler.ReceivedPacket` | ackhandler/received_packet_handler.go:46-68 | the history gains the packet unless it is below the limit; each error has its exact condition; an ACK is queued exactly for the reasons given, and a packet that wants one never goes without a queued ACK or an alarm |
| `ReceivedPackets.ReceivedPacketHandler.MaybeQueueAck` | ackhandler/received_packet_handler.go:77-123 | the exact reasons for an ACK without delay: first packet, twenty packets before version 39, a reported hole filled, a new hole, two retransmittable packets |
| `ReceivedPackets.ReceivedPacketHandler.UrgentCases` | ackhandler/received_packet_handler.go:77-123 | these reasons told from the numbers; there is a new hole exactly if a number at or above the last reported one is missing below the largest |
| `ReceivedPackets.ReceivedPacketHandler.SetLowerLimit` | ackhandler/received_packet_handler.go:72-75 | exactly the numbers up to the limit are forgotten, and the largest observed one stays |
| `ReceivedPackets.ReceivedPacketHandler.GetAckFrame` | ackhandler/received_packet_handler.go:125-148 | a frame exactly when one is due; it is non-empty, has the largest observed number on top, acknowledges exactly the history, which was received, and survives the wire |
| `AckEndToEnd.TruncationAcksLess` | internal/wire/ack_frame.go:203-347 | what arrives acknowledges exactly what was meant from its lowest number up, and nothing else |
| `AckEndToEnd.Write` | internal/wire/ack_frame.go:38-347 | for every frame a receiver builds: it is written if and only if its first gap fits, and the bytes parse to its longest writable part and the rounded delay |
| `AckEndToEnd.ReportedIsLongest` | internal/wire/ack_frame.go:416-442 | as many intervals of a history are reported as 254 blocks hold, and all of them if and only if they fit |
| `AckEndToEnd.PutOnWire` | ackhandler/received_packet_handler.go:125-148 | bytes exactly if a frame is due and its first gap fits; they say of every number down to the lowest reported one whether the history has it, and all of those were received |
| `AckEndToEnd.TakeIn` | ackhandler/sent_packet_handler.go:185-258 | bytes about received packets only, whenever they arrive and with any packet number: never rejected as unsent or skipped, processed under an exact condition, and then exactly the packets in flight that they acknowledge become acknowledged |
| `AckEndToEnd.Acknowledge` | ackhandler/sent_packet_handler.go:185-258 | a frame goes out exactly if one is due and its first gap fits; it is processed exactly if it comes with a new packet number and tells something new; only received packets become acknowledged, and then every packet in flight that the history has down to the lowest one reported, which is the whole history if its gaps take at most 254 blocks |
| `AckEndToEnd.StopWaitingStep` | session.go:590-593 | a STOP_WAITING frame, whatever its bytes, sets a limit below a packet that was received, so that the receiver's invariant is kept |
| `AckEndToEnd.Step` | ackhandler/sent_packet_handler.go:135-601 | what each event does to sender, receiver and wire, and that both ends stay linked |
| `AckEndToEnd.EffectKeeps` | ackhandler/sent_packet_handler.go:135-601 | every event keeps what the soundness of a run rests on: the ledger of the sender, a history of received packets only, and ACK frames on the wire about received packets only |
| `AckEndToEnd.EveryRunIsSound` | ackhandler/sent_packet_handler.go:135-601 | in every run of these effects from the start, with packets and ACK frames lost, repeated, delayed and reordered, STOP_WAITING, alarms and retransmission: at all times no packet counts as acknowledged that was not received, and every packet is in exactly one of the three places |
| `AckEndToEnd.Run` | ackhandler/sent_packet_handler.go:135-601 | for any events the two handlers go through such a run, from their start to their actual state, and handle all events unless the receiver has 2500 intervals |
| `Frames.StreamRoundTrip` | internal/wire/stream_frame.go:28-151 | every STREAM frame that may be sent is read back; without a length, nothing may follow it |
| `Frames.EncodeStream` | internal/wire/stream_frame.go:89-151 | the length is that of the header and the data, and the type byte marks a STREAM frame |
| `Frames.ParseStream` | internal/wire/stream_frame.go:28-86 | a parsed frame consumes input, is not empty without FIN, and does not pass the maximum offset |
| `Frames.ParsedDataIsBounded` | internal/wire/stream_frame.go:51-86 | a given length is at most that of a packet, and without one the data is the rest |
| `Frames.StreamLayout` | internal/wire/stream_frame.go:89-151 | where the fields of a STREAM frame are |
| `Frames.StreamTypeLayout` | internal/wire/stream_frame.go:89-118 | the bits of its type: end, length, bytes of offset and number |
| `Frames.IdLength` | internal/wire/stream_frame.go:153-162 | the least number of bytes that holds a stream number |
| `Frames.OffsetLength` | internal/wire/stream_frame.go:164-187 | the least number of bytes that holds an offset, and never one |
| `Frames.ParseStopWaiting` | internal/wire/stop_waiting_frame.go:64-81 | the least unacknowledged number is positive and at most that of the packet |
| `Frames.StopWaitingArrives` | internal/wire/stop_waiting_frame.go:26-81 | what the peer reads of any STOP_WAITING frame: the delta, cut to the bytes of the packet number, or an error if that reaches below packet 1 |
| `Frames.StopWaitingIsExact` | internal/wire/stop_waiting_frame.go:26-81 | a STOP_WAITING frame is read back if and only if it names a positive number and its delta fits into the bytes of the packet number |
| `Frames.CutExample` | internal/wire/stop_waiting_frame.go:36-48 | packet 0x20000 with two bytes: STOP_WAITING for 1 is read as 0x10001 |
| `Frames.HeaderHasRoom` | packet_packer.go:553-560 | with the length the header chooses, from a least unacknowledged number that is not above the frame's, the delta fits if and only if it is below 2^48 |
| `Frames.ControlRoundTrip` | packet_unpacker.go:68-108 | STOP_WAITING, WINDOW_UPDATE, BLOCKED, RST_STREAM and PING frames are read back |
| `Frames.ControlIsUnique` | packet_unpacker.go:70-108 | the converse: whatever is accepted with such a type is one of these frames, may be sent, and is only read from the bytes that are written for it |
| `Frames.OtherTypesAreRejected` | packet_unpacker.go:67-115 | below 0x40, a type is answered as unknown exactly if the switch does not list it, and as unsupported exactly if it is that of CONGESTION_FEEDBACK or of a frame that is left out here |
| `Frames.FrameRoundTrip` | packet_unpacker.go:44-115 | every frame that may be sent arrives, whatever follows it in the packet |
| `Frames.FrameLayout` | internal/wire/rst_stream_frame.go:18-24 | where the fields of every other frame are |
| `Frames.EncryptionMatters` | packet_unpacker.go:52-61 | without encryption a frame is read as with it, except that data of any stream but the crypto stream is rejected |
| `Frames.FrameLengthIsExact` | internal/wire/window_update_frame.go:17-27 | the announced length of every frame is the length that is written |
| `StreamFraming.SplitKeepsContents` | stream_framer.go:559-576 | the two parts of a split frame deliver what the frame delivered, with the end of the stream on the second |
| `StreamFraming.TakeFrame` | stream_framer.go:186-211 | one queued frame: nothing if the header does not fit, all of it, or a part that fills the space exactly |
| `StreamFraming.PopRetransmissions` | stream_framer.go:179-213 | frames and remaining queue deliver, in order, what the queue delivered; the length is exact and within the limit; it stops only when no header fits |
| `StreamFraming.PopRetransmissionsOfPath` | stream_framer.go:216-265 | the same for the streams of a path, wherever they are in the queue; frames of other streams are not touched |
| `StreamFraming.PopFrom` | stream_framer.go:317-379 | the next frame of a stream, if and only if it is not exhausted (nothing to deliver, no space, no credit, or too much for a path without volume), and it is exhausted afterwards; the packet is full under an exact condition |
| `StreamFraming.EmittedFacts` | stream_framer.go:345-379 | that frame takes over what it delivers from its stream, at its own offset, within space and credit, and fits the wire |
| `StreamFraming.PopNormal` | stream_framer.go:389-480 | any turns of the streams: frames and streams together deliver what the streams delivered, each in order and at its own offset, within space and credit, all of it counted; the connection is announced blocked once for each frame after which it has no credit left, and a stream once for each frame without end that leaves it none while the connection has some; no stream that had its turn could have sent more, and none is left out unless the packet is full |
| `StreamFraming.BlockedIsExact` | stream_framer.go:448-460 | for any frames that there was credit for, exactly those are announced |
| `StreamFraming.BlockedByIsExact` | stream_framer.go:448-460 | the same for one frame, told from the credit that is left |
| `StreamFraming.PartIsExact` | stream_framer.go:216-265 | the frames on a path and the others make up the queue, each on the side of its stream |
| `StreamFraming.FrameDelivers` | stream.go:315-334 | a frame takes over what it delivers from its stream |
| `StreamFraming.SendingKeepsCredit` | internal/flowcontrol/flow_control_manager.go:188-265 | sending within the credit keeps every window |
| `StreamFraming.StreamFramer.PopStreamFrames` | stream_framer.go:47-62 | pieces of what has to be sent again, then new data: what is delivered is no longer to be delivered, and nothing else changes; within maxLen bytes, and nothing more would have fitted; exactly what the new data blocks is queued as blocked; every frame ever made stays a slice of what was written |
| `StreamFraming.PopIsRecorded` | stream_framer.go:47-62 | after any retransmissions and any new frames, every frame ever made and every frame still to be sent again is the slice of the written data at its own offset, every byte that a stream is past was sent, and a frame with FIN ends with all that will be written |
| `StreamFraming.StreamFramer.Write` | stream.go:245-293 | refused exactly on a closed or failed stream; otherwise the data follows what was sent, which for a writer that waits is all that was written before |
| `StreamFraming.StreamFramer.Grant` | internal/flowcontrol/flow_controller.go:92-109 | a window update keeps the stream within its credit, unless it is the first one and below what was sent |
| `StreamFraming.StreamFramer.PopBlockedFrame` | stream_framer.go:64-71 | the first BLOCKED frame leaves the queue |
| `StreamDelivery.EmittedIsSlice` | stream.go:315-334 | in every reachable state of the framer, every frame ever made is a slice of what was written to its stream |
| `StreamDelivery.Transfer` | stream_frame_sorter.go:32-161 | whatever frames of a stream arrive, lost, sent again in other pieces, repeated or reordered: the reader gets a prefix of what was written, and exactly what was sent if all of that arrives |
| `Packing.PacketRoundTrip` | packet_unpacker.go:44-119 | a payload comes apart into the frames that were put into it, if only the last one leaves out its length |
| `Packing.PaddedRoundTrip` | packet_unpacker.go:44-119 | the same with any padding after it, if the last frame has its length too |
| `Packing.PaddingIsIgnored` | packet_unpacker.go:44-49 | any padding before frames is ignored |
| `Packing.UnencryptedPayload` | packet_unpacker.go:44-119 | without encryption a payload is rejected if it has data of any stream but the crypto stream, and otherwise read as with it |
| `Packing.UnpackPacket` | packet_unpacker.go:27-125 | the frame loop computes the unpacking function, padding and errors included |
| `Packing.PayloadLengthIsExact` | packet_packer.go:582-600 | the length of a payload is the sum of the announced lengths |
| `Packing.ShortenSavesTwo` | packet_packer.go:520-528 | leaving out the last length saves the two bytes that were lent, and no data |
| `Packing.TakeControl` | packet_packer.go:498-511 | control frames are taken from the end as long as they fit, and no others |
| `Packing.PacketPacker.Compose` | packet_packer.go:472-540 | never more than max bytes although STREAM frames are popped against two more; nothing is lost, nothing more would have fitted, and exactly what was blocked before, and by the new frames, is announced; it fails exactly if STOP_WAITING and ACK do not fit |
| `Packing.PacketPacker.Pick` | packet_packer.go:145-162 | a PING that is first among the control frames goes alone; otherwise what is composed |
| `Packing.PacketPacker.PackPacket` | packet_packer.go:188-245 | a packet that is sent takes at most max bytes, and comes apart into the frames that were picked if and only if no STOP_WAITING goes first or its delta fits into the bytes of the packet number; too large exactly if STOP_WAITING and ACK exceed max, unwritable exactly if the first gap of the ACK is too long, or STOP_WAITING names a number above the packet's or the packet's is 0; nothing exactly if no frame is picked, or one while STOP_WAITING waits; a frame is picked and not sent exactly if it is a PING and STOP_WAITING waits; a PING that is sent discards a waiting ACK |
| `Packing.CutIsNotRead` | packet_unpacker.go:44-119 | a packet with a STOP_WAITING frame whose delta is cut, whatever follows, is rejected or read as other frames |
| `Packing.WriteFrames` | packet_packer.go:595-600 | the frames are written in order; it fails exactly if an ACK or STOP_WAITING frame among them cannot be written |
| `RingLists.RingList.Insert` | internal/utils/byteinterval_linkedlist.go:90-99 | the ring stays linked both ways and the sequence gains the element at its place |
| `RingLists.RingList.PushFront` | internal/utils/byteinterval_linkedlist.go:129-132 | the sequence gains a first element |
| `RingLists.RingList.PushBack` | internal/utils/byteinterval_linkedlist.go:135-138 | the sequence gains a last element |
| `RingLists.RingList.InsertBefore` | internal/utils/byteinterval_linkedlist.go:142-148 | an element before the mark, or nothing if the mark is in another list |
| `RingLists.RingList.InsertAfter` | internal/utils/byteinterval_linkedlist.go:152-158 | an element after the mark, or nothing if the mark is in another list |
| `RingLists.RingList.Unlink` | internal/utils/byteinterval_linkedlist.go:107-115 | the sequence loses exactly that element, and the ring closes |
| `RingLists.RingList.Remove` | internal/utils/byteinterval_linkedlist.go:119-126 | an element is removed by its own list only |
| `RingLists.RingList.MoveToFront` | internal/utils/byteinterval_linkedlist.go:162-168 | the element becomes the first, and the others keep their order |
| `RingLists.RingList.Front` | internal/utils/byteinterval_linkedlist.go:67-72 | the first element, or none |
| `RingLists.RingList.Back` | internal/utils/byteinterval_linkedlist.go:75-80 | the last element, or none |
| `RingLists.RingList.Next` | internal/utils/byteinterval_linkedlist.go:29-34 | the element after it in the sequence, or none at the end |
| `RingLists.RingList.Prev` | internal/utils/byteinterval_linkedlist.go:37-42 | the element before it in the sequence, or none at the beginning |
| `OliaCongestion.SharesCancel` | congestion/olia_sender.go:150-211 | whatever the paths, the shares sum to exactly zero |
| `OliaCongestion.SharesAreEqual` | congestion/olia_sender.go:190-210 | the best paths without the largest window gain together one part of as many as there are paths, each the same, those with the largest give up as much, each the same, and the others nothing |
| `OliaCongestion.ByteIsEnough` | congestion/olia_sender.go:159-188 | for up to 256 paths the 8-bit counters are exact wherever they are used |
| `OliaCongestion.GetEpsilon` | congestion/olia_sender.go:150-211 | after the three loops the shares sum to exactly zero, and are divided by the largest window and the path that the loop chooses; while the products fit into 64 bits, they are those of the paths with the largest windows and of the other paths with the highest ratio of bytes between losses to squared round trip time |
| `OliaCongestion.BestPath` | congestion/olia_sender.go:164-172 | a path of the highest ratio, while the products fit into 64 bits; in any case one of the paths, if there is any, namely the last that was not worse than the choice before it |
| `OliaCongestion.ComparesRatios` | congestion/olia_sender.go:168-171 | the comparison of products is that of the ratios, while they fit |
| `OliaCongestion.PlacesAreStandings` | congestion/olia_sender.go:174-210 | the two sets are those of the largest windows and of the highest ratios among the others |
| `OliaCongestion.WrapExample` | congestion/olia_sender.go:164-188 | ten packets between losses at 100 and 200 milliseconds: the products wrap around, and in either order the slower path is chosen; it is then the best one without the largest window, if the faster one has that |
| `OliaCongestion.WrapShares` | congestion/olia_sender.go:190-210 | in that case the faster path gives one half to the slower one |
| `OliaCongestion.CountPlaces` | congestion/olia_sender.go:176-188 | the 8-bit sizes of the two sets |
| `OliaCongestion.MaxWindow` | congestion/olia_sender.go:124-131 | the largest window of all paths |
| `OliaCongestion.Choose` | congestion/olia_sender.go:190-210 | the share of one path, by the set it is in |
| `OliaCongestion.OliaSender.CongestionWindowAfterAck` | congestion/olia.go:63-92 | the window changes by a whole packet when the fractions add up to one, and stays positive; the counter stays within one packet |
| `OliaCongestion.IncrementIsExact` | congestion/olia.go:63-84 | while 64 bits are enough, the increment is the truncated quotient of num * rate + den * scaled^2 by den * window * rate, scaled, with its sign |
| `OliaCongestion.AloneIsReno` | congestion/olia.go:63-84 | a path that is alone grows by at most one packet for each window that is acknowledged |
| `OliaCongestion.RateConcat` | congestion/olia_sender.go:133-148 | the rate is a sum over the paths in 64-bit arithmetic, so that their order does not matter |
| `OliaCongestion.RateOfOne` | congestion/olia_sender.go:133-148 | what one path adds is its scaled window times the ratio of the round trip times, rounded down |
| `OliaCongestion.SmoothedIsLarger` | congestion/olia.go:50-52 | the bytes since the last loss or between the last two, whichever are more |
| `OliaCongestion.OliaSender.MaybeIncreaseCwnd` | congestion/olia_sender.go:213-232 | nothing unless at most 4380 bytes of the window are left, or in slow start less than a half of it, or if the window is at its maximum; one packet in slow start; otherwise exactly the coupled change, by share and rate, with balanced shares |
| `OliaCongestion.OliaSender.OnPacketAcked` | congestion/olia_sender.go:234-246 | in every run the window stays between 1 and its maximum and changes by at most one; nothing in recovery or unless the window limits; one packet in slow start; otherwise exactly the coupled change, with shares that the windows and ratios of all paths decide and that cancel; loss1 <= loss2 <= loss3 |
| `OliaCongestion.OliaSender.OnPacketLost` | congestion/olia_sender.go:248-288 | the window after a loss, once per cutback: with n connections it is (10n - 3)/(10n) of the old one, rounded down, or one packet less with the large reduction in slow start, and at least 2, so that it gets smaller if it was above 2; after that one packet less for each further segment lost in slow start; the loss counters shift |
| `OliaCongestion.OliaSender.CutIsExact` | congestion/olia_sender.go:273-282 | the same about the value alone |
| `OliaCongestion.OliaSender.BetaIsExact` | congestion/olia_sender.go:355-361 | the factor keeps all but three tenths of the part of one connection |
| `OliaCongestion.OliaSender.OnRetransmissionTimeout` | congestion/olia_sender.go:296-305 | the window falls to its minimum and the counters start again |
| `StreamsMaps.StreamsMap.OpenStream` | streams_map.go:418-436 | a number never used before, open or removed; refused exactly if the outgoing counter is at its limit |
| `StreamsMaps.StreamsMap.GetOrOpenStream` | streams_map.go:158-221 | opens exactly the peer's streams up to the number, until there are too many, which is decided by an exact condition on the counter; closed exactly for numbers used before, for 0 and for this side's next number; invalid exactly for this side's later numbers |
| `StreamsMaps.StreamsMap.OpenRemoteStream` | streams_map.go:346-370 | the peer's next stream, unless the incoming counter is at its limit |
| `StreamsMaps.StreamsMap.PutStream` | streams_map.go:922-937 | the listing and both counters follow the map |
| `StreamsMaps.StreamsMap.RemoveStream` | streams_map.go:941-982 | the stream leaves map, listing and counter, its number is used up for good, and the turn stays with the stream that has it |
| `StreamsMaps.StreamsMap.AcceptStream` | streams_map.go:581-598 | the peer's streams are accepted in the order of their numbers, without a gap and each once; the next one is there exactly if it was opened and not removed; once it is removed, no stream is accepted any more |
| `StreamsMaps.StreamsMap.RoundRobinIterate` | streams_map.go:664-697 | streams 1 and 3, then all others from the one whose turn it is, until the visitor stops; the turn moves on by the streams that had one |
| `StreamsMaps.OrderListsAll` | streams_map.go:664-697 | every open stream has exactly one turn |
| `StreamsMaps.TurnGoesOn` | streams_map.go:664-697 | if an iteration stops early, the next one begins with the stream whose turn is next if and only if neither 1 nor 3 is listed among as many as had a turn |
| `StreamsMaps.TurnExample` | streams_map.go:664-697 | with 1 and 3 at the head of the list, the same stream has its turn again |
| `StreamsMaps.ClientOpensAny` | streams_map.go:418-436 | on the client the limit on outgoing streams does not bind: with any positive limit, any number can be opened |
| `StreamsMaps.ClientRefusesPeer` | streams_map.go:346-370 | for any limits, a client with as many own streams as the peer may open refuses every stream of the peer, which has none open |
| `StreamTrees.StreamTree.AddNode` | stream_tree.go:140-173 | a new node depends on the root |
| `StreamTrees.StreamTree.MaybeSetParent` | stream_tree.go:204-288 | each verdict has its exact condition on the two numbers; a new parent that was below the child first takes the child's place; all other nodes keep their parents; the dependencies stay free of circles |
| `StreamTrees.StreamTree.IsAbove` | stream_tree.go:244-259 | the walk towards the root ends, and finds the child exactly if the new parent is below it |
| `StreamTrees.StreamTree.NotBackToRoot` | stream_tree.go:224-238 | a stream can be made to depend on the root if and only if it does so already |
| `StreamTrees.AllUnderRoot` | stream_tree.go:204-288 | the dependencies of every stream lead to the root |
| `StreamTrees.NoCircle` | stream_tree.go:204-288 | no two streams depend on each other |
| `StreamTrees.LiftDescends` | stream_tree.go:244-288 | after a move there is again a depth that falls along every dependency |

## Left out

- Sockets, goroutines, locks, logging, h2quic, the handshake and the cryptography: sealing is taken to change nothing but the length.
- Frames other than STREAM, ACK, STOP_WAITING, WINDOW_UPDATE, BLOCKED, RST_STREAM and PING: the parser answers that they are unsupported. `GOAWAY`, `CONNECTION_CLOSE`, `ADD_ADDRESS`, `CLOSE_PATH` and `PATHS` on the wire would add more of the same; the announced length of PATHS leaves out its addresses.
- StreamReassembly.StreamFrameSorter.Push: makes no claim about where FIN ends up, because a frame whose tail is cut keeps it.
- VolumeScheduler.ChoosePaths: works over reals, not over 64-bit floats; bandwidths and weights are positive, because a zero bandwidth or a priority of 0 makes the code divide by zero; paths with equal delays may come in any order.
- FlowControl.FlowController.MaybeUpdateWindow: the subtraction wraps around, the sum that is the new window does not.
- FlowControl.FlowControlManager.GetWindowUpdates: counts bytes without the wrap-around of 64-bit integers, for values in range; auto-tuning's clock is a parameter.
- FlowProtocol.RunIsSafe: leaves out the crypto stream, which is sent without credit.
- Frames.ParseStream: errors are told apart, but not wrapped in the codes of the session.
- AckWire.WriteAckFrame: for ranges that descend, and never a single one, as a receiver builds them; the writer does not check this.
- SentPacketHandling.SentPacketHandler.ReceivedAck: leaves out round trip and bandwidth estimates, congestion control callbacks and the setting of the alarm; packet numbers are unbounded.
- AckWire.ParseAckFrame: the check of the ranges is the predicate, not its two loops.
- ReceivedPackets.ReceivedPacketHandler.ReceivedPacket: says nothing about the state after too many ranges, which closes the session.
- ReceivedPackets.Register: the intervals are a sequence that is replaced; that the linked list behaves like one is `RingLists`.
- StreamFraming.StreamFramer.Write: a write is one step, and the waiting of the writer is left out; streams stay listed when they have ended.
- StreamFraming.PopNormal: the order of turns is a parameter, whether by round robin, by weight or for one stream.
- OliaCongestion.PlacesAreStandings: one way; where products wrap around the choice may still be right.
- Packing.PacketPacker.PackPacket: leaves out the crypto stream's packets and the public header.
- OliaCongestion.OliaSender.OnPacketLost: scales the window over reals, not over 32-bit floats; hybrid slow start and proportional rate reduction are left out.
- OliaCongestion.OliaSender.CongestionWindowAfterAck: the window may fall to one, below the minimum of two that a loss leaves.
- StreamTrees.StreamTree.MaybeSetParent: parents only; weights, lists of children, exclusive dependencies and the schedule are left out.
- RingLists.RingList.Insert: for one type of value, as generated; moves beside a mark and copies of lists are left out.
- Cubic, the path manager, the scheduler's other policies and retransmission between paths.
