# Porta: verified models of the tunnel core

Porta is an IPv4 VPN over HTTP/2 and HTTP/3. This project models, in Dafny, the parts of it
whose correctness depends on many steps together, and proves what they keep over every run:

- **HTTP/3 packet writer** (`Checksum`, `Ipv4`, `Options`, `Fragment`, `Icmp`, `Feedback`, `Writer`). A packet is
  sent, cut, cut again, retried, answered with ICMP or sent as a capsule while the path capacity
  shrinks. The transport is an adversary whose every answer is arbitrary.
- **Linux network journal** (`Kernel`, `Journal`, `NetworkFacts`, `NetworkManager`, `Recovery`). The undo log
  behind `prepare`, `up` and `down`. Every command and every write of the journal may fail before
  or after it takes effect, and the process may stop anywhere. Kernel state is a set of independent
  cells (alias, link settings, address, resolver, route); the journal file and the manager's memory
  are separate. The physical path to a host is asked for each time and may have changed.
- **HTTP/2 lanes** (`Classify`, `FlowTable`, `UploadQueue`, `Dispatch`, `Uploads`, `Merge`). The intrusive LRU
  table, the bounded upload queue, routing of packets to lanes, and the fair merge of the downloads.
  The dispatcher offers packets to real queues, while other tasks flip lane flags and drain, clear,
  open and close the queues between any two of its steps.
- **Wire codecs** (`Streams`, `Varint`, `Capsules`, `Frames`, `Routes`). Incremental parsers, proved once for
  any parser that ignores what follows an item, and used for capsules and for frames.
- **Drain protocol** (`Drain`). Interleaved atomic steps of any number of threads.

`Bytes` holds shared helpers. Code that changes fields or buffers step by step is a class or a
method over an array, proved against a function; code made of expressions is a function. Ghost logs
record what was emitted, accepted, offered or received, and the theorems speak about the logs.
`dafny verify dfyconfig.toml` checks everything.

## Where the code falls short of the simple claim

Each of these is stated with its exact condition.

- Reassembling the fragments gives the packet back byte for byte exactly when its checksum field is
  not 0xffff and the first fragment kept all options (`Fragment.RebuildRestores`). A field of 0xffff is a
  valid but different spelling of zero (`Ipv4.SealingIsExact`).
- When the rewrite after an undo step fails only after the rename, memory still lists an action that
  the file does not (`Recovery.FailedDropIsSafe`). Another `up` on that same manager would change the kernel behind the
  file's back (`Recovery.JournalLeftBehind`); a command keeps the file sufficient exactly when the file lists the cell or the
  original value is written (`Recovery.ChangeCoveredExactly`). The client calls only `down` on such a manager
  (rust/porta-client/src/linux/client.rs:369-380), and reopening always heals it, which is what `Recovery.AnyRun` allows.
- If removing the journal succeeds but the directory sync fails, `down` keeps the table name in memory
  without a file; a guard installed then is recoverable only with a file naming it (`Recovery.GuardNeedsJournal`).
- `resolvectl revert` loses a default-route setting that the interface had before, because `up` asks only for
  servers and domains (`Recovery.RevertRestoresExactly`). The restoration theorems assume there was none.
- The writer's "violates tunnel receive limits" error occurs if and only if a reply could be built and the packet's
  source is not the leased address or its header plus 36 exceeds the lease MTU (`Writer.PacketWriter.OversizedDf`), so it
  is unreachable for an accepted packet once the lease MTU is 96 or more; leases are at least 576 (rust/porta-client/src/tunnel/h3.rs:505).
- A full upload queue that refuses a control packet or a datagram has by then evicted every packet it
  could replace (`UploadQueue.UploadQueue.Enqueue`).
- A wait that returns true excludes later guards if and only if requests were refused when it read the counter
  (`Drain.WaitMeansDrained`, `Drain.WaitBeforeStopPromisesNothing`).

## Model
| member | source | states |
|---|---|---|
| `Checksum.ComputeChecksum` | rust/porta-wire/src/ip.rs:168-180 | the accumulator loop and carry folding compute the complement of the folded sum of big-endian words |
| `Checksum.Fold` | rust/porta-wire/src/ip.rs:174-179 | folding keeps the sum modulo 65535, fits 16 bits, and is zero only for a zero sum |
| `Checksum.ChecksumVerifies` | rust/porta-wire/src/ip.rs:168-194 | any data with its checksum written over a zeroed even field verifies to zero |
| `Checksum.VerifyingFieldIsUnique` | rust/porta-wire/src/ip.rs:168-194 | the only values that verify are the computed checksum and 0xffff, the latter only where the checksum is zero |
| `Ipv4.SetHeaderChecksum` | rust/porta-wire/src/ip.rs:187-194 | in place: only bytes 10 and 11 change, to the checksum over the zeroed field; a bad header is refused and untouched |
| `Ipv4.SealedVerifies` | rust/porta-wire/src/ip.rs:182-194 | every header verifies after sealing, whatever the field held |
| `Ipv4.SealingIsExact` | rust/porta-wire/src/ip.rs:182-194 | resealing a verifying header changes nothing exactly when the field was not 0xffff |
| `Ipv4.ParsesIff` | rust/porta-wire/src/ip.rs:25-51 | a packet parses exactly when its version is 4, its header lies within it and its total length is the packet's, with the addresses at bytes 12 to 20; otherwise the error names the reason |
| `Options.CopyOptions` | rust/porta-wire/src/mtu.rs:262-291 | the in-place scan equals the recursive specification |
| `Options.CopiedOptionsKeepFlagged` | rust/porta-wire/src/mtu.rs:262-291 | fails exactly on malformed options; otherwise the result, read as options, is the copy-flagged options in order, byte-identical and at the same place modulo 4, never longer than the original and a multiple of 4 |
| `Options.CopyingIsIdempotent` | rust/porta-wire/src/mtu.rs:262-291 | copying the copied options gives the same bytes |
| `Fragment.FragmentIpv4` | rust/porta-wire/src/mtu.rs:197-260 | the loop that fills fragment buffers equals the specification, with every refusal; its in-loop MTU error is unreachable |
| `Fragment.FragmentsReassemble` | rust/porta-wire/src/mtu.rs:197-260 | every success cuts into valid packets of at most `mtu` bytes with verifying headers, aligned offsets and right MF bits, which join to the original identity, offset, MF and payload, also for inputs that are fragments |
| `Fragment.FragmentsFit` | rust/porta-wire/src/mtu.rs:197-213 | a packet that fits is returned alone and unchanged |
| `Fragment.RefragmentSucceeds` | rust/porta-wire/src/mtu.rs:197-291 | a produced fragment can be cut again at any MTU from 68 to 65535 |
| `Fragment.CuttableIff` | rust/porta-wire/src/mtu.rs:197-225 | a packet is cut, or refused for its DF bit alone, at every legal MTU if and only if its header verifies and, when it could need cutting, its options, offset and length are sound |
| `Fragment.PlainPacketsAreCut` | rust/porta-wire/src/mtu.rs:197-260 | any payload in a sealed packet without options is cut at every legal MTU |
| `Fragment.RefragmentReassembles` | rust/porta-wire/src/mtu.rs:197-291 | replacing a fragment by its own fragments still joins to the original |
| `Fragment.RebuildRestores` | rust/porta-wire/src/mtu.rs:215-258 | the packet rebuilt from the first fragment and the joined payload equals the original if and only if its checksum field is not 0xffff and no option was dropped from the first fragment |
| `Fragment.FragmentsLowerPotential` | rust/porta-client/src/tunnel/h3.rs:941-996 | cutting lowers a measure of payload units and header length, although it adds packets |
| `Icmp.IcmpFragmentationNeeded` | rust/porta-wire/src/mtu.rs:293-356 | the buffer-filling code equals the specified reply, with every suppression |
| `Icmp.ReplyVerifies` | rust/porta-wire/src/mtu.rs:293-356 | every reply parses, goes from the gateway to the source, verifies in both checksums, announces the MTU and quotes header plus eight bytes |
| `Feedback.FeedbackPolicy.OnOversized` | rust/porta-wire/src/mtu.rs:130-194 | expiry, eviction of the least recently seen flow, reset on a lower MTU and the decision equal the step function |
| `Feedback.FeedbackDiscipline` | rust/porta-wire/src/mtu.rs:85-194 | over any run with a forward clock and a falling MTU: at most 128 distinct flows; ICMP decisions at least 100 ms apart; a capsule only after three ICMP decisions for that flow at that MTU, the first at least clamp(4 rtt, 2 s, 10 s) ago |
| `Writer.PacketWriter.Refresh` | rust/porta-client/src/tunnel/h3.rs:839-864 | the limit becomes the smaller of itself and the live capacity, never below 68; an unusable capacity is an error that changes nothing; losing datagrams is final |
| `Writer.PacketWriter.OversizedDf` | rust/porta-client/src/tunnel/h3.rs:866-933 | on success exactly what the feedback step decides: the specified reply with a fresh identification, a capsule, or nothing; a capsule without a gateway; nothing when ICMP is suppressed; the limit error if and only if a reply was built for a foreign source or a header too long for the lease |
| `Writer.PacketWriter.Turn` | rust/porta-client/src/tunnel/h3.rs:941-996 | one pass of the loop: sends the head, cuts it, retries within the race budget, answers it only if it is a DF packet over the limit, or fails |
| `Writer.PacketWriter.Send` | rust/porta-client/src/tunnel/h3.rs:935-998 | terminates against every transport; what was emitted followed by what is unsent joins to the packet, all of it on success; a DF packet goes out whole at most once, and success without emission means a DF packet over the limit; every datagram is within the limit when sent, no limit exceeds the one at the start, and nothing emitted is longer than the packet; the receive-limit error is unreachable for accepted packets; an accepted packet that can be cut succeeds unless the transport itself fails |
| `Journal.UndoneRestores` | rust/porta-client/src/linux/network.rs:778-860 | undoing a listed action gives its cell the original value and touches no other |
| `Journal.UndoAt` | rust/porta-client/src/linux/network.rs:756-860 | with the alias action undone after the other tunnel actions, undoing keeps the journal sufficient with the action and without it |
| `Journal.CoveredIsRestored` | rust/porta-client/src/linux/network.rs:419-438 | a sufficient journal, undone from its end, and the guard deleted, gives exactly the original kernel |
| `NetworkManager.NetworkManager.Record` | rust/porta-client/src/linux/network.rs:886-898 | an action is listed before its change; a failed write takes it back in memory, and the file suffices either way |
| `NetworkManager.NetworkManager.Protect` | rust/porta-client/src/linux/network.rs:466-527 | the guard is installed or replaced, never absent once present |
| `NetworkManager.NetworkManager.Undo` | rust/porta-client/src/linux/network.rs:778-884 | success restores the action's cell; a failure anywhere keeps memory and file sufficient |
| `NetworkManager.NetworkManager.CleanupMatching` | rust/porta-client/src/linux/network.rs:756-776 | from the end, undoes exactly the matching actions and leaves every other cell; any failure keeps memory and file sufficient |
| `NetworkManager.NetworkManager.EnsureRoute` | rust/porta-client/src/linux/network.rs:728-754 | lists, then adds the route; touches that route only; succeeds only if the route stands and is listed, and always when there was none and nothing fails |
| `NetworkManager.NetworkManager.EnsureEscape` | rust/porta-client/src/linux/network.rs:630-692 | the host route to the endpoint over the hop that the kernel names at that moment, or one already in place; touches only routes to that host; with stable paths the hop is the one that the original kernel and the paths determine |
| `NetworkManager.NetworkManager.Prepare` | rust/porta-client/src/linux/network.rs:209-229 | on any exit the file suffices and only routes to the endpoint and the guard have changed; on success the guard stands, lets the endpoint through, and the endpoint's route is in place |
| `NetworkManager.NetworkManager.ClaimLink` | rust/porta-client/src/linux/network.rs:248-311 | success means a TUN interface with the journal's alias, listed before it was set; what is outside the tunnel is untouched |
| `NetworkManager.NetworkManager.SaveLink` | rust/porta-client/src/linux/network.rs:312-326 | lists the original MTU and flag; success only for an interface that had no addresses |
| `NetworkManager.NetworkManager.AddAddress` | rust/porta-client/src/linux/network.rs:346-368 | lists, then adds the address; touches that cell only |
| `NetworkManager.NetworkManager.SetDns` | rust/porta-client/src/linux/network.rs:380-406 | lists, then sets servers, domain and default route; touches the resolver of that interface only |
| `NetworkManager.NetworkManager.Finish` | rust/porta-client/src/linux/network.rs:407-416 | narrows the guard to one endpoint, undoes stale actions and keeps every setting of `up`; with stable paths it leaves exactly the target kernel |
| `NetworkManager.NetworkManager.Up` | rust/porta-client/src/linux/network.rs:231-417 | success leaves every setting in place over the hop it reports, and with stable paths exactly the target kernel; any exit keeps the file sufficient and memory and file under their name and metric; the guard is never deleted on the way; on an untouched kernel with a free interface, no competing routes and no configured resolver it succeeds unless a command fails |
| `NetworkManager.NetworkManager.Down` | rust/porta-client/src/linux/network.rs:419-438 | success restores the original kernel and removes guard and journal; any failure keeps memory and file sufficient; on a machine that does not fail it succeeds |
| `NetworkFacts.TargetIsUnique` | rust/porta-client/src/linux/network.rs:231-417 | the target of `up` is one kernel, determined by the original, the hop, the name and metric, and the arguments |
| `Recovery.CoveringIsAccepted` | rust/porta-client/src/linux/network.rs:1322-1418 | reopening never rejects the name, metric, counts, action shapes and MTUs of a journal written by the manager |
| `Recovery.AnyRun` | rust/porta-client/src/linux/network.rs:170-438 | after any calls, failures, stops and reopens, with paths to hosts changing at will, the journal file suffices to restore the kernel, and the guard stands while any change does |
| `Recovery.Recover` | rust/porta-client/src/linux/network.rs:170-199 | reopening and completing `down` gives back the original kernel with guard and journal gone; failing loses nothing; it completes unless a command fails |
| `Recovery.Resume` | rust/porta-client/src/linux/network.rs:231-417 | an `up` interrupted anywhere, reopened and run to success ends in the same kernel as an undisturbed one, which is the target |
| `Recovery.ChangeCoveredExactly` | rust/porta-client/src/linux/network.rs:886-898 | a change keeps the file sufficient if and only if the file lists the cell or the value is the original |
| `Recovery.JournalLeftBehind` | rust/porta-client/src/linux/network.rs:756-776 | from a configured kernel with file and memory alike, a failed outcome of one undo step after which another `up` on the same manager would break that |
| `Recovery.FailedDropIsSafe` | rust/porta-client/src/linux/network.rs:768-774 | the ambiguous failure of a rewrite after an undo leaves memory and file each sufficient |
| `Recovery.GuardNeedsJournal` | rust/porta-client/src/linux/network.rs:419-464 | installing the guard is recoverable if and only if the file names its table |
| `Recovery.RevertRestoresExactly` | rust/porta-client/src/linux/network.rs:380-399 | revert restores the resolver if and only if it had no default-route setting |
| `FlowTable.FlowTable.Unlink` | rust/porta-client/src/tunnel/h2.rs:131-143 | takes one slot out of the linked order and keeps every other link right |
| `FlowTable.FlowTable.LinkNewest` | rust/porta-client/src/tunnel/h2.rs:145-157 | puts an unlisted slot at the newest end |
| `FlowTable.FlowTable.Assignment` | rust/porta-client/src/tunnel/h2.rs:75-78 | finds a flow exactly when the abstract sequence holds it, with its lane |
| `FlowTable.FlowTable.Touch` | rust/porta-client/src/tunnel/h2.rs:114-119 | moves one flow to the newest end and nothing else |
| `FlowTable.FlowTable.Remove` | rust/porta-client/src/tunnel/h2.rs:107-112 | the sequence loses that flow; its slot joins the free list |
| `FlowTable.FlowTable.EvictOldest` | rust/porta-client/src/tunnel/h2.rs:121-129 | the sequence loses its first, least recent element |
| `FlowTable.FlowTable.Assign` | rust/porta-client/src/tunnel/h2.rs:80-105 | the flow is most recent with its lane; only a full table loses its least recent; used and free slots partition the entries and an index always fits 16 bits |
| `FlowTable.Replay` | rust/porta-client/src/tunnel/h2.rs:54-157 | over any run the pointer structure holds the abstract sequence |
| `FlowTable.KeepsMostRecent` | rust/porta-client/src/tunnel/h2.rs:80-129 | over any run the table is a suffix of the unlimited recency list, has at most 4096 distinct flows, and without removals loses nothing before the limit |
| `UploadQueue.UploadQueue.Enqueue` | rust/porta-client/src/tunnel/h2_queue.rs:126-165 | unavailable exactly when inactive; full exactly when the packet can never fit or the packets it may not replace leave no room; otherwise the fewest oldest datagrams, then control packets for control, give way |
| `UploadQueue.UploadQueue.TakeBatch` | rust/porta-client/src/tunnel/h2_queue.rs:167-204 | a batch exactly when something fresh waits: the longest prefix within both limits, at least one packet |
| `UploadQueue.UploadQueue.DropExpired` | rust/porta-client/src/tunnel/h2_queue.rs:217-232 | the in-place loop keeps exactly the fresh packets in order |
| `UploadQueue.UploadQueue.AdjustBytes` | rust/porta-client/src/tunnel/h2_queue.rs:271-285 | both byte counters agree, stop at zero, and the high water mark follows |
| `UploadQueue.UploadQueue.DeactivateAndClear` | rust/porta-client/src/tunnel/h2_queue.rs:108-112 | every held packet is cleared, no other fate changes |
| `UploadQueue.UploadQueue.Close` | rust/porta-client/src/tunnel/h2_queue.rs:114-124 | clears once and stays closed |
| `UploadQueue.UploadQueue.QueuedBytes` | rust/porta-client/src/tunnel/h2_queue.rs:206-210 | the bytes of the fresh packets |
| `UploadQueue.NextEviction` | rust/porta-client/src/tunnel/h2_queue.rs:242-261 | repeatedly removing the oldest replaceable packet drops the first datagrams and only then the first control packets |
| `UploadQueue.Conservation` | rust/porta-client/src/tunnel/h2_queue.rs:126-292 | the accepted packets are, as a bag, the held, delivered, evicted, expired and cleared ones |
| `UploadQueue.AnyRun` | rust/porta-client/src/tunnel/h2_queue.rs:101-292 | over any run: limits hold, the byte statistic is the sum of lengths, each accepted packet has one fate, deliveries are an in-order subsequence, overflow never takes TCP, and the drop counters are exact |
| `Dispatch.Dispatcher.ControlLane` | rust/porta-client/src/tunnel/h2.rs:1026-1036 | the control lane if seen active, else the first of the active data lanes with the shortest queue read; none only if all were seen inactive |
| `Dispatch.Dispatcher.DataLane` | rust/porta-client/src/tunnel/h2.rs:1038-1068 | never the control lane; a lane seen active; the flow's own lane while it is up, else the shortest queue read among the active ones; none only if all data lanes were seen inactive |
| `Dispatch.Dispatcher.Route` | rust/porta-client/src/tunnel/h2.rs:969-1024 | every error condition; offers go to lanes seen active, control packets to lane 0 and data packets to data lanes while there are any; a second offer only to another lane and after a refusal that allows it; offers on each lane keep the order of routed packets, and each lane's queue has accepted exactly the offers it took; a flow's data packet goes to its lane alone while that lane is up and its queue available, even when full |
| `Dispatch.Dispatcher.RouteAll` | rust/porta-client/src/tunnel/h2.rs:969-1068 | over any run in which the lane stays active, its own queue is never unavailable to an offer and fewer than 4096 other flows are used between a flow's packets, its data packets are offered to that lane, each once, in order, and nowhere else, whatever other lanes and queues do |
| `Dispatch.Dispatcher.Enqueue` | rust/porta-client/src/tunnel/h2.rs:992-1000 | the answer is that of the lane's real queue after any work of other tasks: unavailable exactly when that queue is inactive, and its log stays equal to the offers it took |
| `Dispatch.AssignedKeeps` | rust/porta-client/src/tunnel/h2.rs:80-129 | a flow survives another's use while fewer than 4096 others were used since its own |
| `Uploads.UploadsFollowRouting` | rust/porta-client/src/tunnel/h2.rs:969-1024 | what the queue of any lane has handed out is an in-order subsequence of what was routed, also flow by flow |
| `Uploads.AnyGroupRun` | rust/porta-client/src/tunnel/h2.rs:837-862 | a whole group from its start: for any packets and any work of other tasks, every lane uploads an in-order subsequence of them, also flow by flow |
| `Merge.Merger.TakeDownstream` | rust/porta-client/src/tunnel/h2.rs:902-926 | control while its budget lasts, else the nearest non-empty data lane from the cursor, else control; nothing exactly when all lanes are empty |
| `Merge.ServedInTime` | rust/porta-client/src/tunnel/h2.rs:902-926 | whatever arrives, a waiting data packet is returned within 15 calls and a waiting control packet within two |
| `Varint.ParseTagged` | rust/porta-wire/src/masque.rs:187-225 | every length form of a 62-bit number parses to it, whatever follows |
| `Varint.ParseIsTagged` | rust/porta-wire/src/masque.rs:213-225 | the parser accepts only such forms, and the encoder's is the shortest |
| `Varint.ReadVarintIsParse` | rust/porta-wire/src/masque.rs:213-236 | reading a number off a stream byte by byte, aligned to eight bytes, agrees with parsing it in a buffer, ends included |
| `Capsules.ReadersAgree` | rust/porta-client/src/tunnel/h3.rs:1240-1267 | the incremental and the one-shot reader, each with its own number reader, give the same capsule and rest, refuse the same sizes, and one waits where the other ends |
| `Capsules.WritableIff` | rust/porta-wire/src/masque.rs:89-99 | a capsule is written exactly when its kind has 62 bits and its value is within the limit |
| `Capsules.WriteIpPacketIsWrite` | rust/porta-wire/src/masque.rs:89-113 | the specialised writer gives the bytes and the refusals of the general one |
| `Capsules.IpPacketRoundTrip` | rust/porta-wire/src/masque.rs:238-255 | decoding an encoded packet returns it unless it is empty |
| `Capsules.CapsulesReadBack` | rust/porta-client/src/tunnel/h3.rs:1131-1153 | capsules written in a row and cut anywhere are read back as they were |
| `Capsules.CapsuleReader.Feed` | rust/porta-client/src/tunnel/h3.rs:1137-1158 | what the reader hands out and keeps depends on the bytes received, not on the chunks |
| `Streams.ChunksDoNotMatter` | rust/porta-client/src/tunnel/h2.rs:791-834 | for every parser that ignores what follows an item, draining after each chunk equals draining the whole, failures included |
| `Frames.FrameBatch` | rust/porta-client/src/tunnel/h2.rs:745-754 | a batch is framed exactly when every packet fits 16 bits |
| `Frames.FramesReadBack` | rust/porta-client/src/tunnel/h2.rs:805-811 | frames written in a row and cut anywhere are read back as they were |
| `Frames.LaneReader.Feed` | rust/porta-client/src/tunnel/h2.rs:791-834 | hands out the wanted packets of all complete frames, in order, whatever the chunks |
| `Frames.Stream.ReadPacket` | rust/porta-wire/src/frame.rs:86-98 | with short and interrupted reads, the next frame or the end-of-stream error of the place where the bytes ran out: before, within or right behind the header, or within the payload |
| `Frames.Stream.ReadFull` | rust/porta-wire/src/frame.rs:113-139 | reads exactly the wanted bytes over any number of calls |
| `Frames.Stream.WriteAll` | rust/porta-wire/src/frame.rs:141-152 | writes all bytes over any number of calls, or a prefix and an error |
| `Frames.Stream.WritePacket` | rust/porta-wire/src/frame.rs:52-58 | the stream grows by the packet's frame, a packet too long is refused untouched, and a failed write leaves a prefix of the frame |
| `Routes.Encode` | rust/porta-wire/src/masque.rs:393-418 | succeeds exactly on lists of acceptable routes in adjacent order |
| `Routes.Decode` | rust/porta-wire/src/masque.rs:420-470 | the loop equals the recursive decoder, every refusal included |
| `Routes.Bijection` | rust/porta-wire/src/masque.rs:393-470 | bytes decode to a list if and only if that list is accepted and encodes to those bytes |
| `Routes.AcceptedIsOrdered` | rust/porta-wire/src/masque.rs:479-494 | the adjacent check orders every pair |
| `Routes.AcceptedIsDisjoint` | rust/porta-wire/src/masque.rs:479-494 | routes of one family and protocol share no address, the earlier lying wholly below the later |
| `Drain.StepKeepsInv` | rust/porta-server/src/ops/shutdown.rs:37-97 | the counter is the live guards plus the begins in flight; a sleeping waiter with nothing active has a wake-up sent or about to be sent |
| `Drain.RunKeepsInv` | rust/porta-server/src/ops/shutdown.rs:37-97 | that holds in every state of every interleaving |
| `Drain.WaitMeansDrained` | rust/porta-server/src/ops/shutdown.rs:65-79 | a wait returning true after a stop means no live guard then or ever after |
| `Drain.StopRefuses` | rust/porta-server/src/ops/shutdown.rs:57-63 | once a stop has stored its flag, requests are refused for good |
| `Drain.NobodyIsForgotten` | rust/porta-server/src/ops/shutdown.rs:65-97 | when everything else is quiet, each parked waiter has been woken and its next steps return true |
| `Drain.WaitBeforeStopPromisesNothing` | rust/porta-server/src/ops/shutdown.rs:37-79 | every run in which a wait returns true while requests are accepted can go on from there to a live guard |

## Left out
- Tokio scheduling, timeouts, quinn, h3, h2, rustls and dialing: their outcomes are arbitrary answers; the connection set-up, reconnection and MTU discovery of rust/porta-client/src/tunnel/h3.rs are not modelled.
- Weak memory: the Acquire/Release atomics are sequentially consistent steps in `Drain` and `Dispatch`.
- Command text, JSON, nft syntax, file permissions and locking in rust/porta-client/src/linux/network.rs: commands are typed kernel operations and the journal is a value.
- Outside changes to kernel objects: interfaces are not renamed, reused or removed, so `same_link_identity` and routes flushed by the kernel do not occur; the fresh random table name is assumed unused.
- Recovery.AnyRun: `prepare` and `up` follow the client in not running on a manager whose last `up` or `down` failed; a TUN MTU below 68, which reopening would reject, and an earlier default-route setting are assumed absent.
- Recovery.Resume: the two runs are compared under one drawn name and metric, and with paths to hosts that stay the same, since the escape route depends on both.
- Recovery.CoveringIsAccepted: not the text formats of interface names and addresses.
- The address formats of `validate_lease`, the rule checks of `preflight` and multipath routes: a failed query stands for their refusals. Interfaces other than TUN count as physical; the refusal of a WireGuard path is not distinguished.
- Writer.PacketWriter.Send: diagnostics, write timeouts and cancellation are left out; a failed capsule write may or may not have emitted the capsule.
- Integer widths: counters, byte sums and clocks are unbounded; the saturation of the queue's byte counter is modelled at zero only, since it never exceeds its limit; offsets, lengths and flags of packets are modelled at their real widths.
- The flow hash of rust/porta-wire/src/ip.rs:151-166: only the start of the lane scan depends on it, so it is an arbitrary function.
- UploadQueue.UploadQueue.TakeBatch: one turn of the loop; waiting on the notification and cancellation are not modelled.
- Dispatch.Dispatcher.DataLane: the queue lengths it reads are arbitrary numbers, not those of the queues at that moment, so the result holds for every reading.
- Frames.Stream.ReadPacket: an endless series of interruptions is excluded, since the script of a stream is finite; `send_h2_data` is covered by the freedom of the chunks.
- ADDRESS capsules, MTU probes and HTTP headers: field-by-field codecs that would add only easy members.
- `accept_lease`, `activate`, `deactivate` and `FailureSignal`: single-branch cells.
- The server's pool, router, registry and usage, the Windows, Android and desktop clients, cryptography and configuration.
