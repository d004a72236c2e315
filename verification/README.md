# HNZ telecontrol client: model and proofs

The plugin talks HNZ to a remote station (PA) over one or more TCP paths. Each path runs a link layer
with three-bit sequence numbers, an anticipation window, retransmission and a protocol automaton of 18
transitions. An arbiter elects one active path and fails over to another one. A supervisor runs the
General Interrogation (GI): retries, a delayed request, a daily slot, and the list of points that never
answered. This project states what those parts do and proves it for every run.

## How it is organised

- `Types.dfy` holds the entities. `Link.dfy` holds the link layer as functions on the fields of a path,
  `System.dfy` the whole plugin (any number of paths, arbiter, GI) as a state machine over events,
  `GiLog.dfy` what happened to the GI, in order.
- `HnzPath.dfy` and `HnzConnection.dfy` hold the objects of the plugin, which update their fields in place.
  Each method is proved to compute the function of the same name; `HnzConnection.Dispatch` runs one event
  and is proved to be one step of the state machine, `DispatchAll` stays in the reached states.
- `Modulo8.dfy`, `LinkInvariants.dfy`, `Arbitration.dfy`, `SystemInvariants.dfy`, `SystemFrames.dfy` hold
  what every step keeps and leaves alone.
- `PathSteps.dfy` and `PathEvents.dfy` say how a path moves by what is heard on it. On them stand the laws that read
  the history of a run and not the tables and fields of the code: `Handshake.dfy` (protocol state), `Timers.dfy` (when
  a path repeats, gives up, sends a SARM or a BULLE), `Acknowledgements.dfy` (which acknowledgements are taken and
  given), `Elections.dfy` (which path is active and which one delivers), `InitMessages.dfy`, `PendingCommands.dfy`,
  `GiRequests.dfy` and `GiTriggers.dfy` (status, repetition and triggers of the GI).
- `Theorems.dfy` holds the results over all runs, `Deliveries.dfy` what reaches the application,
  `Crashes.dfy` and `DelayedGi.dfy` the end of the program, `GiReports.dfy` and `GiEnds.dfy` the result of a GI,
  `Campaign.dfy`, `CampaignRuns.dfy` and `FullWindow.dfy` its requests, `GiSchedules.dfy` and `DailyGi.dfy` the
  daily GI, `DaySections.dfy` the stamps of TSCEs in runs. `EndToEnd.dfy` and `Overtaking.dfy` compose two
  stations over links that lose frames. `Limits.dfy` and `Silence.dfy` hold the bounds and what attains
  them. `Scenarios.dfy` holds how concrete runs start.
- `Messages.dfy`, `Formats.dfy`, `Commands.dfy`, `Decimal.dfy`, `GiResult.dfy`, `Timestamps.dfy`, `Codec.dfy` are the
  encodings and decodings.

A path carries a history that no code reads: every frame sent, the messages accepted, acknowledged and
discarded, the payloads received in sequence (`rcv`) and handed up (`up`, `duplicates`, `missed`), the
unbounded counters VA (`va`) and VS (`|txs|`), `multi` (a timeout put two or more messages in flight back to
waiting), `lost` (an NR was accepted after that). The properties are stated with it.

## Assumptions

- Every event is one atomic step. The code takes the locks of the protocol state and of the active path
  for a transition, for an information frame and for the turn of the path thread. It is only assumed for the
  others: the lookup of the transition (src/hnzpath.cpp:57-61) and the choice of the handler of a frame
  (src/hnzpath.cpp:445) come before the lock, a received RR is handled without any (src/hnzpath.cpp:455), the
  turn of the message thread and the timers hold the lock of the active path only
  (src/hnzconnection.cpp:174), commands and GI requests that of the protocol state, while they send. The messages
  of a frame are handled after the locks taken for the frame are released (src/hnz.cpp:215-220), and `getActivePath()`
  is tested and then called again (src/hnz.cpp:386-401): what happens in between on another thread is not modelled,
  so `Crashes.CrashIff` is exact under this assumption only.
- A step reads the clock once (`now`); the message thread also has the reading of its turn (`current`).
  Readings are arbitrary, and may go back.
- `repeatMax` is the field `repeat_max`, which is the configured number minus one (src/hnzpath.cpp:22).
- The pointers from a path to its connection and from the connection to HNZ are the receiver and the
  arguments of the methods. An absent path is not in the list of paths.
- Payloads are not cut short: `Messages.Uncut`. The code reads past the end of the others.
- Integers are unbounded, except the three-bit counters, the bytes of a frame, and the 64-bit timestamps.

## What the code does not do

These follow the code where its comments, or a reader, expect something else. Most come with a run or an
input, and with the exact condition under which the code does meet the expectation.

- Acknowledged means accepted: fails with a window of two or more and at least one repetition, because the
  requeue of a timeout does not move `m_ns` back and a new message overtakes the old ones
  (`Overtaking.OvertakingIsFalselyAcknowledged`, `Overtaking.AlwaysDeliveredIff`).
- Each message is handed up once: fails in every configuration, because messages are handed up whatever the
  NS of their frame (`Deliveries.RepeatedFrameIsHandedUpTwice`); it holds iff no frame handed up had another
  NS than the expected one (`Deliveries.OnceIff`).
- The report at the end of a GI is the result of that GI: fails in two ways. The list of received addresses is
  emptied by a repetition and by the end of a GI only, not by a request and not by the loss of the active path, so an
  address from before the request counts for it (`GiReports.StaleAddressIsNotReported`). And the last expected address
  ends a GI whether or not one runs, so a repeated last frame reports as invalid what the GI had brought
  (`GiReports.RepeatedAnswerIsFalseAlarm`). Exactly when each end is right: `GiReports.ReportIsExactIff`; what a request
  can tell when it goes out: `GiEnds.RequestIsCleanIff`. A repetition always finds the list empty
  (`Campaign.LastAttemptIsExact`).
- One daily GI a day: fails with a clock set back to another day (`GiSchedules.ClockSetBackFiresTwice`); two
  are due on one day iff the clock comes back to its slot from another day (`GiSchedules.TwoInADayIff`).
- The timestamp of a TSCE is its time: fails in local time (`Timestamps.LocalTimeIsADayOff`), and when the section of
  the day the plugin holds, that of the last MODULO or of its own time setting, is not that of the event
  (`DaySections.EarlyModuloIsTenMinutesOff`); exactly when it holds: `Timestamps.TsceStampIff`, over runs
  `DaySections.StampInRunIff`. With the section of the event and a clock at most ten minutes off it holds iff the hours
  in UTC and in local time agree next to midnight (`Timestamps.TsceExactIff`).
- A TSCE received in INPUT_CONNECTED goes without timestamp, because no section may be known yet: the code asks for the
  state of the active path, which is never INPUT_CONNECTED (`DaySections.StampIsNeverLeftOut`); the case is reached
  (`DaySections.UnsetSectionIsReached`).
- A GI delayed while another one runs survives the loss of the last active path. When the answer to the first
  one then arrives on a path that is only INPUT_CONNECTED, the code uses a null active path
  (`DelayedGi.DelayedGiCrashes`, exactly when: `Crashes.CrashIff`).
- With two paths whose inputs are open and none active, the first one delivers (`Elections.FirstDelivers`). When it
  closes, the other one does not take over, although it may have its input open: until an input is opened anew, or a
  path connects, nobody delivers (`Elections.NobodyDelivers`; who does, in every run: `Elections.FirstComeFirstServed`).
- `m_sendInfo` returns false for a message that is delayed, not only for one that is discarded as
  include/hnzpath.h says. A delayed command is therefore reported as failed, sent later, and never
  waited for (`Theorems.CommandIsPendingIffSent`, `Limits.CommandIsDelayed`); a delayed GI request is not
  counted, and every turn of the supervisor adds another one (`FullWindow.FullWindowAsksAgain`).
- `m_sendRR` returns true also when it sends no RR (unexpected NS, no poll bit), unlike its comment.
- A SARM that comes soon after the connection is answered with a UA and otherwise ignored: the peer starts its
  numbers again, this side does not (`Deliveries.SarmRestartsIff`).
- With `max_sarm` 0 the number of SARMs in a row is not bounded by it (`Limits.SarmBoundIff`).
- The configuration accepts station 64, whose frames are never recognised (`Codec.ReadBackIff`).
- The pending list keeps all bits of the address of a TVC, its frame five of them: from 32 on, no
  acknowledgement matches (`Commands.TvcIsAcknowledgedIff`).

## Model

Members without a loop or a property of their own have no row: each method of the objects is proved to
compute the function of the same name, and `Dispatch` ties them together.

| member | source | states |
|---|---|---|
| EndToEnd.AcknowledgedIsDelivered | src/hnzpath.cpp:587-799 | Two stations over lossy FIFO links, every run: what a sender counts as acknowledged is a prefix of what the peer accepted in sequence, which is a prefix of what was sent, in the order the application gave it, each once; as long as no timeout found two messages in flight, for a ratio up to 8 |
| EndToEnd.AcknowledgedIsHandedUp | src/hnzpath.cpp:466-721 | With stations that deliver every frame they take: what the sender counts as acknowledged was handed up to the application of the peer, at least once, and exactly once and in order as long as the peer handed up no frame out of sequence |
| Overtaking.AlwaysDeliveredIff | src/hnzconnection.cpp:202-219 | The law above holds in all runs of a configuration if and only if the ratio is at most 1, or at most 8 with no repetition allowed |
| Overtaking.OvertakingIsFalselyAcknowledged | src/hnzconnection.cpp:214-218 | For every configuration with ratio at least 2 and one repetition: a run in which the third message is acknowledged and the peer accepted the second |
| Overtaking.NinthTakenForFirst | src/hnzpath.cpp:693-694 | For every ratio above 8: a run in which a lost first message is replaced by the ninth, which has the same NS |
| EndToEnd.AckMovesVA | src/hnzpath.cpp:587-645 | An acknowledgement still on its way that is taken moves VA to exactly the number of messages the peer had accepted when it sent it; with at most 7 in flight it is always recognised. That a frame received is one that is taken: `Acknowledgements.AckTakenIff` |
| Acknowledgements.AckTakenIff | src/hnzpath.cpp:587-608 | Every run, at most seven numbers outstanding, sending state: an RR for a number k above VA drops exactly the messages below k from the queue, counts them as acknowledged and the repetitions from 0, iff its final bit is not set or a repetition is on the wire since the last NR taken or reset; otherwise the state does not change |
| Acknowledgements.OtherAcksIgnored | src/hnzpath.cpp:610-632 | Every run, at most seven outstanding: an RR that stands for no number above VA changes nothing |
| Acknowledgements.InfoAckTaken | src/hnzpath.cpp:684-690 | Every run, CONNECTED: the NR of an information frame confirms exactly the numbers below it whatever its poll bit, also when messages of the frame make the path send |
| Acknowledgements.InfoIsAnswered | src/hnzpath.cpp:692-721 | Every run: an information frame received with the input open puts exactly one RR on the wire, with the number expected next and the poll bit of the frame, if its NR is taken and it is the expected frame or polls, and none otherwise |
| Acknowledgements.RepetitionIsAcknowledged | src/hnzpath.cpp:591-592 | In every configuration with one repetition, on every path: a run in which a frame is lost, repeated, and acknowledged by the RR with the final bit |
| EndToEnd.AcceptKeepsDirections | src/hnzpath.cpp:692-721 | The receive half: a frame with the expected NS is the next message, so the accepted payloads stay a prefix of the sent ones, for both directions at once |
| EndToEnd.TimeoutKeepsDirections | src/hnzpath.cpp:779-799 | Resending the only message in flight keeps the end-to-end invariant of both directions |
| EndToEnd.StepLeftKeepsInv | src/hnzpath.cpp:587-799 | Every action of a station (send, time out, receive, lose a frame) keeps the invariant of the two stations and their links |
| Theorems.OneActivePath | src/hnzconnection.cpp:307-368 | Every run, any number of paths: a path is ACTIVE exactly when it is m_active_path, status is STARTED exactly when there is one, none is PASSIVE without one while running, and init messages are due without one |
| Theorems.ConnectionStateAbstractsProtocol | include/hnzpath.h:527-546 | Every run: DISCONNECTED iff CONNECTION, PENDING_HNZ iff INPUT_CONNECTED or OUTPUT_CONNECTED, ACTIVE or PASSIVE iff CONNECTED |
| Handshake.ProtocolIs | include/hnzpath.h:527-546 | Every run, every path: the protocol state is the one that two history bits tell, input open and output open, which are moved only by SARM and UA received, silence, repetitions or SARMs used up and the loss of TCP |
| Handshake.UaFirstConnects | include/hnzpath.h:536 | In every configuration, on every path: the run connection, UA, SARM ends CONNECTED with the path ACTIVE |
| Handshake.RunFollows | src/hnzpath.cpp:415-464 | Every run: which event of a run is which of these signals for which path, told from clock, timeouts and history, and that a path moves by its own signals only |
| Elections.FirstComeFirstServed | src/hnzconnection.cpp:307-368 | Every step of every run: the path that may deliver in INPUT_CONNECTED stays the same while its input is open, and when there is none it becomes the one that opens its input; the active path stays while it is CONNECTED, its heir is the first other PASSIVE one, and when there is none a path that completes the handshake becomes active |
| Elections.RunningIs | src/hnzconnection.cpp:78-83 | Every run: m_is_running, on which it depends whether a lost active path has an heir, holds iff the shutdown was not asked for |
| Elections.FirstDelivers | include/hnzconnection.h:148-155 | In every configuration, for any two paths: a run in which both inputs are open, and a TSCG is handed up from the first one and not from the second |
| Elections.NobodyDelivers | src/hnzconnection.cpp:314-319 | In every configuration, for any two paths: a run after which an input is open, no path is active, and nobody may deliver |
| Theorems.ExclusiveDelivery | include/hnzconnection.h:148-155 | Every run: at most one path may extract messages, only one in INPUT_CONNECTED or CONNECTED; m_first_input_connected, when set, is such a path. Which one it is: `Elections.FirstComeFirstServed` |
| Theorems.HandedUpIff | src/hnzpath.cpp:466-498 | Every run: the messages of an information frame are handed up, all of them, iff its path may deliver and its NR is accepted |
| Deliveries.HandedUpFrame | src/hnzpath.cpp:485-496 | Every run: a frame that is handed up is a new one in sequence iff its NS is the expected one, otherwise a duplicate that is handed up all the same |
| Deliveries.OnceIff | src/hnzpath.cpp:684-721 | Every run, on a path that handed up every frame it received in sequence: the application has got exactly the messages received in sequence, once and in order, iff every frame handed up had the expected NS; it has got all of them in any case |
| Deliveries.RepeatedFrameIsHandedUpTwice | src/hnzpath.cpp:706-712 | In every configuration, on every path: a run in which a frame repeated by the peer is handed up twice and received once |
| Deliveries.SarmRestartsIff | src/hnzpath.cpp:567-577 | Every run: a SARM is answered with a UA always, and restarts the reception iff the path did not connect within the repeat timeout |
| Theorems.WireIsSafe | src/hnzpath.cpp:723-799 | Every run: no information frame but a BULLE was sent, first or again, outside CONNECTED, and none outside CONNECTED and OUTPUT_CONNECTED, although a repetition checks no state |
| Theorems.QueuesFitAndRefillEnds | src/hnzpath.cpp:653-658 | Every run, timeouts included: queues empty before OUTPUT_CONNECTED and only BULLEs in it, so the refill loop never spins, ends with the window full or nothing waiting, and keeps the order |
| Theorems.WindowIsExact | src/hnzpath.cpp:723-777 | Every run without a requeue of several messages: the three-bit fields are VA and VS modulo 8, the queue in flight is exactly the messages VA to VS with their NS, at most the ratio, and nothing overtakes |
| Theorems.NRMeansOneNumber | src/hnzpath.cpp:610-645 | There, with ratio at most 7: an NR is valid iff it stands for a number of the window, that number is unique, and exactly the messages before it leave the queue |
| Theorems.DriftIsBounded | src/hnzconnection.cpp:202-219 | Every run, up to the first NR accepted after a requeue: VS - VA is ahead of the queue by at most m_repeat * (ratio - 1) |
| Theorems.QueueFitsWindow | src/hnzpath.cpp:634-650 | Every run, after it too: the queue in flight never holds more than VS - VA messages |
| Theorems.NothingIsLost | src/hnzpath.cpp:199-211 | Every run: each accepted message is exactly once acknowledged, in flight, waiting or discarded |
| Theorems.PersistenceIsBounded | src/hnzconnection.cpp:200-213 | Every run, any interleaving: m_repeat is the number of repetitions on the wire since the last accepted NR or reset and at most repeat_max; with max_sarm at least 1, SARMs in a row are at most max_sarm |
| Timers.TimersAre | src/hnzpath.cpp:745-799 | Every run, every path: each timer is an instant of the history. The repetition timer was set at the later of the first transmission into an empty queue, the last repetition, and the last NR taken that left messages in flight; the others when the path last heard, last sent, last sent a SARM and last connected |
| Timers.TurnRepeatsIff | src/hnzconnection.cpp:198-220 | Every run: a turn of the repeat timer repeats the oldest message, or gives up after the last repetition allowed, iff a message is in flight, TCP is up and more than the timeout passed since that instant; otherwise the turn changes nothing |
| Timers.TurnOfThread | src/hnzpath.cpp:306-345 | Every run: exactly which frames a turn of the path thread puts on the wire, a SARM or a BULLE or none, told from the times of the history |
| Timers.TurnClosesInputIff | src/hnzpath.cpp:306-345 | Every run: such a turn closes an open input iff nothing was heard for the inactivity time, or the SARMs in a row are used up |
| Theorems.CampaignHasActivePath | src/hnzconnection.cpp:140-148 | Every run: m_gi_repeat is the number of GI requests reported sent since the last end of a GI or loss of the active path; when positive there is an active path and the status is STARTED or IN_PROGRESS |
| GiRequests.StatusIs | src/hnz.cpp:949-969 | Every run: the status of the GI is the one its history tells (idle, started, in progress, finished, failed), and none waits after one ended |
| GiRequests.TurnGoesFurtherIff | src/hnzconnection.cpp:239-248 | Every run: a turn of the supervisor repeats or ends a GI iff one runs and more than its time passed since the last request reported sent |
| GiRequests.StartIs | src/hnzconnection.cpp:140-148 | Every run: the start time is the reading at which a request was last reported sent |
| GiTriggers.RequestIs | src/hnz.cpp:687-700 | Every run: what a request asked for does: sent on the active path when no GI runs, put off when one does, dropped without an active path |
| GiTriggers.TsceTriggersIff | src/hnz.cpp:394-412 | Every run: a TSCE, in a frame of its own that is handed up, asks for a GI iff its address is a triggering one and its value the triggering value |
| Theorems.CommandIsPendingIffSent | src/hnzpath.cpp:850-907 | Every run, TC and TVC: a command to the active path is always accepted; it is on the wire and pending iff the window had room, otherwise it waits and is not pending |
| PendingCommands.PendingIs | src/hnzconnection.cpp:277-293 | Every run, every path: the pending commands are those that went out on it, without the ones a received acknowledgement matched and those whose time ran out at a turn of the timer |
| PendingCommands.AckClears | src/hnz.cpp:493-539 | Every run: an acknowledgement of a TC or TVC in a frame of its own that is handed up removes on every path exactly the pending commands of its own kind and address |
| PendingCommands.CommandIsCleared | src/hnz.cpp:493-539 | Every run: a command goes out on the active path with room in the window, and the next event is the acknowledgement that repeats its kind and address bits: the command is removed iff its address fits those bits, TC and TVC |
| Limits.CommandIsDelayed | src/hnzpath.cpp:734-743 | In every configuration a run reaches the full window in which that happens |
| Crashes.CrashIff | src/hnz.cpp:964-968 | Every run: a step uses the null active path iff, before it, a GI is delayed without active path and the step hands up, on the path that may deliver, a TSCG that brings the last expected address |
| DelayedGi.DelayedGiCrashes | src/hnz.cpp:964-968 | A run that gets there, in every configuration with a window and a TSCG that brings the last expected address |
| GiReports.ReportIsExactIff | src/hnz.cpp:949-962 | Every end of a GI in every run, made by an answer, by a timeout, or by a TSCG outside any GI: the addresses sent as invalid are exactly the configured ones the last request did not bring, iff that request brought again whatever it found in the list, or, without a request since the list was last emptied, the list holds again whatever it had brought before |
| GiEnds.EndsHaveCauses | src/hnz.cpp:284-298 | Every run: a GI ends only right after a TSCG that brings the last expected address last, whether or not one runs, or when more than gi_repeat_count requests were reported sent |
| GiEnds.RequestIsCleanIff | src/hnzpath.cpp:842-848 | Every run, read when a request goes out on an active path: its report is exact for every end that can follow it with TSCGs only in between, iff every TSCG that can end the GI brings all of the list again and, if all requests are sent, the list is empty |
| GiReports.StaleAddressIsNotReported | src/hnz.cpp:284-298 | In every configuration with two blocks of which only one brings the last expected address: a run in which a GI ends FINISHED and an address it never brought is not sent as invalid, because a TSCG outside any GI had brought it |
| GiReports.RepeatedAnswerIsFalseAlarm | src/hnz.cpp:284-298 | In the same configurations, a run in which a GI ends FINISHED with everything received, and the repeated last frame ends a GI again that sends as invalid an address the only request had brought |
| GiReports.TenIsReportedWrongly | src/hnz.cpp:413-444 | Both runs for two configured TS, at 10 and 50 |
| GiLog.ExactIff | src/hnzconnection.cpp:117-133 | What any history of requests, TSCGs, clearings and ends says about the report of an end made now: exact iff the list holds exactly what the last request brought |
| Limits.UnambiguousIff | src/hnzconnection.cpp:202-219 | In all runs of a configuration every number of the window is recognised for what it is, up to the first NR accepted after a requeue, iff ratio + repeats * (ratio - 1) is at most 7 |
| Limits.DriftedNRMeansOneNumber | src/hnzpath.cpp:610-632 | Every run within that bound: an NR is valid iff it stands for a number of the window, which is unique, even after timeouts with several messages in flight |
| Limits.WidestIsReached | src/hnzpath.cpp:734-776 | The bound is attained: in every configuration, for every number n of repeats, a run whose window is ratio + n * (ratio - 1) wide |
| Limits.TimeoutKeepsOrder | src/hnzconnection.cpp:214-218 | A timeout keeps the order of the unacknowledged messages, in every state |
| Limits.TimeoutKeepsWindowIff | src/hnzconnection.cpp:210-219 | It keeps the window equation iff one message was in flight |
| Limits.SarmBoundIff | src/hnzpath.cpp:317-322 | SARMs in a row stay within max_sarm in all runs iff max_sarm is at least 1 |
| Modulo8.NRValidExact | src/hnzpath.cpp:610-632 | In a window of at most 7, an NR passes the test iff some k of [VA, VS] has it modulo 8, and that k is VA plus the offset |
| Modulo8.ValidNRIsInWindow | src/hnzpath.cpp:637-641 | In any window, an NR that passes never moves VA past VS |
| Modulo8.WindowLimitIsSeven | src/hnzpath.cpp:611-631 | Every number of the window is recognised with its own offset iff the window is at most 7 wide |
| Modulo8.OffsetInC | src/hnzpath.cpp:637-638 | With C's signed remainder, the double remainder of the code is the non-negative offset, negative differences included |
| Silence.SilentTurns | src/hnzconnection.cpp:200-219 | While the peer is silent, n overdue turns put exactly n repetitions of the oldest message on the wire and discard nothing |
| Silence.SilentPeer | src/hnzconnection.cpp:204-208 | The turn after the last allowed repetition sends nothing, empties both queues into the discarded ones and leaves the sending state |
| Campaign.RetriesThenFails | src/hnzconnection.cpp:117-133 | Every run: a campaign that with room in the window is driven by timeouts alone sends exactly gi_repeat_count + 1 requests, then it is FAILED and the configured addresses missing from the list are sent as invalid |
| Campaign.LastAttemptIsExact | src/hnzconnection.cpp:124-132 | Every run: with at least one repetition those are exactly the configured addresses the last attempt did not bring |
| CampaignRuns.CampaignIsReached | src/hnzconnection.cpp:239-248 | In every configuration without daily GI and with any number of repetitions, on every path: the run in which the peer acknowledges every request and answers none, which goes through all of them and fails with every configured address invalid |
| Campaign.RequestIsSent | src/hnzpath.cpp:842-848 | With room, a GI request goes out on the active path at once, is counted, and the status says so |
| FullWindow.FullWindowIsNotCounted | src/hnzpath.cpp:741-743 | Without room the request waits and changes neither counter, start time nor status |
| FullWindow.FullWindowAsksAgain | src/hnzconnection.cpp:239-248 | Every run: while the window is full, n timed-out turns of the supervisor put n requests into the waiting queue, one more for each daily GI that is due, send nothing, and move neither the counter nor the start time |
| Campaign.CampaignFails | src/hnz.cpp:949-969 | The end of a campaign: FAILED, or the delayed GI starts right away |
| Campaign.ResultPartitions | src/hnz.cpp:952-961 | Whatever ends a GI, the addresses its last request brought and the invalidated ones partition the configured ones iff the list holds exactly what that request brought |
| LinkInvariants.SendInfoKeepsInv | src/hnzpath.cpp:723-777 | Sending or delaying a message keeps window, queues, conservation and wire safety |
| LinkInvariants.RefillKeepsInv | src/hnzpath.cpp:652-658 | The refill loop restores the full invariant, ends full or empty, and moves messages without reordering |
| LinkInvariants.RefillOnceKeepsInv | src/hnzpath.cpp:655-657 | One turn of the loop sends the head of the waiting queue and keeps the loop invariant |
| LinkInvariants.PopKeepsInv | src/hnzpath.cpp:634-650 | Removing the acknowledged messages keeps what the refill loop starts from, in any window |
| LinkInvariants.PopMovesWindow | src/hnzpath.cpp:638-643 | In an exact window it removes exactly offset messages and the window starts there |
| LinkInvariants.PopConserves | src/hnzpath.cpp:639-641 | No message is lost or duplicated when messages are removed |
| LinkInvariants.SendRRKeepsInv | src/hnzpath.cpp:684-721 | The answer to an information frame keeps the link invariant |
| LinkInvariants.TimeoutKeepsInv | src/hnzconnection.cpp:210-219 | Resend and requeue keep the link invariant |
| LinkInvariants.DriftAfterTimeout | src/hnzconnection.cpp:215-218 | A timeout adds to the drift what it takes out of the queue, and counts one repeat |
| LinkInvariants.SendSARMKeepsInv | src/hnzpath.cpp:661-668 | A SARM below the maximum keeps the invariant |
| Arbitration.RequestAnswers | src/hnzconnection.cpp:307-345 | The full answer of the arbiter path by path: it changes the state of the path that asks and of its successor, nothing else |
| Arbitration.AnswerKeepsArbiter | src/hnzconnection.cpp:321-344 | One answer keeps election, status and abstraction; a path that asks to be ACTIVE is never the active one, so the demoting branch never hits it |
| Arbitration.RowAsksOnce | include/hnzpath.h:527-546 | Every row asks the arbiter exactly once, for the state that goes with the protocol state it enters |
| Arbitration.TransitionIs | src/hnzpath.cpp:71-76 | A transition is one request plus the actions on the path's own variables: their order relative to the request makes no difference |
| Arbitration.TransitionKeepsArbiter | src/hnzpath.cpp:55-84 | Every transition keeps the arbiter's invariant, failover of another path included |
| SystemInvariants.RowClearsQueues | include/hnzpath.h:527-546 | What each row discards and resets so that the queues fit the state it enters |
| SystemInvariants.RowKeepsLink | include/hnzpath.h:527-546 | Every row with its ordered actions keeps the link invariant |
| SystemInvariants.TransitionKeepsInv | src/hnzpath.cpp:55-84 | Every transition keeps all invariants of the plugin |
| SystemInvariants.FrameReceivedKeepsInv | src/hnzpath.cpp:415-464 | Every frame received, with the messages it hands up, keeps all invariants |
| SystemInvariants.ManageKeepsInv | src/hnzpath.cpp:304-349 | Every turn of the path thread keeps all invariants |
| SystemInvariants.RepeatKeepsInv | src/hnzconnection.cpp:200-221 | Every turn of the repeat timer keeps all invariants; when it does something: `Timers.TurnRepeatsIff` |
| SystemInvariants.InitKeepsInv | src/hnzconnection.cpp:223-236 | The init messages keep all invariants |
| InitMessages.InitTurnIs | src/hnzconnection.cpp:223-236 | Every run: a turn on a path that settled hands over the date, the time and the first GI request, in that order and nothing else, iff the path is ACTIVE and they are due since a path was elected; otherwise it hands over no message |
| SystemInvariants.GiCompletedKeepsInv | src/hnz.cpp:949-969 | The end of a GI keeps all invariants and uses a null path iff a GI is delayed and no path is active |
| SystemInvariants.CheckGiKeepsInv | src/hnzconnection.cpp:239-275 | A turn of the GI supervisor keeps all invariants and never uses a null path |
| SystemInvariants.StepKeepsInv | src/hnzconnection.cpp:169-193 | Every event keeps all invariants |
| SystemInvariants.RunKeepsInv | src/hnzconnection.cpp:169-193 | Every state of every run satisfies all invariants |
| DailyGi.ScheduledGiIff | src/hnzconnection.cpp:250-274 | Every run: a turn hands the scheduled GI request to the active path iff there is one and its clock reading is the first at or past the slot in the unbroken stretch of readings of its day; otherwise only the schedule changes |
| DailyGi.ScheduleFollowsClock | src/hnzconnection.cpp:239-275 | Every run: the schedule is a function of the clock readings of the turns, whatever else happens |
| DailyGi.RunOncePerDay | src/hnzconnection.cpp:261-274 | Every run: between two turns at which the GI of one day is due, a turn read another day |
| DailyGi.RunOnEveryDay | src/hnzconnection.cpp:250-274 | Every run: a turn past the slot has the daily GI of its day behind it or is it, unless the program started past the slot of that day and read no other day since |
| GiSchedules.SlotIsTimeOfDay | src/hnzconnection.cpp:150-167 | The slot of a day is the instant at which the clock of that day shows the configured hour and minute |
| GiSchedules.PastSlotIff | src/hnzconnection.cpp:250-274 | A reading is past the slot iff its hour and minute are not before the configured ones |
| GiSchedules.TurnTicks | src/hnzconnection.cpp:239-275 | A turn is the timeout of a running GI, then the daily GI sent to the active path if it is due; without an active path only the schedule changes |
| GiSchedules.FiresExactly | src/hnzconnection.cpp:250-274 | For any clock, a tick finds the daily GI due iff its reading is the first at or past the slot in its stretch |
| GiSchedules.AfterTicks | src/hnzconnection.cpp:154-167 | For any clock, the tracked slot lies in the tracked day and is used up iff a reading of the current stretch reached it |
| GiSchedules.TwoInADayIff | src/hnzconnection.cpp:250-274 | For any clock, a day gets two daily GIs iff the clock comes back to its slot from another day |
| GiSchedules.OncePerDay | src/hnzconnection.cpp:261-274 | For any clock, two daily GIs of one day have a reading of another day between them |
| GiSchedules.OnEveryDay | src/hnzconnection.cpp:250-274 | For any clock, every stretch that reaches the slot has its daily GI, unless the start was past it in that stretch |
| GiSchedules.AtMostOneADay | src/hnzconnection.cpp:250-274 | As long as the date does not go back, every day has at most one |
| GiSchedules.ClockSetBackFiresTwice | src/hnzconnection.cpp:251-259 | A clock set back over midnight is one that comes back |
| Timestamps.TenMinutesAreEnough | src/hnz.cpp:795-822 | A clock at most ten minutes off rebuilds any time that is a multiple of 10 ms exactly, across midnight both ways |
| Timestamps.TenMinutesAreTheLimit | src/hnz.cpp:795-822 | Every time is rebuilt exactly for a skew iff the skew is at most ten minutes |
| Timestamps.RebuiltIffDayIsRight | src/hnz.cpp:806-816 | A time is rebuilt iff the shift of the code is the distance in days between it and the clock |
| Timestamps.TsceStampIff | src/hnz.cpp:352-380 | For any clock, any offset and any section byte: the stamp is right iff that section, in the local day of the clock shifted as the code does, is the ten minutes of the event |
| Timestamps.TsceExactIff | src/hnz.cpp:352-380 | With a clock at most ten minutes off and the section of the event, a TSCE in local time is stamped with its time iff, in the first and last section of the local day, UTC and local time agree on being in the last or first hour |
| Timestamps.FarFromMidnightIsExact | src/hnz.cpp:352-380 | Then, outside the hours next to midnight, UTC and local, no stamp is off |
| Timestamps.TsceStampedIff | src/hnz.cpp:363-380 | For any clock, with the section of the event: the stamp is right iff the shift is the distance in days between the local dates of the event and of the clock |
| Timestamps.TsceInUtc | src/hnz.cpp:352-380 | In UTC a clock at most ten minutes off stamps a TSCE with its time iff the section of the day that is held is that of the event |
| DaySections.SectionIsLast | src/hnz.cpp:302-307 | Every run: m_daySection is the section of the last MODULO handled or time setting made, 0 before any |
| DaySections.StampInRunIff | src/hnz.cpp:352-380 | Every run, every frame: a TSCE is stamped with its time iff that section, in the day the code takes, is the ten minutes of the event |
| DaySections.EarlyModuloIsTenMinutesOff | src/hnz.cpp:302-307 | In every configuration, on every path: a run after which a TSCE is stamped ten minutes late, because the MODULO of the next ten minutes came before it, in UTC and away from midnight |
| DaySections.StampIsNeverLeftOut | src/hnz.cpp:386-389 | Every run: the test for leaving the timestamp out never holds |
| DaySections.StampIsNeverLeftOutInFrame | src/hnz.cpp:386-389 | Nor between the messages of a frame |
| DaySections.UnsetSectionIsReached | src/hnz.cpp:386-389 | In every configuration, on every path: a run that delivers in INPUT_CONNECTED with no section set |
| Timestamps.LocalTimeIsADayOff | src/hnz.cpp:368-380 | At UTC+1, at 23:05 UTC, a TSCE of that moment is stamped one day late |
| Timestamps.OffsetWraps | src/hnz.cpp:368-370 | The offset the code computes is wrong by whole days: those local time and UTC are apart |
| Messages.ExtractOfFlatten | src/hnzpath.cpp:500-565 | Splitting a concatenation of known messages, with at most one unknown tail, returns them |
| Messages.FlattenOfExtract | src/hnzpath.cpp:500-565 | Concatenating what was split returns the payload, and every piece is a whole message |
| Formats.SplitsIntoMessages | src/hnzpath.cpp:500-565 | Messages written field by field, of any number and kind, are the pieces their concatenation is split into |
| GiResult.TscgCovers | src/hnz.cpp:413-444 | A TSCG counts exactly the configured addresses of two blocks of eight, ten apart |
| GiResult.TscgAddressIs | src/hnz.cpp:417-419 | The address joined from two strings is 10 * block + position |
| GiResult.ReceivedOrInvalid | src/hnz.cpp:1001-1019 | The addresses sent as invalid are the configured ones not received, each as often as configured |
| GiResult.MismatchMeans | src/hnz.cpp:1021-1042 | Missing is configured minus received; extra is received twice or more, or not configured |
| Decimal.StoiOfToString | src/hnz.cpp:530-531 | stoi undoes to_string |
| Decimal.JoinAppendsDigit | src/hnz.cpp:530-531 | stoi(str(x) + str(b)) is 10x + b for every x and every digit b |
| Commands.TcAddressRoundTrip | src/hnzpath.cpp:863-870 | A TC address survives encoding and decoding iff it is not negative, its last digit is at most 7 and the rest at most 255 |
| Commands.TcValueRoundTrip | src/hnz.cpp:546 | The value bits of a TC survive for every address |
| Commands.TvcValueRoundTrip | src/hnzpath.cpp:853-856 | A TVC value survives iff it lies in -127..127 |
| Commands.TcIsAcknowledgedIff | src/hnz.cpp:527-539 | The acknowledgement of a TC matches the pending command for exactly those addresses (received in a frame: `PendingCommands.CommandIsCleared`) |
| Commands.TvcIsAcknowledgedIff | src/hnz.cpp:493-504 | That of a TVC matches iff the address is below 32 (received in a frame: `PendingCommands.CommandIsCleared`) |
| Commands.AcknowledgeRemovesExactly | src/hnzpath.cpp:877-889 | An acknowledgement removes all commands of its type and address, nothing else, in order |
| Commands.ExpiryRemovesExactly | src/hnzconnection.cpp:277-293 | The expiry loop removes exactly the overdue commands and keeps the order of the rest |
| Codec.ReadBackIff | src/hnzpath.cpp:415-464 | A frame of the peer is read back as meant iff the station number is below 64; src/hnzconf.cpp:99 lets 64 through |
| Codec.OwnFramesIgnored | src/hnzpath.cpp:421-434 | A frame of this side that comes back is ignored |
| Codec.ControlFields | src/hnzpath.cpp:445-455 | The control byte determines kind, NS, NR and P/F; no RR is taken for a UA or SARM |
| HnzPathClass.HnzPath.KeepOldest | src/hnzconnection.cpp:214-218 | The loop leaves the oldest message in flight and puts the others in front of the waiting queue in order |
| HnzPathClass.HnzPath.NRAccepted | src/hnzpath.cpp:634-659 | The two loops compute Link.NRAccepted and end when every waiting message may be sent |
| HnzPathClass.HnzPath.PopAcknowledged | src/hnzpath.cpp:637-650 | The pop loop with C's remainder computes Link.Pop |
| HnzPathClass.HnzPath.PopFront | src/hnzpath.cpp:639-641 | The loop drops as many messages as asked, at most those there are |
| HnzPathClass.HnzPath.IsNRValid | src/hnzpath.cpp:610-632 | The branches of the code decide Modulo8.IsNRValid |
| HnzPathClass.HnzPath.ReceivedCommandACK | src/hnzpath.cpp:877-889 | The erase loop leaves Commands.Unacknowledged and no other field changes |
| HnzPathClass.HnzPath.ExpireCommands | src/hnzconnection.cpp:280-292 | The erase loop leaves Commands.Unexpired and no other field changes |
| HnzConnectionClass.Hnz.AddReceived | src/hnz.cpp:415-436 | The loop over the sixteen TS appends exactly what GiResult.TscgReceived says |
| HnzConnectionClass.Hnz.SendAllTSQualityReadings | src/hnz.cpp:1001-1019 | The loop sends exactly GiResult.Unfiltered of the configured addresses |
| HnzConnectionClass.Hnz.GetMismatchingTSCGAddresses | src/hnz.cpp:1021-1042 | The two loops compute the sets of GiResult.Mismatch, which MismatchMeans explains |
| HnzConnectionClass.HnzConnection.constructor | src/hnzconnection.cpp:150-167 | The connection starts in the initial state of the runs |
| HnzConnectionClass.HnzConnection.RequestConnectionState | src/hnzconnection.cpp:307-345 | The objects afterwards are those of HnzSystem.Request |
| HnzConnectionClass.HnzConnection.FindPassivePath | src/hnzconnection.cpp:356-366 | The loop finds the first other path that is PASSIVE, or none if there is none |
| HnzConnectionClass.HnzConnection.TryActivateOtherPath | src/hnzconnection.cpp:348-368 | That path becomes active with status STARTED; without one, or while stopping, nothing changes and it says so |
| HnzConnectionClass.HnzConnection.ProtocolStateTransition | src/hnzpath.cpp:55-84 | The objects afterwards are those of HnzSystem.ProtocolTransition, whose table `Handshake.ProtocolIs` ties to the events |
| HnzConnectionClass.HnzConnection.RunActions | src/hnzpath.cpp:73-76 | The loop over the ordered actions computes HnzSystem.DoActs |
| HnzConnectionClass.HnzConnection.AckAll | src/hnz.cpp:533-539 | Every path drops the acknowledged commands |
| HnzConnectionClass.HnzConnection.HandleMessages | src/hnz.cpp:215-220 | The loop over the messages of a frame, up to the end of the program |
| HnzConnectionClass.HnzConnection.Dispatch | src/hnzconnection.cpp:169-193 | Any event, on the objects: they end in the state of HnzSystem.Step |
| HnzConnectionClass.HnzConnection.DispatchAll | src/hnz.cpp:198-222 | Any sequence of events: the objects stay in reached states, which the theorems are about |

## Left out

- HnzConnectionClass.HnzConnection.Dispatch: the threads that produce the events, their loops and the sleeping times are not modelled; the events come in any order at any time.
- HnzConnectionClass.HnzConnection.HandleMessages: the readings pushed to Fledge (TM, TMN, TS values and timestamps, acknowledgements) are not modelled; of the readings only the addresses invalidated at the end of a GI are.
- HnzConnectionClass.HnzConnection.RequestConnectionState: audits, south events, log names and the timer for outdated readings are not modelled, because nothing the proofs are about reads them.
- HnzConnectionClass.HnzConnection.constructor: reading the configuration and creating the paths is not modelled.
- EndToEnd.AcknowledgedIsDelivered: covers one session, from CONNECTED on both sides with empty links. Over a handshake with frames of the old session on their way it has no counterpart: a SARM soon after the connection is answered and not obeyed (Deliveries.SarmRestartsIff). What happens to the queues at the end of a session is in Theorems.NothingIsLost.
- Silence.SilentPeer: nothing but timer turns happens between the repetitions; with other events in between, Theorems.PersistenceIsBounded gives the bound.
- Deliveries.OnceIff: compares with what the path received in sequence; what a path received while another one delivered (`missed`) is not handed up later, in the code either.
- Disconnecting: m_is_running of the path and the end of its thread are not modelled; the transition and the cleared connected flag are.
- Commands: the parsing of the parameters of an operation is not modelled; the bytes are cut out of the numbers as the code does (Theorems.CommandEvent).
- Threads, mutexes and condition variables: replaced by atomic steps.
- TCP client, CRC, sockets and the loops of connect: a frame is received whole or not at all; the client's stop is only the cleared connected flag.
- The NS of a waiting message is not kept: the code writes it before it reads it.
- JSON configuration and plugin entry points: the configured values are parameters. m_lastTSAddr, which the code computes over the addresses of all message codes, is a given number.
- Theorems.DriftIsBounded: after an NR that was accepted following a requeue, only that the drift is not negative (Theorems.QueueFitsWindow): such an NR sets m_repeat back to 0 and leaves the drift, which the next timeouts add to.
- Theorems.HandedUpIff: asks for a payload that is not cut short also on paths that extract nothing.
- Payloads cut short, and a last single byte equal to the first byte of a BULLE: the code reads past the payload; such a frame is no event of the model.
- The conversion to local time: the offset is a parameter of Timestamps.TsceTimestamp.
- Log messages, audits, the simulated station of the repository, and operations used only by its unit tests.
