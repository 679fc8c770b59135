# A verified model of the VDES gateway, ship and satellite

This project models the protocol code of a VDES system: a gateway that speaks for a ship
(`VdesService`), a satellite simulator (`SatelliteSim`) and a client (`VdesClient`).  Each part
that changes state step by step is a class whose methods keep the source's fields, loops and
branches.  Beside it stands the same behaviour as functions on values; every method is proved to
take the step its function describes, and the properties are proved about the functions, over
every input, every order of events and every run.

## What is modelled

- **Uplink addressed protocol.** The ship (`UplinkShip`, in place `UplinkMachine`), the satellite
  (`UplinkSatellite`, in place `UplinkReceiver`; its channels and ids over whole runs in
  `UplinkChannels`), their packets (`UplinkWire`), and both sides with a network that loses,
  repeats, reorders and drops (`UplinkSystem`, `UplinkTakeUps`, `UplinkRuns`).  Sessions are told
  apart by their place in the run, because an eight-bit id comes again.  As long as messages have at
  most 65536 fragments and an id is taken up only when it is settled (nothing sent under it is in
  flight, and the satellite holds nothing received under it), every delivery is the message of the
  last session under that id, and a session is reported as sent only when the satellite has handed on
  that very session's message after its take-up.  A ship that takes up no id twice keeps the rule
  without looking (`FreshIdsAreSettled`).
  What happens otherwise is characterised exactly: for every run and every take-up, `UplinkTakeUps`
  says when a false success can follow, and `UplinkMixture` says which old fragments and old data
  can be mixed with the new message into something else.
- **Downlink addressed messages.** `Downlink`, `DownlinkRuns`, in place `DownlinkManager`: who
  holds which of the six channels, how often a fragment is sent, and which messages can be
  completed at all.
- **What goes on the air and what is reported.** `ShipOutcomes`, `SatelliteOutcomes`,
  `DownlinkOutcomes` and `ShortReports` say, over every run and in plain numbers, exactly when each
  packet leaves and each report is made, and what every byte of a packet is.
- **Time.** `Segments` (the segment table against the windows written out by hand), `SlotClock`
  (the tracker that follows the clock), `Allocation` (the timer that answers a request).
- **Checks and frames.** `Bits`, `Crc`, `CrcFrames` (CRC-16 and CRC-32 as polynomial division, and
  which corruptions pass), `BoardFrame` (gateway to satellite), `TcpFraming` (length-prefixed
  messages cut out of a stream), `SbbFormat` and `SbbListener` (the bulletin board in six
  fragments).
- **Smaller machines.** `FileReassembly` (and `UplinkFiles`, where uplink fragments meet it),
  `ThreadPool` (a step system with a condition variable), `ShortMessage`.

Timers are events that may come at any time while their state lasts; the network, the clock, the
random channel of a full satellite and the message library are parameters or steps.

## Where the code falls short of what is expected of it

Each of these is proved.  Where an entry says "exactly", or names a member that ends in `Iff`, the
condition is proved in both directions.

- CRC-32 is not the textbook one: bytes enter at the bottom of the register.  It misses exactly one
  kind of corruption inside four consecutive bytes, the same change to a payload byte and to the
  check byte three places on (`CrcFrames.Crc32IsNotTextbook`, `CrcFrames.FourByteCorruption32`).
- Success can be reported for an uplink message the satellite never handed on.  At a take-up this is
  possible exactly when an acknowledgement under the id is in flight, or when what is in flight and
  held under the id can be mixed with the new message into something else
  (`UplinkTakeUps.TakeUpMisleadsIff`).  After settled take-ups, the second part is: starting from the
  first place, or from the first not held, every place up to a wrong end can be filled
  (`UplinkTakeUps.OldTakeUpIff`).  With a settled id it is possible exactly for messages whose
  numbers can wrap around (`UplinkRuns.MisledIffWraps`).  Each part of the rule can be broken alone,
  by an allocation that comes a second time (`UplinkRuns.FalseSuccess`,
  `UplinkRuns.OldFragmentsMislead`, `UplinkRuns.HeldDataMisleads`).
- Uplink deliveries are exact up to 6553600 bytes; beyond, fragment numbers wrap, and a message can
  be delivered wrongly exactly when the satellite can count up to the number its last fragment wraps
  to (`UplinkSatellite.ExactIffNumbersFit`, `UplinkSatellite.CleanExactIffNumbersFit`).  A message is
  deliverable exactly when no hundred-byte chunk starts with FF FE
  (`UplinkSatellite.DeliverableIffNoMarker`).
- The retry limit of the uplink acknowledgement timer is never reached, because sent fragments are
  forgotten (`UplinkShip.AckTimeoutNeverFails`).  A message ends without a report exactly after
  unanswered requests and the pause, or when it is empty and gets a channel
  (`UplinkShip.SilentEndIff`); another is reported as failed up to three times, and still sent after
  the first two (`UplinkShip.ReportsBounded`, `UplinkShip.MissedThreeTimes`).  Exactly six accepted
  slots can not be used (`UplinkShip.ChosenSlotUsableIff`).  Requests left unanswered for one message
  count against the next one with a chosen slot (`ShipOutcomes.PausesIff`,
  `ShipOutcomes.LeftOverCounts`).
- A second request replaces the pending one (`UplinkSatellite.SecondRequestReplacesFirst`).  An
  uplink channel stays taken without a holder exactly after its only holder asked again, or after it
  was given to a ship whose session was gone, until chance gives it out again
  (`UplinkChannels.LeakedIff`, `UplinkChannels.AlwaysHeldIff`).  Two sessions share a channel exactly
  when an answer is given while all six are taken and the chosen one is held
  (`UplinkChannels.AlwaysExclusiveIff`).
- A downlink message can be completed exactly up to 400 bytes (`DownlinkRuns.CanCompleteIff`); each
  refused message costs a channel for good (`Downlink.OccupiedIsLiveIff`, `Downlink.SixInAll`); any
  acknowledgement that truly completed a message also completes any other message of up to 30
  fragments to the ship, however little of it was sent, exactly when that one has no more fragments
  (`DownlinkRuns.OldAckCompletesIff`, `DownlinkRuns.OldAckCompletesNextIff`); a file of six
  chunks or more, handed over without a pause, leaves at most one usable channel for ever
  (`DownlinkRuns.FileUsesUpChannels`).  SatelliteSim/downlinkmanager.h says its header agrees with
  the ship's; the byte order does not (`Downlink.GatewayReadsReversed`,
  `Downlink.NumberReadBackIff`).
- Of the three random access windows in which ships ask, the satellite reports only the last as
  random access; the slots of the other two it calls data (`SlotClock.ReportsMatchSegments`).
- The length bytes of a board frame are not protected, and neither is the order of payload bytes
  (`BoardFrame.OneByteChange`, `BoardFrame.LongerPassesIff`, `BoardFrame.ExchangePasses`).
- After a message that does not parse, what is delivered depends on how many frames come in one
  read, exactly when a message that parses follows (`TcpFraming.GroupingIrrelevantIff`).
- Bulletin board fragments 2 to 6 carry no version and can be published under a newer head
  (`SbbListener.EarlierRestUnderNewHead`).  The satellite sends every board under version 1, so when
  any one packet but the first is lost, the next board is published under the head of the one
  before, and, unless the lost packet was the last, with its second signature part too
  (`SbbListener.OneLost`).  A board is published as it was sent exactly when its nibbles fit, both
  signature parts are there, and its head is taken or held already, with no other second part
  (`SbbListener.BroadcastPublishesIff`).
- A file is finished when its last chunk arrives, missing or not, and is right exactly when the
  missing chunks are blank; late repetitions replace a good file by one that is right exactly when
  its middle is blank (`FileReassembly.FinishedRightIff`, `FileReassembly.LateRepetitionSpoils`);
  sending is right exactly up to 4 GiB (`FileReassembly.FaithfulIffBelow4GiB`).
- An upload of up to 65536 fragments arrives exactly when it is a single one, that is up to 98 bytes
  behind the marker: of several fragments none bears number 0, so the file receiver refuses them all,
  and no datagram holds a full chunk of its size (`UplinkFiles.FileArrivesIff`,
  `UplinkFiles.NoFullChunk`).

## Model

| member | source | states |
|---|---|---|
| UplinkWire.FragmentRoundTrip | VdesService/uplinkaddressedstatemachine.cpp:226-263 | the satellite decodes every fragment packet to the type, ship, session, number field and chunk it was built from |
| UplinkWire.AllocationRoundTrip | SatelliteSim/simulator.cpp:871-889 | an allocation packet yields one grant to the addressed ship and none to any other |
| UplinkWire.AckRoundTrip | SatelliteSim/simulator.cpp:841-860 | the satellite acknowledgement is decoded as session, no reallocation, and an all-zero mask |
| UplinkWire.ListenerReadsUplink | VdesService/globallistener.cpp:203-215 | every field of an uplink fragment, size and addressee included, is where the listener looks for it |
| UplinkShip.ReactSound | VdesService/uplinkaddressedstatemachine.cpp:53-171 | every event keeps the sender sound: while a session lasts the list is a suffix of the split message, otherwise it is empty |
| UplinkShip.SendNextEvent | VdesService/uplinkaddressedstatemachine.cpp:217-267 | one call transmits at most one fragment: the next one still listed, with its own bytes, in a slot of the assigned channel, and forgets it |
| UplinkShip.OnlySlotsTransmit | VdesService/uplinkaddressedstatemachine.cpp:398-450 | no other event transmits a fragment |
| UplinkShip.SessionKept | VdesService/uplinkaddressedstatemachine.cpp:152-450 | no other event changes message, id, channel, addressee or the number of fragments left, while a session goes on |
| UplinkShip.OrderlyStep | VdesService/uplinkaddressedstatemachine.cpp:152-267 | any event keeps the history orderly: fragment numbers increase and every transmission was a fragment of the session in its channel |
| UplinkShip.RunShip | VdesService/uplinkaddressedstatemachine.cpp:398-450 | the same over any run of events from an orderly history |
| UplinkShip.NoFragmentTwice | VdesService/uplinkaddressedstatemachine.cpp:265 | from the start and under any acknowledgements and timeouts, no fragment is transmitted twice in a session |
| UplinkShip.SessionsNeverCollide | VdesService/uplinkaddressedstatemachine.cpp:363-373 | two active sessions with different channels never transmitted in the same slot |
| UplinkShip.SatelliteAckMeansAllSent | VdesService/uplinkaddressedstatemachine.cpp:285-312 | the satellite acknowledgement is reported as success exactly when no fragment is left to send |
| UplinkShip.AckTimeoutNeverFails | VdesService/uplinkaddressedstatemachine.cpp:152-171 | in the acknowledgement wait the timer never reports failure; the machine returns to sending with nothing to send |
| UplinkShip.ChosenSlotUsableIff | VdesService/uplinkaddressedstatemachine.cpp:64-85 | an accepted slot leads to a request two slots earlier unless it is one of six at the window starts |
| UplinkShip.SilentEndIff | VdesService/uplinkaddressedstatemachine.cpp:133-205 | a message ends without a report exactly when the pause after unanswered requests is over, or when it is empty and an allocation arrives |
| UplinkShip.UnansweredPauses | VdesService/uplinkaddressedstatemachine.cpp:133-150 | three unanswered requests, in any random access slots, lead to the pause, and its end to idle |
| UplinkShip.ReportsBounded | VdesService/uplinkaddressedstatemachine.cpp:398-430 | over every run no message is reported more than three times, and while it lasts it was reported once for each missed slot, at most twice |
| UplinkShip.MissedThreeTimes | VdesService/uplinkaddressedstatemachine.cpp:413-430 | three reports do happen, the first two while the message is still going to be sent |
| ShipOutcomes.RequestedIff | VdesService/uplinkaddressedstatemachine.cpp:173-188 | over every run a resource request leaves exactly in a slot of 630-808, 1350-1528 or 2070-2248 while one is wanted and, with a chosen slot, exactly two slots before it; its ten bytes name this ship, and it is meant for the chosen slot or the current one |
| ShipOutcomes.PausesIff | VdesService/uplinkaddressedstatemachine.cpp:133-150 | over every run an unanswered request is repeated exactly when fewer than two were counted before it since a message without a chosen slot was submitted or a pause ended; otherwise the pause begins |
| ShipOutcomes.LeftOverCounts | VdesService/uplinkaddressedstatemachine.cpp:64-85 | a chosen slot does not start that count afresh: after two unanswered requests of the message before, one is enough for the pause |
| ShipOutcomes.AllocationTaken | VdesService/uplinkaddressedstatemachine.cpp:190-215 | in the wait for a channel the first of four entries that names this ship gives its channel, link and session byte, and any other packet does nothing; an empty message is dropped |
| ShipOutcomes.TransmitsWhatWasSubmitted | VdesService/uplinkaddressedstatemachine.cpp:217-267 | over every run a fragment goes out exactly in a slot of the channel while one is not marked, and it carries, byte for byte, its own hundred bytes of the message submitted, to the address submitted, with type, size, number, link and physical channel as numbers |
| ShipOutcomes.TransmitsFirst | VdesService/uplinkaddressedstatemachine.cpp:217-267 | it is the first fragment on the list that is not marked |
| ShipOutcomes.AckOutcome | VdesService/uplinkaddressedstatemachine.cpp:269-330 | read off the bits of the packet: which fragments an acknowledgement marks, which it counts as lost, and when it ends the message with which report |
| ShipOutcomes.OthersIgnored | VdesService/uplinkaddressedstatemachine.cpp:269-280 | any other packet changes nothing while a session lasts |
| ShipOutcomes.ReportedIff | VdesService/uplinkaddressedstatemachine.cpp:53-450 | over every run each of the nine reports is made exactly under its own condition on the input; success exactly for an acknowledgement without reallocation that confirms every fragment it speaks of |
| ShipOutcomes.RunTells | VdesService/uplinkaddressedstatemachine.cpp:40-95 | over every run message and address are those submitted last, the retry limit is that of the latest MAC frame, and a chosen slot counts until a request leaves |
| UplinkMachine.UplinkMachine.SendLongMessage | VdesService/uplinkaddressedstatemachine.cpp:53-62 | in place: refuses when busy, otherwise stores the message and starts requesting |
| UplinkMachine.UplinkMachine.SendLongMessageWithSpecifiedSlot | VdesService/uplinkaddressedstatemachine.cpp:64-85 | in place: the three refusals in order, otherwise the chosen slot is stored |
| UplinkMachine.UplinkMachine.constructor | VdesService/uplinkaddressedstatemachine.cpp:15-26 | the machine starts idle and sound |
| UplinkMachine.UplinkMachine.OnAckWaitTimeout | VdesService/uplinkaddressedstatemachine.cpp:152-171 | in place, for any list: both loops count and unmark as the event function says |
| UplinkMachine.UplinkMachine.SplitMessage | VdesService/uplinkaddressedstatemachine.cpp:379-396 | the loop yields fragment i with start 100*i and the right size, for every i |
| UplinkMachine.UplinkMachine.OnMyResourceAllocationReceived | VdesService/uplinkaddressedstatemachine.cpp:190-215 | in place: an allocation is taken up once, only while waiting for it and with a message |
| UplinkMachine.UplinkMachine.ParseResourceAllocation | VdesService/globallistener.cpp:157-186 | the loop hands on exactly the entries for this ship, at most four, in order |
| UplinkMachine.UplinkMachine.SendNextFragment | VdesService/uplinkaddressedstatemachine.cpp:217-267 | in place: acknowledged fragments are dropped, the next is packed byte by byte, sent and popped |
| UplinkMachine.UplinkMachine.DropAckedFront | VdesService/uplinkaddressedstatemachine.cpp:218-221 | the loop drops exactly the leading acknowledged fragments and counts them |
| UplinkMachine.UplinkMachine.BuildFragment | VdesService/uplinkaddressedstatemachine.cpp:226-261 | the packet of a listed fragment, built piece by piece |
| UplinkMachine.UplinkMachine.OnSlot | VdesService/uplinkaddressedstatemachine.cpp:398-439 | in place: sending in own channel slots, the chosen-slot bookkeeping, and a request exactly in a RAC slot that is two before the chosen one, if one is chosen |
| UplinkMachine.UplinkMachine.MarkAcked | VdesService/uplinkaddressedstatemachine.cpp:280-299 | the loop over list and mask marks every covered fragment and lists the missing ones in order |
| UplinkMachine.UplinkMachine.CountRetries | VdesService/uplinkaddressedstatemachine.cpp:313-325 | the second loop counts one retry per missing fragment and stops at the first over the limit |
| UplinkMachine.UplinkMachine.ParseUplinkAck | VdesService/uplinkaddressedstatemachine.cpp:269-330 | in place: the whole acknowledgement, with early returns, takes the step of its event function |
| UplinkMachine.UplinkMachine.HandlePacket | VdesService/uplinkaddressedstatemachine.cpp:441-450 | in place: which packets reach the machine in which state |
| UplinkMachine.ToldByLost | VdesService/uplinkaddressedstatemachine.cpp:300-329 | the decision by the list of missing fragments equals the decision by the mask bits |
| UplinkSatellite.NextFragment | SatelliteSim/simulator.cpp:1007-1035 | the fragment expected next is appended, and the last one completes the whole message |
| UplinkSatellite.StartFragment | SatelliteSim/simulator.cpp:1012-1015 | the first of several fragments starts the session over, whatever it held |
| UplinkSatellite.FragmentStep | SatelliteSim/simulator.cpp:984-1036 | any fragment in any state keeps the received data a prefix of the message, and a delivery is the message |
| UplinkSatellite.ExactDelivery | SatelliteSim/simulator.cpp:984-1036 | any order with losses and repetitions of up to 65536 fragments delivers the message or nothing |
| UplinkSatellite.ExactIffNumbersFit | SatelliteSim/simulator.cpp:991-1023 | every message, with or without diverted chunks: delivery is exact for every order exactly up to 6553600 bytes, or when some number below the one the last fragment wraps to is borne by no fragment that is kept |
| UplinkSatellite.WrappedDelivery | SatelliteSim/simulator.cpp:1017-1023 | otherwise some order delivers a shorter message as complete |
| UplinkSatellite.CleanExactIffNumbersFit | SatelliteSim/simulator.cpp:991-1023 | without diverted chunks delivery is exact for every order exactly when the message has at most 6553600 bytes |
| UplinkSatellite.DeliverableIffNoMarker | SatelliteSim/simulator.cpp:994-1005 | a message can be delivered exactly when no chunk starts with FF FE |
| UplinkMixture.FeedIsAccept | SatelliteSim/simulator.cpp:1007-1035 | what the satellite does with a fragment of a session under way is the step of that session on its own |
| UplinkMixture.MixableIff | SatelliteSim/simulator.cpp:984-1035 | with fragments of one old message in flight and its beginning held, something else than the new message can be handed on exactly when, from the first place or the first not held, every place up to a wrong end can be filled |
| UplinkMixture.AloneMixableIff | SatelliteSim/simulator.cpp:991-1035 | with nothing held and nothing old in flight, exactly a message whose numbers can wrap around can be handed on as something else |
| UplinkSatellite.RequestIsAnswered | SatelliteSim/simulator.cpp:871-1056 | within the guard the ship is allocated a channel, recorded in its session and among the taken ones |
| UplinkSatellite.SecondRequestReplacesFirst | SatelliteSim/simulator.cpp:960-977 | of two requests before the timer fires only the second is answered |
| SatelliteOutcomes.HeardAs | SatelliteSim/simulator.cpp:938-992 | which bytes count as a request or a fragment, and where ship, session, number and data stand; a request too short to name its ship counts as one of 200000002 |
| SatelliteOutcomes.AnsweredIff | SatelliteSim/simulator.cpp:841-1056 | over every run a packet leaves exactly when the timer fires within five slots of the ASC slot after the latest request, with the lowest free channel for that ship, or when a message is complete, with the acknowledgement of its session; both byte by byte |
| SatelliteOutcomes.IdsInTurn | SatelliteSim/simulator.cpp:948 | over every run session ids are 1, 2, ... modulo 256, one for each request and each downlink message |
| SatelliteOutcomes.FragmentOutcome | SatelliteSim/simulator.cpp:984-1036 | which fragments start, extend, complete or end a session, what is then handed on, and that no other session is touched |
| UplinkChannels.LeakedIff | SatelliteSim/simulator.cpp:871-1067 | for every reachable state and every event, a channel is taken without a holder afterwards exactly when it was before and is not given out again, or when its only holder requests again, or when it is given to a ship without a session |
| UplinkChannels.AlwaysHeldIff | SatelliteSim/simulator.cpp:893-1067 | every taken channel is held at every point of a run exactly when no event of it abandons one in these two ways |
| UplinkChannels.LeaksHappen | SatelliteSim/simulator.cpp:893-959 | both ways happen from the start, in three events |
| UplinkChannels.ExclusiveIff | SatelliteSim/simulator.cpp:672-692 | an event makes two sessions hold one channel, or one hold a channel that counts as free, exactly when it answers with a held channel while all six are taken |
| UplinkChannels.AlwaysExclusiveIff | SatelliteSim/simulator.cpp:672-1067 | over every run sessions have channels of their own exactly when no such answer is given |
| UplinkChannels.SeventhShares | SatelliteSim/simulator.cpp:672-684 | with six channels taken and none leaked every answer to a live session shares one |
| UplinkChannels.OneDeliveryPerId | SatelliteSim/simulator.cpp:946-1032 | over every run a ship has at most as many messages handed on under an id as it was given that id, an open session counting as one |
| UplinkReceiver.Receiver.AllocateDcChannel | SatelliteSim/simulator.cpp:672-684 | the least free channel, or the random one when all six are taken; the set grows by it |
| UplinkReceiver.Receiver.HandleResourceRequest | SatelliteSim/simulator.cpp:938-977 | in place: new session, new id, pending answer for the nearest ASC slot, timer delay |
| UplinkReceiver.Receiver.HandleFragmentPacket | SatelliteSim/simulator.cpp:984-1036 | in place: diversion, refusal, restart, gap, append and completion of a fragment |
| UplinkReceiver.Receiver.OnResourceAllocTimeout | SatelliteSim/simulator.cpp:1043-1056 | in place: drop outside the guard, otherwise allocate, answer and record the channel |
| UplinkReceiver.Receiver.ReadUdpData | SatelliteSim/simulator.cpp:899-1041 | the loop over datagrams accepts exactly the intact frames, in order |
| UplinkReceiver.Receiver.ReadMessage | SatelliteSim/simulator.cpp:920-1036 | in place: which message types reach the uplink side, with the default ship of a short request |
| UplinkReceiver.FramedFragmentArrives | SatelliteSim/simulator.cpp:906-1036 | a fragment framed by the gateway reaches the receiver as that fragment |
| UplinkSystem.StepKeeps | SatelliteSim/simulator.cpp:984-1036 | every step of ship, satellite, timers or network keeps the joint invariant |
| UplinkSystem.RunKeeps | VdesService/uplinkaddressedstatemachine.cpp:269-312 | every run that takes up session ids only when settled keeps it |
| UplinkSystem.DeliveriesAreExact | SatelliteSim/simulator.cpp:1023-1035 | whatever a step hands on for the ship, again or for the first time, is the message of the last session the ship took up under that id |
| UplinkSystem.SuccessNeedsAck | VdesService/uplinkaddressedstatemachine.cpp:269-305 | success is reported only upon an acknowledgement for this ship and the current session |
| UplinkSystem.SuccessImpliesDelivery | VdesService/uplinkaddressedstatemachine.cpp:300-305 | when success is reported, the satellite has handed on the message of that very session, after the ship took it up |
| UplinkSystem.ReportedAreComplete | VdesService/uplinkaddressedstatemachine.cpp:300-305 | over a whole run every session reported as sent was handed on after its take-up |
| UplinkSystem.UnusedIsSettled | SatelliteSim/simulator.cpp:948 | a session id the ship never took up is settled |
| UplinkSystem.FreshIdsAreSettled | VdesService/uplinkaddressedstatemachine.cpp:190-205 | a run in which no two sessions have the same id takes up settled ids only: a rule the ship can keep by itself |
| UplinkTakeUps.TakeUpMisleadsIff | VdesService/uplinkaddressedstatemachine.cpp:190-312 | for every run and every take-up of an id, the new message can be reported without having been handed on exactly when an acknowledgement under the id is in flight, or something else can be mixed from what is in flight, held and sent |
| UplinkTakeUps.OldTakeUpIff | SatelliteSim/simulator.cpp:984-1035 | after any run with settled ids and numbers that fit, the same with the mixture condition spelled out for the last message under the id |
| UplinkTakeUps.OneOldFragmentMisleads | SatelliteSim/simulator.cpp:1017-1026 | one old fragment with followers in both messages and a chunk that differs is enough, for every clean message and any id |
| UplinkTakeUps.SettledTakeUpIff | VdesService/uplinkaddressedstatemachine.cpp:190-312 | taking up a settled id, in any run, can lead to a false success exactly for a message whose numbers can wrap around |
| UplinkTakeUps.StaleAckMisleads | VdesService/uplinkaddressedstatemachine.cpp:217-305 | in any run: while a session lasts that is not complete, an acknowledgement in flight under its id can end it as a success |
| UplinkRuns.CanSucceedIffNoMarker | VdesService/uplinkaddressedstatemachine.cpp:217-267 | some run reports success for a message exactly when no chunk bears the file marker |
| UplinkRuns.MisledIffWraps | VdesService/uplinkaddressedstatemachine.cpp:217-312 | in some run with settled ids a message is reported and was not handed on exactly when its numbers can wrap around |
| UplinkRuns.FirstMessage | VdesService/uplinkaddressedstatemachine.cpp:190-267 | states lead from the start to one in which a whole message without marker was delivered, acknowledged and reported |
| UplinkRuns.FalseSuccess | VdesService/uplinkaddressedstatemachine.cpp:190-205 | for every clean first message and every second one there is a run with settled ids and, at the second take-up of the same id, an old acknowledgement alone, from which a false success can follow |
| UplinkRuns.OldFragmentsMislead | SatelliteSim/simulator.cpp:946-1026 | the same with old fragments alone, for every second message that differs |
| UplinkRuns.HeldDataMisleads | SatelliteSim/simulator.cpp:1012-1026 | the same with old data held alone, for clean messages of several fragments whose first chunks differ |
| Allocation.SlotsToAsc | SatelliteSim/simulator.cpp:963-971 | the nearest later ASC slot is 1 to 721 slots away |
| Allocation.FindNextAsc | SatelliteSim/simulator.cpp:963-975 | the search loop finds that slot, its fallbacks are never taken, and the delay is at least 26 ms |
| Allocation.DelayLands | SatelliteSim/simulator.cpp:973-975 | the timer lands on the slot it was set for or on the one before |
| Allocation.GuardIsDistance | SatelliteSim/simulator.cpp:1047-1052 | the drop rule is circular distance: within five slots either way |
| Allocation.AllocationGoesThrough | SatelliteSim/simulator.cpp:1043-1055 | with the tracker at most 2 slots behind and the timer at most 80 ms late the answer is sent |
| Allocation.LockedAnswers | SatelliteSim/slotscheduler.cpp:120-159 | with 10 ms ticks every request after the tracker has locked is answered, the timer being at most 80 ms late |
| Allocation.LateByOneMoreIsDropped | SatelliteSim/simulator.cpp:1048-1051 | 81 ms can be too late |
| DcChannels.LeastFree | SatelliteSim/downlinkmanager.cpp:24-36 | the least free channel, and -1 exactly when all six are taken |
| DcChannels.FindFree | SatelliteSim/simulator.cpp:672-684 | the search loop of both allocators returns it |
| Segments.SumSlot | VdesService/vdes_global.cpp:67-80 | the loops compute whole rounds of 720, the partial sum and 90, modulo 2^32 |
| Segments.SumSlotIsBoundaryIff | VdesService/vdes_global.cpp:67-80 | that value is the segment boundary for every segment exactly when the ten lengths add up to 720 |
| Segments.Schedule.constructor | VdesService/vdes_global.cpp:15 | the table of the source is valid: ten positive lengths that add up to 720 |
| Segments.Schedule.SlotResize | VdesService/vdes_global.cpp:82-90 | 31 segments are filled in without gap or overlap, none empty, each length fitting its byte |
| Segments.OneSegmentPerSlot | VdesService/vdes_global.cpp:82-90 | every slot of the frame lies in exactly one segment |
| Segments.WindowsAreSegments | VdesService/uplinkaddressedstatemachine.cpp:363-377 | for every slot and channel number: a slot is in a data channel, the RAC or the ASC window exactly when it lies in one of the three segments at the place of that window |
| Segments.ChannelsDisjoint | VdesService/uplinkaddressedstatemachine.cpp:363-373 | a slot belongs to at most one data channel and then to no RAC or ASC window |
| SlotClock.SlotScheduler.constructor | SatelliteSim/slotscheduler.cpp:64-76 | the tracker starts at the slot of the clock |
| SlotClock.SlotScheduler.UpdateSlotByRealTime | SatelliteSim/slotscheduler.cpp:120-159 | an update advances 0, 1 or 2 slots, or 1 when further behind, and reports each slot with the channel its number has |
| SlotClock.NeverSkips | SatelliteSim/slotscheduler.cpp:140-157 | over any sequence of clock readings the reported slots are consecutive around the frame |
| SlotClock.Advances | SatelliteSim/slotscheduler.cpp:120-159 | one update reports nothing, both slots when the clock is two ahead, and the next slot otherwise |
| SlotClock.ReportsNameChannels | SatelliteSim/slotscheduler.cpp:225-233 | over every run report i is for slot start + i + 1 modulo 2250, BBSC exactly for 0-89, ASC exactly for 90-179, 810-899 and 1530-1619, RAC exactly for 2070-2249, and data otherwise |
| SlotClock.ReportsMatchSegments | VdesService/vdes_global.cpp:15 | the same against the segment table: of the three random access segments only the last is reported as one, with the slot behind it; the slots of the other two are reported as data |
| SlotClock.LocksWithinBound | SatelliteSim/slotscheduler.cpp:120-159 | with 10 ms ticks any lag L is gone for good after 8*ceil(L/5) ticks |
| SlotClock.StaysLocked | SatelliteSim/slotscheduler.cpp:131-138 | a tracker that shows the slot of the clock keeps showing it |
| Crc.Register.FeedLinear | VdesService/vdes_crc.h:18-26 | the register is linear in start value and data |
| Crc.Register.FeedInjective | VdesService/vdes_crc.h:18-26 | for fixed data it is one to one in the start value |
| Crc.Register.FeedIsDivision | VdesService/vdes_crc.h:18-26 | bytes entering anywhere leave the start clocked along plus the remainder of a polynomial division |
| Crc.Register.BurstDetected | VdesService/vdes_crc.h:16-47 | inputs that differ only inside one register width have different results |
| CrcFrames.ComputeCrc16 | VdesService/vdes_crc.h:16-28 | the bit loop computes the register fed with every byte at the top, and that is what the message times x^16 leaves over a multiple of 0x18005 |
| CrcFrames.ComputeCrc32 | VdesService/vdes_crc.h:36-48 | the bit loop computes the register fed with every byte at the bottom, complemented, and its complement is a remainder by 0x104C11DB7 |
| CrcFrames.Verify | VdesService/vdes_crc.h:56-75 | accepts exactly the frames whose last two or four bytes are the check of the rest |
| CrcFrames.AppendCrc | VdesService/vdes_crc.h:82-96 | appends two or four bytes and the result is accepted |
| CrcFrames.Crc16IsDivision | VdesService/vdes_crc.h:14-28 | CRC-16 is the remainder of the message times x^16 |
| CrcFrames.Crc32IsDivision | VdesService/vdes_crc.h:34-48 | CRC-32 as written is the complemented remainder of the message times x^8, plus the start clocked along |
| CrcFrames.Crc16IsTheRemainder | VdesService/vdes_crc.h:14-28 | for every message: a word is CRC-16 exactly when some multiple of 1 1000 0000 0000 0101 and the word add up to the message times x^16 |
| CrcFrames.Crc32IsTheRemainder | VdesService/vdes_crc.h:34-48 | for every message: a word is CRC-32 exactly when its complement and some multiple of 0x104C11DB7 add up to the message before one zero byte and behind three, the first 32 bits turned over |
| CrcFrames.Accepted16Iff | VdesService/vdes_crc.h:56-64 | a frame on link 20 is accepted exactly when its last two bytes, high byte first, are that remainder of the rest |
| CrcFrames.Accepted32Iff | VdesService/vdes_crc.h:65-74 | a frame on any other link is accepted exactly when its last four bytes, high byte first, are the complement of that remainder |
| Crc.Register.RemainderIff | VdesService/vdes_crc.h:18-26 | long division by the register leaves the only word that can be left over a multiple of its divisor |
| CrcFrames.Crc32IsNotTextbook | VdesService/vdes_crc.h:37-39 | it differs from the textbook check on every one-byte message except zero |
| CrcFrames.Crc16KeepsParity | VdesService/vdes_crc.h:16-28 | the bit parity of the check is the bit parity of the message |
| CrcFrames.AcceptedIffResidueZero | VdesService/vdes_crc.h:56-64 | a frame of at least two bytes is accepted exactly when the check of the whole frame is zero |
| CrcFrames.BurstRejected16 | VdesService/vdes_crc.h:56-64 | any burst of up to 16 bits anywhere in an accepted frame is rejected |
| CrcFrames.OddFlipsRejected16 | VdesService/vdes_crc.h:56-64 | any odd number of flipped bits in an accepted frame is rejected |
| CrcFrames.AcceptedIffDifferenceFits | VdesService/vdes_crc.h:65-74 | a changed frame is accepted exactly when the differences alone satisfy the check |
| CrcFrames.FourByteCorruption32 | VdesService/vdes_crc.h:65-74 | of all corruptions inside four consecutive bytes exactly the twin flips are accepted |
| CrcFrames.PayloadBurstRejected32 | VdesService/vdes_crc.h:65-96 | every corruption inside four payload bytes is rejected |
| BoardFrame.BoardPort.SendToBoard | VdesService/vdes_global.cpp:101-134 | in place: the frame byte by byte with its checksum loop, and the sequence number advances modulo 2^16 |
| BoardFrame.ParseFrame | SatelliteSim/simulator.cpp:906-920 | the parser with its loop accepts and cuts exactly as the format says |
| BoardFrame.FrameLayout | VdesService/vdes_global.cpp:106-133 | every field in its place, low byte first: marks, sequence number, length, physical channel, slot, two zeros, link, offset, attenuation, payload, and the sum of all bytes from the fourth on |
| BoardFrame.ParsedIff | SatelliteSim/simulator.cpp:906-920 | a datagram is taken exactly with the three marks, a length above ten, enough bytes and that sum in the place the length points to, and then yields the bytes in between |
| BoardFrame.RoundTripIff | VdesService/vdes_global.cpp:112-134 | the parser recovers the payload exactly when it has 1 to 65525 bytes |
| BoardFrame.TrailingIgnored | SatelliteSim/simulator.cpp:914-920 | bytes behind a frame do not matter |
| BoardFrame.OneByteChange | SatelliteSim/simulator.cpp:909-919 | a frame with one byte changed is accepted exactly for a shortened length followed by its own checksum |
| BoardFrame.OneByteOutsideLengthRejected | SatelliteSim/simulator.cpp:909-919 | a changed byte outside the length field is always noticed |
| BoardFrame.LongerPassesIff | SatelliteSim/simulator.cpp:910-919 | a payload has a longer one whose frame one changed length byte turns into its own exactly when it is shorter than 65525 bytes |
| BoardFrame.BodyAcceptedIff | SatelliteSim/simulator.cpp:915-919 | with the length intact a changed frame passes exactly when the sums agree modulo 256 |
| BoardFrame.ExchangePasses | SatelliteSim/simulator.cpp:915-919 | exchanging two payload bytes is never noticed |
| TcpFraming.TcpClient.SendRequest | VdesClient/tcp_client.cpp:121-132 | writes two length bytes and the message |
| TcpFraming.TcpClient.OnReadyRead | VdesClient/tcp_client.cpp:140-198 | in place: one call delivers and keeps what draining the buffer means, ending because the buffer shrinks |
| TcpFraming.DrainPrefix | VdesClient/tcp_client.cpp:146-191 | a stream of good messages cut anywhere yields the whole ones, and the rest is the start of the next frame |
| TcpFraming.ReadsAreOneRead | VdesClient/tcp_client.cpp:140-198 | reading in any pieces delivers and keeps what one read does |
| TcpFraming.KeepsUnfinishedFrame | VdesClient/tcp_client.cpp:144-157 | after every read the buffer is the part of the unfinished frame that has arrived |
| TcpFraming.DeliveredExactlyIff | VdesClient/tcp_client.cpp:114-198 | for any cutting the messages come out as sent exactly when each parses and has 1 to 65535 bytes |
| TcpFraming.FrameBytes | VdesClient/tcp_client.cpp:121-132 | writer and reader put the high length byte first |
| TcpFraming.RestIsLost | VdesClient/tcp_client.cpp:152-195 | behind any good messages a frame of length zero, or one that does not parse, takes everything behind it along |
| TcpFraming.GroupingIrrelevantIff | VdesClient/tcp_client.cpp:146-196 | grouping whole frames into reads in any way delivers the same exactly when no message that parses comes behind one that does not |
| SbbFormat.BuildChannel | SatelliteSim/simulator.cpp:206-223 | the builder loops write frequencies, bandwidth and packed nibbles |
| SbbFormat.BuildNibbles | SatelliteSim/simulator.cpp:215-223 | the packing loop, two values a byte |
| SbbFormat.ReadNibbles | VdesService/globallistener.cpp:274-283 | the unpacking loop with its moving index |
| SbbFormat.ReadChannelAt | VdesService/globallistener.cpp:271-283 | the reader with its moving index reads seventeen bytes and no further |
| SbbFormat.UnpackedIff | SatelliteSim/simulator.cpp:215-217 | two values sharing a byte come back exactly when both fit four bits |
| SbbFormat.ChannelRoundTripIff | SatelliteSim/simulator.cpp:202-245 | a channel comes back exactly when its slot sizes and functions fit four bits |
| SbbFormat.HeadRoundTrip | SatelliteSim/simulator.cpp:163-195 | every head field of the first fragment comes back |
| SbbFormat.HeadLayout | SatelliteSim/simulator.cpp:163-195 | every field of the first fragment in its place, high byte first |
| SbbFormat.ChannelLayout | SatelliteSim/simulator.cpp:202-245 | every field of a channel in its place, the earlier of two values in the high half of their byte |
| SbbFormat.FragmentLayout | SatelliteSim/simulator.cpp:198-345 | which channels and which signature part each later fragment carries |
| SbbFormat.BoardRoundTripIff | VdesService/globallistener.cpp:248-387 | six fragments give the board back exactly when all nibbles fit |
| SbbListener.GlobalListener.ParseSbbFragment1 | VdesService/globallistener.cpp:39-60 | in place: a newer version starts over, the same version only fills a gap |
| SbbListener.GlobalListener.ParseSbbChannels | VdesService/globallistener.cpp:63-99 | in place: fragments 2 to 4 are filed under the version being collected, if a first fragment is there |
| SbbListener.GlobalListener.ParseSbbSignature | VdesService/globallistener.cpp:102-125 | in place: filing a signature fragment and publishing when six are there |
| SbbListener.GlobalListener.AssembleSbb | VdesService/globallistener.cpp:248-396 | reads within the fragments, yields the board and empties the collection |
| SbbListener.GlobalListener.HandlePacket | VdesService/globallistener.cpp:15-36 | in place: every packet takes the step of its function and keeps the collection in order |
| SbbListener.HandleKeeps | VdesService/globallistener.cpp:39-125 | fragment 1 is present in every non-empty collection, keys are 1 to 6, stored versions equal the collected one, which never decreases |
| SbbListener.PublishesIff | VdesService/globallistener.cpp:102-125 | a board comes out exactly when fragment 5 or 6 arrives and all six are then there |
| SbbListener.HandleTakes | VdesService/globallistener.cpp:39-125 | for every state and packet: what is then collected, under which version, and when a board comes out; everything too short or without a first fragment has no effect |
| SbbListener.VersionsNeverGoBack | VdesService/globallistener.cpp:39-125 | over any packets the published versions never decrease |
| SbbListener.BroadcastPublishesIff | SatelliteSim/simulator.cpp:351-371 | after whatever was heard before, a broadcast in order is published as that board exactly when nibbles fit, neither signature part is empty, and its head is taken, or one just like it is held with no other second signature part |
| SbbListener.OneLost | SatelliteSim/simulator.cpp:163-177 | when any one packet but the first is lost, the next board of the same version is published under the head before, and with the second signature part before unless that was the lost one |
| SbbListener.EarlierRestUnderNewHead | VdesService/globallistener.cpp:63-73 | an earlier rest is published under a newer head that arrives in between, exactly when it would have been published at all; it is the newer board exactly when all but the heads agree |
| FileReassembly.SendSession.SendNextChunk | SatelliteSim/filetransferhandler.cpp:109-143 | in place: the next chunk from an offset computed in 32 bits, until all were sent |
| FileReassembly.FaithfulIffBelow4GiB | SatelliteSim/filetransferhandler.cpp:85-135 | every file of a size is sent faithfully exactly up to 4 GiB |
| FileReassembly.FileReceiver.Receive | SatelliteSim/filetransferhandler.cpp:145-239 | in place: refusal without a first chunk, repetition, write at offset, immediate finish |
| FileReassembly.ReceivedIff | SatelliteSim/filetransferhandler.cpp:145-239 | exactly which chunks are taken, announced as complete and finish a file, and that no other session is touched |
| FileReassembly.ChunkIs | SatelliteSim/filetransferhandler.cpp:85-135 | chunk n is the n-th 64 KiB of the file, and the last one ends it |
| FileReassembly.ArriveStep | SatelliteSim/filetransferhandler.cpp:187-236 | any chunk keeps received ranges right and the rest blank; a finished file is the source with missing chunks blanked |
| FileReassembly.PartlyReceived | SatelliteSim/filetransferhandler.cpp:194-201 | over any arrivals received bytes are in place, the rest is zero, and the counter is the number of chunks |
| FileReassembly.FinishedRightIff | SatelliteSim/filetransferhandler.cpp:215-236 | after any arrivals the last chunk finishes the file exactly when a session runs or it is the only chunk; the file is right exactly when every missing chunk is all zeros |
| FileReassembly.AnyOrderWithLastAtEnd | SatelliteSim/filetransferhandler.cpp:145-239 | chunk 0 first, last chunk last, the rest in any order with repetitions, files of one chunk included: the file is the source |
| FileReassembly.LateRepetitionSpoils | SatelliteSim/filetransferhandler.cpp:154-159 | chunk 0 and the last arriving again replace the file by one that is right exactly when the middle is blank |
| UplinkFiles.FileArrivesIff | SatelliteSim/simulator.cpp:991-1005 | over any arrivals of the fragments of a message of up to 65536 fragments, a file comes out exactly when the message is a single fragment with the marker, and it is the rest of that fragment |
| UplinkFiles.NoFullChunk | SatelliteSim/simulator.cpp:906-1005 | a datagram the satellite accepts can only carry the last of the chunks the receiver expects |
| UplinkFiles.DivertedIsNotKept | SatelliteSim/simulator.cpp:994-1005 | exactly the fragments whose data has the marker are diverted, and they leave the uplink side as it was |
| ThreadPool.WorkerCount | VdesService/thread_pool.cpp:4-12 | as many workers as asked for, or as the hardware has when none are asked for, or 4 when that is unknown, but never less than 2 or more than 16 |
| ThreadPool.ThreadPool.Enqueue | VdesService/thread_pool.cpp:31-38 | in place: the step of a producer under the lock, with a notification due exactly when accepted |
| ThreadPool.ThreadPool.constructor | VdesService/thread_pool.cpp:4-12 | an empty queue, and the worker count the source settles on |
| ThreadPool.ThreadPool.TakeTurn | VdesService/thread_pool.cpp:43-49 | in place: the step of a worker under the lock, whether it sleeps, leaves or takes the first task |
| ThreadPool.ThreadPool.Shutdown | VdesService/thread_pool.cpp:20-25 | in place: the step of the destructor under the lock, after which everybody is owed a notification |
| ThreadPool.StepConserves | VdesService/thread_pool.cpp:31-60 | every step keeps accepted = taken, then queued, and taken tasks in hand or finished once |
| ThreadPool.StepLosesNoWakeup | VdesService/thread_pool.cpp:31-49 | while somebody sleeps every queued task has a worker awake or a notification under way |
| ThreadPool.RunsKeep | VdesService/thread_pool.cpp:20-60 | both over every interleaving of producers, workers and destructor |
| ThreadPool.TakenInOrder | VdesService/thread_pool.cpp:47-48 | tasks are taken in the order in which they were accepted |
| ThreadPool.InternalStepsEnd | VdesService/thread_pool.cpp:40-60 | every step the pool takes by itself brings the end nearer |
| ThreadPool.QuietOrNext | VdesService/thread_pool.cpp:40-60 | a pool that is not quiet can take such a step |
| ThreadPool.QuietMeansDone | VdesService/thread_pool.cpp:40-60 | a quiet pool has run every accepted task as often as it was accepted |
| ThreadPool.Drains | VdesService/thread_pool.cpp:40-60 | from every reachable state the pool can go on, by its own steps only and by no more than remain, to a quiet state with everything done |
| ThreadPool.RunsOnShortly | VdesService/thread_pool.cpp:40-60 | no way of running on by itself has more steps than remain, and none changes what was accepted |
| ThreadPool.StuckMeansDone | VdesService/thread_pool.cpp:40-60 | every continuation by itself that can go no further has everything done |
| ThreadPool.JoinedMeansDone | VdesService/thread_pool.cpp:20-29 | after all workers left, every accepted task ran exactly once |
| ThreadPool.StoppedAndQuietIsJoined | VdesService/thread_pool.cpp:20-29 | after the stop a quiet pool has only workers that left |
| ShortMessage.UplinkShortAckMachine.Submit | VdesService/uplinkshortackstatemachine.cpp:38-65 | in place: the four refusals, otherwise one message waits for its slot |
| ShortMessage.UplinkShortAckMachine.SetMyMmsi | VdesService/uplinkshortackstatemachine.cpp:30-36 | in place: a new station number drops whatever was pending |
| ShortMessage.UplinkShortAckMachine.OnSlot | VdesService/uplinkshortackstatemachine.cpp:67-79 | in place: transmission two slots early, or the MAC refusal |
| ShortMessage.UplinkShortAckMachine.ParseUplinkAck | VdesService/uplinkshortackstatemachine.cpp:114-139 | in place: success exactly for a confirming answer to this ship, failure exactly for a refusing one after two retries, and another attempt otherwise |
| ShortMessage.UplinkShortAckMachine.OnAckTimeout | VdesService/uplinkshortackstatemachine.cpp:141-152 | in place: failure exactly after two retries, another attempt before that, and never success |
| ShortMessage.TransmitsIff | VdesService/uplinkshortackstatemachine.cpp:67-79 | a transmission happens exactly while waiting, with permission, two slots before the chosen RAC slot |
| ShortMessage.FinishesIff | VdesService/uplinkshortackstatemachine.cpp:114-152 | a report comes exactly when a live message ends other than by a new station number |
| ShortMessage.StepOrderly | VdesService/uplinkshortackstatemachine.cpp:30-152 | transmissions are retries plus the one under way, at most three; accepted = reported + cancelled + live |
| ShortMessage.AlwaysOrderly | VdesService/uplinkshortackstatemachine.cpp:30-178 | the same over every run |
| ShortMessage.ShortRoundTrip | VdesService/uplinkshortackstatemachine.cpp:95-112 | the satellite reads sender, addressee and data of a short message as they were packed |
| ShortMessage.TransmissionsRead | VdesService/uplinkshortackstatemachine.cpp:38-112 | in every run what the satellite reads of a transmission is the message accepted last, from this ship |
| ShortMessage.ReplyConfirms | SatelliteSim/simulator.cpp:695-737 | the answer of the satellite ends the wait with success for the sender and nobody else |
| ShortReports.AcceptedIff | VdesService/uplinkshortackstatemachine.cpp:38-65 | a submission is accepted exactly in the idle state, for link 20, with a slot of 630-808, 1350-1528 or 2070-2248 that has not passed |
| ShortReports.TransmittedIff | VdesService/uplinkshortackstatemachine.cpp:67-112 | over every run a transmission leaves exactly two slots before the slot of the submission accepted last, while it waits and the latest MAC frame counted fewer than three messages, and its ten bytes carry that message under the number set last |
| ShortReports.SuccessIff | VdesService/uplinkshortackstatemachine.cpp:114-127 | over every run success is reported exactly when the message is out and a packet of at least nine bytes of type 34 to this ship has a zero in its ninth |
| ShortReports.FailureIff | VdesService/uplinkshortackstatemachine.cpp:128-152 | over every run failure is reported exactly when it is out for the third time and the timer fires or such a packet has something else there |
| ShortReports.EarlierFailureWaits | VdesService/uplinkshortackstatemachine.cpp:128-152 | a first or second failure reports nothing and puts the same message back to wait for the same slot |
| ShortReports.PausesAfterFailure | VdesService/uplinkshortackstatemachine.cpp:154-172 | after a failure every submission is refused, whatever happens, until the pause ends or the number changes; then submissions are accepted as at the start |
| ShortReports.RunTells | VdesService/uplinkshortackstatemachine.cpp:30-93 | over every run the number is the one set last, and permission is that of the latest MAC frame |
| ShortReports.ReplyOnAir | SatelliteSim/simulator.cpp:716-737 | the answer to a short message, byte by byte |
| Downlink.NumberReadBackIff | SatelliteSim/downlinkmanager.h:14-22 | the gateway reads the fragment number right exactly when its two bytes are equal |
| Downlink.GatewayReadsReversed | VdesService/globallistener.cpp:203-215 | the listener of the gateway reads every number of a downlink header back to front |
| Downlink.MissingFrom | SatelliteSim/downlinkmanager.cpp:235-247 | the lowest fragment the mask leaves open |
| Downlink.ReactSafe | SatelliteSim/downlinkmanager.cpp:24-105 | every event keeps channels distinct, taken and within six, and counts the leaked ones |
| Downlink.ChannelsAlwaysSafe | SatelliteSim/downlinkmanager.cpp:24-294 | over every run live sessions hold distinct taken channels, and leaked channels are as many as refused messages |
| Downlink.OccupiedIsLiveIff | SatelliteSim/simulator.cpp:477-490 | the taken channels are exactly those of live sessions in exactly the runs without a refused message |
| Downlink.SixInAll | SatelliteSim/downlinkmanager.cpp:24-36 | sessions and refusals are at most six together, and after six refusals nothing is sent again |
| DownlinkRuns.LogTellsState | SatelliteSim/downlinkmanager.cpp:148-294 | over every run each live session transmitted once more than it retried, four times at most, and each session ends once |
| DownlinkRuns.ResendIsLowestMissing | SatelliteSim/downlinkmanager.cpp:232-247 | a resend after an acknowledgement is the lowest fragment not confirmed |
| DownlinkRuns.CompletionNeedsAll | SatelliteSim/downlinkmanager.cpp:223-231 | with an honest receiver completion means all fragments were transmitted, hence at most four |
| DownlinkRuns.CanCompleteIff | SatelliteSim/downlinkmanager.cpp:192-273 | a message of up to 30 fragments can be completed exactly when it has at most 400 bytes |
| DownlinkRuns.OldAckCompletesIff | SatelliteSim/downlinkmanager.cpp:205-231 | any acknowledgement that truly completed a message completes, in any run, any message to the ship of up to 30 fragments exactly when that has no more fragments than the one before |
| DownlinkRuns.OldAckCompletesNextIff | SatelliteSim/downlinkmanager.cpp:205-231 | in particular the next message, right after the first was completed and with only its first fragment sent |
| DownlinkRuns.CompleteFirst | SatelliteSim/downlinkmanager.cpp:192-231 | for every message of up to four fragments there is a run and an honest acknowledgement that completes it |
| DownlinkRuns.ChunksInARow | SatelliteSim/simulator.cpp:67-80 | chunks handed over one after the other, nothing in between: one session, and a channel lost for each of the others |
| DownlinkRuns.FileUsesUpChannels | SatelliteSim/filetransferhandler.cpp:109-143 | a file of six chunks or more handed over without a pause blocks the downlink for every ship, and afterwards, whatever happens, there is never more than one session at a time |
| DownlinkOutcomes.TransmitsWhatWasSent | SatelliteSim/downlinkmanager.cpp:148-190 | over every run whatever is transmitted is a fragment, byte for byte, of the message that opened the session of the ship, on physical channel 10 plus that of the session, two slots ahead |
| DownlinkOutcomes.PacketOnAir | SatelliteSim/downlinkmanager.cpp:107-146 | type 30 for the first, 32 for the last and 31 for other fragments; size, ship and number low byte first; and bytes 100 n to 100 n + 99 of the message |
| DownlinkOutcomes.PayloadsAreTheMessage | SatelliteSim/downlinkmanager.cpp:113-118 | the payloads of one packet of each number, in order, make up the message |
| DownlinkOutcomes.SessionIsWhatWasSent | SatelliteSim/downlinkmanager.cpp:46-105 | a live session carries the message of the input that opened it, on the lowest channel that was free then |
| DownlinkOutcomes.LiveSince | SatelliteSim/downlinkmanager.cpp:275-294 | there was no session before that input and one ever since |
| DownlinkOutcomes.TransmittedIff | SatelliteSim/downlinkmanager.cpp:192-273 | over every run a fragment is transmitted exactly when a message is accepted (its first), when within four attempts the timer fires (the last one sent), or when an acknowledgement leaves fragments open (the lowest of them) |
| DownlinkOutcomes.CompletedIff | SatelliteSim/downlinkmanager.cpp:192-231 | over every run a message is reported as complete exactly when an acknowledgement for its ship has the bits of all its fragments set, by place in the three mask bytes |
| DownlinkOutcomes.FailedIff | SatelliteSim/downlinkmanager.cpp:232-273 | over every run it is reported as failed exactly when after four transmissions its timer fires or an acknowledgement leaves a fragment open |
| DownlinkOutcomes.RefusedIff | SatelliteSim/simulator.cpp:477-490 | a message is refused exactly when a channel is free and its ship has a session or it is empty; without a free channel that is reported instead |
| DownlinkManager.DownlinkManager.AllocateDcChannel | SatelliteSim/downlinkmanager.cpp:24-36 | in place: the least free channel is taken, or none |
| DownlinkManager.DownlinkManager.BuildFragmentPacket | SatelliteSim/downlinkmanager.cpp:107-146 | in place: the packet whose bytes DownlinkOutcomes.PacketOnAir gives |
| DownlinkManager.DownlinkManager.SendDownlinkMessage | SatelliteSim/downlinkmanager.cpp:46-105 | in place: three refusals, otherwise a session and its first fragment |
| DownlinkManager.DownlinkManager.SendDownlinkToShip | SatelliteSim/simulator.cpp:477-490 | in place: a channel is taken before the message may be refused |
| DownlinkManager.DownlinkManager.HandleDownlinkAck | SatelliteSim/downlinkmanager.cpp:192-249 | in place: completion, retry of the lowest missing fragment, or failure |
| DownlinkManager.DownlinkManager.FirstMissing | SatelliteSim/downlinkmanager.cpp:235-247 | the loop finds the lowest fragment the mask leaves open |
| DownlinkManager.DownlinkManager.OnSendTimeout | SatelliteSim/downlinkmanager.cpp:251-273 | in place: retry of the current fragment, or failure |

## Left out

- Sockets, Qt signals, real timers and threads, logging, databases, MD5, user interface, media player, ZooKeeper: not part of this model.
- Protobuf: any predicate on byte strings stands for it in TcpFraming.
- Timers: they may fire at any time in their state; only the allocation delay is computed.  Restarted or stopped timers are therefore covered.
- UplinkMachine.UplinkMachine.SendNextFragment: the source reads the front of the list before testing whether there is one; here the test comes first.
- UplinkReceiver.Receiver.HandleFragmentPacket: the source reads the received data after removing the session that holds it; here it is read before.
- UplinkMachine.UplinkMachine.SplitMessage: message sizes are not cut to a 32-bit int, so messages of 2 GiB and more are not covered.
- Uplink sender fields without effect: the abnormal state, the link id change and the uplink quality, which no code sets, and the configuration values that are copied and never read; the setter of the own station number has no caller.
- UplinkShip.SessionsNeverCollide: speaks of different channels; when the satellite gives two sessions the same one is said by UplinkChannels.AlwaysExclusiveIff.
- UplinkTakeUps.OldTakeUpIff: speaks of runs in which every earlier id was settled; what is in flight or held under an id may otherwise come from several messages, and then UplinkTakeUps.TakeUpMisleadsIff holds, without a closed form.
- UplinkFiles.FileArrivesIff: messages of more than 65536 fragments, whose numbers wrap around to 0, are left out.
- Retransmission of lost uplink fragments as progress: sent fragments are discarded, so there is none to prove.
- UplinkSystem.SuccessImpliesDelivery: one ship and one satellite; other ships appear as arbitrary foreign traffic.
- Downlink.AllConfirmed: above 30 fragments the source shifts past its int, and a parameter stands for the outcome; the claims about channels and retries cover it, those about completion do not.
- Downlink session fields that are never read: the next fragment, the waiting flag and the completed flag.
- The downlink receiver on the ship, broadcasts, paging, short messages without acknowledgement and the downlink short messages: they add easier variants of what is here.
- Segments.Schedule.SlotResize: the table of ASC interrupt slots, fixed offsets into segments 1, 11 and 21, is not filled in.
- The frame from satellite to gateway: its receiver does not check it.
- FileReassembly.FileReceiver.Receive: calls are taken one at a time, although the source runs them on several threads; transfer records, progress and the renaming of files are not modelled.
- ThreadPool.StepConserves: exceptions thrown by tasks, which the worker loop swallows, and the counter of active threads are not modelled.
- ShortMessage.UplinkShortAckMachine.OnSlot: the other configuration fields of that machine, which nothing sets.
