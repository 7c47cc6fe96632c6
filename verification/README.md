# Verified models of the IPv6 mobility simulator's protocol logic

This project models, in Dafny, the stateful and arithmetic core of an OMNeT++ simulation
package for mobile IPv6 (VoIP, TCP and constant-rate applications, queues, mobility, and the
scripts around it), and proves what that code is meant to guarantee. `dafny verify
dfyconfig.toml` checks everything.

Simulation time, delays and averages are `real`. Code that updates fields is a class whose
methods are proved to make exactly the steps of a transition system; the theorems are about
all runs of that system. Code that computes is functions and lemmas.

- **VoIP receiver** (`Frames`, `JitterBuffer`, `SequenceTracking`, `LossRuns`, `EModel`,
  `RatingChecks`, `LossRating`, `VoipRun`, `VoipSafety`, `VoipHistory`, `VoipTheorems`, `VoipBalance`,
  `GapTracking`, `PlayoutDelay`, `VoipWitnesses`, `VoipReceiver`): arrivals, playouts and ratings in any order that the
  simulation kernel allows, driven by one re-armed timer. Events of one time come in the order in
  which they were inserted, so a packet does not overtake a timer that was set earlier for its
  time. The RTP base class is part of the model as far as sequence numbers go, because the loss
  counts start there. The class `VoipReceiver` has the fields of the source and refines `VoipRun`.
- **P.59 conversation** (`Conversation`, `TalkModel`): the four talk states with their timers and
  pause totals.
- **Timers and expiry list** (`Timers`, `Expiry`, `ExpiryList`): many entries, one heap, one timer.
- **Server** (`ServerClose`, `TcpServer`): replies and closes sent at once or scheduled.
- **SWIG runtime type tables** (`CastLists`, `TypeNames`, `TypeModules`): a doubly linked
  move-to-front list on the heap, names compared up to spaces, and a binary search in each module of
  a circular list.
- **Statistics, walks, prefixes** (`PooledStatistics`, `Waypoints`, `HexDigits`, `QuadForms`,
  `Netmasks`).
- **Queues, script, streams, cursor** (`SingleServerQueue`, `PassiveQueue`, `SendScript`,
  `StreamAccounting`, `ListCursor`).

## What the proofs found

Where code and intention differ the model follows the code, and a lemma states exactly when
they agree.

- The assertion that an overwritten frame still has time left (RTPVoip.cc:570) holds in every run
  whose delivered frames carry different stamps. It fails exactly when a full buffer is found
  whose first frame is due at this instant, which takes a copy of a frame just played; a run with
  enough duplicates of a packet gets there.
- A rating clears the list of loss events but not the flag `discarded`, so the next loss reads
  the last element of an empty list exactly when the last frame before the rating was lost too.
- A reordered frame that arrives once more while it is remembered is processed through the null
  pointer that the duplicate check leaves.
- The two cross-checks of a rating depend on the sum of the drifts of the interval's events, that is,
  on received + lost - expected. Starting above sequence number 0, a wrap over a gap, a duplicate of
  the latest packet, a straggler from an earlier interval, and a rating at sequence number 0 each
  contribute. A sum of zero passes both. Any other sum is reported exactly if it exceeds the relative
  tolerance: always by the first check, as long as a packet was expected and all counts are below a
  million; but the second check can miss one packet in 1500.
- An interval with losses is rated as if there had been none exactly when the losses are as many as
  the packets expected, which can happen although a frame was received; and the running mean of
  the delay falls short of the delays.
- The two copies of the rating formula differ exactly where one of them rounds BurstR.
- Erasing the last entry of the expiry list reads the front of an empty container.
- `quadForm` calls a method on nil for every digit string without a group of four zeros, and
  `createNetmask` has recorded the pair by then.
- Text behind a command's semicolon is silently dropped exactly when the next thing in it is another
  semicolon.
- A mobile node's walk ends exactly if all displacements between its waypoints are whole numbers.
- The sink's loss count is the number of missing fragments exactly if no fragment arrived twice and
  no earlier arrival had a higher sequence number than the last one.
- Type names are compared up to spaces except at their ends: a space at the end of one name makes it
  different, and with spaces at the end of two names that are equal otherwise, the one looked up and
  the last of the list, the comparison runs past their ends.
- The move-to-front lists give fixed answers even when names are repeated.

## Model

| member | source | states |
|---|---|---|
| Frames.SortIsUnique | Applications/RTPApp/RTPVoip.cc:596 | sorting the buffer has one possible result, the sorted arrangement of the same frames, whatever algorithm is used |
| JitterBuffer.RebaseOnlyWhenIdle | Applications/RTPApp/RTPVoip.cc:495-527 | from every valid buffer an arrival begins a talkspurt iff the buffer is empty; while the timer is pending network delay and timer are left alone |
| JitterBuffer.ReceiveKeepsValid | Applications/RTPApp/RTPVoip.cc:489-608 | admitting, discarding or overwriting keeps capacity, sorting, timer pending iff non-empty, and the timer not later than any buffered playout time |
| JitterBuffer.PlayOutKeepsValid | Applications/RTPApp/RTPVoip.cc:674-710 | so does a playout with its re-armed timer |
| VoipTheorems.PlayoutIsPunctualAndOrdered | Applications/RTPApp/RTPVoip.cc:489-710 | over every run no frame plays later than the buffer delay after the opener of its talkspurt arrived plus what it was sent after the opener; if no packet finds the buffer full each plays exactly then; and timestamps never decrease within a talkspurt |
| VoipTheorems.TimerGuardsBuffer | Applications/RTPApp/RTPVoip.cc:495-527 | over every run the timer is pending iff the buffer is non-empty, never in the past, within the buffer delay of when it was set, and never later than a buffered frame; frames are in the order of stamp and number |
| VoipTheorems.NetworkDelayFixedInTalkspurt | Applications/RTPApp/RTPVoip.cc:495-520 | from every reachable state an event changes the network delay or begins a talkspurt iff it is a packet that reaches an empty buffer: its own delay becomes the network delay and the timer is set to the buffer delay from now |
| VoipTheorems.ArrivalDecides | Applications/RTPApp/RTPVoip.cc:541-593 | from every reachable state, which arrival is discarded, which overwrites the first frame and which is admitted, by the source's guards, and what the buffer holds then |
| VoipTheorems.PlayoutTakesFirst | Applications/RTPApp/RTPVoip.cc:674-710 | from every reachable state a playout takes the first frame and arms the timer for the playout time of the next |
| VoipTheorems.EveryFrameAccountedFor | Applications/RTPApp/RTPVoip.cc:541-593 | the frames delivered are those of the packets that pass the sequence numbers; whatever test is applied, delivered = played + buffered + discarded, through overwriting; the discard list has the discarded numbers; the received counters of all intervals sum to played + buffered |
| VoipTheorems.LossEventsAreRuns | Applications/RTPApp/RTPVoip.cc:553-592 | over every run the list of loss events is the list of lengths of the maximal runs of losses since the last rating, the history being told from the events and the source's guards |
| VoipTheorems.RatingTakesTheCounts | Applications/RTPApp/RTPVoip.cc:807-879 | from every reachable state a rating takes the received frames, one event for each run of lost frames and for each gap, the advance of the extended number, and the mean; all start anew except that a loss stays noted |
| VoipTheorems.FaultsExactly | Applications/RTPApp/RTPVoip.cc:541-589 | for every reachable state and legal event, exactly which event leaves the defined behaviour and how, by the guards on the state before it; playout and rating never do |
| VoipTheorems.OverwrittenHasTimeLeft | Applications/RTPApp/RTPVoip.cc:564-570 | the assertion at 570 holds in every run in which no two delivered frames carry the same stamp |
| VoipTheorems.DueMeansTwin | Applications/RTPApp/RTPVoip.cc:564-570 | where it fails the timer was set at this very instant, by the playout of a frame with the stamp of the one to be overwritten |
| VoipWitnesses.OverflowAtDeadlineHappens | Applications/RTPApp/RTPVoip.cc:564-570 | a run of one sender's packets, sent a second before and duplicated, three of which are played at the instant at which the assertion at 570 fails |
| VoipWitnesses.EmptyEventsHappens | Applications/RTPApp/RTPVoip.cc:554-559 | a run of one sender's packets, with two stragglers and a rating between them, that reads the last event of an empty list |
| VoipWitnesses.DuplicateFrameHappens | Applications/RTPApp/RTPVoip.cc:726-748 | a run in which an overtaken packet arrives twice and is processed through the null pointer |
| VoipWitnesses.SenderRestartedHappens | Transport/RTP/RTP.cc:222-238 | a run in which a loss of 25 seconds is taken for a restarted sender, which fails an assertion |
| LossRuns.RunsGrow | Applications/RTPApp/RTPVoip.cc:553-592 | one more mark extends the last run if that is open, starts a new one or leaves the runs alone |
| LossRuns.LossAgrees | Applications/RTPApp/RTPVoip.cc:580-585 | counting a loss by flag and list keeps the list equal to the runs since the last rating |
| LossRuns.UndefinedIff | Applications/RTPApp/RTPVoip.cc:554-559 | counting a loss is undefined iff the history ends in a loss followed by one or more ratings |
| SequenceTracking.TrackShifts | Transport/RTP/RTP.cc:196-248 | delivered frames plus listed gaps follow the extended sequence number, up to an explicit drift that is zero for frames in order and for listed stragglers |
| SequenceTracking.TrackNearest | Transport/RTP/RTP.cc:196-248 | in numbers that do not wrap: up to 3000 ahead of the highest becomes the highest, up to 100 behind is a straggler and delivered unless remembered, anything else is not delivered |
| SequenceTracking.BetweenNumbers | Applications/RTPApp/RTPVoip.cc:612-624 | a gap lists exactly the numbers strictly between, in ascending order |
| GapTracking.ListedForEveryGap | Applications/RTPApp/RTPVoip.cc:612-624 | over every run, also when numbers wrap around, a number is listed once for each gap since the last rating that contains it, less the stragglers that took it off |
| GapTracking.StragglerKeepsBalanceIff | Applications/RTPApp/RTPVoip.cc:753-767 | a reordered packet keeps received + lost - expected iff its number is still missing since the last rating, told from the packets |
| GapTracking.LastReorderedRemembered | Applications/RTPApp/RTPVoip.cc:726-782 | over every run the ring holds the last 50 reordered frames |
| GapTracking.RestartSeenIff | Transport/RTP/RTP.cc:222-238 | a packet makes the sender look restarted iff it is far ahead and its number follows that of the last packet before it that was |
| SequenceTracking.UnlistCount | Applications/RTPApp/RTPVoip.cc:753-767 | a reordered frame takes one off the number of missing packets iff its number was listed |
| SequenceTracking.UnlistKeepsNonEmpty | Applications/RTPApp/RTPVoip.cc:763-764 | a range that empties goes, so that no gap counts as an event of length 0 |
| SequenceTracking.UnlistAt | Applications/RTPApp/RTPVoip.cc:753-767 | the search through the ranges removes the number from the first one that lists it and leaves the others alone |
| VoipBalance.SurplusMoves | Applications/RTPApp/RTPVoip.cc:807-833 | how far each event moves received + lost - expected, from any state |
| VoipBalance.BalanceKeptIff | Applications/RTPApp/RTPVoip.cc:807-833 | a balanced interval stays balanced iff the event satisfies a condition on its sequence number, or on the extended number of a rating |
| VoipBalance.ChecksSucceedIff | Applications/RTPApp/RTPVoip.cc:842-856 | for every run and every interval of it, received + lost - expected is the starting offset plus the drifts of the interval's events, and each run-time check passes iff that sum is slight by its own tolerance or nothing was expected; zero always passes |
| VoipBalance.CrossChecksSucceed | Applications/RTPApp/RTPVoip.cc:842-856 | in particular both pass, and compare equal quantities, for all intervals of a run whose every event keeps the balance |
| VoipWitnesses.ChecksFail | Applications/RTPApp/RTPVoip.cc:842-856 | a run, with the first packet lost, whose rating fails both checks by more than the tolerance |
| VoipWitnesses.DriftsCancel | Applications/RTPApp/RTPVoip.cc:807-847 | a run with two unbalanced events that cancel |
| VoipBalance.FinishRatesTheTotals | Applications/RTPApp/RTPVoip.cc:244-253 | the totals rated at the end are the sums over the intervals; the corrected expected count is their sum iff there is an interval and none but the last was rated at number 0 |
| VoipBalance.FinalTotalsAddUp | Applications/RTPApp/RTPVoip.cc:244-250 | in a run whose every event keeps the balance, received + lost over all intervals is the count that the final loss rate divides by |
| PlayoutDelay.RunPlays | Applications/RTPApp/RTPVoip.cc:884-896 | over every run without a rating the mean is the blend of the total delays of exactly the frames played |
| PlayoutDelay.BlendIsWeighted | Applications/RTPApp/RTPVoip.cc:895 | the blend of n delays weighs the last by 1/2, the one before by 1/4, and so on, and the mean before them by 1/2^n |
| PlayoutDelay.MeanUnderstatesDelay | Applications/RTPApp/RTPVoip.cc:872-896 | in every run since a rating, with delays between two bounds, the mean lies between these bounds times 1 - 1/2^n, and below the greatest |
| RatingChecks.LossRatesMatchIff | Applications/RTPApp/RTPVoip.cc:842-847 | the first run-time check finds no mismatch iff received + lost - expected is within the tolerance, relative to the losses counted or the packets not received |
| RatingChecks.SlightByRatesSmall | Applications/RTPApp/RTPVoip.cc:844 | counts that add up are within that tolerance; below a million only they are |
| RatingChecks.BurstRsMatchIff | Applications/RTPApp/RTPVoip.cc:849-856 | the second one finds no mismatch iff that discrepancy times the losses is within the tolerance, relative to the cross products of the two forms of BurstR, also with nothing received |
| RatingChecks.SlightByBurstsSmall | Applications/RTPApp/RTPVoip.cc:853 | counts that add up are within that tolerance; with cross products below a million only they are |
| RatingChecks.ToleranceHides | Applications/RTPApp/RTPVoip.cc:853 | one packet too few or too many in 1500 passes the second check and not the first |
| EModel.ImpairmentInClosedForm | Applications/RTPApp/RTPVoip.cc:190-203 | for counts that add up the impairment depends only on the loss rate and on loss events per received packet |
| EModel.BurstierIsWorse | Applications/RTPApp/RTPVoip.cc:171-206 | with the same losses in fewer, longer events, and no shorter delay, the rating is strictly lower |
| LossRating.RatingWithoutLoss | Applications/RTPApp/RTPVoip.cc:171-206 | without losses both ratings are 93.2 - Ie at no delay, fall by 24 per second up to 177.3 ms and by 134 beyond, without a jump |
| LossRating.RfactorInClosedForm | Applications/RTPApp/RTPVoip.cc:183-206 | l lost of x expected packets in e events cost (95 - Ie) 100 l (x - l) / (x (100 e + Bpl (x - l))), and there is no finite rating where that divides by zero |
| LossRating.IntervalRatingInClosedForm | Applications/RTPApp/RTPVoip.cc:842-867 | the interval's rating is the same, unless BurstR is within a millionth of one; then the losses cost (95 - Ie) 100 l / (100 l + Bpl x) |
| LossRating.RatedAsNoLossIff | Applications/RTPApp/RTPVoip.cc:190-203 | losses leave either rating as it is without them iff they are as many as the packets expected, whatever was received |
| VoipWitnesses.LossIgnoredThoughReceived | Applications/RTPApp/RTPVoip.cc:564-592 | a run that rates such an interval although one frame was received in it |
| VoipWitnesses.TotalLossHappens | Applications/RTPApp/RTPVoip.cc:564-588 | a run that rates such an interval: its one expected packet overwrote a frame |
| LossRating.CopiesAgreeIff | Applications/RTPApp/RTPVoip.cc:842-867 | the two copies of the formula differ iff there are losses and BurstR is rounded to one without being one |
| VoipReceivers.VoipReceiver.constructor | Applications/RTPApp/RTPVoip.cc:120-129 | a new receiver whose buffer passes the assertion at 129 is the start of every run and satisfies the invariant |
| JitterBuffer.UsableIff | Applications/RTPApp/RTPVoip.cc:120-129 | the capacity is positive, as asserted, iff the buffer delay covers one packetisation interval |
| JitterBuffer.CapacityIs | Applications/RTPApp/RTPVoip.cc:120-127 | the capacity is twice the number of whole packetisation intervals in the buffer delay |
| VoipReceivers.VoipReceiver.HandleDroppedPackets | Applications/RTPApp/RTPVoip.cc:612-624 | the numbers strictly between the old and the new highest are listed as one range |
| VoipReceivers.VoipReceiver.Unrecord | Applications/RTPApp/RTPVoip.cc:753-767 | the number leaves the first range that lists it, and no other |
| VoipReceivers.VoipReceiver.HandleMisorderedPackets | Applications/RTPApp/RTPVoip.cc:723-782 | duplicates are those remembered in a ring of 50; others are unlisted and remembered |
| VoipReceivers.VoipReceiver.UpdateSeq | Transport/RTP/RTP.cc:196-248 | in place, the four outcomes of sequence tracking |
| VoipReceivers.VoipReceiver.ProcessRtp | Transport/RTP/RTP.cc:255-284 | a packet makes exactly the step of the state machine and keeps the invariant, or reports the fault |
| VoipReceivers.VoipReceiver.CheckTalkspurt | Applications/RTPApp/RTPVoip.cc:495-527 | in place, network delay and timer as of the first packet of a talkspurt |
| VoipReceivers.VoipReceiver.PlaceFrame | Applications/RTPApp/RTPVoip.cc:541-593 | discard, overwrite or admit: buffer, discards and counters after each, and the fault if any |
| VoipReceivers.VoipReceiver.OverwriteEarliest | Applications/RTPApp/RTPVoip.cc:564-588 | the earliest frame is the one overwritten and listed as discarded |
| VoipReceivers.VoipReceiver.CountLoss | Applications/RTPApp/RTPVoip.cc:580-585 | the last loss event grows or a new one starts, undefined on an empty list |
| VoipReceivers.VoipReceiver.ProcessRtpData | Applications/RTPApp/RTPVoip.cc:489-603 | the whole handler as one step of the buffer and the counters |
| VoipReceivers.VoipReceiver.PlayoutBufferedPacket | Applications/RTPApp/RTPVoip.cc:674-710 | the callback makes the playout step and keeps the invariant |
| VoipReceivers.VoipReceiver.RateInterval | Applications/RTPApp/RTPVoip.cc:807-879 | the rating of the interval's counts with every gap as a loss event, and the counters cleared |
| VoipReceivers.VoipReceiver.CalculateRFactor | Applications/RTPApp/RTPVoip.cc:785-881 | the rating step of the state machine, with its result |
| VoipReceivers.Accumulate | Applications/RTPApp/RTPVoip.cc:840 | the sum of a list of counts |
| VoipReceivers.EraseFirst | Applications/RTPApp/RTPVoip.cc:759-762 | finds a number iff it is listed and removes its first occurrence only |
| Conversation.SendTimersFollowState | Applications/RTPApp/RTPVoip.cc:272-391 | through any interleaving of transitions and sends, a party's send timer runs iff the state lets it talk, so that it sends only then |
| Conversation.CallerStarts | Applications/RTPApp/RTPVoip.cc:272-303 | nobody sends before the first transition, which starts the caller's send timer only |
| Conversation.DrawDecidesTurn | Applications/RTPApp/RTPVoip.cc:272-391 | through any interleaving, the draw of one transition decides who sends after the next: after one speaker nobody or both, after both or neither the caller or the callee |
| Conversation.TurnsNeverTouch | Applications/RTPApp/RTPVoip.cc:292-297 | TS comes first, and the states alternate between {TS, ST} and {DT, MS} |
| Conversation.PausesAreSilentBlocks | Applications/RTPApp/RTPVoip.cc:285-289 | collected + pending pause = total time silent; each sample is one maximal silent block, the pending pause the open one |
| Conversation.TimerCountsDurations | Applications/RTPApp/RTPVoip.cc:298 | the callback is due after exactly the durations drawn so far |
| TalkModels.TalkModel.P59TS | Applications/RTPApp/RTPVoip.cc:272-303 | in place, the entry of TS on both parties' timers and pauses |
| TalkModels.TalkModel.P59DT | Applications/RTPApp/RTPVoip.cc:305-335 | the same for DT |
| TalkModels.TalkModel.P59ST | Applications/RTPApp/RTPVoip.cc:337-365 | the same for ST |
| TalkModels.TalkModel.P59MS | Applications/RTPApp/RTPVoip.cc:367-391 | the same for MS |
| TalkModels.TalkModel.SendDue | Transport/RTP/RTP.cc:652 | a send re-arms the party's timer and changes nothing else in the conversation |
| TalkModels.TalkModel.Transition | Applications/RTPApp/RTPVoip.cc:291-298 | the callback calls whichever handler is bound, so that a conversation is exactly a run of the transition function |
| Timers.TimerMessage.Reschedule | Util/cTimerMessage.h:91-97 | one pending arrival whatever was pending before |
| Timers.TimerMessage.RescheduleDelay | Util/cTimerMessage.h:100-104 | the same at an interval from now |
| Timers.TimerMessage.Cancel | Util/cTimerMessage.h:106-110 | nothing pending, the stamps kept |
| Timers.ReadingsAddUp | Util/cTimerMessage.h:113-141 | elapsed and remaining time are not negative, and add up to the interval iff the timer was not set at time 0, where it reads as never set, or the interval is empty |
| Timers.ReadingsRunDown | Util/cTimerMessage.h:113-141 | nothing remains when a timer is due and nothing has elapsed when it is armed; in between one falls as the other rises |
| Expiry.EveryEntryOnceAtItsTime | Util/ExpiryEntryListSignal.h:161-311 | over every run the timer is armed for the least expiry; callbacks come at their own expiry, in order; every entry added is live, removed or called back, once |
| Expiry.LiveFollowsEvents | Util/ExpiryEntryListSignal.h:190-311 | over every run the live entries are those that the events and the callbacks leave: an update leaves its entry as the only one of its key, a removal or expiry takes one entry |
| Expiry.DrainsInOrder | Util/ExpiryEntryListSignal.h:292-311 | left alone, the list calls back exactly its entries and ends empty with an idle timer |
| ExpiryLists.FrontIsLeast | Util/ExpiryEntryListSignal.h:277 | the front of a heap expires first |
| ExpiryLists.PopHeap | Util/ExpiryEntryListSignal.h:298 | the old front goes last and the rest is a heap of the other entries |
| ExpiryLists.ExpiryEntryList.SortAndReset | Util/ExpiryEntryListSignal.h:161-167 | a heap of the same entries with the timer armed for its front |
| ExpiryLists.ExpiryEntryList.PushBack | Util/ExpiryEntryListSignal.h:212-216 | a step that adds one entry |
| ExpiryLists.ExpiryEntryList.AddOrUpdate | Util/ExpiryEntryListSignal.h:195-200 | a step that replaces all entries with the same key |
| ExpiryLists.ExpiryEntryList.Erase | Util/ExpiryEntryListSignal.h:219-227 | defined iff it does not empty the list, and then a step that removes one entry |
| ExpiryLists.ExpiryEntryList.Reschedule | Util/ExpiryEntryListSignal.h:272-283 | the timer armed for the front, whatever was pending |
| ExpiryLists.ExpiryEntryList.RemoveExpiredEntry | Util/ExpiryEntryListSignal.h:292-311 | a step that calls back a least entry and re-arms |
| ServerClose.CloseNeverOvertakesReply | Applications/TCPApp/TCPGenericSrvApp.cc:65-120 | over every run every reply decided before a CLOSE has gone out before it, ties and immediate sends included |
| ServerClose.EveryDecisionSentOnceInOrder | Applications/TCPApp/TCPGenericSrvApp.cc:42-57 | sends are in due order, each decision is sent once or still pending, and the counters match what was sent |
| ServerClose.DecisionsFollowEvents | Applications/TCPApp/TCPGenericSrvApp.cc:65-120 | the decisions of a run are, event by event, one reply for each request that expects one and one CLOSE for each closing request or closed peer, with connection, length and due time as computed from the events alone; the counters of what was received are sums over the requests |
| ServerClose.SentAtOnceIff | Applications/TCPApp/TCPGenericSrvApp.cc:42-48 | a decision goes out with the event that made it iff it is due then |
| TcpServers.TcpGenericServer.Send | Applications/TCPApp/TCPGenericSrvApp.cc:50-57 | sends and counts one message |
| TcpServers.TcpGenericServer.SendOrScheduleMessage | Applications/TCPApp/TCPGenericSrvApp.cc:42-48 | at once without delay, scheduled otherwise |
| TcpServers.TcpGenericServer.HandleRequest | Applications/TCPApp/TCPGenericSrvApp.cc:73-121 | counts, largest delay, reply and close of a request |
| TcpServers.TcpGenericServer.HandleMessage | Applications/TCPApp/TCPGenericSrvApp.cc:59-134 | every message makes exactly the step of the state machine |
| CastLists.TypeInfo.TypeCheck | Etc/Scalars/datasorter_wrap.cc:498-525 | on the heap, returns the first cast of that name, or null iff there is none, moves it to the top, keeps links and nodes |
| CastLists.TypeInfo.Relink | Etc/Scalars/datasorter_wrap.cc:505-511 | the six pointer updates take one node out and put it first in a well-formed doubly linked list |
| CastLists.LookupKeepsAnswers | Etc/Scalars/datasorter_wrap.cc:498-517 | a lookup changes no later answer, even with repeated names |
| CastLists.HistoryKeepsAnswers | Etc/Scalars/datasorter_wrap.cc:498-517 | nor does any history of lookups, and the nodes stay the same |
| CastLists.AnswersAreAMap | Etc/Scalars/datasorter_wrap.cc:522-525 | any history answers like the map from names to casts |
| CastLists.LookedUpIsOnTop | Etc/Scalars/datasorter_wrap.cc:504-511 | the name just found is found first next time |
| CastLists.OthersKeepTheirOrder | Etc/Scalars/datasorter_wrap.cc:498-517 | the casts before the one found move up by one and all others stay; a lookup that fails changes nothing |
| TypeModules.SearchModule | Etc/Scalars/datasorter_wrap.cc:624-648 | the binary search ends without index underflow and finds a name iff the sorted module holds it |
| TypeModules.RuledOut | Etc/Scalars/datasorter_wrap.cc:632-643 | a comparison excludes one half of the module |
| TypeModules.StrCmpSign | Etc/Scalars/datasorter_wrap.cc:632-643 | the first character in which two names differ decides the comparison, and a name comes after its prefixes |
| TypeModules.MangledTypeQueryModule | Etc/Scalars/datasorter_wrap.cc:618-652 | the loop over the ring ends and finds a name iff a visited module holds it, the whole ring if start = end |
| TypeModules.VisitedUpToEnd | Etc/Scalars/datasorter_wrap.cc:618-652 | the modules visited are those before `end` in the order of the links, or all if start = end |
| TypeNames.TypeNameComp | Etc/Scalars/datasorter_wrap.cc:447-456 | the loop over both names decides equality up to spaces, with the two exceptions for spaces at the end |
| TypeNames.TypeEquiv | Etc/Scalars/datasorter_wrap.cc:462-475 | the loop over a list of names stops at the first that decides |
| TypeNames.EquivalentIff | Etc/Scalars/datasorter_wrap.cc:440-475 | a name is found in a list iff some name of the list is equal to it without its spaces, and neither ends in a space; only for a name that ends in a space can the outcome be undefined |
| TypeNames.UndefinedIff | Etc/Scalars/datasorter_wrap.cc:447-475 | it is undefined iff the name and the last one of the list both end in a space and are equal without spaces |
| TypeModules.TypeQueryModule | Etc/Scalars/datasorter_wrap.cc:663-687 | a mangled name is preferred, else a readable match up to spaces; if all comparisons are defined, as they are for a name not ending in a space, an entry is found iff a visited one matches either way |
| PooledStatistics.CalculateSemSquared | Etc/scripts/ConfTest.rb:188-207 | the script's steps give the combined variance, and its square per total size |
| PooledStatistics.RewriteDeviations | Etc/scripts/ConfTest.rb:193-202 | the loop turns sample deviations into squares with denominator n |
| PooledStatistics.CombinedVarianceIsPopulationVariance | Etc/scripts/ConfTest.rb:188-207 | for any groups described by size, mean and deviation the result is the population variance of all samples |
| PooledStatistics.ConvertedSemIsSampleSem | Etc/scripts/ConfTest.rb:209-221 | the converted standard error squared is the sample variance of all samples divided by their number |
| PooledStatistics.PartitionDoesNotMatter | Etc/scripts/ConfTest.rb:215-221 | two ways to group the same samples, in any order, give the same result |
| Waypoints.MovingCountsDown | Mobility/MobileEntity.cc:103-159 | each call that moves lowers the number of remaining calls by one |
| Waypoints.StepsAreExact | Mobility/MobileEntity.cc:103-159 | the number of calls that move is exactly the sum of Manhattan distances, 2 for coinciding waypoints |
| Waypoints.WaypointsInOrder | Mobility/MobileEntity.cc:108-117 | each waypoint is reached, in order, at its computed call |
| Waypoints.WithinLeg | Mobility/MobileEntity.cc:119-155 | the position after each call of a leg: the coordinate that goes first is walked to its end before the other one moves |
| Waypoints.StepAway | Mobility/MobileEntity.cc:119-155 | from a waypoint to one that coincides with it the first step goes one unit down the second coordinate |
| Waypoints.EndsIffAligned | Mobility/MobileEntity.cc:108-155 | the walk ends iff all displacements are whole |
| Waypoints.MobileEntity.MoveOne | Mobility/MobileEntity.cc:103-159 | in place, one call of the walk |
| HexDigits.FromToHex | Etc/scripts/NedFile.rb:795-797 | hex digits read back as the number |
| HexDigits.HexLength | Etc/scripts/NedFile.rb:830-833 | k digits suffice iff the number is below 16^k |
| HexDigits.PaddedDigit | Etc/scripts/NedFile.rb:812-818 | the digit i places from the right is that of n / 16^i |
| HexDigits.PadWithZero | Etc/scripts/NedFile.rb:812-818 | zeros up to the width, behind or in front |
| QuadForms.InsertDelimiters | Etc/scripts/NedFile.rb:802-804 | in-place insertion puts a colon after every fourth digit |
| QuadForms.QuadForm | Etc/scripts/NedFile.rb:799-808 | the loop and the two substitutions give the specified form, with both failures |
| QuadForms.QuadFormOfGroups | Etc/scripts/NedFile.rb:805-806 | group by group: zeros are dropped in front of digits, and the call fails iff no group is zero |
| QuadForms.PrintedGroup | Etc/scripts/NedFile.rb:805-806 | of a group only zeros in front are left out, all of them but the last of a zero group; the first group keeps them unless it is zero |
| QuadForms.FourGroups | Etc/scripts/NedFile.rb:799-808 | sixteen digits print as their four groups with colons between them, or not at all if no group is 0000 |
| QuadForms.ExpandUndoesQuadForm | Etc/scripts/NedFile.rb:799-808 | padding the printed groups gives back the digits |
| Netmasks.KeyReadsBack | Etc/scripts/NedFile.rb:824-832 | the sixteen digits decode to both node numbers |
| Netmasks.KeyDigits | Etc/scripts/NedFile.rb:824-832 | the sixteen digits one by one: 30f, the source's digits from the lowest, the target's from the highest |
| Netmasks.PrintedReadsBack | Etc/scripts/NedFile.rb:834-839 | a prefix is printed iff some group is zero, stated on the node numbers, and expands to its digits |
| Netmasks.NetmasksDiffer | Etc/scripts/NedFile.rb:820-840 | different pairs have different digits and different printed prefixes |
| Netmasks.UnprintablePair | Etc/scripts/NedFile.rb:806 | the pair (16, 65537) calls a method on nil |
| Netmasks.NedFile.CreateNetmask | Etc/scripts/NedFile.rb:820-840 | exactly when each error is raised; not unique only for a repeated pair |
| SingleServerQueue.DeparturesAreMaxPlus | Base/AbstractQueue.cc:38-69 | over every run departures are FIFO at max(arrival, previous departure) + service; busy iff the event is scheduled; idle implies an empty queue |
| SingleServerQueue.RunFollowsEvents | Base/AbstractQueue.cc:38-69 | the arrivals are those of the events, in order, and one message leaves at each end of a service |
| SingleServerQueue.LeavesIsMaxPlus | Base/AbstractQueue.cc:38-69 | that recursion is the maximum over k of arrival k plus the work of k to n |
| SingleServerQueue.ConstantWork | Base/QueueBase.cc:39-42 | with the constant delay the work of k to n is n-k+1 delays |
| SingleServerQueue.QueueModule.HandleArrival | Base/AbstractQueue.cc:54-68 | served at once when idle, queued otherwise |
| SingleServerQueue.QueueModule.HandleEndService | Base/AbstractQueue.cc:40-53 | the message served leaves and the next one starts, or the server idles |
| PassiveQueue.AccountsBalance | Base/PassiveQueueBase.cc:36-72 | over every run, pending requests imply an empty queue; sent + pending = requests made; sent + dropped + queued = packets that came; packets leave in order |
| PassiveQueue.DropTakesTheChosen | Base/PassiveQueueBase.cc:36-57 | a drop takes the packet the subclass chooses and no other, and only when no request waits |
| PassiveQueue.OutputIgnoresInterleaving | Base/PassiveQueueBase.cc:36-72 | without drops the output is the first min(requests, arrivals) packets for every interleaving |
| PassiveQueue.PassiveQueueModule.HandleMessage | Base/PassiveQueueBase.cc:36-57 | in place, one arrival |
| PassiveQueue.PassiveQueueModule.RequestPacket | Base/PassiveQueueBase.cc:59-72 | in place, one request |
| SendScript.ParseScript | Applications/TCPApp/TCPSessionApp.cc:22-55 | the pointer-advancing loop returns what the grammar says, including the three errors |
| SendScript.ParseUndoesScript | Applications/TCPApp/TCPSessionApp.cc:22-55 | any rendering with decimal byte counts, extra white space, leading zeros and an optional final semicolon parses to the original commands |
| SendScript.NumberOfDecimal | Applications/TCPApp/TCPSessionApp.cc:41 | reading the decimal digits of n, with zeros in front, gives n |
| SendScript.DecimalOfNumber | Applications/TCPApp/TCPSessionApp.cc:41 | every string of digits is the decimal of the number read, with zeros in front |
| SendScript.CharacterClasses | Applications/TCPApp/TCPSessionApp.cc:30-53 | the six white-space characters and the ten digits |
| SendScript.TimeExpectedIf | Applications/TCPApp/TCPSessionApp.cc:30-35 | after any commands, text in place of a time is reported as such |
| SendScript.BytesExpectedIf | Applications/TCPApp/TCPSessionApp.cc:38-40 | so is anything but a digit behind a time |
| SendScript.SeparatorMissingIf | Applications/TCPApp/TCPSessionApp.cc:48-51 | and anything but a semicolon behind a command |
| SendScript.ParseScriptThenRest | Applications/TCPApp/TCPSessionApp.cc:22-55 | behind any rendering of commands the parser goes on with what follows the semicolon |
| SendScript.RestDroppedIff | Applications/TCPApp/TCPSessionApp.cc:30-31 | text behind a command's semicolon is dropped without an error iff its first character that is not white space is a semicolon, or there is none |
| SendScript.EmptyCommandEndsScript | Applications/TCPApp/TCPSessionApp.cc:31 | so a stray semicolon ends the script, whatever commands come before and behind it |
| SendScript.WaitUntil | Applications/TCPApp/TCPSessionApp.cc:70-84 | the later of now and the time waited for |
| SendScript.SendAll | Applications/TCPApp/TCPSessionApp.cc:148-155 | the k-th send is at the maximum of establishment and the script times so far, bytes in order |
| StreamAccounting.BRSource.SendFragment | Applications/BRModel/BRSrcModel.cc:46-61 | one fragment with the next sequence number |
| StreamAccounting.BRSource.FragmentAndSend | Applications/BRModel/BRSrcModel.cc:35-43 | fragment sizes add up to the packet, all full but the last, numbered consecutively |
| StreamAccounting.BRSink.UpdateList | Applications/BRModel/BRSink.cc:71-90 | updates the one entry of the source or makes it, and leaves the others alone; each entry depends on its own source's arrivals only |
| StreamAccounting.CountersAgree | Applications/BRModel/BRSink.cc:95-106 | for any arrivals, received + lost + 1 = expected modulo 2^32, and lost is the last number less the count |
| StreamAccounting.PreviousCountsLate | Applications/BRModel/BRSink.cc:95-106 | the count of late arrivals is the number of arrivals below the expected one, modulo 2^32 |
| StreamAccounting.LostIsMissingIff | Applications/BRModel/BRSink.cc:95-106 | the loss count is the number of missing fragments iff none arrived twice and the last number is the highest |
| StreamAccounting.InOrderLossesCounted | Applications/BRModel/BRSink.cc:95-106 | over a lossy channel that keeps the order the loss count is exact modulo 2^32, also when the numbers wrap around, and before they do nothing counts as late |
| ListCursor.ListWatcher.Read | Util/stlwatch.h:106-124 | through any reads and appends before it, a read at i >= 0 equals indexing, or is out of bounds iff i >= size |

## Left out

- The simulation kernel, gates, statistics objects, display strings, logging, NED parameters and network I/O: only event times, scheduled flags and counters are kept. Events reach the models in any order that respects simulation time and pending timers.
- Floating-point rounding: `real` stands for `double` and `BigDecimal`, so comparisons for equal times are exact. Divisions by zero that yield infinities are spelled out; NaN results are `None`.
- The width of the VoIP counters: they are unbounded, while sequence numbers wrap at 16 bits. The BR sequence and loss counters wrap at 32 bits.
- Random draws and received packets: inputs.
- More than one RTP sender, more than one frame per packet (excluded by an assertion in the source), RTCP, session set-up and the sending half of the VoIP module.
- A jitter buffer of capacity 0 (VoipReceivers.VoipReceiver.constructor): the source's own assertion at RTPVoip.cc:129 excludes it.
- The modules a packet passes without delay before it reaches the application: each of them puts it behind one more playout of the same instant, while the model lets a packet of the instant of a re-arming come before the timer.
- The thirty-second period of ratings: a rating may come at any time, as the last one does when the simulation ends.
- Square roots in the statistics: results are stated for squares, and the two roots of the final conversion are given numbers.
- Relative mode, custom comparators and callbacks that edit the expiry list; entries that expire in the past.
- ExpiryLists.PopHeap: works on sequences with an ordering of its own choice; the library heap algorithms are represented by their contracts (same entries, heap order), and ties are left open.
- TypeModules.TypeQueryModule: promises completeness for modules whose names are sorted and present, and says nothing about readable names when the name looked up contains a bar.
- The pointer-comparing variant of the cast lookup (lines 527-531), which is the same template, and the rest of the SWIG wrapper.
- Negative node numbers and the non-SIMPLE branch of prefix generation, which does not exist.
- SendScript.ParseScript: number scanning by `strtod` is a parameter that never reads past the end; overflow of `atoi` is not modelled.
- SendScript.SendAll: the single send configured by `sendBytes` and the final close are left out; they would come before and after the loop.
- StreamAccounting.BRSource.FragmentAndSend: requires a positive fragment length or an empty packet, because otherwise the source's loop does not end.
- ListCursor.ListWatcher.Read: says nothing about negative positions, which the source does not reject. Watchers of maps repeat the same cursor and are left out.
- Easy members elsewhere: averaging helpers, display handlers, other mobility handlers, ping, UDP and Ethernet traffic, blackboard and notification board.
