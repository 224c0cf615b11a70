# A verified model of discovery and reliability in a DDS/RTPS stack

The repository implements DDS over RTPS. This project models the parts whose
correctness depends on many steps working together, and proves what they
guarantee over every run, interleaving or input:

* **Fragmentation, reassembly and GAPs** (`Payload`, `Fragmentation`, `Reassembly`,
  `NumberSet`, `Gap`, `WriterProxy`, `Reader`, `ReaderHistory`). Samples are cut into fragments and put together
  again from fragments that come in any order. Sets of irrelevant sequence numbers
  are packed into a run and a bitmap and unpacked by the reader's writer proxy, which
  decides with the kind of reader what is handed on.
* **Secure discovery** (`Handshake`, `HandshakeLaws`, `HandshakeRuns`, `HandshakeNetwork`,
  `HandshakeRecovery`, `KeyExchange`, `KeyLaws`, `SecureDiscovery`). One participant's handshake machine, any number of honest
  participants on a network that loses, repeats and reorders, and the exchange of
  keys with its resend cache.
* **The discovery database** (`Topics`, `DiscoveryDb`, `DiscoveryStore`, `EndpointHistory`): participants,
  leases, live and attic endpoints, topics.
* **The status channel** (`StatusChannel`): bounded queue, waker under a mutex and
  signal socket, as steps of concurrent threads.
* **Codecs and QoS** (`Wire`, `ContentFilter`, `Properties`, `ParameterList`, `FixedCodec`,
  `Qos`, `Sedp`, `SedpWriter`, `WireFormat`, `Decoding`), down to the octets and their
  alignment.
* **Timing** (`BackOff`, `Announcing`): the back-off send and the liveliness
  announcements.

Operations that change state in the source are classes or methods with loops, each
proved equal to a function on values; the results about runs are lemmas about those
functions. Clocks, plugin answers, the answers of writers and channels, and the choice
of the next thread are parameters of the events.

Where the code and its own description differ, the model follows the code and a lemma
says exactly when the two agree: `Qos.LivelinessDecidesAsDocumentedIff`,
`Qos.OwnershipDecidesAsDocumentedIff`, `WriterProxies.GapKeepsIff`, `Readers.StepKeepsRecordIff`,
`Readers.AtMostOnceIff`, `Gaps.GapIsExact`, `ContentFilters.SurvivesIff`,
`Properties.ReadsBackIff`,
`ParameterLists.ReadsBackIff`, `Sedp.SameRecordIff`, `Sedp.LocatorReadsBackIff`.

`dafny verify dfyconfig.toml` checks everything.

## Model

| member | source | states |
|---|---|---|
| `Payload.BytesSlice` | src/messages/submessages/elements/serialized_payload.rs:64-84 | a window taken from header and value separately is that window of the whole serialized form, for every pair of bounds |
| `Payload.FromBytesInvertsSerialized` | src/messages/submessages/elements/serialized_payload.rs:86-110 | parsing what was serialized gives the same payload |
| `Fragmentation.OctetHasFragment` | src/messages/submessages/data_frag.rs:97-119 | every octet of a sample lies in a fragment whose number is within the rounded-up total |
| `Fragmentation.FragmentStartsInside` | src/messages/submessages/data_frag.rs:97-119 | every fragment up to the total starts inside the sample |
| `Fragmentation.AssemblyBuffer.constructor` | src/rtps/fragment_assembler.rs:35-63 | a buffer of the sample's size with nothing received |
| `Fragmentation.AssemblyBuffer.InsertFrags` | src/rtps/fragment_assembler.rs:65-140 | the octets and bits of exactly the fragments carried are set in place, all others stay |
| `Fragmentation.AssemblyBuffer.IsComplete` | src/rtps/fragment_assembler.rs:142-145 | true exactly when every fragment's bit is set |
| `Fragmentation.FragmentAssembler.constructor` | src/rtps/fragment_assembler.rs:163-170 | no buffers |
| `Fragmentation.FragmentAssembler.Entry` | src/rtps/fragment_assembler.rs:172-188 | the buffer of the fragment's sample, created if missing; the others are untouched and share nothing with it |
| `Fragmentation.FragmentAssembler.Fill` | src/rtps/fragment_assembler.rs:182-189 | that buffer, and only it, receives the fragment |
| `Fragmentation.FragmentAssembler.NewDatafrag` | src/rtps/fragment_assembler.rs:172-214 | the state and result of one arrival: the sample leaves its buffer when complete, also when its octets do not parse |
| `Fragmentation.FragmentAssembler.GarbageCollectBefore` | src/rtps/fragment_assembler.rs:216-224 | exactly the buffers last changed before the limit are dropped |
| `Fragmentation.FragmentAssembler.IsPartiallyReceived` | src/rtps/fragment_assembler.rs:233-237 | true exactly when the sample has a buffer |
| `Fragmentation.FragmentAssembler.MissingFragsFor` | src/rtps/fragment_assembler.rs:239-252 | the numbers of the fragments not received, ascending |
| `Reassembly.CutCarries` | src/rtps/message.rs:352-363 | the fragments cut by the sender carry exactly the octets that belong at their place in the sample |
| `Reassembly.InsertMatches` | src/rtps/fragment_assembler.rs:65-140 | inserting a fragment extends what the buffer has received by exactly that fragment, with the sample's octets |
| `Reassembly.FullBufferDecodes` | src/rtps/fragment_assembler.rs:189-198 | a buffer is complete exactly when all fragments arrived, and then decodes to the original sample |
| `Reassembly.StepKeepsRunInv` | src/rtps/fragment_assembler.rs:172-224 | every arrival and collection keeps all buffers equal to what the history of arrivals since the last completion or drop prescribes, and no arrival trips an assertion |
| `Reassembly.DeliversExactlyOnCompletion` | src/rtps/fragment_assembler.rs:172-214 | in every run an arrival returns the original sample exactly when it completes it, and nothing otherwise |
| `Reassembly.AllFragmentsDeliver` | src/rtps/message.rs:352-363 | if every fragment arrives at least once, in any order, repeated and mixed with other samples, the sample is returned on the completing arrival and nothing before |
| `Reassembly.OthersUntouched` | src/rtps/fragment_assembler.rs:172-214 | an arrival leaves the buffers of all other sequence numbers as they were |
| `Reassembly.PartialMeansSomeButNotAll` | src/rtps/fragment_assembler.rs:233-237 | over every run, a sample is partially received exactly when some but not all fragments arrived since the last completion or drop |
| `Reassembly.ReturnsBoundedByArrivals` | src/rtps/fragment_assembler.rs:172-224 | over every run with collections the assembler returns a sample at most as often as any single fragment of it arrived |
| `Reassembly.DeliveriesBoundedByArrivals` | src/rtps/fragment_assembler.rs:172-224 | completions of a sample never exceed the arrivals of any single fragment, one that is still buffered counted on top |
| `Reassembly.NewFragmentShrinks` | src/rtps/fragment_assembler.rs:239-252 | an insertion removes exactly its own numbers from the missing list, so a new fragment strictly shortens it |
| `Reassembly.RepairCompletes` | src/rtps/fragment_assembler.rs:187-252 | feeding exactly the listed fragments, in any order, returns the sample on the last one and nothing earlier |
| `NumberSets.OrBitSets` | src/structure/sequence_number.rs:361-379 | setting a bit sets that bit and no other |
| `NumberSets.OrBitStaysInWord` | src/structure/sequence_number.rs:361-379 | the word does not outgrow its width |
| `NumberSets.Insert` | src/structure/sequence_number.rs:361-379 | exactly that number joins the set, if it is inside the window |
| `NumberSets.FromBaseAndSet` | src/structure/sequence_number.rs:385-431 | the members of the set below 256 above the base, the base moved down to the smallest member |
| `NumberSets.Iter` | src/structure/sequence_number.rs:521-541 | exactly the members, ascending |
| `Gaps.GapMsg` | src/rtps/message.rs:440-476 | a message exactly for non-empty sets: run from the smallest member to the first number missing, and the rest as a list |
| `Gaps.GapDenotesUpToSpan` | src/rtps/message.rs:440-476 | for every non-empty set of positive numbers, a GAP declares exactly the members less than 256 above the end of the run |
| `Gaps.GapIsExact` | src/rtps/message.rs:440-476 | it declares exactly the set if and only if the list fits its 256 bits |
| `Gaps.TruncatedGap` | src/structure/sequence_number.rs:385-431 | every GAP built for {1, 258} declares 1 and not 258 |
| `Gaps.RunIsMaximal` | src/rtps/message.rs:449-463 | the run is the longest contiguous stretch from the smallest member |
| `Gaps.BeforeIsAGapMessage` | src/rtps/message.rs:479-499 | the special form for everything before n is what the general form builds for {1..n-1}, for n at least 2 |
| `WriterProxies.GapSettlesItsSet` | src/rtps/reader.rs:1061-1120 | a GAP built by a writer, handled by a reader, settles exactly the writer's set as far as the list reaches, and exactly the set when it fits |
| `WriterProxies.GapKeepsIff` | src/rtps/reader.rs:1061-1120 | the record of a received change is the same after a GAP if and only if the GAP is invalid, or its run does not cover the change and it either does not list it or leaves no number below it open when its turn comes |
| `WriterProxies.GapKeepsIffAscending` | src/rtps/reader.rs:1104-1118 | the same for the list in the order it is read out of the bitmap: what counts is whether a number below is neither settled, nor in the run, nor listed |
| `WriterProxies.RangeKeepsIff` | src/rtps/rtps_writer_proxy.rs:241-289 | a range of irrelevant numbers takes the record of a received change if and only if it covers it, whether it starts at or above the base |
| `WriterProxies.SetIrrelevantKeepsIff` | src/rtps/rtps_writer_proxy.rs:226-237 | one irrelevant number takes the record of a received change if and only if it is that change and not below the base |
| `WriterProxies.ReceivedCanBecomeUnavailable` | src/rtps/rtps_writer_proxy.rs:226-237 | a listed number on which the documented rule that received stays received fails |
| `WriterProxies.RunTakesReceived` | src/rtps/rtps_writer_proxy.rs:241-289 | runs of a GAP that make a received, unlisted change unavailable or drop its record |
| `WriterProxies.ListedCanSurvive` | src/rtps/rtps_writer_proxy.rs:226-237 | a GAP that lists a received change and leaves its record alone |
| `Readers.StepKeepsRecordIff` | src/rtps/rtps_writer_proxy.rs:45-50 | for every kind of reader and every event, the record of a received change stays if and only if the event is none of: a duplicate with another time at the participant reader, a GAP that takes it, a new heartbeat past it at a reliable reader, loss of the writer |
| `Readers.HeartbeatTakesReceived` | src/rtps/reader.rs:911-918 | a heartbeat that drops the record of a received change |
| `Readers.AtMostOnceIff` | src/rtps/reader.rs:698-746 | from any state of the link, in every run without match or loss of the writer each change is handed on at most once, if and only if the reader is stateful and, with a proxy, not the participant reader, or, without one, faced with a user-defined writer |
| `Readers.SettledIsNotHandedOn` | src/rtps/reader.rs:714-727 | a change received or declared irrelevant is not handed on by a stateful reader other than the participant reader while the writer stays matched |
| `Readers.HandedOnAgainAfterLoss` | src/rtps/reader.rs:457-473 | over every run such a reader hands a change on twice only if the writer was lost in between |
| `Readers.ParticipantReaderTakesDuplicates` | src/rtps/reader.rs:717-723 | a run in which the participant reader hands a settled change on again |
| `Readers.RematchHandsOnAgain` | src/rtps/reader.rs:446-455 | a run in which a writer lost and matched anew makes a guarding reader hand a change on again |
| `Readers.SettledStays` | src/rtps/rtps_writer_proxy.rs:207-289 | in every run what is settled stays settled until the writer is lost, duplicates accepted or not |
| `Readers.AckBaseIsLeastUnsettled` | src/rtps/rtps_writer_proxy.rs:338-355 | in every run the acknowledgement base is the least number not settled |
| `WriterProxies.RtpsWriterProxy.AdvanceAckBase` | src/rtps/rtps_writer_proxy.rs:338-355 | the base moves to the first number without an entry; the entries stay |
| `WriterProxies.RtpsWriterProxy.ReceivedChangesAdd` | src/rtps/rtps_writer_proxy.rs:207-223 | exactly one more number is settled |
| `WriterProxies.RtpsWriterProxy.SetIrrelevantChange` | src/rtps/rtps_writer_proxy.rs:226-237 | exactly one more number is settled, as not available |
| `WriterProxies.RtpsWriterProxy.IrrelevantChangesRange` | src/rtps/rtps_writer_proxy.rs:241-289 | exactly the numbers of the range become settled |
| `WriterProxies.RtpsWriterProxy.HandleGap` | src/rtps/reader.rs:1061-1120 | run and listed numbers are applied in order; an invalid GAP changes nothing |
| `WriterProxies.RtpsWriterProxy.MissingSeqnums` | src/rtps/rtps_writer_proxy.rs:139-198 | exactly the unsettled numbers of the advertised range, ascending |
| `Readers.Reader.ProcessReceivedData` | src/rtps/reader.rs:698-761 | whether the change is handed on, by kind of reader, proxy and settled numbers, and the proxy afterwards, with the change recorded under its arrival time; `ReaderHistory.HandedOnIff` says it over runs by the history alone |
| `ReaderHistory.SettledByHistory` | src/rtps/rtps_writer_proxy.rs:207-289 | in every run from any start the settled numbers are exactly those that, since the match, arrived, were covered or listed by a valid GAP or passed by a counted heartbeat, or were settled at the start |
| `ReaderHistory.HandedOnIff` | src/rtps/reader.rs:698-746 | in every run from any start an arrival is handed on exactly if the reader is stateless, or the writer is matched and the reader is the participant reader or no event since the match has settled the number, or the writer is not matched and not user-defined; with a proxy it is then recorded with its arrival time |
| `Readers.Reader.HandleGap` | src/rtps/reader.rs:1061-1120 | ignored by a stateless reader or without a proxy, otherwise applied with the list in order |
| `Readers.Reader.HandleHeartbeat` | src/rtps/reader.rs:862-918 | only a new count at a reliable stateful reader with a proxy settles what lies before the first number |
| `Readers.Reader.UpdateWriterProxy` | src/rtps/reader.rs:386-455 | a fresh proxy if there was none, otherwise the one there is |
| `Readers.Reader.RemoveWriterProxy` | src/rtps/reader.rs:457-473 | the proxy is gone |
| `StatusChannels.RunKeepsInv` | src/dds/statusevents.rs:94-132 | every interleaving keeps the mutex, queue, waker and signal invariants |
| `StatusChannels.NoLostWakeup` | src/dds/statusevents.rs:94-132 | in every interleaving a sleeping task with an event queued is about to be woken; a receiver that found the queue empty and waits, with an event queued since, has a signal byte pending or a sender about to write one; a stored waker with the mutex free means an empty queue |
| `StatusChannels.ReceivedInOrder` | src/dds/statusevents.rs:94-132 | received events are the accepted ones in order, and an offer is dropped only when the queue is full |
| `StatusChannels.OneReceiveIsNotEnough` | src/dds/statusevents.rs:122-127 | an interleaving in which stopping after one successful receive would leave an event without a signal |
| `StatusChannels.StatusChannel.SendSignal` | src/mio_source.rs:107-115 | adds a byte unless the socket is full |
| `StatusChannels.StatusChannel.Drain` | src/mio_source.rs:122-136 | empties the socket |
| `StatusChannels.StatusChannel.TrySend` | src/dds/statusevents.rs:96-118 | one uninterrupted send is a run of the thread steps to that state |
| `StatusChannels.StatusChannel.TryRecv` | src/dds/statusevents.rs:122-127 | one uninterrupted receive is a run of the thread steps to that state |
| `StatusChannels.StatusChannel.PollNext` | src/dds/statusevents.rs:225-243 | one uninterrupted poll is a run of the thread steps to that state; it stores the waker exactly when it returns nothing |
| `Handshakes.StepKeepsInv` | src/discovery/secure_discovery.rs:1472-1952 | every step keeps: stored messages have counters from 1 to 10; a handshake completed with a sent final still has that final stored; an authenticated remote has a completed handshake |
| `Handshakes.RunKeepsInv` | src/discovery/secure_discovery.rs:1472-1952 | the same after every run |
| `HandshakeLaws.CreatedExactly` | src/discovery/secure_discovery.rs:1472-1952 | for every state and event, which message is created: a request, reply or final exactly under the conditions of its handler, with its kind, relation, number and addressees |
| `HandshakeLaws.WrittenExactly` | src/discovery/secure_discovery.rs:1517-1663 | a message is written at a step if and only if it was created in it and the writer takes it, or it is a stored non-final message at a resend tick that the writer takes, or it is the stored final of a completed initiator at a handshake message from that remote that the writer takes |
| `HandshakeLaws.CreatedIsWrittenIff` | src/discovery/secure_discovery.rs:1472-1952 | a created message is written in its own step if and only if the writer takes it |
| `HandshakeLaws.FinalIsRepeated` | src/discovery/secure_discovery.rs:1591-1663 | a completed initiator writes its stored final at every handshake message from the remote that the writer takes |
| `HandshakeLaws.StateExactly` | src/discovery/secure_discovery.rs:1591-1663 | the handshake state of every remote after every event, told by the state before and what the event carries |
| `HandshakeLaws.StatusExactly` | src/discovery/secure_discovery.rs:2077-2186 | the authentication status of every remote after every event, likewise |
| `HandshakeLaws.StoredExactly` | src/discovery/secure_discovery.rs:1517-1551 | what is stored for every remote after every event: a new message with ten sends left, one send fewer after a tick, ten again after a refused answer, nothing when it ran out or was answered |
| `HandshakeRuns.ProgressIsKept` | src/discovery/secure_discovery.rs:1591-1663 | over every run without removal of the remote's status, handshake progress never goes back and the roles never swap |
| `HandshakeRuns.OthersUntouchedByMessage` | src/discovery/secure_discovery.rs:1591-1663 | a message changes nothing kept about any participant but its sender |
| `HandshakeRuns.AuthenticationNeedsEvidence` | src/discovery/secure_discovery.rs:2077-2186 | only a message from the remote that completes the handshake, with permissions, domain check and crypto registration passed, makes it authenticated |
| `HandshakeRuns.AuthenticatedHasEvidence` | src/discovery/secure_discovery.rs:2077-2186 | over every run, an authenticated remote has such a message in its past with no removal since |
| `HandshakeRuns.AuthenticatedMeansCompleted` | src/discovery/secure_discovery.rs:1839-1932 | over every run, an authenticated remote's handshake is complete |
| `HandshakeRuns.StuckUntilRestart` | src/discovery/secure_discovery.rs:2663-2681 | waiting for a reply or a final with nothing stored, no events move the handshake on until authentication is restarted |
| `HandshakeRuns.WritesAreBounded` | src/discovery/secure_discovery.rs:1517-1589 | over every run a request or reply is written at most 11 times plus 10 per failed validation of an answer to it |
| `HandshakeNetwork.NetStepKeepsInv` | src/discovery/secure_discovery.rs:2855-2914 | every step of the network keeps: message identities are unique; stored and answered messages were created by their authors; no stored message is replaced twice |
| `HandshakeNetwork.ResponderAgrees` | src/discovery/secure_discovery.rs:1871-1952 | whenever a responder completes, the final it takes was created by the initiator in answer to exactly the reply the responder has stored, and that reply answered exactly the request the initiator had stored |
| `HandshakeNetwork.OneFinalPerRequest` | src/discovery/secure_discovery.rs:1762-1869 | no request ever leads to two finals |
| `HandshakeNetwork.FinalTakenOnce` | src/discovery/secure_discovery.rs:1871-1952 | no final and no reply completes a responder twice, so each completion has an initiator's completion of its own |
| `HandshakeNetwork.ExchangeAuthenticates` | src/discovery/secure_discovery.rs:1301-1952 | whatever earlier attempts left over, two participants without a status for each other and with agreeing plugins are both authenticated once request, reply and final are delivered |
| `HandshakeRecovery.WaitingReplyIsSent` | src/discovery/secure_discovery.rs:1517-1551 | a resend tick that the writer takes makes the stored reply of a waiting responder deliverable |
| `HandshakeRecovery.LostFinalIsRecovered` | src/discovery/secure_discovery.rs:1591-1663 | where only written messages can be delivered: a responder waiting for its final, whose reply comes again after any run that leaves the pair alone, is completed by the final that the initiator then writes, even if the first final was lost |
| `KeyExchanges.RunKeeps` | src/discovery/secure_discovery.rs:2194-2580 | over every run of starts and resends, created messages are exactly the cached and the accepted ones together, with strictly increasing numbers |
| `KeyExchanges.InExactlyOnePlace` | src/discovery/secure_discovery.rs:1553-1574 | every key message ever created is either cached and never accepted, or accepted exactly once and no longer cached; nothing else is in either |
| `KeyExchanges.OneSourcePerRemote` | src/discovery/secure_discovery.rs:2422-2580 | over every run at most one key message goes to a user endpoint, so a second local endpoint matched with it sends none |
| `KeyLaws.StartCreatesIff` | src/discovery/secure_discovery.rs:2422-2580 | a start with an endpoint creates a message if and only if the endpoint is new, known, foreign, needs keys and has tokens; the message has the class that suits the endpoint's kind, its participant, source and tokens, and is accepted or cached by the writer's answer |
| `KeyLaws.CreatedInRunIff` | src/discovery/secure_discovery.rs:2422-2580 | in every run a start makes its message exactly if it calls for keys and no start before it has disposed of the endpoint |
| `KeyLaws.RememberedIff` | src/discovery/secure_discovery.rs:2468-2580 | in every run the endpoints remembered are exactly those some start has disposed of: no keys needed, keys made, or set directly for an own endpoint |
| `KeyLaws.UserMessagesAreRight` | src/discovery/secure_discovery.rs:2540-2549 | in every run each message to a user writer carries reader tokens and each to a user reader writer tokens, goes to the endpoint's participant, and has the source and tokens of the start that made it |
| `KeyLaws.ParticipantOffersExactly` | src/discovery/secure_discovery.rs:2194-2337 | a start with a participant creates exactly its own-token message and one for each announced built-in endpoint except the volatile ones that has tokens: four readers, then four writers, in fixed order, numbered consecutively, with the class that suits the remote endpoint, and accepted or cached by the writer's answer |
| `KeyLaws.ResendTakesExactly` | src/discovery/secure_discovery.rs:1553-1574 | a resend tick accepts each cached message once if the writer takes it and leaves the others cached |
| `KeyLaws.NumbersAreRunning` | src/discovery/secure_discovery.rs:2866-2914 | in every run the next number is one more than the key and authentication messages so far: each took one, none was skipped |
| `SecureDiscoveries.SecureDiscovery.constructor` | src/discovery/secure_discovery.rs:117-262 | starts with nothing stored and numbering at 1 |
| `SecureDiscoveries.SecureDiscovery.NewStatelessMessage` | src/discovery/secure_discovery.rs:2866-2914 | a message with the next number, related to the one it answers |
| `SecureDiscoveries.SecureDiscovery.TrySendingRequest` | src/discovery/secure_discovery.rs:1472-1515 | a created request is numbered, stored with a full counter, written if the writer takes it, and its reply awaited; without one nothing changes; both invariants are kept for a remote not yet authenticated |
| `SecureDiscoveries.SecureDiscovery.StartAuthentication` | src/discovery/secure_discovery.rs:1301-1416 | the status and handshake state for each outcome of identity validation: rejected, unauthenticated if allowed, or authenticating as initiator or responder; both invariants are kept for a remote without a status |
| `SecureDiscoveries.SecureDiscovery.ParticipantDataRead` | src/discovery/secure_discovery.rs:291-376 | an unknown participant is judged once, a request not yet sent is tried again, and nothing else changes; both invariants hold afterwards |
| `SecureDiscoveries.SecureDiscovery.OnRemoteAuthenticated` | src/discovery/secure_discovery.rs:2077-2186 | authenticated exactly if permissions, the domain check when access is protected, and crypto registration pass; otherwise rejected; both invariants are kept for a completed handshake |
| `SecureDiscoveries.SecureDiscovery.OnPendingRequest` | src/discovery/secure_discovery.rs:1665-1760 | a request with a token is answered by a reply related to it, stored in place of whatever was stored, and the final awaited; both invariants are kept for a remote not yet authenticated |
| `SecureDiscoveries.SecureDiscovery.OnPendingReply` | src/discovery/secure_discovery.rs:1762-1869 | only an answer to the stored request counts: success stores the final and settles the status, a refused token refills the counter; both invariants are kept |
| `SecureDiscoveries.SecureDiscovery.OnPendingFinal` | src/discovery/secure_discovery.rs:1871-1952 | only an answer to the stored reply counts: success completes, drops the stored reply and settles the status, a refused token refills the counter; both invariants are kept |
| `SecureDiscoveries.SecureDiscovery.ParticipantStatelessMessageRead` | src/discovery/secure_discovery.rs:1591-1663 | only handshake messages to this participant from a known handshake act, by its state; what it creates is written if the writer takes it, and a completed initiator writes its final again; both invariants hold afterwards; `HandshakeLaws.WrittenExactly` fixes what is written |
| `SecureDiscoveries.SecureDiscovery.ResendAuthenticationMessages` | src/discovery/secure_discovery.rs:1517-1551 | the loop writes every stored message but finals once, counts down without underflow and drops what ran out |
| `SecureDiscoveries.SecureDiscovery.StartKeyExchangeWithRemoteParticipant` | src/discovery/secure_discovery.rs:2194-2337 | own tokens, then those of each announced built-in pair except the volatile one; keeps both invariants |
| `SecureDiscoveries.SecureDiscovery.StartKeyExchangeWithRemoteEndpoint` | src/discovery/secure_discovery.rs:2422-2580 | keys are created once per remote endpoint that needs them and is known, not for own endpoints, and the endpoint is remembered; both invariants hold afterwards; `KeyLaws.StartCreatesIff` and `KeyLaws.UserMessagesAreRight` say when and with what class, source and tokens |
| `SecureDiscoveries.SecureDiscovery.ResendKeyMessages` | src/discovery/secure_discovery.rs:1553-1574 | the loop offers each cached message once; those not taken stay cached |
| `Topics.UpdateKeeps` | src/discovery/discovery_db.rs:551-636 | an announcement never changes a known type, nor replaces a record from the Topic topic by a weaker one |
| `Topics.UpdateWellKeyed` | src/discovery/discovery_db.rs:551-636 | no topic without a source, every record filed under its own name |
| `Topics.RecordsExactly` | src/discovery/discovery_db.rs:551-636 | the record of every source on every topic after an announcement |
| `Topics.EventsExactly` | src/discovery/discovery_db.rs:551-636 | an announcement raises at most one event: the new topic exactly if its name was unknown, a disagreement exactly if the source's own record, or without one any other's, has another type, and then with its own or the last by GUID |
| `DiscoveryDbs.RunKeepsInv` | src/discovery/discovery_db.rs:154-255 | in every run both participant tables have the same keys, a known participant has nothing in the attic, and the topic table is well keyed |
| `DiscoveryDbs.RediscoveryRestores` | src/discovery/discovery_db.rs:178-255 | time-out, any events about other participants, rediscovery: exactly the readers and writers from before are live again |
| `DiscoveryDbs.DisposalLeavesAttic` | src/discovery/discovery_db.rs:232-255 | an active disposal of a participant does not clear what the attic holds for it |
| `DiscoveryDbs.KnownExactlyWhileAlive` | src/discovery/discovery_db.rs:154-354 | in every run a participant is in the tables exactly while it is alive by its own events, with the lease and the time it was last heard |
| `EndpointHistory.EndpointsByTheirEvents` | src/discovery/discovery_db.rs:178-255 | in every run each remote reader and writer is live, and in the attic, exactly as its own announcements and disposals and its participant's time-outs and returns say, with the data it last announced |
| `EndpointHistory.LocalsByTheirEvents` | src/discovery/discovery_db.rs:406-420 | in every run each local reader and writer is there exactly from its announcement until it is withdrawn |
| `EndpointHistory.TopicsExactly` | src/discovery/discovery_db.rs:551-636 | the topic records after every event: an announcement adds its source, a Topic announcement of the same type renews it, a topic cleanup keeps exactly the topics that some endpoint is on, and nothing else changes them |
| `DiscoveryDbs.HeardWithinLeaseStays` | src/discovery/discovery_db.rs:311-354 | a known participant that is not disposed and whose silence at every cleanup is within the lease its last announcement named, 60 s if none, in elapsed nanoseconds, is still in both tables after any run |
| `DiscoveryDbs.NanosBoundTicks` | src/discovery/discovery_db.rs:311-354 | silence within a lease in nanoseconds does not exceed it in ticks |
| `DiscoveryDbs.SecondsWrap` | src/structure/duration.rs:99-106 | the cast to a signed 32-bit number subtracts the multiple of 2^32 that brings the seconds within 2^31 |
| `DiscoveryDbs.LongSilenceWrapsAround` | src/structure/duration.rs:99-106 | silence of just 2^31 seconds turns negative in the cast and expires nobody |
| `DiscoveryDbs.SilentParticipantsAreRemoved` | src/discovery/discovery.rs:804-810 | with cleanups at most a period apart, a participant still known was heard from within the lease its last announcement named, 60 s if none, plus one period, to within a clock tick |
| `DiscoveryDbs.TicksBoundNanos` | src/discovery/discovery_db.rs:311-354 | a lease that is not exceeded in ticks bounds the silence in nanoseconds |
| `DiscoveryDbs.TopicRecordsPersist` | src/discovery/discovery_db.rs:551-636 | over every run, until cleanup drops the topic, a source's record keeps its type and is not weakened |
| `DiscoveryDbs.TopicCleanupIsExact` | src/discovery/discovery_db.rs:356-405 | cleanup drops exactly the topics that no local or remote reader or writer is on |
| `DiscoveryDbs.RediscoveredTopicMayBeMissing` | src/discovery/discovery_db.rs:394-405 | after time-out, topic cleanup and rediscovery the reader is live again, and its topic is in the table if and only if another endpoint kept it there |
| `DiscoveryDbs.RediscoveredTopicIsMissing` | src/discovery/discovery_db.rs:394-405 | a run that ends with a live reader whose topic is not in the table |
| `DiscoveryStore.MoveByGuidPrefix` | src/discovery/discovery_db.rs:93-102 | exactly the entries with the prefix move, entry by entry, overwriting what was there |
| `DiscoveryStore.DiscoveryDB.constructor` | src/discovery/discovery_db.rs:123-144 | the empty database |
| `DiscoveryStore.DiscoveryDB.UpdateParticipant` | src/discovery/discovery_db.rs:154-208 | the new state, and whether the participant is new |
| `DiscoveryStore.DiscoveryDB.ParticipantIsAlive` | src/discovery/discovery_db.rs:210-227 | only a known participant's life sign is renewed |
| `DiscoveryStore.DiscoveryDB.RemoveParticipant` | src/discovery/discovery_db.rs:232-255 | a disposal drops the endpoints, a time-out moves them to the attic |
| `DiscoveryStore.DiscoveryDB.ParticipantCleanup` | src/discovery/discovery_db.rs:311-354 | removes exactly the participants silent for longer than the lease their data names, 60 s if none, and returns exactly those, in order, with lease and silence |
| `DiscoveryStore.DiscoveryDB.TopicCleanup` | src/discovery/discovery_db.rs:394-405 | the table without the topics that no live endpoint is on |
| `DiscoveryStore.DiscoveryDB.UpdateTopicData` | src/discovery/discovery_db.rs:551-636 | the new table; exactly the events raised: a new topic, or one disagreement with both records and sources, of several the last by GUID; and notification exactly for a further source or an agreeing Topic announcement |
| `Topics.NotifiesOnChange` | src/discovery/discovery_db.rs:551-636 | a notified announcement was recorded, and one of a known topic that is not notified changed nothing |
| `DiscoveryStore.DiscoveryDB.UpdateSubscription` | src/discovery/discovery_db.rs:429-480 | the reader is live and its topic announced, with the events and notification of that |
| `DiscoveryStore.DiscoveryDB.UpdatePublication` | src/discovery/discovery_db.rs:483-532 | the writer is live and its topic announced, with the events and notification of that |
| `Wire.WriteU32` | src/serialization/speedy_pl_cdr_helpers.rs:78-90 | the four octets that stand for a length, in either byte order |
| `Wire.ItemsAreAligned` | src/serialization/speedy_pl_cdr_helpers.rs:124-136 | every item of a layout, and so every length word, sits at a multiple of four |
| `Wire.WritePad` | src/serialization/speedy_pl_cdr_helpers.rs:124-136 | zeros up to the next multiple of four |
| `Wire.WriteText` | src/serialization/speedy_pl_cdr_helpers.rs:78-136 | padding from the previous length places the text at the next multiple of four of the whole buffer |
| `Wire.TextStep` | src/serialization/speedy_pl_cdr_helpers.rs:92-122 | reading a text where it was laid, with padding skipped from the previous length, gives it back and ends in step for the next |
| `Wire.Cursor.ReadString` | src/serialization/speedy_pl_cdr_helpers.rs:92-107 | the counted octets without their last character |
| `Wire.Cursor.ReadPad` | src/serialization/speedy_pl_cdr_helpers.rs:112-122 | skips to the next multiple of four, failing at the end of the buffer |
| `ContentFilters.WriteTo` | src/discovery/content_filter_property.rs:90-122 | the texts and the count, each laid at a multiple of four |
| `ContentFilters.ReadFrom` | src/discovery/content_filter_property.rs:50-83 | the loop reads exactly what the reading function says, including every failure |
| `ContentFilters.ReadsBack` | src/discovery/content_filter_property.rs:50-122 | whatever follows, reading gives back what was written, with as many parameters as 32 bits count |
| `ContentFilters.SurvivesIff` | src/discovery/content_filter_property.rs:50-122 | the same value comes back if and only if there are fewer than 2^32 parameters |
| `ContentFilters.LengthsAreAligned` | src/discovery/content_filter_property.rs:90-122 | every length word and the count are at multiples of four, where their text is found |
| `Properties.WriteTo` | src/dds/qos.rs:970-1006 | only propagated properties, string ones then binary ones, each list behind its count, all aligned |
| `Properties.ReadFrom` | src/dds/qos.rs:920-963 | reads what the reading function says; a missing binary part is accepted |
| `Properties.SerializedLenInStep` | src/security/types.rs:163-169 | the computed length of a property leaves the same misalignment as its octets |
| `Properties.ReadsBackIff` | src/dds/qos.rs:921-1006 | reading back gives exactly the propagated properties of both kinds, in order, if and only if 32 bits can count them |
| `Properties.PropagatedKeepsOrder` | src/dds/qos.rs:975-977 | filtering keeps the order of properties |
| `Properties.PropagatedExactly` | src/dds/qos.rs:975-977 | each property is written, in its place, exactly if it is marked for propagation |
| `ParameterLists.WriteTo` | src/messages/submessages/elements/parameter_list.rs:66-77 | each parameter with its padded value and 16-bit length, then the sentinel |
| `ParameterLists.ReadFrom` | src/messages/submessages/elements/parameter_list.rs:79-102 | reads until the sentinel as the reading function says, including every failure |
| `ParameterLists.ReadsBackIff` | src/messages/submessages/elements/parameter.rs:103-119 | a list comes back, values padded, if and only if no identifier is the sentinel and every padded length fits 16 bits |
| `ParameterLists.ToMap` | src/messages/submessages/elements/parameter_list.rs:53-58 | the values under each identifier, in order |
| `ParameterLists.FieldsValues` | src/serialization/speedy_pl_cdr_helpers.rs:141-212 | in a list made field by field with distinct identifiers, each field's values are found under its identifier |
| `FixedCodec.FixedReadsBack` | src/dds/qos.rs:623-648 | words and octets of fixed layout read back, whatever follows |
| `Qos.VerdictIsFirstUnmet` | src/dds/qos.rs:352-430 | the verdict names a policy exactly if it is the first one the offer does not meet, and none exactly if all are met; met means a length of at most the requested one, in units of 2^-32 s, for deadline, latency budget and liveliness lease, and for durability and scope a kind at or after the requested one in a written-out order |
| `Qos.ComplianceIsMonotone` | src/dds/qos.rs:352-430 | raising one offered policy never turns an accepted offer into a refused one, and lowering one below the request always refuses, naming that policy |
| `Qos.ComplianceIsAPreorder` | src/dds/qos.rs:352-430 | every set of policies meets itself, and meeting is passed on through a set that leaves nothing open |
| `Qos.LivelinessDecidesAsDocumentedIff` | src/dds/qos.rs:803-812 | the coded liveliness decision is the documented one if and only if the kinds are in order or the offered lease is too long |
| `Qos.LivelinessKindIsIgnored` | src/dds/qos.rs:398-407 | an automatic offer is accepted for a manual-by-topic request |
| `Qos.OwnershipDecidesAsDocumentedIff` | src/dds/qos.rs:390-396 | the coded ownership decision is the documented one unless both are exclusive with different strengths |
| `Qos.OwnershipStrengthIsCompared` | src/dds/qos.rs:390-396 | two exclusive owners of different strength are refused for ownership |
| `Qos.ToParameterList` | src/dds/qos.rs:433-536 | one parameter per policy present, in order, ownership in two |
| `Qos.PoliciesReadBack` | src/dds/qos.rs:538-620 | a list that carries a set of policies, among any other parameters, decodes to that set without its properties |
| `Sedp.LocatorReadsBackIff` | src/structure/locator.rs:84-146 | a locator comes back if and only if it has no IPv6 flow or scope and, if of a foreign kind, not one of the four known numbers |
| `SedpWriter.EmitLocators` | src/discovery/sedp_messages.rs:512-525 | one parameter per locator, in order |
| `SedpWriter.ToParameterList` | src/discovery/sedp_messages.rs:440-562 | the whole list of a reader or writer record, field by field |
| `Sedp.RecordReadsBack` | src/discovery/sedp_messages.rs:335-562 | every reader or writer record decodes to its normal form, for locator lists of any length and both ownership shapes |
| `Sedp.SameRecordIff` | src/discovery/sedp_messages.rs:335-562 | the same record comes back if and only if its two GUIDs agree, the RPC fields are empty, its locators can be told apart on the wire and its filter's parameters can be counted |
| `Sedp.SafeIffShort` | src/messages/submessages/elements/parameter.rs:103-119 | all values of a record fit their 16-bit lengths if and only if its texts have at most 65527 octets and its encoded filter at most 65532 |
| `Sedp.RecordArrives` | src/discovery/sedp_messages.rs:335-440 | such a record, sent as octets, arrives in its normal form, whatever follows it |
| `Sedp.DiscoveredDropsOnly` | src/discovery/sedp_messages.rs:248-281 | of a set of policies discovery drops only history, resource limits and properties, and files each other one under its own name |
| `Sedp.ComplianceUnchanged` | src/dds/qos.rs:352-430 | dropping them on either side never changes the compatibility verdict |
| `Sedp.MatchingUnchanged` | src/discovery/sedp_messages.rs:685-715 | the verdict between any offered and requested policies is the same after both went through discovery as octets, each in its own byte order, or either did |
| `WireFormat.ListOctets` | src/messages/submessages/elements/parameter_list.rs:66-77 | a parameter is its identifier, its padded length in 16 bits and its value padded with zeros; the list ends with identifier 1 and length 0 |
| `WireFormat.PoliciesOnTheWire` | src/structure/parameter_id.rs:9-96 | for every set of policies and both byte orders, the parameters written are those of a table of identifiers and octets, in that order |
| `WireFormat.EndpointOnTheWire` | src/discovery/sedp_messages.rs:440-562 | for every reader or writer record likewise, fields before and behind the policies included |
| `WireFormat.FilterLayout` | src/discovery/content_filter_property.rs:90-122 | the k-th item of a content filter: topic, related topic, class, expression, count, then the parameters in order |
| `WireFormat.PropertyNth` | src/dds/qos.rs:970-1006 | name and value of the k-th property are items 2k and 2k+1 of its list, a binary value without terminator |
| `WireFormat.SerializedLenIsLength` | src/security/types.rs:163-169 | the computed length of a property is that of its octets, padding included |
| `WireFormat.PopsLastChar` | src/serialization/speedy_pl_cdr_helpers.rs:92-107 | exactly the last character is dropped, with its continuation octets |
| `WireFormat.SkipsToBoundary` | src/serialization/speedy_pl_cdr_helpers.rs:112-122 | padding is skipped to the next multiple of four, and fails exactly if that lies beyond the end |
| `Decoding.PoliciesRefusedIff` | src/dds/qos.rs:538-620 | for every list of octets, the policies are refused if and only if some value is too short for its policy or names a kind that there is not |
| `Decoding.OwnershipRead` | src/dds/qos.rs:538-620 | for every accepted list, ownership is shared without a strength, exclusive with one, and open in any other combination |
| `Decoding.RecordRefusedIff` | src/discovery/sedp_messages.rs:335-440 | for every list of octets, a record is refused if and only if its GUID or a name is missing or broken, a locator or other field is too short, its filter does not parse, or its policies are refused |
| `BackOff.NanosFit` | src/structure/duration.rs:80-82 | no duration in nanoseconds, nor four times it, leaves 64 bits |
| `BackOff.TrySendTimeout` | src/dds/helpers.rs:12-41 | in terms of the time-out's seconds and fraction: sleeps below twice the time-out less a microsecond, and on a full channel at least the time-out less a microsecond, to within a nanosecond; not at all for a time-out of at most a microsecond; queues the value at most once and returns it otherwise; no 64-bit overflow |
| `Announcing.ElapsedWraps` | src/structure/time.rs:103-113 | the time between two stamps is their difference less the multiple of 2^64 that brings it within 2^63 |
| `Announcing.ShortestAutomaticLease` | src/discovery/discovery.rs:1350-1362 | the least lease among the automatic writers, if any |
| `Announcing.LivelinessState.WriteParticipantMessage` | src/discovery/discovery.rs:1346-1447 | collects what is due and writes it; each state field changes only when its own write succeeds |
| `Announcing.NeverSilentTooLong` | src/discovery/discovery.rs:1368-1388 | with ticks at most P apart and writes succeeding, the last automatic message is never older than half the shortest lease at the last tick plus P |
| `Announcing.AutomaticOfferedIff` | src/discovery/discovery.rs:1368-1388 | in every run a tick offers an automatic message exactly if some writer is automatic and the last message is more than half the shortest lease old |
| `Announcing.AutomaticMessagesAreApart` | src/discovery/discovery.rs:1380-1388 | two consecutive automatic messages are more than half the shortest lease apart |
| `Announcing.LastAutoIsLastSent` | src/discovery/discovery.rs:1426-1432 | the remembered time is that of the last automatic message actually written |
| `Announcing.ManualRequestStays` | src/discovery/discovery.rs:1398-1440 | a manual request stays set and is offered at every tick until a write succeeds |
| `Announcing.ManualNeedsRequest` | src/discovery/discovery.rs:1398-1440 | a manual message is offered only for a request not yet served |
| `Announcing.ManualOfferedIff` | src/discovery/discovery.rs:1398-1440 | in every run a tick offers a manual message exactly if some request has not been served by a write since |

## Left out

- Sockets, mio registration, UDP and thread start-up and shutdown: input and output only.
- Writer and MessageReceiver, and of Reader its replies, caches, deadlines and life span; one remote writer is followed at a time.
- Cryptography, certificates and access control: their answers are parameters; a plugin is only taken to accept tokens of the class it expects (`src/security/authentication/authentication_builtin/types.rs:348-355`, 393-400 and 453-460).
- `check_nonsecure_*` and `check_secure_*` permission decisions: each is settled by one branch.
- Received key messages kept for later and their use: a look-up table with no further logic.
- Sequence numbers of messages as 64-bit integers: they are unbounded here.
- The security variant of payload encoding when fragments are cut, and the 16-bit submessage content length.
- The disconnected outcome of the status channel.
- `update_lease_duration`, local readers' own announcements, default locators filled into returned records and the records' time of last update.
- UTF-8 validity: texts are their octets; removing the last character removes its continuation octets too.
- Decoding of octets no encoder writes: a Boolean octet other than 0 counts as true, and unknown security attribute bits are accepted; which lists are refused is exact (`Decoding.RecordRefusedIff`).
- The data-tag codec, which has the layout of the string properties without the filter.
- `modify_by`, QoS builders, port formulas, entity identifier bytes and version tables: one-line facts.
- Fragmentation.FragmentAssembler.NewDatafrag: taken for fragments that agree with the first one of their sample in size; others trip an assertion or index outside the buffer in the source.
