# Aeron archive client: a verified model

The C++ archive client sends requests on one publication and waits for the answers on one ordered
response stream, which several threads, two pollers and other clients share. Around that protocol it
reads and writes channel URIs and property files, and a sample program computes the channel that
continues an existing recording. This project models these four parts and proves what they are for.

- **The control protocol.** `Protocol` says, for each kind of call, which message of the stream is the
  first decisive one. The classes in `Transport`, `ControlResponsePollers`, `RecordingDescriptorPollers`,
  `ArchiveProxies` and `AeronArchives` have the fields and loops of the C++ classes and are proved
  against that specification, for every arrival schedule, batch size and clock. `ArchiveRuns` is a step
  system of any number of threads, the archive and other clients. Its calls obey the same specification, and
  every result that the contracts of the calls and error checks of the class allow is the result of one of its
  runs.
- **Channel URIs.** `ChannelUris` gives the grammar of the text, the parser's loop and the printer;
  `SessionChannels` holds their clients (`addSessionId`, the replay channel, the control request channel).
- **Extending a recording.** `TermPositions` is the exact arithmetic of positions, `RecordedPublishers`
  the channel text and the whole path from the listing to the parsed channel. `Decimals` prints numbers.
- **Property lines.** `PropertiesReaders` is the line parser, the trims and the first-wins map.

## Assumptions about the Aeron library

The library is not part of the repository; `Transport` states what the model takes for granted.

- The subscription is a finite sequence of fragments and a cursor. Which fragments have arrived grows
  over time. A poll consumes some of them, up to its limit and in order. Only the fragment that completes
  a message reaches the handler, and the poll stops right after a fragment whose handler answers BREAK.
- An exception thrown by a handler ends the poll and reaches its caller; the fragment counts as consumed.
- Correlation ids never repeat. The clock never goes back; time passes when the clock is read and on every
  idle, and not inside a poll.
- An offer returns any result at any time; whether the subscription is connected may change at any time.
- A publication is at the position that lies as many terms after its initial term id as its term ids differ, in
  32 bits, plus the term offset; no publication is at a negative position.
- In runs, the archive answers only published requests, with one relevant id per request in its OK
  answers. It may answer late, repeatedly, with any code, and with errors at any time. Other clients may send
  any messages under other session ids, with any correlation ids.

## Findings

- The matching of calls and responses covers values, not errors: any error of the session ends a wait before its
  correlation id is looked at (src/AeronArchive.cpp:363-368). Take a state in which the lock is free, and the next
  call that sends its request. Every error that can fail that call is its own exactly when no request has been
  published before (`ArchiveRuns.ErrorsMatchOnlyAtFirst`). If the archive sends
  at most one response to each request, it is so exactly when every request has its response and no error
  response is still to be handled (`ArchiveRuns.ErrorsMatchWhenSettled`).
  `ArchiveRuns.LateErrorEndsLaterCall` is a run in which the late error of a timed-out call fails the next one.
- Extending a channel without a parameter list puts the appended text into the media, where no parameter is found
  (samples/RecordedBasicPublisher.cpp:204-207). `RecordedPublishers.ExtensionContinuesRecording` has the exact
  condition, `RecordedPublishers.ChannelWithoutParamsNotExtended` the input `aeron:ipc`.
- The sample extends a recording whatever its stop position (samples/RecordedBasicPublisher.cpp:199-202). The
  channel never continues a recording whose stop position is negative; for -1 it names the end of the term before
  the first (`RecordedPublishers.NegativeStopNotExtended`).
- An error check handles one message, so messages of other sessions can delay what it reports: they do so exactly
  when one of them is next and the first own message is an error (`Protocol.NextReportOfOwnMessages`,
  src/AeronArchive.cpp:92-104). In all, nothing is lost or added (`Protocol.ReportsOfOwnMessages`).
- The property parser passes an end index where `std::string` takes a count (src/util/PropertiesReader.cpp:80 and
  src/util/PropertiesReader.cpp:99). Its key is wrong exactly when the line begins with white space, and its value
  exactly when a comment follows (`PropertiesReaders.SlicesAgree`). `PropertiesReaders.LeadingSpaceSpoilsKey` and
  `PropertiesReaders.CommentSpoilsValue` have a line of each kind.

## Model

| member | source | states |
|---|---|---|
| Protocol.ResponseStops | src/AeronArchive.cpp:351-377 | in the messages' fields: a response wait stops exactly on the first unknown template, own-session error or own response to the own id, and its outcome is that message's template, error and relevant id, relevant id if OK, or code; otherwise it gives up before any of them |
| Protocol.ListingStops | src/RecordingDescriptorPoller.cpp:55-102 | in the messages' fields: a listing stops exactly on the first unknown template, own-session error, own "recording unknown", or descriptor that completes the count, with that message's template, its error, the number delivered, or the record count; otherwise it gives up before any of them |
| Protocol.OpeningStops | src/AeronArchive.cpp:308-335 | in the messages' fields: connecting stops exactly on the first unknown template or response to the connect request, with its template, session id, error and relevant id, or code |
| Protocol.ResponseWaitEnds | src/AeronArchive.cpp:351-377 | a response wait ends exactly on the first message that is an own-session error with any correlation id, an own response to the own id with any code, or of unknown template |
| Protocol.ReturnedByOwnResponse | src/AeronArchive.cpp:357-374 | a returned value is the relevant id of the own session's OK response to the own id, and no earlier own message was an error or an answer |
| Protocol.OpenedByFirstAnswer | src/AeronArchive.cpp:308-335 | connecting returns the session id of the first response to the connect request |
| Protocol.DeliveredExactly | src/RecordingDescriptorPoller.cpp:77-91 | the consumer sees exactly the descriptors of its session and correlation id, each once, in stream order |
| Protocol.ListingResult | src/AeronArchive.cpp:404-441 | a listing returns the number of descriptors delivered; it ends by its count only if the record count is positive, and otherwise on the own "recording unknown" |
| Protocol.DecisionUnique | src/AeronArchive.cpp:351-377 | a stream has at most one first decisive message for a wait, with one outcome |
| Protocol.DecidedReads | src/ControlResponsePoller.cpp:61-91 | stopping at a fragment position is the same as reading whole messages up to the first decisive one |
| Protocol.DecisionExists | src/AeronArchive.cpp:379-402 | some fragment ends the wait exactly when the messages to come contain a decision |
| Protocol.BatchingIndependence | src/AeronArchive.cpp:379-428 | for the same messages, outcome, deliveries and messages consumed do not depend on fragmentation, batches or arrival |
| Protocol.StopTransfers | src/AeronArchive.cpp:379-441 | any stop of a wait, decisive or given up, is possible on every stream that brings the same messages, with the same deliveries and messages consumed |
| Protocol.OwnMessagesDecide | src/AeronArchive.cpp:357-361 | deleting all known-template messages of other sessions changes neither deliveries nor decision |
| Protocol.SessionNonInterference | src/RecordingDescriptorPoller.cpp:67-86 | streams that agree on the own session's messages give every wait made after connecting the same outcome and deliveries |
| Protocol.ReportsExactly | src/AeronArchive.cpp:92-104 | error checks report exactly the own-session errors, each once, with its text, in stream order |
| Protocol.ReportsOfOwnMessages | src/AeronArchive.cpp:92-104 | error checks report in all exactly what they report on the own session's messages alone |
| Protocol.NextReportOfOwnMessages | src/AeronArchive.cpp:92-104 | the next error check reports what it reports without the messages of other sessions, except exactly when one of them is next and the first own message is an error |
| ControlResponsePollers.ControlResponsePoller.Poll | src/ControlResponsePoller.cpp:51-59 | consumes parts until one message is complete, holds exactly its fields, and stops right after it |
| ControlResponsePollers.ControlResponsePoller.OnFragment | src/ControlResponsePoller.cpp:61-91 | the fields describe the message, or it throws on an unknown template |
| RecordingDescriptorPollers.RecordingDescriptorPoller.Poll | src/RecordingDescriptorPoller.cpp:36-39 | dispatches up to the limit and stops exactly after the first decisive fragment since the reset |
| RecordingDescriptorPollers.RecordingDescriptorPoller.OnFragment | src/RecordingDescriptorPoller.cpp:55-102 | the consumer and the remaining count account for exactly the fragments since the reset |
| RecordingDescriptorPollers.RecordingDescriptorPoller.Reset | src/RecordingDescriptorPoller.cpp:41-47 | begins a new listing at the cursor with the given consumer and count |
| ArchiveProxies.ArchiveProxy.Offer | src/ArchiveProxy.cpp:263-285 | throws exactly on not connected, closed or maximum position exceeded; any other failure is tried again, and it gives up after exactly max(1, retryAttempts) of them; publishes the buffer at most once |
| ArchiveProxies.ArchiveProxy.OfferWithTimeout | src/ArchiveProxy.cpp:287-312 | throws exactly on closed or maximum position exceeded; gives up only past the connect time-out, and tries again only after offers made within the time-out of the first |
| ArchiveProxies.ArchiveProxy.Send | src/ArchiveProxy.cpp:92-105 | the published buffer is the complete request; attempts and fatal results as for Offer |
| AeronArchives.AeronArchive.PollNextResponse | src/AeronArchive.cpp:379-402 | returns after exactly one message; a time-out needs an empty poll past the deadline; terminates by (fragments left, time left) |
| AeronArchives.AeronArchive.AwaitSessionOpened | src/AeronArchive.cpp:308-335 | stops on the first decisive answer to the connect request |
| AeronArchives.AeronArchive.PollForResponse | src/AeronArchive.cpp:351-377 | stops right after the first decisive message with its outcome, or undecided after an empty poll, past the deadline or disconnected; goes on after an empty poll only within the time-out of its first poll |
| AeronArchives.AeronArchive.PollForDescriptors | src/AeronArchive.cpp:404-441 | as above for listings, with exactly the deliveries; a time-out needs that more than the message time-out has passed since the start and since each delivered descriptor was consumed; it goes on after an empty poll only within the time-out of its first poll or of one that follows a delivery |
| AeronArchives.AeronArchive.CallAndPollForResponse | src/AeronArchive.cpp:443-453 | publishes the request for a fresh id once and then waits for it, giving up only after an empty poll, past the time-out or disconnected, and going on only within it; if it does not publish, it has had max(1, retryAttempts) retryable offers or a fatal one and makes no poll |
| AeronArchives.AeronArchive.CallAndPollForDescriptors | src/AeronArchive.cpp:455-466 | the same for listings, where a time-out also needs that each delivered descriptor was consumed longer ago than the time-out |
| AeronArchives.AeronArchive.PollForErrorResponse | src/AeronArchive.cpp:92-104 | handles at most one message and reports a text exactly when the message is a control response of the own session with code error and that text |
| AeronArchives.AeronArchive.Connect | src/AeronArchive.cpp:36-70 | a successful connect takes the session id of the first answer and creates the descriptor poller for it; otherwise nothing is set, and it gave up only past the time-out without a connection, after an empty poll past the time-out or disconnected, or on the offers as for OfferWithTimeout |
| ArchiveRuns.ReachableInv | src/AeronArchive.cpp:443-466 | mutual exclusion, unique ids, complete buffers, single publication and faithful waits hold in every reachable state |
| ArchiveRuns.ReturnedValueIsOwnAnswer | src/AeronArchive.cpp:351-377 | in every run, each value a call has returned is the archive's relevant id for that call's own request, also after earlier calls timed out |
| ArchiveRuns.NoMessageServesTwoCalls | src/AeronArchive.cpp:443-453 | the messages handled by different calls are disjoint, whether the calls have finished, have given up or are still waiting |
| ArchiveRuns.WaitingCallLosesNothing | src/AeronArchive.cpp:92-104 | every answer to a call, waiting or over, that has been handled before its end was handled by that call, never by an error check |
| ArchiveRuns.ErrorCheckRunsAlone | src/AeronArchive.cpp:92-104 | while an error check may handle a message, no other thread is in a call |
| ArchiveRuns.PublishedRequestIsComplete | src/ArchiveProxy.h:81-93 | what is published is the whole request of the lock holder, encoded into the shared buffer in two steps, and it is new |
| ArchiveRuns.SentOnceOrNotAtAll | src/ArchiveProxy.cpp:263-285 | a call that waited published exactly once; a call that gave up sending had exactly max(1, retryAttempts) results and neither published nor polled |
| ArchiveRuns.WaitsEndOnFirstDecision | src/AeronArchive.cpp:404-441 | every wait of every run ends on its first decisive message with exactly its deliveries, or undecided |
| ArchiveRuns.SendingIsARun | src/ArchiveProxy.cpp:263-285 | every way of sending a request is a run: accepted, fatal, or given up after max(1, retryAttempts) retryable results |
| ArchiveRuns.WaitingIsARun | src/AeronArchive.cpp:351-441 | every stop that the polling loops' contracts allow, decisive or undecided and on any fragments of the messages, is a run of the waiting call with the same outcome, messages and deliveries |
| ArchiveRuns.CallIsARun | src/AeronArchive.cpp:443-466 | every result that the contracts of the two calls allow, for any fresh id, retries, arrivals, fragments and stop, is the result of a run with the same publication, messages, deliveries and outcome |
| ArchiveRuns.ErrorCheckIsARun | src/AeronArchive.cpp:92-104 | every result that the contract of an error check allows is the result of a run that handles the next message, or none, and reports it |
| ArchiveRuns.RunGrows | src/AeronArchive.cpp:92-104 | over any run the cursor only moves forward and stream, publications, answers and history only grow |
| ArchiveRuns.ErrorsMatchOnlyAtFirst | src/AeronArchive.cpp:363-368 | from a state with the lock free and whatever pending, every error that can fail the next call is its own exactly when no request was published before |
| ArchiveRuns.ErrorsMatchWhenSettled | src/AeronArchive.cpp:363-368 | with at most one response to each request, that holds exactly when every request has its response and no error response is pending |
| ArchiveRuns.LateErrorEndsLaterCall | src/AeronArchive.cpp:363-368 | a run in which the late error of a timed-out call fails the next call |
| ChannelUris.TextOfParts | src/ChannelUri.cpp:107-202 | the texts of the grammar, character by character: the prefixes, the media, and each parameter behind ? or its bar |
| ChannelUris.ParseIsTheGrammar | src/ChannelUri.cpp:107-202 | parse accepts exactly the texts made of a media without ? and :, keys without = and values without a bar, and yields the spy prefix if there is one, the media, and the last-wins map |
| ChannelUris.GrammarUnambiguous | src/ChannelUri.cpp:107-202 | a text decomposes in one way |
| ChannelUris.RoundTrip | src/ChannelUri.cpp:82-105 | printing in any order and parsing gives the URI back exactly when it is well formed |
| ChannelUris.ReprintingKeepsMeaning | src/ChannelUri.cpp:82-105 | parsing the reprint of an accepted text gives the same URI |
| ChannelUris.PrintText | src/ChannelUri.cpp:82-105 | what is printed is the prefix, with a colon behind it if there is one, and the text of the media and the parameters in their order |
| ChannelUris.StartsWith | src/ChannelUri.cpp:34-39 | decides whether the text at the position begins with the prefix |
| ChannelUris.ChannelUri.Parse | src/ChannelUri.cpp:107-202 | the three-state loop computes the URI of the grammar, or rejects |
| ChannelUris.ChannelUri.ToString | src/ChannelUri.cpp:82-105 | prints the entries in some enumeration of the map |
| ChannelUris.ChannelUri.Put | src/ChannelUri.cpp:64-64 | sets one parameter and leaves the rest |
| ChannelUris.LastPairWins | src/ChannelUri.cpp:131-199 | a key has a value exactly when its last pair in the text has it |
| ChannelUris.ParsedParameter | src/ChannelUri.cpp:107-202 | the URI parsed from a text has a parameter with a value exactly when the last pair of that key in the text has the value, so that get finds it |
| SessionChannels.AddSessionId | src/ChannelUri.cpp:204-208 | returns a printing that parses to the given URI with `session-id` set to the printed id, or fails with the parser |
| SessionChannels.SessionIdSetsItsKey | src/ChannelUri.cpp:204-208 | after re-parsing, only `session-id` has changed |
| SessionChannels.LastSessionIdWins | src/ChannelUri.cpp:204-208 | setting twice means setting the last |
| SessionChannels.SessionChannelsDistinct | src/ChannelUri.cpp:204-208 | different session ids never give the same channel text |
| SessionChannels.ReplayChannel | src/AeronArchive.cpp:225-232 | the replay channel carries in `session-id` the 32-bit number congruent to the replay session id |
| SessionChannels.ReplaySessionsDistinct | src/AeronArchive.cpp:225-232 | replay channels coincide exactly when the ids agree in the low 32 bits |
| SessionChannels.Context.SetControlRequestChannel | src/Context.cpp:114-121 | the stored channel parses to the given one with `term-length`, `mtu` and `sparse` (1 or 0) set; a rejected one changes nothing |
| SessionChannels.ControlParamsOnlyOwnKeys | src/Context.cpp:114-121 | the settings change their own keys only, and setting them again changes nothing |
| Decimals.DecimalReadBack | src/ChannelUri.cpp:206-206 | decimal printing can be read back |
| Decimals.DecimalShape | src/ChannelUri.cpp:206-206 | numbers are printed in base ten without leading zeros, negative ones behind a sign |
| Decimals.ToInt32Is | src/AeronArchive.cpp:232-232 | narrowing gives the congruent 32-bit number |
| TermPositions.BitsOfTermLength | samples/RecordedBasicPublisher.cpp:40-75 | the accepted lengths are exactly the powers of two from 2^16 to 2^30, with their exponents |
| TermPositions.TermRoundTrip | samples/RecordedBasicPublisher.cpp:77-80 | the term id lies, in 32 bits, as many terms after the initial one as the position has, and the offset is the rest; they give the position back exactly when it lies within 2^31 terms; the offset is in range and keeps 32-byte alignment |
| TermPositions.PositionAtTerm | samples/RecordedBasicPublisher.cpp:199-207 | a term so many terms, in 32 bits, after the initial one, and an offset, place a publication at that many terms plus the offset |
| TermPositions.TermPositionsDistinct | samples/RecordedBasicPublisher.cpp:199-202 | distinct expressible positions have distinct term positions |
| RecordedPublishers.AppendingParams | samples/RecordedBasicPublisher.cpp:204-207 | appended parameters override those of a channel with a parameter list, and otherwise become media text |
| RecordedPublishers.OverriddenParams | samples/RecordedBasicPublisher.cpp:204-207 | the five appended keys have their values and every other key is unchanged |
| RecordedPublishers.ExtensionText | samples/RecordedBasicPublisher.cpp:199-207 | the text of the extended channel, whatever the channel, with the numbers that make up the stop position |
| RecordedPublishers.ExtensionContinuesRecording | samples/RecordedBasicPublisher.cpp:199-209 | the parsed extended channel places the publication at the stop position exactly when the channel has a parameter list and the position is expressible and not negative |
| RecordedPublishers.ChannelWithoutParamsNotExtended | samples/RecordedBasicPublisher.cpp:204-207 | the extension of `aeron:ipc` parses to a channel with no parameter and no position |
| RecordedPublishers.NegativeStopNotExtended | samples/RecordedBasicPublisher.cpp:199-207 | for the stop position -1 the channel has the last offset of the term before the first, and no position |
| RecordedPublishers.GetLatestRecordingData | samples/SamplesUtil.cpp:24-42 | keeps, unchanged, the last descriptor delivered by a listing of up to 100, or an id of -1 if there was none |
| RecordedPublishers.RebuildChannel | samples/RecordedBasicPublisher.cpp:123-212 | end to end: from the last descriptor that the listing delivered to a channel that continues it, exactly under the conditions of ExtensionContinuesRecording, or the branch the sample takes instead |
| PropertiesReaders.ParseLine | src/util/PropertiesReader.cpp:60-104 | the three-state loop computes the entry of the line's layout |
| PropertiesReaders.LayoutExact | src/util/PropertiesReader.cpp:60-104 | every line has exactly one layout: blank, a key without value, or key, separator and value |
| PropertiesReaders.LineRecovered | src/util/PropertiesReader.cpp:60-104 | a line made of a key, a separator and a value gives them back |
| PropertiesReaders.EntryOfLine | src/util/PropertiesReader.cpp:78-101 | a line with a key and a separator has the two trimmed slices as its entry |
| PropertiesReaders.BlankLines | src/util/PropertiesReader.cpp:67-76 | white space, with or without a comment behind it, has the empty entry |
| PropertiesReaders.KeyAloneFails | src/util/PropertiesReader.cpp:96-97 | a key that no separator follows does not parse, with or without a comment |
| PropertiesReaders.SlicesAgree | src/util/PropertiesReader.cpp:80-99 | the start-and-count slices agree with start-to-end slices exactly when no white space leads and no comment follows |
| PropertiesReaders.LeadingSpaceSpoilsKey | src/util/PropertiesReader.cpp:80-80 | one leading space turns the key of `k=v` into `k=` |
| PropertiesReaders.CommentSpoilsValue | src/util/PropertiesReader.cpp:99-99 | a comment behind the value becomes a part of it |
| PropertiesReaders.WhiteSpaceIs | src/util/PropertiesReader.cpp:22-28 | white space is the six characters of the C locale |
| PropertiesReaders.TrimSplit | src/util/PropertiesReader.cpp:22-33 | trimming removes white space at both ends and nothing else |
| PropertiesReaders.PropertiesReader.Load | src/util/PropertiesReader.cpp:48-57 | the line loop builds the first-wins map, and fails exactly when errors are not skipped and a line does not parse |
| PropertiesReaders.FirstLineOfKey | src/util/PropertiesReader.cpp:48-57 | each key has the value of the first line that parses to it |
| PropertiesReaders.FirstEntryOfKey | src/util/PropertiesReader.cpp:48-57 | a key has a value exactly when the first line whose entry has that key has that value |
| PropertiesReaders.OrderIrrelevant | src/util/PropertiesReader.cpp:48-57 | every permutation of the lines gives the same map exactly when no two lines disagree on a key |

## Left out

- Aeron internals and byte layouts: messages and requests are datatypes, and the fragment assembler is the rule that only the last part of a message reaches a handler. A message whose parts are polled by both pollers, each with its own assembler, is not modelled.
- Fields of a recording descriptor that no modelled consumer keeps.
- Invocations of the client conductor's agent invoker, and the waiting loops for publications and subscriptions to appear.
- Exception texts, logging, command line options, signals and environment variables; `RecordingPos`, `RecordingEventsAdapter` and the throughput sample, which would only add easy members.
- `checkForErrorResponse` and `findLatestRecordingId`: they are `pollForErrorResponse` and `getLatestRecordingData` with another ending.
- Overloads without an invoker, `tryConnect` and the single requests of the proxy: they all have the shape of `Send` or `Connect`.
- The deadline checks of both polling loops are one method of the model, `IdleUntil`, the renewal of a listing's deadline is in `RenewAndIdle`, and the loops test `fragments == 0` instead of continuing on `fragments > 0`.
- The lock is a flag in the imperative classes; contention is modelled in `ArchiveRuns`.
- ArchiveRuns.ErrorsMatchWhenSettled: a listing that was answered by descriptors alone counts as unanswered, because the archive of the model may still send its one control response.
- Message parts in the streams of runs, which consist of whole messages; `ArchiveRuns.CallIsARun` relates them to streams of fragments.
- ArchiveRuns.ReachableInv: time and connection are not part of a run's state, so a waiting call may give up at any point; when the loops may do so is proved of the methods.
- AeronArchives.AeronArchive.PollForDescriptors: a record count that is not positive counts down without bound, where the 32-bit counter of the source would overflow after 2^31 descriptors.
- TermPositions.TermRoundTrip: the mask of the source is a remainder by a power of two here, and the 32-bit sum, which C++ leaves undefined on overflow, wraps around.
- The narrowing of the result of `findLastMatchingRecording` to 32 bits.
- PropertiesReaders.PropertiesReader.Load: reading the file and splitting it into lines; typed access to the values.
