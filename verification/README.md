# Verification model

A Dafny model of the protocols that carry state in this repository, with
proofs about every run or every input. `dafny verify dfyconfig.toml` checks it.

| file | models |
|---|---|
| `FileSession.dfy` | one file from end to end: announcement, transfer, and the receiver's record of it |
| `FileTransfer.dfy` | chunked file transfer: send pump, feedback, two-party protocol |
| `StreamParser.dfy` | the octet stream to 32-bit word transformer the feedback goes through |
| `FileStatus.dfy` | the reducers that record what file channels carry |
| `ChatReplica.dfy` | the message list replicated between two peers: add, amend, delete, acknowledge |
| `ChatEffects.dfy` | what each chat operation does, message by message, and what both peers end up with |
| `TrackDuplicater.dfy` | Bind and Unbind of a duplicated track over its upstream handle |
| `DownstreamConsumer.dfy` | the bounded, dropping, draining queue of one downstream |
| `WriteProxy.dfy` | the rendezvous that serialises writers onto one websocket |
| `MsgsStore.dfy` | the versioned message store and the collection of a version |
| `Counters.dfy` | the two compare-and-swap counters |
| `UserStore.dfy` | the indexed user store, whose versions share their index maps |
| `PatchCodec.dfy` | message patches: writer, reader, and the text shown |
| `NameHash.dfy` | the 32-bit hash of a username |
| `Relay.dfy` | the connection registry and the signalling relay on it |
| `Bytes.dfy`, `Wrappers.dfy` | octets, chunks, and the optional value |

Concurrent code is a state machine over its atomic steps. A run is any list of
steps; a step that is not enabled when its turn comes is skipped, so the lists
are all the interleavings. Code that works in place is a method on arrays or
on objects, proved against a function whose own properties are lemmas.

Assumptions:

- Data channels are reliable and ordered (section 6.4 of RFC 8831).
- The low-buffer event fires when the buffered amount goes from above the
  threshold to at or below it (section 6.2 of WebRTC 1.0), and the buffered
  amount does not shrink while the pump runs.
- Events of a channel come after its open event, ids from `randomUUID` and
  `uuid` are fresh, and a send succeeds.
- JavaScript numbers and Go ints are unbounded except where their width shows:
  the 32-bit feedback words, the 16-bit lengths and 8-bit kind of a patch, and
  the 32-bit hash.
- Strings on the wire are sequences of octets; a username is the sequence of
  its UTF-16 code units; a message is a datatype and not its JSON text.
- The map operations of `sync.Map`, the requests of the safemap actor and the
  pointer compare-and-swap are atomic; unbuffered channels are rendezvous.
- A missing counter or list in a status record is the same as 0 or `[]`.

Where the code differs from its comments, the model follows the code:

- `webrtc-web/app/page.tsx:731-733` says the order of open and data events does
  not matter; the open handler replaces the record (`OpenDiscardsEarlierData`).
- `webrtc-server/pkg/models/user/user.go:65-66` and `:87` call a clone private
  to its goroutine; `:73` makes it share the index maps
  (`AddUserAndLoseTheSwap`), so only sequential runs are claimed.
- Three dereferences of nil end the server process, since they happen in the
  goroutines of a read loop or of the registry, which recover nothing: the
  error message of a failed write names the addressee of an offer that a
  message with only a candidate does not have
  (`webrtc-server/pkg/handler/handle_ws.go:52`); a rename reads the old name of
  a connection that has not registered
  (`webrtc-server/pkg/connreg/connection_registry.go:217`); and the read loop
  resets a timer that the timeout has set to nil while a message was being
  handled (`webrtc-server/pkg/handler/handle_ws.go:216-221` and `:247`). In the
  model such a step sets `panic` and nothing is enabled afterwards;
  `DereferenceIffPossible` says exactly which messages make each possible.
- An empty file is announced, but its channel closes only if the opening report
  is not lost (`QuiescentMeansClosed`, `EmptyFileMayNeverClose`).
- The `githubId` and `dn42ASN` arguments of the two LoadOrCreate methods are
  not used; the ids of the user are.
- User ids of a provider are unique only because both login handlers set their
  own one alone (`webrtc-server/pkg/handler/handle_github_login.go:250-257`,
  `webrtc-server/pkg/handler/handle_kioutbit_login.go:179-183`) and a bot has
  none; `RunKeepsUnique` is the exact condition.

## Model

| member | source | states |
|---|---|---|
| `FileSession.FileArrives` | webrtc-web/app/page.tsx:1310-1375 | when the sender has closed the channel and the receiver has handled that, the receiver's file message has ended and its chunks concatenate to the file; it is there unless somebody deleted it |
| `FileSession.PartOfFileArrives` | webrtc-web/app/page.tsx:633-681 | whenever the file message has ended, by the sender's close or because the channel was lost, its chunks are a beginning of the file |
| `FileSession.AnnouncedBeforeSent` | webrtc-web/app/page.tsx:1340-1358 | the transfer starts, and so any octet leaves, only after the peer has applied the message that announces the file, whatever other messages and acknowledgements the two exchange |
| `FileSession.AcknowledgedMeansStarted` | webrtc-web/app/page.tsx:1147-1179 | an announced transfer that has not been given up has started once every message has been delivered |
| `FileSession.SessionFinishes` | webrtc-web/app/page.tsx:1310-1375 | when an announced transfer that was not given up, on a channel that was not lost, can go no further, the sender has sent everything and has closed the channel if and only if the file is not empty or its opening report was not lost; the receiver's close event then makes the file arrive |
| `FileSession.UndisturbedAnnouncement` | webrtc-web/app/page.tsx:1313-1358 | an announcement left alone puts the file message with its name, type and channel last on the receiver's list, and the transfer starts when its acknowledgement arrives |
| `FileSession.OthersGoOn` | webrtc-web/app/page.tsx:806-839 | other messages are sent, and other events handled, as if there were no session |
| `FileSession.TransferOfSession` | webrtc-web/app/page.tsx:1310-1375 | the transfer in a session is a run of the transfer alone, so all its results hold there |
| `FileSession.ChatOfSession` | webrtc-web/app/page.tsx:1273-1308 | the conversation in a session is a run of the conversation alone, so all its results hold there |
| `FileTransfer.ClosedMeansReceived` | webrtc-web/app/page.tsx:1182-1271 | in every run the sender calls close at most once, and when it has, the receiver's chunks concatenate to exactly the file and nothing is in flight |
| `FileTransfer.Conservation` | webrtc-web/app/page.tsx:1182-1271 | in every state of every run, octets received followed by octets in flight are the part of the file sent, and sizes read by the sender plus sizes on the way add up to the octets received |
| `FileTransfer.PumpNeverStalls` | webrtc-web/app/page.tsx:1231-1270 | the buffer never exceeds the threshold by more than one octet, and an unfinished transfer always has a low-buffer event pending or a crossing to come |
| `FileTransfer.RunsAreBounded` | webrtc-web/app/page.tsx:1182-1271 | a transfer takes at most nine productive steps per octet and seven more |
| `FileTransfer.QuiescentMeansClosed` | webrtc-web/app/page.tsx:1182-1271 | a transfer that can go no further was abandoned before the first octet, or sent everything; it has then closed the channel if and only if the file is not empty or the opening report reached the sender's reader |
| `FileTransfer.EmptyFileMayNeverClose` | webrtc-web/app/page.tsx:731-741 | the concrete run in which an empty file never closes: the receiver reports size 0 on opening, before the sender has attached its reader |
| `FileTransfer.PumpSendsPrefix` | webrtc-web/app/page.tsx:1231-1265 | one run of the pump sends the next octets of the file, in slices of at most 128 KiB, none empty: all that remain, or one octet more than was free |
| `FileTransfer.SlicesAreFull` | webrtc-web/app/page.tsx:1231-1265 | every slice of a run of the pump but the last has exactly 131072 octets |
| `FileTransfer.Transmission.DoSendChunk` | webrtc-web/app/page.tsx:1231-1252 | sends the next slice, which ends at the segment size, the end of the file or one octet past the free space, and answers 0 exactly at the end of the file or when the channel throws, in which case the offset has advanced all the same |
| `FileTransfer.Transmission.DoSendChunks` | webrtc-web/app/page.tsx:1256-1265 | as long as no send throws the loop terminates having sent the slices of PumpSendsPrefix, with the file finished or the buffer exactly one octet above the threshold |
| `FileTransfer.Transmission.ReadFeedBackStream` | webrtc-web/app/page.tsx:1201-1220 | reads one report after the other, adding it to the total and calling close whenever the total has reached the file size |
| `FileTransfer.ReadFeedbackCloses` | webrtc-web/app/page.tsx:1212-1218 | while reports do not exceed the file, close is called exactly once, by the report that completes it |
| `FileTransfer.StepWork` | webrtc-web/app/page.tsx:1182-1271 | every productive step reduces the work left |
| `StreamParser.ChunkingIndependent` | webrtc-web/utls/streams.ts:26-75 | the words emitted, and the octets kept, are those of the whole stream however it is cut into chunks, empty ones included |
| `StreamParser.FeedbackRoundTrip` | webrtc-web/app/page.tsx:683-699 | sizes encoded by the receiver, cut into chunks anywhere, are parsed back to themselves if and only if each is below 2^32; nothing is left over |
| `StreamParser.WordOfEncode` | webrtc-web/app/page.tsx:696-698 | a size written with setUint32 reads back modulo 2^32 |
| `StreamParser.FourOctets` | webrtc-web/utls/streams.ts:43-48 | four octets are one big-endian word, and that number is reported as those four octets |
| `StreamParser.WordsAt` | webrtc-web/utls/streams.ts:43-48 | word i of the stream is the big-endian word at octet 4i, and there are as many as fit |
| `StreamParser.RestIsLast` | webrtc-web/utls/streams.ts:51-57 | what is kept is the last fewer-than-four octets |
| `StreamParser.WordsResume` | webrtc-web/utls/streams.ts:35-59 | parsing may stop after any octet and resume from what was kept |
| `StreamParser.MergeArrayBuffers` | webrtc-web/utls/streams.ts:13-23 | the fresh buffer holds the chunks one after the other |
| `StreamParser.Uint32StreamParser.DoConsume` | webrtc-web/utls/streams.ts:35-59 | emits all complete words kept and keeps the remainder |
| `StreamParser.Uint32StreamParser.Transform` | webrtc-web/utls/streams.ts:61-70 | emits the words of what was kept followed by the chunk; a chunk of another type is an error and changes nothing |
| `StreamParser.Uint32StreamParser.Flush` | webrtc-web/utls/streams.ts:71-73 | emits what is complete when the stream ends |
| `StreamParser.PipeThrough` | webrtc-web/utls/streams.ts:25-75 | a whole stream piped through the parser yields the words of its octets |
| `FileStatus.SessionChunks` | webrtc-web/app/page.tsx:575-716 | a file message ends with exactly the buffers its channel carried between open and close, with the error of that close and a link to the local file or to those buffers under the message's name and type, whatever happens to other channels and messages, and whatever happens on any channel afterwards, unless somebody amends or deletes the message |
| `FileStatus.SessionEnds` | webrtc-web/app/page.tsx:575-716 | the same field by field: name and type stay, channel, link, local file, chunks and error are set |
| `FileStatus.DataIsRecorded` | webrtc-web/app/page.tsx:546-592 | data of any kind is counted and numbered with its type; array buffers are kept in order, anything else makes the record forget them; messages and other channels are left alone |
| `FileStatus.AnnouncedIsLast` | webrtc-web/app/page.tsx:533-540 | a message is added last unless one with its id is there |
| `FileStatus.AmendedInPlace` | webrtc-web/app/page.tsx:522-528 | an amend replaces the first message with the id in its place |
| `FileStatus.DeletedInOrder` | webrtc-web/app/page.tsx:529-532 | a delete keeps the other messages in their order |
| `FileStatus.FinishedIsFrozen` | webrtc-web/app/page.tsx:633-681 | a finished file message survives any later events, reuse of its channel id included, as long as nobody amends or deletes it |
| `FileStatus.SomeOpenIsFound` | webrtc-web/app/page.tsx:640-642 | the name and type of the link are those of the first message that uses the channel |
| `FileStatus.CloseTwice` | webrtc-web/app/page.tsx:633-681 | closing a channel again, as an error followed by a close does, changes nothing |
| `FileStatus.ClosedChannelIsForgotten` | webrtc-web/app/page.tsx:675-680 | after a close whatever comes on a reused channel id is recorded from nothing |
| `FileStatus.ChunksAccumulate` | webrtc-web/app/page.tsx:546-592 | while a channel stays open its record takes the buffers in order and counts them and their octets, whatever other channels do |
| `FileStatus.ChunksAreNumbered` | webrtc-web/app/page.tsx:559-565 | the metadata of every running transfer numbers its chunks from 0 |
| `FileStatus.OpenDiscardsEarlierData` | webrtc-web/app/page.tsx:728-741 | the entry made on open replaces what was recorded before: nothing is lost if and only if no buffer came before the open event (the comment in the source says the order does not matter) |
| `ChatReplica.Convergence` | webrtc-web/app/page.tsx:504-544 | in every run of two peers both lists hold no id twice, and hold the same messages by id, up to the acked flags, once all requests are delivered |
| `ChatReplica.OrderConvergence` | webrtc-web/app/page.tsx:504-544 | once all requests are delivered both lists have the messages of each author in the same order |
| `ChatReplica.DisplayedWasApplied` | webrtc-web/app/page.tsx:1650-1653 | an own message that passes the display filter has been applied by the peer |
| `ChatReplica.AllDisplayedInTheEnd` | webrtc-web/app/page.tsx:790-821 | when everything has been delivered every message held is displayed |
| `ChatReplica.ScreensAgree` | webrtc-web/app/page.tsx:1650-1653 | then both screens show the same messages, those of each author in the same order |
| `ChatReplica.AckMeansApplied` | webrtc-web/app/page.tsx:806-821 | an acknowledgement on its way is for a request the peer has applied |
| `ChatReplica.RequestsApplyOnce` | webrtc-web/app/page.tsx:806-821 | a request that has been applied is not on its way again |
| `ChatEffects.SentArrives` | webrtc-web/app/page.tsx:2198-2207 | a message sent, and then neither amended nor deleted, is on both lists with the text typed, once all requests are delivered |
| `ChatEffects.AmendedArrives` | webrtc-web/app/page.tsx:1655-1677 | the text of the last amend is on both lists once all requests are delivered, unless somebody has deleted the message |
| `ChatEffects.DeletedStaysAway` | webrtc-web/app/page.tsx:1679-1696 | a message deleted by either peer is on neither list once all requests are delivered |
| `ChatEffects.SameMessages` | webrtc-web/app/page.tsx:504-544 | each message of one peer is then, up to its acked flag, a message of the other |
| `ChatEffects.SendEffect` | webrtc-web/app/page.tsx:1273-1308 | sending puts the message with its id, author and text, not acknowledged, last on one's own list and last on its way to the peer, and nothing else happens |
| `ChatEffects.AmendEffect` | webrtc-web/app/page.tsx:1655-1677 | amending sets the text of that own message and nothing else, here and in the request sent |
| `ChatEffects.DeleteEffect` | webrtc-web/app/page.tsx:1679-1696 | deleting takes that message and no other out of the list, and sends its id |
| `ChatEffects.RequestEffect` | webrtc-web/app/page.tsx:806-821 | a request that arrives adds its message last, replaces the amended one in its place, or takes out the deleted one, and is answered with an acknowledgement of its id |
| `ChatEffects.AckEffect` | webrtc-web/app/page.tsx:790-805 | an acknowledgement marks the messages with its id and does nothing else |
| `ChatEffects.UndisturbedMessageArrives` | webrtc-web/app/page.tsx:1273-1308 | a message sent, delivered and acknowledged with no other on its way is last on both lists, and acknowledged on its author's |
| `ChatReplica.UpdateMeaning` | webrtc-web/app/page.tsx:504-544 | what an add, amend or delete does to the list is what it does to the map from ids to messages |
| `ChatReplica.UpdateOrderMeaning` | webrtc-web/app/page.tsx:522-540 | an add puts the message last, an amend keeps places, a delete closes the gap |
| `ChatReplica.OrdersCommute` | webrtc-web/app/page.tsx:522-540 | requests of different authors on different messages, and two deletes, have the same effect on the order of an author in either sequence |
| `ChatReplica.DistinctKept` | webrtc-web/app/page.tsx:504-544 | an update never puts an id in the list twice |
| `ChatReplica.ViewOfMarked` | webrtc-web/app/page.tsx:790-805 | marking messages acknowledged changes no message otherwise |
| `ChatReplica.IndependentCommute` | webrtc-web/app/page.tsx:522-540 | requests on different messages, and a delete with a delete or an amend, commute |
| `ChatReplica.AmendsCommute` | webrtc-web/app/page.tsx:522-528 | two amends of one message commute if and only if they agree, which is why only the author may amend |
| `ChatReplica.SettledCommutes` | webrtc-web/app/page.tsx:1655-1696 | an operation made now has the effect of one made after everything on its way has arrived |
| `ChatReplica.NextInv` | webrtc-web/app/page.tsx:718-832 | one operation or one delivery keeps the two-replica invariant, of which Convergence and DisplayedWasApplied are consequences |
| `TrackDuplicater.IdleMeansBoundIffConsumed` | webrtc-agents/pkg/tracks/duplicate/duplicate.go:124-206 | when no Bind or Unbind is under way the upstream is bound if and only if some consumer exists, under every interleaving |
| `TrackDuplicater.SettledConsumerIsFed` | webrtc-agents/pkg/tracks/duplicate/duplicate.go:124-206 | in every state, whatever else is under way, a consumer whose Bind has returned has its upstream bound |
| `TrackDuplicater.UpstreamCallsAlternate` | webrtc-agents/pkg/tracks/duplicate/duplicate.go:141-172 | successful binds and unbinds of the upstream alternate strictly and the handle never answers that it is already bound |
| `TrackDuplicater.UnbindAlone` | webrtc-agents/pkg/tracks/duplicate/duplicate.go:181-206 | an Unbind left alone, in any reachable state with the mutex free, returns having removed its consumer and no other, and has unbound the upstream if and only if it was bound and no consumer remains |
| `TrackDuplicater.BindAlone` | webrtc-agents/pkg/tracks/duplicate/duplicate.go:122-179 | a Bind left alone returns with its consumer stored and the upstream bound if it was bound or the context offers Opus, and otherwise with the consumer absent and the upstream unbound |
| `TrackDuplicater.NoDeadlock` | webrtc-agents/pkg/tracks/duplicate/duplicate.go:136-137 | some call can go on if and only if some call is under way |
| `TrackDuplicater.CallsReturn` | webrtc-agents/pkg/tracks/duplicate/duplicate.go:124-206 | in every run, once the calls under way have gone as far as they can, which is at most seven steps each, all have returned and the upstream is bound if and only if some consumer exists |
| `TrackDuplicater.WatchedStep` | webrtc-agents/pkg/tracks/duplicate/duplicate.go:196-203 | while a source context exists there is a consumer or a call that has yet to count them, although the count takes no snapshot |
| `TrackDuplicater.SourceStep` | webrtc-agents/pkg/tracks/duplicate/duplicate.go:141-172 | source context and upstream binding agree except between the two updates of the mutex holder |
| `TrackDuplicater.CountStep` | webrtc-agents/pkg/tracks/duplicate/duplicate.go:247-254 | what the count has met and is gone was deleted by a call that now waits for the mutex |
| `TrackDuplicater.TrackHandle.Bind` | webrtc-agents/pkg/tracks/handle.go:209-225 | refuses a context without Opus or with an id already bound, and otherwise enters its stop channel |
| `TrackDuplicater.TrackHandle.Unbind` | webrtc-agents/pkg/tracks/handle.go:229-239 | removes the stop channel if there is one |
| `DownstreamConsumer.FifoAndDrops` | webrtc-agents/pkg/tracks/duplicate/duplicate.go:78-120 | in every run the writes attempted followed by the buffer are the packets accepted, in order, and a packet is refused only by a full buffer |
| `DownstreamConsumer.CloseDrains` | webrtc-agents/pkg/tracks/duplicate/duplicate.go:89-110 | when close returns everything accepted before the stop signal has been attempted, in order |
| `DownstreamConsumer.StopThenClose` | webrtc-agents/pkg/tracks/duplicate/duplicate.go:89-110 | whatever had been attempted or waited when stop was said has been attempted, in that order, when close returns |
| `DownstreamConsumer.SendOutcome` | webrtc-agents/pkg/tracks/duplicate/duplicate.go:113-120 | a packet sent in any reachable state is accepted if and only if the buffer has room or the writer waits on an empty one, and is then the last of those attempted and waiting |
| `DownstreamConsumer.WriterCanMove` | webrtc-agents/pkg/tracks/duplicate/duplicate.go:80-103 | the writer has a step if and only if it is not done and a packet waits, a write is under way, or stop was said |
| `DownstreamConsumer.AcceptedIsSubsequence` | webrtc-agents/pkg/tracks/duplicate/duplicate.go:113-120 | the packets accepted are a subsequence of those offered |
| `DownstreamConsumer.StoppedCanMove` | webrtc-agents/pkg/tracks/duplicate/duplicate.go:80-110 | after the stop signal the writer or close has a step to take until close has returned |
| `DownstreamConsumer.CloseIsPrompt` | webrtc-agents/pkg/tracks/duplicate/duplicate.go:89-110 | those steps are at most two for each packet buffered and four more |
| `DownstreamConsumer.PacketChannel.Send` | webrtc-agents/pkg/tracks/duplicate/duplicate.go:113-120 | the non-blocking send adds the packet at the end, hands it to a parked writer, or drops it if and only if neither is possible |
| `DownstreamConsumer.ForwardToDownstreams` | webrtc-agents/pkg/tracks/duplicate/duplicate.go:266-276 | every consumer is sent the packet once, in whatever order they are met, and those that could not take it are reported |
| `WriteProxy.OneCallIsServed` | webrtc-server/pkg/ws_proxy/ws_proxy.go:26-47 | with any number of concurrent calls at most one is past the first channel, and a write in progress is of the data of that call |
| `WriteProxy.OwnResult` | webrtc-server/pkg/ws_proxy/ws_proxy.go:49-61 | a call that returned was told the result of the one write that carried its own data, or found the proxy closed after cancellation |
| `WriteProxy.NoDeadlock` | webrtc-server/pkg/ws_proxy/ws_proxy.go:26-61 | something can move if and only if a call has not returned or a cancellation has not been noticed |
| `WriteProxy.OutstandingCallsReturn` | webrtc-server/pkg/ws_proxy/ws_proxy.go:26-61 | in every run, once the proxy and the calls already made have gone as far as they can, which is a bounded number of steps, every call has returned, with the result of the one write of its own data or, after cancellation only, the closed error |
| `WriteProxy.UndisturbedWrite` | webrtc-server/pkg/ws_proxy/ws_proxy.go:35-60 | a call made while the runner waits, and left alone with it, writes its data once, returns that result, and leaves other calls alone |
| `WriteProxy.ClosedAnswers` | webrtc-server/pkg/ws_proxy/ws_proxy.go:36-53 | once cancelled and stopped the proxy writes nothing and answers that it is closed |
| `WriteProxy.ProgressIsBounded` | webrtc-server/pkg/ws_proxy/ws_proxy.go:26-61 | left to themselves the proxy and the calls already made stop within five steps for each waiting call and four more |
| `WriteProxy.HandshakeStep` | webrtc-server/pkg/ws_proxy/ws_proxy.go:35-43 | runner and served call stay at matching points of the handshake |
| `WriteProxy.ChannelStep` | webrtc-server/pkg/ws_proxy/ws_proxy.go:55-60 | error channels stay private to their call |
| `MsgsStore.StoreIsLinearizable` | webrtc-agents/pkg/msgs_store/msgs_store.go:55-79 | the published version is what the published messages give when appended one by one in the order of the swaps, and each session holds its own messages in that order |
| `MsgsStore.PublishedExactlyOnce` | webrtc-agents/pkg/msgs_store/msgs_store.go:55-79 | an Append that returned nil published its message exactly once, and no other call has published |
| `MsgsStore.GivingUpMeansOthersSucceeded` | webrtc-agents/pkg/msgs_store/msgs_store.go:56-76 | an Append that returns the retry error has seen at least 10000 other Appends succeed during the call |
| `MsgsStore.FailedSwapMeansProgress` | webrtc-agents/pkg/msgs_store/msgs_store.go:67-71 | a swap finds the pointer unchanged if and only if nobody has published since the load |
| `MsgsStore.UndisturbedAppendPublishes` | webrtc-agents/pkg/msgs_store/msgs_store.go:57-70 | from any reachable state an Append left alone for one round publishes its message on top of what is there |
| `MsgsStore.VersionsAreImmutable` | webrtc-agents/pkg/msgs_store/msgs_store.go:81-83 | a version never changes once it exists, whoever has loaded it |
| `MsgsStore.ChainIsFold` | webrtc-agents/pkg/msgs_store/msgs_store.go:58-70 | each publication extends the one before it by exactly one message |
| `Messages.AppendedAllBySession` | webrtc-agents/pkg/handlers/chatbot_dc_handler.go:48-59 | appending messages one by one gives each session those that name it, in order, and the empty name those that name none |
| `Messages.OneMoreMessage` | webrtc-agents/pkg/handlers/chatbot_dc_handler.go:48-54 | an appended message is found last under the session it names, or under the empty name, and nowhere else |
| `MsgsStore.UndisturbedAppend` | webrtc-agents/pkg/msgs_store/msgs_store.go:55-79 | an Append called and left alone publishes its message: a reader of its session finds it last, and the other sessions are as they were |
| `MsgsStore.RetriesRunOut` | webrtc-agents/pkg/msgs_store/msgs_store.go:56-76 | a call starts with 10000 swaps to fail; each failure takes one, and the last gives the error |
| `MsgsCollection.IndexedMsgsCollection.CloneLists` | webrtc-agents/pkg/handlers/chatbot_dc_handler.go:36-46 | the new map has a copy of every list in an array of its own |
| `MsgsCollection.IndexedMsgsCollection.DeepClone` | webrtc-agents/pkg/handlers/chatbot_dc_handler.go:36-46 | the copy has the same contents and shares no array with the original |
| `MsgsCollection.IndexedMsgsCollection.Append` | webrtc-agents/pkg/handlers/chatbot_dc_handler.go:48-54 | adds the message at the end of its session, in place or in a larger array, and changes no other session |
| `MsgsCollection.IndexedMsgsCollection.GetMessagesBySessionId` | webrtc-agents/pkg/handlers/chatbot_dc_handler.go:57-59 | returns the messages of the session, none for an unknown one |
| `MsgsCollection.BuildUpdated` | webrtc-agents/pkg/msgs_store/msgs_store.go:58-66 | the next version is the loaded one with the message appended, and the loaded one, arrays included, is untouched |
| `ServerCounter.IncrementsAreLinearizable` | webrtc-server/pkg/handler/handle_counter.go:15-30 | over any interleaving the completed increments of a key return 0, 1, 2, ... in the order of their swaps, one swap for each call |
| `ServerCounter.UndisturbedIncrement` | webrtc-server/pkg/handler/handle_counter.go:15-30 | an increment called and left alone returns what the counter holds, 0 if there is none, and leaves one more |
| `ServerCounter.UndisturbedCallReturns` | webrtc-server/pkg/handler/handle_counter.go:15-30 | from any reachable state an increment left alone for one round returns the number of increments made before it |
| `BotCounter.IncreaseCountsSinceReset` | webrtc-agents/pkg/handlers/counter_dc_handler.go:130-148 | an increment returns one more than the increments since the last reset before its swap, even when a reset restored the value it had read |
| `BotCounter.ResetStartsAgain` | webrtc-agents/pkg/handlers/counter_dc_handler.go:146-148 | after a reset, in any state, the next increment of that key returns 1; other counters are as they were |
| `BotCounter.UndisturbedIncrement` | webrtc-agents/pkg/handlers/counter_dc_handler.go:130-144 | an increment called and left alone returns one more than the counter holds, 1 if there is none, and leaves that |
| `BotCounter.UndisturbedCallReturns` | webrtc-agents/pkg/handlers/counter_dc_handler.go:130-148 | from any reachable state an increment left alone for one round returns, whatever was swapped or reset before |
| `UserStore.UsernamesAreUnique` | webrtc-server/pkg/models/user/user.go:84-97 | in every sequential run usernames are unique, and the users are those the run created, in order |
| `UserStore.ProviderIdsAreUnique` | webrtc-server/pkg/models/user/user.go:104-139 | if logins set only their own provider id, a non-empty GitHub id or ASN belongs to at most one user and is created at most once |
| `UserStore.LoginFinds` | webrtc-server/pkg/models/user/user.go:104-139 | a login finds the last user holding its key if there is one and changes nothing; is refused exactly when there is none and the username is held; and otherwise adds its own user at the end |
| `UserStore.AccountIsAdded` | webrtc-server/pkg/models/user/user.go:185-209 | an account is created exactly when nobody holds the username, and is the one asked for |
| `UserStore.LookupFinds` | webrtc-server/pkg/models/user/user.go:167-183 | a lookup answers with the last user holding the key, and with nobody exactly when there is none |
| `UserStore.IdIsReplaced` | webrtc-server/pkg/models/user/user.go:143-145 | a user without an id gets the fresh one, and nothing else of it changes |
| `UserStore.RunKeepsUnique` | webrtc-server/pkg/models/user/user.go:84-139 | a sequential run keeps a key unique if and only if none of its requests adds a user whose non-empty key is already held |
| `UserStore.ForeignProviderIdMayRepeat` | webrtc-server/pkg/models/user/user.go:122-139 | two logins that give an id twice: the other provider's login does not look for it |
| `UserStore.HandleKeepsUnique` | webrtc-server/pkg/models/user/user.go:104-139 | one request keeps a key unique if and only if it does not add a user (own key absent, username free) whose non-empty key is already held |
| `UserStore.OwnProvidersNeverRepeat` | webrtc-server/pkg/handler/handle_github_login.go:250-257 | requests that set their own provider id only, as both login handlers do, never repeat one |
| `UserStore.IndexIsSearch` | webrtc-server/pkg/models/user/user.go:57-62 | an index sends each key to the last user holding it and has no other keys |
| `UserStore.LastWithIsLast` | webrtc-server/pkg/models/user/user.go:57-62 | the search meant is for the last user with the key |
| `UserStore.IndexAppend` | webrtc-server/pkg/models/user/user.go:93-95 | entering the new user extends the four indexes as the list is extended |
| `UserStore.ReenteringRestores` | webrtc-server/pkg/models/user/user.go:75-79 | entering all users again, as a clone does in the shared maps, restores the indexes |
| `UserStore.InMemoryUserStore.UpdateIndex` | webrtc-server/pkg/models/user/user.go:57-62 | enters the user in the four maps |
| `UserStore.CloneFrom` | webrtc-server/pkg/models/user/user.go:72-80 | the clone has the same users and the same four maps, in which every user has been entered again |
| `UserStore.Clone` | webrtc-server/pkg/models/user/user.go:64-82 | the clone has the same users, shares the maps of a store that exists, and leaves their contents as they were |
| `UserStore.AddUser` | webrtc-server/pkg/models/user/user.go:84-97 | refuses a duplicate username and then leaves every lookup unchanged; otherwise gives a valid store with the user added |
| `UserStore.AddUserAndLoseTheSwap` | webrtc-server/pkg/models/user/user.go:84-97 | a store from which a user was added stays valid if and only if the user was refused: discarding the result leaves an entry for nobody (the comments in the source call the clone's memory private) |
| `UserStore.MemoryUserManager.DoAddUserByGithubId` | webrtc-server/pkg/models/user/user.go:104-120 | finds the last user with the GitHub id, or adds the user unless the username is taken |
| `UserStore.MemoryUserManager.DoAddUserByDN42ASN` | webrtc-server/pkg/models/user/user.go:123-139 | finds the last user with the ASN, or adds the user unless the username is taken |
| `UserStore.MemoryUserManager.LoadOrCreateNewUserByGithubId` | webrtc-server/pkg/models/user/user.go:141-152 | the same, with a fresh id if the user has none |
| `UserStore.MemoryUserManager.LoadOrCreateNewUserByDN42ASN` | webrtc-server/pkg/models/user/user.go:154-165 | the same, with a fresh id if the user has none |
| `UserStore.MemoryUserManager.CreateUser` | webrtc-server/pkg/models/user/user.go:185-209 | adds the user unless the username is taken |
| `UserStore.MemoryUserManager.GetUserById` | webrtc-server/pkg/models/user/user.go:167-174 | returns what a linear search for the id finds |
| `UserStore.MemoryUserManager.GetUserByUsername` | webrtc-server/pkg/models/user/user.go:176-183 | returns what a linear search for the username finds |
| `PatchCodec.DecodeEncode` | webrtc-agents/pkg/handlers/stream.go:28-62 | a marshalled order, whatever follows it, is read back unchanged if and only if its kind fits one octet and id and value are below 65536 octets |
| `PatchCodec.PacketLayout` | webrtc-agents/pkg/handlers/stream.go:28-62 | kind, big-endian length of the id, id, big-endian length of the value, value |
| `PatchCodec.DecodeErrors` | webrtc-web/apis/message_patch.ts:3-48 | which error each buffer that cannot be read gives, and which octets are the fields of one that can |
| `PatchCodec.OneMorePatch` | webrtc-web/components/RenderMessage.tsx:666-681 | kind 0 appends, kind 1 replaces, any other kind does nothing |
| `PatchCodec.OneBuffer` | webrtc-web/app/page.tsx:862-900 | a buffer read adds its order to those of its message and changes nothing else |
| `PatchCodec.EncodeDecode` | webrtc-web/apis/message_patch.ts:3-48 | whenever a buffer is accepted, marshalling what was read gives the beginning of that buffer |
| `PatchCodec.AcceptedBuffers` | webrtc-web/apis/message_patch.ts:3-48 | a buffer is accepted if and only if it begins with a marshalled order, and then with no other |
| `PatchCodec.Marshal` | webrtc-agents/pkg/handlers/stream.go:28-62 | writes the packet in place, field by field, into a buffer of exactly its size |
| `PatchCodec.Unmarshal` | webrtc-web/apis/message_patch.ts:3-48 | reads the packet field by field and reports the error the reader throws |
| `PatchCodec.ApplyMessagePatches` | webrtc-web/components/RenderMessage.tsx:666-681 | the loop computes the text after the patches |
| `PatchCodec.RenderedAfterReplace` | webrtc-web/components/RenderMessage.tsx:666-681 | the text is the last Replace value followed by the later Appends |
| `PatchCodec.RenderedWithoutReplace` | webrtc-web/components/RenderMessage.tsx:666-681 | without a Replace it is the original text followed by the Appends |
| `PatchCodec.OrdersArrive` | webrtc-web/app/page.tsx:862-900 | the patches a browser holds for a message are the orders the agent marshalled for it, in order |
| `NameHash.GetColorTokenHashFromUsername` | webrtc-web/apis/colors.ts:21-32 | the result is the absolute value of the base-31 polynomial of the code units reduced to a signed 32-bit integer, modulo N, and lies in [0, N) also for -2^31 |
| `NameHash.Int32Range` | webrtc-web/apis/colors.ts:28-29 | the reduction gives a number from -2^31 to 2^31 - 1 that differs from its argument by a multiple of 2^32 |
| `NameHash.StepReduces` | webrtc-web/apis/colors.ts:28-29 | reducing to 32 bits after every operation is reducing once at the end |
| `NameHash.PolyAppend` | webrtc-web/apis/colors.ts:26-30 | one more code unit multiplies the polynomial by 31 and adds the unit |
| `Relay.WrittenToAddressee` | webrtc-server/pkg/handler/handle_ws.go:42-57 | what is written to the socket of a node was addressed to that node and sent by the connection it came from |
| `Relay.RelayKeepsOrder` | webrtc-server/pkg/handler/handle_ws.go:172-181 | across all interleavings the writes from one node follow the order it sent them in, each at most once |
| `Relay.NoOfferAfterLaterCandidate` | webrtc-server/pkg/handler/handle_ws.go:172-181 | an offer written after a candidate from the same node was sent in a later message than the candidate |
| `Relay.MessageDelivered` | webrtc-server/pkg/handler/handle_ws.go:111-181 | a loop left alone with a message registers if it says so, and writes the offer to the socket its addressee has registered, then the candidate to that of its own, with kind, addressee and payload, and nothing else |
| `Relay.WritesAreAsked` | webrtc-server/pkg/handler/handle_ws.go:172-181 | in every run a write carries a message its sender sent, to the node that message names for its offer or for its candidate |
| `Relay.ComesAndGoes` | webrtc-server/pkg/handler/handle_ws.go:197-209 | a new connection is known and not registered, one that has ended is not known, and what a client sends waits to be read |
| `Relay.UndisturbedMessageIsRelayed` | webrtc-server/pkg/handler/handle_ws.go:111-181 | a read loop left alone registers itself if the message says so, writes the offer, then the candidate, to the sockets their addressees have registered, and waits for the next message; a rename that comes before registration, and a timer that is gone, end in the dereference instead |
| `Relay.DereferenceIffPossible` | webrtc-server/pkg/handler/handle_ws.go:42-57 | for each of the three nil dereferences: some run in which clients send only messages of a given kind brings it about if and only if (offer, :52) one is a candidate without an offer and one registers; (name, UpdatePreference) one renames and does not register; (timer, :247) one registers or does not rename |
| `Relay.AnyMessageCanEndIt` | webrtc-server/pkg/handler/handle_ws.go:186-262 | one or another of the three is within reach if and only if clients send any message at all |
| `Relay.OrphanReaches` | webrtc-server/pkg/handler/handle_ws.go:172-181 | for every candidate without an offer, whatever else its message asks for, the run in which the write to its registered addressee fails |
| `Relay.RenameReaches` | webrtc-server/pkg/handler/handle_ws.go:155-171 | for every message that renames and does not register, the run in which it is the first one of its sender |
| `Relay.TimeoutReaches` | webrtc-server/pkg/handler/handle_ws.go:212-251 | for every message a new connection can have handled, the run in which the timeout comes while it is |
| `Relay.WriteNew` | webrtc-server/pkg/handler/handle_ws.go:42-57 | the item written is the one that follows those dealt with |
| `Relay.SocketStep` | webrtc-server/pkg/handler/handle_ws.go:99-251 | sockets, registrations and writes under way keep pointing at the connection they belong to |
| `ConnRegistry.ConnRegistryData.Clone` | webrtc-server/pkg/connreg/connection_registry.go:114-142 | a new entry equal in everything but the claims, which JSON drops |
| `ConnRegistry.ConnRegistry.OpenConnection` | webrtc-server/pkg/connreg/connection_registry.go:150-168 | hands out successive numbers and enters a new, unregistered entry with its time and QUIC connection |
| `ConnRegistry.ConnRegistry.Register` | webrtc-server/pkg/connreg/connection_registry.go:174-195 | fills in name, time, socket and authentication of the entry in place and nothing else, or reports that there is none |
| `ConnRegistry.ConnRegistry.UpdatePreference` | webrtc-server/pkg/connreg/connection_registry.go:212-228 | gives the old name and sets the new one and the colour in place; without an entry it is an error, and without a name a nil dereference |
| `ConnRegistry.ConnRegistry.GetByNodeId` | webrtc-server/pkg/connreg/connection_registry.go:289-305 | a walk in any order returns a copy of the entry with that key, nothing if there is none |

Constructors and one-line setters (`constructor` of the parser, the collection,
the stores, the registry and the track handle, `CompareAndSwap` of the user
manager, `CloseConnection` of the registry) have contracts and no row.

## Left out

- UserStore.MemoryUserManager.DoAddUserByGithubId: covers sequential runs only, where the swap always succeeds, because a lost swap leaves stray entries in maps the published store shares (`AddUserAndLoseTheSwap`); users are returned by value, not as pointers into the list.
- UserStore.MemoryUserManager.DoAddUserByDN42ASN: the same.
- UserStore.MemoryUserManager.LoadOrCreateNewUserByGithubId: the same.
- UserStore.MemoryUserManager.LoadOrCreateNewUserByDN42ASN: the same.
- UserStore.MemoryUserManager.CreateUser: the same.
- TrackDuplicater.IdleMeansBoundIffConsumed: one call at a time for each context id, as the peer connections make them; a second Bind of a context that is still bound replaces its consumer, whose writer goroutine is not followed.
- FileTransfer.Transmission.DoSendChunks: covers sends that succeed; `DoSendChunk` says what a send that throws does (`webrtc-web/app/page.tsx:1241-1248`), and a transfer that loses a slice that way is not followed further.
- FileSession.FileArrives: the announcement may be deleted but is not amended, since an amended message carries whatever file record its sender had by then; the messages and channels other than this file's are any events at the receiver, not tied to the conversation.
- ChatReplica.Convergence: two peers and one channel each way; messages stored by agents, and the delays of the acknowledgement timer, are not followed.
- DownstreamConsumer.ForwardToDownstreams: writers that run and consumers that come or go during the walk are not followed here; the state machine of one consumer has the writer, that of the duplicater has the consumers.
- Relay.RelayKeepsOrder: what is broadcast or echoed, and attributes, are left out, and an error return in any of that is the step `Abort`; nil dereferences other than the three modelled, in these handlers or elsewhere in the server, are not looked for; reads and writes of the timer variable are atomic; the write to a socket is one step, which the write proxy justifies.
- Writes to a proxy before its Run has begun.
- The request loop of the safemap actor itself, its Close, and use after Close.
- ConnRegistry.ConnRegistry.OpenConnection: the clock is a parameter, and a missing map of attributes is the same as an empty one.
- The sender's own progress record of a file, which counts sizes instead of buffers.
- The streaming loop of a track handle, packet contents, audio encoding and timing.
- The timeout of listenForAck beyond the step that abandons a transfer.
- WebRTC, ICE, SDP and websocket internals, HTTP, cookies, OAuth, JWT and language-model calls.
- User interface, local storage, thumbnails, and the echo, ping and clock bots.
- JSON and UTF-8 conversion, object URLs, and the contents of Blob chunks other than their size.
