# Conspire: verified model

Conspire is a chat server (C++) with a browser client (JavaScript). Clients keep a bounded
outbox and talk to a server that keeps one numbered, bounded log for each room, over transports
that die, are replaced, and deliver late. This project models that protocol and the
hand-written algorithms beside it, and proves what they are for.

`dafny verify dfyconfig.toml` checks everything.

## How the model is built

Objects whose methods update fields are classes; every method is tied to a function on a value
that stands for the object's state. Threads of the server interleave *inside* its calls, so the
protocols are step systems over those same values: one step for each critical section (append
to the log, copy the peers, read a peer's transport, queue the frame; resume the lease, bind the
socket, read the latest sequence, take the snapshot, queue SESSION_READY), and theorems about
every sequence of steps. The image inspectors, the checksum, the Base58 encoder, the token
encoder, the Tor reply reader and the statistics are methods with the loops of the source, proved
against declarative specifications.

| file | content |
|---|---|
| `SessionReliability.dfy` | sequencer, replay decision, window of remembered commands, lease, transport fence |
| `RoomLog.dfy` | the bounded log of a room and what a replay contains |
| `OutboundQueue.dfy` | a peer's bounded queue, its drain worker, and transports that change |
| `ClientReliability.dfy` | the browser's cursor, screen and outbox |
| `ResumeProtocol.dfy`, `ResumeInvariants.dfy` | publishing, hellos, leases, queues and one browser, end to end |
| `ScreenRecovery.dfy` | what the browser shows when frames are dropped, and how SESSION_READY repairs it |
| `FloodedInbox.dfy` | a run after which the page shows an event twice |
| `CatchUp.dfy` | a way back online from whatever state a run has reached |
| `ExactlyOnce.dfy` | retried commands over a network that loses, repeats, delays and reorders |
| `SessionLifecycle.dfy` | JOINED, LEFT, detach, resume and expiry of the sessions of a room |
| `FileRelay.dfy`, `FileIndex.dfy` | chunked downloads; the file index and the peers' file lists |
| `Octets.dfy`, `Preview.dfy` | bytes, limits on previews |
| `Crc32.dfy`, `CrcDivision.dfy`, `CrcValues.dfy` | the PNG checksum, that it is the remainder of a division of polynomials, and values of it |
| `PngGrammar.dfy`, `Png.dfy` | the accepted PNG files, and the inspector that decides them |
| `JpegGrammar.dfy`, `Jpeg.dfy` | the same for JPEG |
| `WebpGrammar.dfy`, `Webp.dfy` | the same for WebP |
| `PngWriter.dfy`, `JpegWriter.dfy`, `WebpWriter.dfy` | what plain encoders write, and that it is accepted |
| `PreviewMemory.dfy`, `PreviewRegistry.dfy` | the preview budget; controllers, object URLs and late completions |
| `Alphabets.dfy`, `Base58.dfy`, `Base64Url.dfy`, `Hex.dfy` | text encodings |
| `TorReply.dfy` | reading control-port replies from a stream that arrives in pieces |
| `Statistics.dfy` | retained statistics across samples, saves and restarts |

## Where the code does less than one might expect

- A Tor reply line of 8191 to 10237 bytes is delivered or refused depending on where the
  `recv` calls cut the stream: the length of the buffer is checked only between calls
  (`TorReply.IndependentIffShortOrHopeless` gives both segmentations and the exact bounds).
- The first lines of a Tor reply may carry the status 000 whatever the others carry: zero stands
  for no status yet (`TorReply.ReplyIsPrinted` says exactly which streams give a reply).
- When the handshake inbox overflows, the session is given up and the cursor reset, but the page
  and the socket stay (front/chat/chat.js:577-581, front/chat/transport.js:35-42). If the
  SESSION_READY of a resumed session then arrives on that socket before the back-off ends, it is
  applied to the reset cursor, the page goes online with what it showed before, and the next
  resume replays those events: `FloodedInbox.PageCanRepeat` is such a run, with one event that is
  on the page twice. `ScreenRecovery.ReadyRecovers` says exactly when SESSION_READY brings the
  screen up to date, `ScreenRecovery.RepeatsIffCursorIsBehind` exactly when one makes the page
  repeat an event, and `ScreenRecovery.ScreenSurvivesLoss` that only a flooded inbox can do this.
- A statistics list that has become empty is saved as an empty list, which the next load calls
  invalid. `Statistics.SavedIsLoadable` says exactly when a saved list loads; the server takes a
  sample at every start, which is why it never saves an empty list
  (`Statistics.RestartRestores`).

## Model

| member | source | states |
|---|---|---|
| `SessionReliability.RoomSequencer.Next` | server/src/utils/SessionReliability.hpp:40-43 | consecutive numbers from 1; nothing, and no change, once the 64-bit counter is exhausted |
| `SessionReliability.RoomSequencer.AdvanceTo` | server/src/utils/SessionReliability.hpp:45-49 | the counter never goes back |
| `SessionReliability.DedupeWindow.Remember` | server/src/utils/SessionReliability.hpp:69-77 | a command is recorded exactly when its id is valid and new, the sequence is not zero and there is space; nothing recorded is ever evicted |
| `SessionReliability.RememberAfterPreflight` | server/src/rooms/Peer.cpp:349-398 | after the handler's own checks, recording cannot fail, the command is found with its sequence from then on, and no other command's entry changes |
| `SessionReliability.SessionLease.Resume` | server/src/utils/SessionReliability.hpp:86-94 | resuming succeeds exactly on a running lease before its deadline, and ends it; else nothing changes |
| `SessionReliability.DetachLeavesGrace` | server/src/utils/SessionReliability.hpp:86-94 | after a detach a resume can succeed for exactly 300 seconds, and from then on the lease has expired |
| `SessionReliability.TransportGeneration.Replace` | server/src/utils/SessionReliability.hpp:115-118 | the new transport is current under a generation of its own |
| `SessionReliability.TransportGeneration.DetachIfCurrent` | server/src/utils/SessionReliability.hpp:119-126 | the current transport under its generation detaches and leaves none; one that was replaced changes nothing |
| `RoomLog.RoomHistory.AddHistoryMessage` | server/src/rooms/Room.cpp:138-153 | the retained history stays the last events of the whole log, numbered consecutively up to the latest sequence |
| `RoomLog.RoomHistory.GetHistoryAfter` | server/src/rooms/Room.cpp:169-179 | the loop over the retained events computes the replay of the whole log |
| `RoomLog.ReplayIsExact` | server/src/rooms/Room.cpp:169-179 | a snapshot is asked for exactly when the cursor is ahead of the log or something above it is gone; else the replay is every event above the cursor, none missing and none twice |
| `OutboundQueue.PeerOutbound.PushFrame` | server/src/rooms/Peer.cpp:58-92 | a frame is queued last, and counted, unless the queue would then hold more than 256 frames or 2 MiB; a worker is started just when none is active |
| `OutboundQueue.PeerOutbound.TakeOutboundFrame` | server/src/rooms/Peer.cpp:94-104 | frames leave in the order they came, the byte count stays exact, and an empty queue ends the worker |
| `OutboundQueue.QueueIsBoundedAndOrdered` | server/src/rooms/Peer.cpp:58-134 | for every interleaving of senders, workers and transport changes: the bounds, the exact byte count, at most one worker and always one for a non-empty queue, and what is written to a binding is a prefix of what was queued for it |
| `OutboundQueue.SendIsQueued` | server/src/rooms/Peer.cpp:58-92 | in every run, a frame for a known binding is queued last, with a worker to write it, exactly when the queue does not become too much |
| `OutboundQueue.LiveIsServed` | server/src/rooms/Peer.cpp:106-134 | from every state of every run, moves of the worker write everything that was queued for the current transport while its connection lives |
| `OutboundQueue.AckFollowsEvent` | server/src/rooms/Peer.cpp:372-377 | when the acknowledgement of a fresh command has been written, its event was written before it on the same binding, whatever happened in between |
| `ClientReliability.ReliabilityState.Accept` | front/chat/reliability.js:30-36 | a sequence is accepted exactly when it is above the cursor, at most 2^53 - 1, not waiting, and next or one of at most 2048 beyond a gap; then it is counted in addition to all that was, whether or not a gap precedes it |
| `ClientReliability.AcceptCounts` | front/chat/reliability.js:30-36 | the same of the function that the runs use |
| `ClientReliability.ReliabilityState.ReplaceHistory` | front/chat/reliability.js:37-44 | a snapshot moves the cursor to just below its first event, or to the latest sequence when it is empty |
| `ClientReliability.RenderAllFollows` | front/chat/chat.js:567-576 | given the continuation of the log among entries already shown, the screen follows the log to its end, each event once |
| `ClientReliability.ReliabilityState.EnqueueCommand` | front/chat/reliability.js:15 | a command is queued exactly while fewer than 100 wait, at the end or in the place of the one with its id |
| `ClientReliability.ReliabilityState.AbandonAll` | front/chat/reliability.js:45-52 | every pending command moves to the abandoned ones, marked as not sent |
| `ClientReliability.OutboxConserves` | front/chat/reliability.js:15-23 | acknowledging, rejecting and abandoning move exactly the named commands, and lose none |
| `ResumeInvariants.GapFreeResume` | server/src/rooms/Lobby.cpp:137-207 | for every interleaving of publications, hellos, leases, queues and transports: SESSION_READY's history with the live frames of its binding reaches every sequence above the cursor, or everything retained when a resync is asked for, with no gap; a resync is asked for exactly when something is missing |
| `ResumeInvariants.RenderingRefinesLog` | front/chat/chat.js:577-700 | in every such run in which nothing for the browser was dropped, across resumes, fresh sessions and reloads, the screen is a contiguous copy of the log, in the log's order |
| `ResumeInvariants.WireIncreases` | server/src/rooms/Room.cpp:155-162 | for every binding the session's peer ever had, the durable sequences on its wire only increase, and each carries the log's content |
| `ResumeInvariants.ReconcileShows` | front/chat/reliability.js:84-89 | applying SESSION_READY leaves the screen showing the log at least up to the sequence it names |
| `ScreenRecovery.ScreenSurvivesLoss` | front/chat/chat.js:567-581 | in every run, whatever was dropped: of what was rendered since the history was last replaced or given up, a sequence is there, at one place and with the log's event, exactly when it lies between the base and the cursor or waits beyond a gap; at most 2048 wait; the whole page holds only events of the log, and none twice exactly when its older part has none twice and none that the cursor has counted since; unless an inbox was flooded since the last replacement, none is there twice |
| `ScreenRecovery.FrameIsShown` | front/chat/chat.js:567-575 | in every run, a durable frame that reaches a browser online or backing off has its event rendered in the next state, at one place, exactly when the cursor had counted it or may count it now, gap or no gap; nothing rendered before is lost |
| `ScreenRecovery.OnlineHasCaughtUp` | front/chat/chat.js:577-601 | in every run, whatever was dropped before: a browser that is online has applied a SESSION_READY of its socket, and every sequence above the base up to the one it names has been rendered since, once, exactly when the cursor has reached it; unless an inbox was flooded since the history was last replaced, it has, and nothing else is on the page |
| `ScreenRecovery.ReadyRecovers` | front/chat/chat.js:587-599 | receiving SESSION_READY, in time or after a flood, fills every gap up to the sequence it names exactly when it replaces the history or the announced cursor is no further than the browser's own, as it always is in time; a resumed session keeps all that was on the page, any other starts over at the oldest event the room retains |
| `ScreenRecovery.RepeatsIffCursorIsBehind` | front/chat/reliability.js:84-89 | a SESSION_READY taken in time makes a page without repetitions repeat an event exactly when it leaves the history and the older part of the page holds an event above the cursor |
| `ScreenRecovery.ReconcileRecovers` | front/chat/reliability.js:84-89 | the same of one application of SESSION_READY, to a screen with any gaps and for any announced cursor |
| `FloodedInbox.PageCanRepeat` | front/chat/transport.js:35-42 | in a room that retains anything, some run with a flooded inbox ends with a page that shows its only event twice |
| `CatchUp.BrowserCanCatchUp` | server/src/rooms/Lobby.cpp:137-207 | from every state of every run some continuation lets the browser in, puts exactly the history that the room retains on the page, and then shows the next event |
| `ScreenRecovery.InboxHolds` | front/chat/transport.js:35-42 | during a handshake a message that is not SESSION_READY waits last while fewer than 256 wait, and otherwise the session is given up |
| `ExactlyOnce.CommandsTakeEffectOnce` | server/src/rooms/Peer.cpp:349-398 | in every run of losses, repetitions, delays, retries, resumes, reloads and rejections: at most one event for an id, exactly one for an acknowledged id, with the acknowledged sequence; none for a rejected id; one session for each id; every entered id in exactly one of acknowledged, pending, abandoned and forgotten by a reload |
| `ExactlyOnce.HandlerIsExact` | server/src/rooms/Peer.cpp:349-398 | in every run, handling a copy: a valid new command with room in the window, no exceeded limit and a sequence left is appended, recorded under the next sequence and acknowledged with it, and nothing is closed; a recorded one is acknowledged with its sequence and changes nothing else; a rejection that closes the socket comes exactly for an invalid body, a full window or an exceeded limit |
| `ExactlyOnce.PendingCanSucceed` | front/chat/reliability.js:76-83 | from every state of every run, unless the server has given up the stored session, or has neither recorded the command nor space for it, some run brings a pending valid command to its acknowledgement |
| `ExactlyOnce.RefusalSpends` | server/src/rooms/Peer.cpp:254-304 | a refused command can never be accepted later: every socket it was sent on is closed or replaced |
| `SessionLifecycle.EventsAreBracketed` | server/src/rooms/Lobby.cpp:156-184 | in every run, each session's events are JOINED once and first, then others, then LEFT at most once and nothing after it |
| `SessionLifecycle.LeasesAlternate` | server/src/rooms/Lobby.cpp:209-250 | for each detach exactly one of resume and expiry wins; no session expires before 300 seconds after a detach that was not resumed |
| `SessionLifecycle.LeaseDecides` | server/src/rooms/Lobby.cpp:186-250 | in every run, a detached session can resume on any socket, and is then bound to it, exactly until 300 seconds have passed; from then on it can expire, and LEFT follows |
| `SessionLifecycle.SessionsProceed` | server/src/rooms/Lobby.cpp:156-250 | in every run, an entering session can publish JOINED, one on an idle socket can lose it and start its lease, and a current socket can publish its commands, one event each |
| `FileRelay.ChunkRequest.BeginRequest` | server/src/utils/ServerBoundaries.hpp:40-48 | a new request gets the next id, skipping zero when the 64-bit counter wraps; an outstanding one is kept |
| `FileRelay.ChunkRequest.AcceptResponse` | server/src/utils/ServerBoundaries.hpp:54-71 | the three verdicts on a response, in the order of the checks |
| `FileRelay.Subscriber.Read` | server/src/rooms/File.cpp:129-163 | end of file at the end; bytes at hand while there are any; else, over a live host, a request of the least of what is asked for, 64 KiB and what remains; invalid when the host is gone |
| `FileRelay.ReadAsks` | server/src/rooms/File.cpp:129-163 | the same of a read in every run, with the request on its way to the host |
| `FileRelay.CurrentIsNoDuplicate` | server/src/utils/ServerBoundaries.hpp:54-71 | the answer to the outstanding request is accepted, never taken for a duplicate, also after the ids have wrapped |
| `FileRelay.RepeatIsDuplicate` | server/src/utils/ServerBoundaries.hpp:54-71 | in every run, an answer that completed a request and comes again is a duplicate, not invalid |
| `FileRelay.DownloadIsFaithful` | server/src/rooms/File.cpp:53-174 | whatever is lost, repeated, late, reordered, reissued or withdrawn, the bytes read are the first bytes of the file, and no answer is accepted while a chunk waits to be read |
| `FileRelay.ReissueRecovers` | server/src/rooms/File.cpp:98-102 | from every waiting state that a run reaches, reissuing, answering and reading delivers exactly the next bytes |
| `FileRelay.DownloadCanFinish` | server/src/rooms/File.cpp:53-174 | from every valid state of every run, reads and answers bring out the whole file |
| `FileIndex.IndexAgreesWithLists` | server/src/rooms/Room.cpp:199-259 | in every run, outside the mutation's critical sections the index is exactly the disjoint union of the peers' lists, no list is longer than 32, ids are unique |
| `FileIndex.FilesCanBeShared` | server/src/rooms/Room.cpp:199-229 | in every run, a peer in the room can share files exactly as long as it then has no more than 32, and new ids are on its list and in the index |
| `FileIndex.SubscribersAreBounded` | server/src/rooms/File.cpp:199-207 | in every run a file has at most 32 subscribers; subscribing to an available one that has fewer adds exactly a new subscriber that can stream it, and otherwise changes nothing |
| `FileIndex.WithdrawnFilesAreGone` | server/src/rooms/Room.cpp:118-136 | once a withdrawal or a removal has returned, its files are in no index or list, cannot be subscribed to, and no subscriber of theirs is still valid |
| `FileIndex.WithdrawalCanReturn` | server/src/rooms/Room.cpp:118-136 | from every state of every run a withdrawal under way can return |
| `Crc32.ComputeCrc32` | front/chat/image-preview.js:21-28 | the two loops compute the checksum of the range |
| `CrcDivision.ChecksumIsRemainder` | front/chat/image-preview.js:21-28 | the checksum is the complement of the remainder of the message, shifted by 32 places and with its first 32 coefficients complemented, on division by the generator x^32 + x^26 + x^23 + x^22 + x^16 + x^12 + x^11 + x^10 + x^8 + x^7 + x^5 + x^4 + x^2 + x + 1 |
| `CrcValues.ResidueIsFixed` | front/chat/image-preview.js:21-28 | every message followed by its checksum, low byte first, leaves the register 0xDEBB20E3 |
| `CrcValues.KnownChecksum` | front/chat/image-preview.js:21-28 | the checksum of the name IEND is 0xAE426082 |
| `Crc32.ChecksumSeesChange` | front/chat/image-preview.js:21-28 | changing one byte, whichever and however, changes the checksum: every bit step is injective |
| `Preview.PreviewDimensions` | front/chat/protocol.js:37-43 | the division test admits exactly dimensions of at most 8192 on an axis and 16 Mi pixels in all |
| `Png.InspectPng` | front/chat/image-preview.js:30-86 | accepts exactly the files that are the signature and serialized chunks of the grammar, with the dimensions of the header, whatever chunks one reads them as |
| `PngGrammar.ReadingIsUnique` | front/chat/image-preview.js:34-36 | a serialization can be read back in one way only |
| `PngGrammar.CorruptionIsCaught` | front/chat/image-preview.js:30-86 | changing any one byte of an accepted file outside the length fields gives a file that is not accepted |
| `PngGrammar.DataIsOneRun` | front/chat/image-preview.js:73-82 | in every accepted file the data chunks are contiguous |
| `PngGrammar.SomeData` | front/chat/image-preview.js:76-78 | there is data |
| `PngWriter.WrittenIsAccepted` | front/chat/image-preview.js:30-86 | a grey image written out is accepted exactly when its size is one a preview may have, and reads back with that size |
| `PngWriter.EndsAlike` | front/chat/image-preview.js:76-80 | every accepted file ends with the same twelve bytes |
| `Png.JudgeText` | front/chat/image-preview.js:45-58 | the scan for zeros accepts exactly uncompressed international text with a keyword of 1 to 79 bytes |
| `Jpeg.InspectJpeg` | front/chat/image-preview.js:93-207 | terminates, and accepts exactly the files of the marker grammar (frame before scans, tables before use, every component started), with the frame's dimensions |
| `Jpeg.CountCodes` | front/chat/image-preview.js:147-151 | the count of available codes stays non-negative just when the code lengths satisfy the Kraft inequality |
| `Jpeg.SkipScan` | front/chat/image-preview.js:186-197 | stops at the only marker that ends the coded data, or finds that there is none |
| `Jpeg.JudgeScan` | front/chat/image-preview.js:158-185 | a scan is accepted just when it is one the grammar allows after the segments before it, and starts just the components it codes first |
| `Jpeg.CompleteBySize` | front/chat/image-preview.js:108 | comparing sizes decides whether every component of the frame has had an initial scan |
| `JpegGrammar.OneFrameBeforeScans` | front/chat/image-preview.js:108-159 | there is one frame header, and it precedes every scan and the end |
| `JpegGrammar.ReadingIsUnique` | front/chat/image-preview.js:97-206 | a file has one decomposition into segments |
| `JpegGrammar.SkippedMayFollow` | front/chat/image-preview.js:99-114 | application data and comments may stand anywhere, up to the frame within the first MiB |
| `JpegWriter.WrittenIsAccepted` | front/chat/image-preview.js:93-207 | a baseline grey image written out is accepted exactly when its size is one a preview may have, and reads back with that size |
| `Webp.InspectWebp` | front/chat/image-preview.js:208-261 | terminates, and accepts exactly the files whose padded chunks tile the RIFF body and satisfy the grammar, with the dimensions of the frame |
| `Webp.JudgeWhole` | front/chat/image-preview.js:254-260 | an extended file's canvas equals its frame and each flag is set just when its feature is there; a simple file has one chunk |
| `WebpGrammar.OnePrimary` | front/chat/image-preview.js:217-240 | every accepted file has exactly one frame, and no canvas but in its first chunk |
| `WebpWriter.LosslessIsAccepted` | front/chat/image-preview.js:233-240 | a lossless image written out is accepted exactly when its size is one a preview may have, and reads back with that size |
| `WebpWriter.LossyIsAccepted` | front/chat/image-preview.js:223-232 | so is a lossy one |
| `WebpWriter.ExtendedIsAccepted` | front/chat/image-preview.js:217-260 | with a canvas, exactly when the canvas has the same size as well |
| `PreviewMemory.PreviewMemory.Admit` | front/chat/image-preview.js:306-314 | an image that fits the limits is admitted and the limits hold afterwards; others change nothing |
| `PreviewMemory.EvictsShortestPrefix` | front/chat/image-preview.js:309-312 | what is evicted is the shortest run of least recently used entries that makes room, oldest first |
| `PreviewMemory.PreviewMemory.Touch` | front/chat/image-preview.js:315 | the entry of the id alone gets a use later than every other; ids, sizes and order stay |
| `PreviewMemory.TouchedIsEvictedLast` | front/chat/image-preview.js:309-315 | an eviction after a touch takes the touched entry only once every other is gone |
| `PreviewMemory.LatestIsEvictedLast` | front/chat/image-preview.js:309-312 | so it is for any entry used later than all others |
| `PreviewRegistry.MakeRoomKeeps` | front/chat/image-preview.js:282-313 | evicting through the controllers' callbacks removes the entries the memory evicts and leaves every other controller alone |
| `PreviewRegistry.HoldsUrlIffBudgeted` | front/chat/image-preview.js:282-416 | after every interleaving of registering, loading, cancelling, unloading, evicting and late completions, a registered controller holds an object URL exactly when the memory has its entry |
| `PreviewRegistry.UrlsRevokedOnce` | front/chat/image-preview.js:352-416 | the controllers that hold a URL and its revocations add up to one for every URL created, and to none for any other |
| `PreviewRegistry.DisposedHoldsNothing` | front/chat/image-preview.js:407-416 | a disposed controller holds nothing, whatever of its loads arrives later |
| `PreviewRegistry.LoadEndsAsJudged` | front/chat/image-preview.js:352-406 | a load of an image that fits, downloaded, inspected and decoded, ends visible with an object URL and an entry; one that fails ends in the phase of its failure without |
| `PreviewRegistry.UseMakesLatest` | front/chat/image-preview.js:352-406 | using a visible preview makes its entry the latest |
| `PreviewRegistry.StoppingReleases` | front/chat/image-preview.js:407-416 | cancelling or unloading revokes the URL and gives the entry up |
| `Base58.EncodeBase58` | docs/landing-example/room.js:16-40 | the carry loops compute the standard encoding: a '1' for each leading zero byte, then the numeral of the number |
| `Base58.Carry` | docs/landing-example/room.js:24-33 | keeps the value, brings every digit below 58, and leaves no leading zero |
| `Base58.DecodeInverts` | docs/landing-example/room.js:16-40 | decoding inverts encoding for every byte string |
| `Base58.EncodingIsInjective` | docs/landing-example/room.js:16-40 | different bytes give different room ids |
| `Base64Url.EncodeUrl` | server/src/utils/SessionCredentials.hpp:16-30 | shifts and masks compute the encoding of the 24-bit groups |
| `Base64Url.DecodeInverts` | server/src/utils/SessionCredentials.hpp:16-30 | decoding inverts encoding for every number of bytes |
| `Base64Url.UrlIsValid` | server/src/utils/SessionReliability.hpp:21-35 | the encoding of n bytes has (4n+2)/3 letters of the alphabet and passes the server's check |
| `Base64Url.MakeResumeToken` | server/src/utils/SessionCredentials.hpp:32-37 | a token is made whenever there are random bytes, is valid, and determines them |
| `Base64Url.RandomIdIsUrl` | front/chat/reliability.js:5-9 | padded base64 with two letters swapped and the padding stripped is the server's encoding of the same bytes |
| `Base64Url.RandomIdIsAccepted` | front/chat/reliability.js:5-9 | the browser's id for 16 bytes is accepted by the server, and no other bytes give it |
| `Hex.HexEncode` | server/src/utils/TorControl.cpp:179-187 | two upper-case digits for every byte |
| `Hex.HexDecode` | server/src/utils/TorControl.cpp:189-205 | decodes exactly the non-empty texts that read as bytes in either case, to those bytes |
| `Hex.NibbleIsPlace` | server/src/utils/TorControl.cpp:189-205 | a digit of either case has the value of its place, and nothing else is a digit |
| `Hex.HexRoundTrip` | server/src/utils/TorControl.cpp:179-205 | decoding inverts encoding on non-empty data |
| `TorReply.OnionService.ReadLine` | server/src/utils/TorControl.cpp:451-476 | the receiving loop takes the first line, or fails, and leaves the rest unread, as the function on the pieces says that the next rows are about |
| `TorReply.OnionService.ReadReply` | server/src/utils/TorControl.cpp:478-502 | the loop over lines adds lines until the last one of a reply, as the function on the pieces says that the next rows are about |
| `TorReply.LineIsPrefix` | server/src/utils/TorControl.cpp:451-476 | reading loses, adds and reorders nothing: the line, its break and what is left unread are the stream |
| `TorReply.LineIsIndependent` | server/src/utils/TorControl.cpp:451-476 | with a first line of at most 8190 bytes, or none, the result does not depend on how the stream is cut |
| `TorReply.IndependentIffShortOrHopeless` | server/src/utils/TorControl.cpp:451-476 | for one complete line, the cuts do not matter exactly when it is at most 8190 bytes long or longer than 10237 |
| `TorReply.ReplyIsIndependent` | server/src/utils/TorControl.cpp:478-502 | with lines of at most 8190 bytes, a reply and the unread rest are those of a parser over the whole stream |
| `TorReply.PrintRoundTrip` | server/src/utils/TorControl.cpp:478-502 | reading back a printed multi-line reply of at most 64 KiB is the identity and leaves exactly what followed |
| `TorReply.ReplyIsPrinted` | server/src/utils/TorControl.cpp:478-502 | the stream gives a reply exactly when it begins with that reply as printed, three digits, a mark and a text on every line, at most 64 KiB, and one status all through once there is one that is not 000 |
| `TorReply.PrintedReplyArrives` | server/src/utils/TorControl.cpp:451-502 | the same through the receiving loop, in whatever pieces the reply and what follows it arrive |
| `Statistics.Statistics.TakeSample` | server/src/utils/Statistics.cpp:93-142 | within the push interval of the last point it replaces that point's counters alone; else it adds a point at this time and drops those before the first that is not older than the period |
| `Statistics.Statistics.LoadState` | server/src/utils/Statistics.cpp:149-214 | loads exactly the lists that pass the checks, restoring the last counters, with zero for newer ones that are missing, and keeping exactly the points of the last period, which lie together; else changes nothing |
| `Statistics.SampledIsRetained` | server/src/utils/Statistics.cpp:93-142 | for any clock, a sample keeps points one push interval apart over at most the maximal period |
| `Statistics.SampleRecords` | server/src/utils/Statistics.cpp:93-142 | in every run a sample makes of the list just that |
| `Statistics.StartSamples` | server/src/App.cpp:185-197 | a start samples at once what its load has kept: the points of the last period, or none |
| `Statistics.CountBound` | server/src/utils/Statistics.cpp:93-142 | there are at most maxPeriod/pushInterval + 1 points |
| `Statistics.DefaultBound` | server/src/utils/Statistics.hpp:74-80 | at most 169 points by default, below the load limit of 1000 |
| `Statistics.SavedIsLoadable` | server/src/utils/Statistics.cpp:175-185 | a saved list passes the point checks exactly when it is not empty and not longer than 1000 |
| `Statistics.RestartRestores` | server/src/utils/Statistics.cpp:149-213 | across every sequence of counting, sampling, saving and restarting, whatever state file the first process found: the list is never empty, and a list saved last loads exactly when it is not too long and then restores exactly its last counters; if the first file is this program's own or does not load, spacing and number are bounded too |
| `Statistics.UnloadableIsPreserved` | server/src/App.cpp:183-195 | a state file that is there and does not load, for whatever reason, is never overwritten by any process |
| `Statistics.OverlongIsPreserved` | server/src/App.cpp:183-195 | nor is a saved list that has become too long to load, once a process has started on it |
| `Statistics.SavedCountersAreLast` | server/src/utils/Statistics.cpp:93-147 | a process that saves after a sample saves the counters of that sample last |

## Left out

- ResumeInvariants.RenderingRefinesLog: the log's order needs that no durable frame for the browser was dropped by an overflowing queue, that the handshake inbox did not overflow, and that sequences stay within 2^53 - 1, the largest integer a browser counts exactly; what holds without that is `ScreenRecovery.ScreenSurvivesLoss`.
- ScreenRecovery.OnlineHasCaughtUp: for a SESSION_READY that names a sequence up to 2^53 - 1, as are the other results about one.
- ResumeInvariants.GapFreeResume: speaks of the frames queued for the binding; that they are written in order is `OutboundQueue.QueueIsBoundedAndOrdered`, and that a dead connection stops writing is what `dead` means there.
- CatchUp.BrowserCanCatchUp: for logs that stay within 2^53 - 1 events, the largest integer a browser counts exactly.
- ExactlyOnce.PendingCanSucceed: a command that the session has no space for can only be rejected, which is `ExactlyOnce.HandlerIsExact`.
- ExactlyOnce.CommandsTakeEffectOnce: takes client message ids to be distinct and stored session data to be stable, as the random ids and the browser's session storage are meant to be.
- Png.InspectPng: of the reasons for a rejection only the one for dimensions is stated, and the grammar does not look into compressed data.
- JpegWriter.WrittenIsAccepted: the encoder writes one quantization table, one component and one scan of bytes without markers; so do the PNG and WebP writers write the simplest files of their kind.
- Jpeg.InspectJpeg: states which files are accepted, not which reason a rejected one is given.
- Webp.InspectWebp: the same; a chunk's length is compared before its payload is read, where the source reads first and then fails on the length.
- Statistics.RestartRestores: a path for the state file is configured; the file's size limit and failed writes are not modelled; times are positive and do not overflow 64 bits.
- The room, lobby and peer protocols are step systems over values and not classes calling each other: their threads interleave inside one call, which sequential methods cannot show. The registry of preview controllers is one for the same reason.
- A session's token digest is taken to identify the session; digests, random bytes and Tor authentication come from other libraries.
- Coroutines, executors, wait lists, WebSocket, TLS and JSON are reduced to the steps of queueing, delivering and losing a message.
- The reconnecting transport's timer and back-off states, the nickname choice, typing indicators, path, host and port checks, and the text of the user interface: short tables or single branches.
- The document tree, the image decoder and `createObjectURL` itself: a decode ends well, with other dimensions, or badly, and URLs are numbers.
- The state file, the key file and the process file on disk: the file system's behaviour.
