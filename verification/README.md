# Verified core of the RDP server

A Dafny model of the stateful parts of the server, with the properties they are meant to have proved
for every input and every run:

- **Video flow control** (`Gfx*.dfy`). The queue, the in-flight window and the wait-for-keyframe gate of
  `RdpGfxChannel` as a state machine with one transition per lock region of its three threads. The frame
  that was popped but not yet submitted is part of the state.
- **Clipboard** (`Clipboard*.dfy`). The stop-and-wait file download of `RdpCliprdrChannel` against a peer
  that answers in any order, even after the channel was closed; the serving side; the FileGroupDescriptorW
  builder and parser byte for byte; the text conversions; the rules for taking over a change of the host's
  clipboard; and the routing of Klipper's reports that precedes them.
- **Cursors** (`Cursor*.dfy`). Content bounds, crop and scaling, the AND mask, and the LRU cache of
  `RdpCursorManager` with the client that replays the pointer updates beside it.
- **Virtual display** (`Resolution*.dfy`, `VirtualDisplay.dfy`). The portal handshake of
  `KWinVirtualDisplay`, and the timers and process callbacks that a generation counter guards.
- **Two small cores of `RdpServer`**: the round-trip-time smoother with the encoding targets
  (`RttAdaptation.dfy`) and the UTF-16 keyboard decoder (`UnicodeKeyboard.dfy`).

Each component has a state machine or a specification on values, the proofs about it, and, because the
program updates fields in place, a class whose methods follow the code and are proved to perform exactly
those transitions. Fields marked as history exist only to state properties; nothing in the program's own
decisions depends on them.

## What the proofs found

- *Reference chain.* A comment in `sendFrame` (src/channels/RdpGfxChannel.cpp:254-256) demands that a
  dropped delta frame always makes the channel wait for a keyframe. `GfxChain.SilentLoss` names the guards
  under which something that changes the chain is dropped and the channel does not wait.
  `GfxExact.ChainKeptIff` proves for all runs that the client stays on the encoder's chain, however the run
  goes on calmly from any of its points, if and only if no such loss is in the run. `GfxSharpness` holds
  concrete runs. Read as "two frames sent in succession are consecutive encoder outputs, repeats aside, or
  the second is a keyframe" the demand is false even in ordinary runs (`RepeatedKeyframeHidesOutputs`);
  there it holds for two successive frames exactly when the second is a keyframe or no output between them
  was discarded at the gate (`ConsecutiveOutputsIff`). Chains identify frames by key flag, size and hash;
  where hashes do not collide they stand for bytes (`ClientHoldsEncoderBytes`).
- *Late answers.* `close()` restarts the stream ids and leaves requests on the wire. An answer to one of
  them can be taken for the new session's (`LateAnswerCorrupts`). A run is sound throughout exactly when
  every such answer misses the current stream, fails, is empty, or holds just the bytes still missing
  (`SoundRunIff`); the transfer theorems are about these runs.
- *Lists that stay.* A finished list is handed over and cleared exactly when one of its files was completed
  (`ListStaysIff`). Otherwise it stays, and every change of the host's clipboard is held back until the next
  list or a close (`HeldBackIff`). A failure for an earlier stream, or for a closed session's request, skips
  the current file (`GivenUpIff`).
- *Texts and names.* Qt's UTF-16 decoder consumes a leading byte order mark, so the round trips exclude
  texts and names that start with one (`TextRoundTripIff`, `NameKeptIff`).
- *The text of a file offer.* Taken alone, the text handler lets such a text replace an offer that lists
  directory content (`OwnTextKeepsOfferIff`). Klipper's report of it is routed as files while all copied
  paths exist, and is then listed again: it leaves the offer alone exactly when that listing names the same
  paths, so a file added to or removed from a copied directory makes the report replace the offer
  (`ChangedDirectoryReplacesOffer`). Once a copied path is gone the report is a text. `EchoKeepsOfferIff`
  is the exact condition over both cases; `ReachesTextIff` says which reports reach the text handler. The
  system clipboard's own notification (src/core/main.cpp:346-367) hands over a text only when it carries no
  local URL.
- *Resolution.* The debounce timer carries no generation. At most one callback is live at every moment of
  a run exactly when no start response is accepted while that timer runs (`SingleLiveIff`), and the limit is
  two otherwise. If the display is created and destroyed only between handshakes, that never happens
  (`UndisturbedSingleLive`). If it is created again while the start call is on its way, it can, although
  every response is for the pending request and taken by its own handler (`TwoLiveThroughHandshake`).
  A request path that is no longer the current one never is again (`StaleStaysStale`).
- *Keyboard.* When the two units of a supplementary character are each pressed and released in turn, the
  press is passed on and the release never is (`ReleaseSeenIff`).

## Hypotheses

Frame ids stay below 2^32 and stream ids below 2^32. A peer answers each request at most once, with the
true bytes at the requested place and never more than asked for; it may also fail, answer late, answer
short or not answer. The descriptor list states the true file sizes. Equal image cache keys stand for
equal images, the settings are constant for a session, pointer updates are delivered, and the clock read
by the cursor cache is strictly increasing; nothing is assumed about the content hash. The pointer cache
size is a 16-bit setting. The portal gives every call a request path of its own. Results of protocol,
portal and process calls are inputs of the steps.

## Model

| member | source | states |
|---|---|---|
| GfxInFlight.WindowRefinesHistory | src/channels/RdpGfxChannel.cpp:347-458 | In every reachable interleaving the set of pending ids is exactly the ids inserted since the last clear whose StartFrame did not fail and that no later acknowledgement covers; the recorded send times are strictly increasing, below the next frame id, cover the set, and equal it when no StartFrame failed |
| GfxInFlight.PrefixPopIsFilter | src/channels/RdpGfxChannel.cpp:645-652 | Popping covered entries off the front of increasing send times equals filtering the whole deque, and the last one popped is the newest one covered |
| GfxInFlight.QueueAndWindowBounded | src/channels/RdpGfxChannel.cpp:253-279 | In every reachable state at most 21 frames are queued and at most 24 ids are in flight, although check and insertion are separate and the RTT may change in between |
| GfxInFlight.FullWindowTimesOut | src/channels/RdpGfxChannel.cpp:347-374 | A full window always has a send time on record, and every check later than the timeout after the oldest one is granted |
| GfxInFlight.InvStep | src/channels/RdpGfxChannel.cpp:120-458 | Every transition of every thread keeps the window invariant and the bounds with the room the worker still holds |
| GfxExact.ChainKeptIff | src/channels/RdpGfxChannel.cpp:120-324 | A run of any steps is without silent loss if and only if, stopped anywhere and continued calmly in any way, every frame reaches the client on the chain the encoder built it on |
| GfxExact.StaysInStepIff | src/channels/RdpGfxChannel.cpp:254-256 | A state stays in step through every calm continuation exactly when the frames under way and what the gate lets through next decode on the encoder's chain |
| GfxExact.CalmlyOutOfStep | src/channels/RdpGfxChannel.cpp:289-324 | Where that is gone, calm steps alone bring a frame to the client that decodes on the wrong chain |
| GfxChain.ChainStepIff | src/channels/RdpGfxChannel.cpp:120-282 | Each step of each thread keeps the chain invariant exactly when it is no silent loss |
| GfxChain.ClientDecodesEncoderChain | src/channels/RdpGfxChannel.cpp:221-282 | In every interleaved run without a silent loss each frame reaches the client on top of exactly the chain, repeats removed, that the encoder built it on, and frames arrive in encoder order |
| GfxChain.ConsecutiveFramesLink | src/channels/RdpGfxChannel.cpp:289-324 | Of two frames sent in succession the second is a keyframe or the encoder built it directly on the chain the first one ends |
| GfxChain.OrdinaryRunsLoseNothing | src/channels/RdpGfxChannel.cpp:120-219 | Runs of sends, purges, successful resets, checks, pops, submissions, acknowledgements and timeouts on a ready channel, without suppression, contain no silent loss |
| GfxChain.ClientHoldsEncoderBytes | src/channels/RdpGfxChannel.cpp:235-251 | Where no two outputs of equal print differ in content, the payload bytes of the client's chain are the encoder's |
| GfxChain.DropIff | src/channels/RdpGfxChannel.cpp:376-380 | Dropping one frame keeps every later frame decodable exactly when its successor's chain is the same without it |
| GfxSharpness.SuppressionBreaksChain | src/channels/RdpGfxChannel.cpp:120-127 | A run of ordinary steps and suppression leaves the client decoding a delta on the wrong chain |
| GfxSharpness.FailedSubmissionBreaksChain | src/channels/RdpGfxChannel.cpp:451-462 | So does a run with one rejected StartFrame or SurfaceCommand, whichever of the two |
| GfxSharpness.FailedResetBreaksChain | src/channels/RdpGfxChannel.cpp:146-219 | So does a run with a failed and then a successful reset |
| GfxSharpness.LateCapabilitiesBreakChain | src/channels/RdpGfxChannel.cpp:476-500 | So does a run whose capabilities arrive after output was produced |
| GfxSharpness.RepeatedKeyframeHidesOutputs | src/channels/RdpGfxChannel.cpp:227-251 | In an ordinary run two successively sent frames, the second a delta, can have other, different encoder outputs between them |
| GfxConsecutive.ConsecutiveOutputsIff | src/channels/RdpGfxChannel.cpp:227-251 | In every ordinary run two frames sent in succession are consecutive outputs, repeats of the first aside, or end in a keyframe, exactly when the second is a keyframe or the gate discarded no output between them |
| GfxControls.ResetAwaitsKeyframe | src/channels/RdpGfxChannel.cpp:146-219 | After a successful reset to another size the channel is ready with that surface until it is reset or announced anew; from then until the next key output no frame passes the gate, none is added to the queue, and a key output does pass; a reset to the current size changes nothing |
| GfxControls.FailedResetStops | src/channels/RdpGfxChannel.cpp:146-219 | A failed reset to another size leaves the channel not ready and without a surface; until a reset succeeds or capabilities arrive nothing is queued, taken from the queue or transmitted |
| GfxControls.CapsOpen | src/channels/RdpGfxChannel.cpp:476-500 | Capabilities make the channel ready with the given surface until it is reset or announced anew |
| GfxControls.KeyframeArrives | src/channels/RdpGfxChannel.cpp:221-324 | On any ready channel with at most 20 frames queued a keyframe produced reaches the client by calm steps alone, behind everything on its way |
| GfxControls.SuppressionMutes | src/channels/RdpGfxChannel.cpp:120-127 | From a suppression until it ends the client gets at most the frame in transmission, the worker takes no other, and the queue holds at most what the main thread had let through |
| GfxControls.PurgeDiscards | src/channels/RdpGfxChannel.cpp:129-144 | From a purge until the next key output, whatever the other threads do, the queue is empty and the client gets at most the frame the worker had taken; after it the gate is up and no id from before is in flight |
| GfxControls.NothingEmpty | src/channels/RdpGfxChannel.cpp:227-251 | In every reachable state only nonempty encoder outputs are on their way to the client |
| GfxControls.FramesNumbered | src/channels/RdpGfxChannel.cpp:376-466 | In every reachable state the ids inserted are 0, 1, 2 and so on up to the next frame id, and at least as many as frames transmitted, refused and in transmission |
| GfxControls.GrantedIff | src/channels/RdpGfxChannel.cpp:347-374 | A check is granted exactly below 16, 20 or 24 ids, by the last RTT, or when the oldest send time is more than 120 ms and more than two round trips ago; then alone is the window cleared |
| GfxControls.RttMeasured | src/channels/RdpGfxChannel.cpp:627-657 | Acknowledging a frame whose send time is on record sets the RTT to the time since its submission, whatever happened in between |
| GfxChannel.Channel.SendFrame | src/channels/RdpGfxChannel.cpp:221-282 | Performs the gate and the queue transition of a send and nothing else |
| GfxChannel.Channel.PurgeStaleFrames | src/channels/RdpGfxChannel.cpp:129-144 | Performs the three lock regions of a purge, each of them a transition of its own |
| GfxChannel.Channel.ResetSurface | src/channels/RdpGfxChannel.cpp:146-219 | Performs the reset transition for any combination of the protocol calls' results; the queue is untouched |
| GfxChannel.Channel.SetOutputSuppressed | src/channels/RdpGfxChannel.cpp:120-127 | Performs the suppression transition; the gate is untouched |
| GfxChannel.Channel.HasInFlightCapacity | src/channels/RdpGfxChannel.cpp:347-374 | Grants exactly when the window has room for the current RTT or its oldest entry timed out, in which case the window is cleared |
| GfxChannel.Channel.PopFrame | src/channels/RdpGfxChannel.cpp:313-319 | Takes the front frame, or nothing when the queue is empty or the channel not ready or suppressed |
| GfxChannel.Channel.SubmitFrame | src/channels/RdpGfxChannel.cpp:376-466 | Inserts the new id in both structures, then transmits or withdraws it as the protocol calls succeed; a failed StartFrame leaves its send time |
| GfxChannel.Channel.FrameAcknowledge | src/channels/RdpGfxChannel.cpp:627-657 | Performs the cumulative acknowledgement on both structures; the reported RTT is the newest covered frame's age, 0 when none is covered |
| ClipboardInvariant.TransferCorrect | src/channels/RdpCliprdrChannel.cpp:385-459 | Over every interleaving of descriptor lists, answers to any stream, failures, short reads, short writes and sessions whose late answers do no harm: each file holds the offered bytes when it enters the completed list, and each list handed over is an in-order selection of the offered paths whose files, unless a later one shares the path, still hold those bytes |
| ClipboardInvariant.StopAndWait | src/channels/RdpCliprdrChannel.cpp:385-416 | In these runs at most one request of the current stream is unanswered, during a transfer it is the one for the next missing range, exactly the current item holds an open handle, and a successful answer to an earlier stream changes no transfer state |
| ClipboardInvariant.SoundRunIff | src/channels/RdpCliprdrChannel.cpp:67-89 | A run never has two unanswered requests of the current stream and never completes a file with other bytes than offered, exactly when no answer to a closed session's request does harm |
| ClipboardInvariant.LateAnswerIff | src/channels/RdpCliprdrChannel.cpp:549-619 | Such an answer is harmless exactly when it misses the current stream, fails, is empty, or holds just the missing bytes, all written; otherwise the very next state is unsound |
| ClipboardInvariant.LateAnswerCorrupts | src/channels/RdpCliprdrChannel.cpp:67-89 | A run in which a closed session's answer completes a new file with old bytes |
| ClipboardInvariant.InvStep | src/channels/RdpCliprdrChannel.cpp:549-619 | Every descriptor list, every answer that does no such harm and a close keep the transfer invariant |
| ClipboardProgress.ProgressIff | src/channels/RdpCliprdrChannel.cpp:593-616 | An answer to the current stream strictly decreases (files left, bytes left) exactly when it fails, is empty, or some of it is written; otherwise the state is unchanged and the same request stands |
| ClipboardProgress.GivenUpIff | src/channels/RdpCliprdrChannel.cpp:561-591 | The current file is skipped exactly by a failure, be it of an earlier stream or of a closed session's request, or by an empty answer to its own stream |
| ClipboardProgress.StartNextForward | src/channels/RdpCliprdrChannel.cpp:385-428 | The skip loop ends, never goes back, and completes only files from its starting position on |
| ClipboardProgress.ExactRequests | src/channels/RdpCliprdrChannel.cpp:431-459 | With full answers a file of size s > 0 takes exactly ceil(s / 65536) requests, the k-th for range k, and the last answer completes it with the offered bytes |
| ClipboardProgress.ChunksPartition | src/channels/RdpCliprdrChannel.cpp:436-454 | Those ranges partition [0, s) |
| ClipboardProgress.WholeListArrives | src/channels/RdpCliprdrChannel.cpp:385-428 | Enough full answers hand the whole list over, every file in its place |
| ClipboardProgress.HandlerRepliesInFull | src/channels/RdpCliprdrChannel.cpp:510-541 | The contents-request handler, asked for the downloader's next range through the split position, returns exactly the bytes the downloader waits for |
| ClipboardProgress.RangeAnswered | src/channels/RdpCliprdrChannel.cpp:510-541 | A range request is answered with the bytes there are from its position on, at most as many as asked for, with nothing for a directory, and fails in exactly the other cases |
| ClipboardProgress.SizeAnswered | src/channels/RdpCliprdrChannel.cpp:490-509 | A size request is answered for whatever exists, also where it cannot be read; a request with neither flag fails |
| ClipboardCopy.TwoEndedCopy | src/channels/RdpCliprdrChannel.cpp:461-547 | The descriptor payload built for unchanged files, parsed by the downloader with sizes split and rejoined, and the contents asked for and served range by range put every file under the name the payload gives it, its own where portable, byte for byte unless a later file takes the same local path |
| ClipboardCopy.CopyLosesNothing | src/channels/RdpCliprdrChannel.cpp:292-351 | Where the base names of the offered files can be sent and differ, every file of the list is delivered, under its own base name, at a path of its own, and holds its own bytes |
| ClipboardCopy.PathNames | src/channels/RdpCliprdrChannel.cpp:319-333 | A received file lies in the directory under its name; different names give different paths |
| ClipboardCopy.SizesAgree | src/channels/RdpCliprdrChannel.cpp:490-509 | The sizes answered to size requests are those the payload states, 32 bits of them when 4 bytes are asked for |
| ClipboardCopy.PayloadIsTrue | src/channels/RdpCliprdrChannel.cpp:741-785 | The payload built for unchanged files states as many files as there are, with their true sizes |
| ClipboardHandover.ListStaysIff | src/channels/RdpCliprdrChannel.cpp:418-428 | In every run, once nothing is in transfer, the list is still there exactly when it is nonempty and no file of it was completed; otherwise it was handed over |
| ClipboardHandover.ClosedIsIdle | src/channels/RdpCliprdrChannel.cpp:67-89 | From a close until the next list nothing is requested, written, completed or handed over, whatever answers arrive |
| ClipboardChannel.HeldBackIff | src/channels/RdpCliprdrChannel.cpp:635-640 | Then, until the next list or a close, the host's changes are held back, without any effect, exactly in that case |
| ClipboardChannel.DescriptorsMatchFiles | src/channels/RdpCliprdrChannel.cpp:680-785 | After any run of the whole channel the descriptor payload is empty exactly when no file is offered, and otherwise its item i carries size and name of the entry at outgoing path i |
| ClipboardServing.TextServed | src/channels/RdpCliprdrChannel.cpp:213-270 | Over all runs: from the moment a text is taken over, files are, a text is received or the channel is closed, until one of these happens again, a CF_UNICODETEXT request is answered so that its receiver reads that text, the joined paths, or nothing, CR LF as LF, exactly under the condition of the round trip; CF_TEXT is answered with its encoding and a NUL |
| ClipboardServing.FilesServed | src/channels/RdpCliprdrChannel.cpp:680-785 | As long, the outgoing files are the ones listed at that moment and the descriptor payload states size and name of each; after anything but files there are none |
| ClipboardServing.HostTextTakenIff | src/channels/RdpCliprdrChannel.cpp:635-657 | A host's text changes anything exactly when no list is pending and it is neither the text in place nor, with files on offer, a text form of their paths |
| ClipboardServing.HostFilesTakenIff | src/channels/RdpCliprdrChannel.cpp:732-746 | Host's files change anything exactly when no list is pending, some are listed, and they are neither those received last nor those on offer |
| ClipboardServing.TextNotTakenAgain | src/channels/RdpCliprdrChannel.cpp:653-655 | A text that stands, copied by the host or received from the client, is not taken over again |
| ClipboardServing.NotOfferedBack | src/channels/RdpCliprdrChannel.cpp:735-740 | A report of the very paths handed over changes nothing, however the run goes on, until other files are received, a text or files are taken over, or the channel is closed |
| ClipboardReceiver.Receiver.StartNextIncomingFile | src/channels/RdpCliprdrChannel.cpp:385-429 | Performs the transition, and returns and remembers the paths handed over, if any are |
| ClipboardReceiver.Receiver.RequestNextFileChunk | src/channels/RdpCliprdrChannel.cpp:431-459 | Sends a request exactly when bytes of an active file are missing, for the next range, its position split in halves |
| ClipboardReceiver.Receiver.FileContentsResponse | src/channels/RdpCliprdrChannel.cpp:549-619 | Performs the answer transition, the failure flag before the stream id, for answers of this and of closed sessions; returns and remembers the paths handed over, if any are |
| ClipboardReceiver.Receiver.DescriptorListReceived | src/channels/RdpCliprdrChannel.cpp:292-351 | Parses the payload and restarts the transfer with the list it describes; a payload too short for a count is ignored; paths handed over at once, as those of empty files, are returned and remembered |
| ClipboardReceiver.Receiver.HandOver | src/channels/RdpCliprdrChannel.cpp:418-428 | Hands the completed paths over and forgets the list exactly when some file was completed |
| ClipboardReceiver.Receiver.Close | src/channels/RdpCliprdrChannel.cpp:67-89 | Forgets the transfer and restarts the stream ids; requests stay on the wire |
| ClipboardDescriptor.BuildPayload | src/channels/RdpCliprdrChannel.cpp:741-785 | The zeroed buffer, filled in place record by record, equals the specified payload |
| ClipboardDescriptor.WriteRecord | src/channels/RdpCliprdrChannel.cpp:756-785 | One record's writes, in the program's order, give the specified 592 bytes and touch nothing outside |
| ClipboardDescriptor.Parse | src/channels/RdpCliprdrChannel.cpp:292-346 | For any payload of at least 4 bytes exactly min(cItems, (len - 4) / 592) items are queued, each from its own record; a shorter payload is refused |
| ClipboardDescriptor.BuiltPayloadParses | src/channels/RdpCliprdrChannel.cpp:741-785 | A built payload parses to the same count, each item with the 64-bit size sent and the name derived from the units sent |
| ClipboardDescriptor.MetadataReadsBack | src/channels/RdpCliprdrChannel.cpp:756-775 | Item i states the three flags, whether it is a directory, and a write time from which its modification time reads back |
| ClipboardDescriptor.NameKeptIff | src/channels/RdpCliprdrChannel.cpp:319-323 | A name survives exactly when it is nonempty, at most 259 units, without NUL or '/', and starts with no byte order mark |
| ClipboardDescriptor.BaseNameArrives | src/channels/RdpCliprdrChannel.cpp:319-323 | The directories of a relative path are dropped and its base name arrives, when it has one and the path can be sent |
| ClipboardDescriptor.BaseNameIs | src/channels/RdpCliprdrChannel.cpp:319-320 | The base name is what follows the last slash, or all of a name without one |
| ClipboardDescriptor.DefaultNamesDiffer | src/channels/RdpCliprdrChannel.cpp:321-323 | Files without a usable name get different ones |
| ClipboardDescriptor.DescriptorRoundTrip | src/channels/RdpCliprdrChannel.cpp:294-346 | Count, sizes and all such names round trip |
| ClipboardText.SendText | src/channels/RdpCliprdrChannel.cpp:234-245 | The scan for CR LF, the expansion, the NUL and the layout in bytes give the specified payload |
| ClipboardText.ReceiveText | src/channels/RdpCliprdrChannel.cpp:354-370 | The receive conversion, loop over trailing NULs included, equals its specification |
| ClipboardText.TextRoundTripIff | src/channels/RdpCliprdrChannel.cpp:237-245 | A sent text arrives with CR LF turned into LF exactly when it is empty or neither ends in NUL nor starts with a byte order mark |
| ClipboardText.SentUnits | src/channels/RdpCliprdrChannel.cpp:234-245 | The units on the wire end in a NUL; a text with CR LF is sent as it is, and any other without a lone LF and so that it can be restored |
| ClipboardText.CollapseSplits | src/channels/RdpCliprdrChannel.cpp:369-370 | CR LF becomes LF wherever it stands, the parts before and after being converted by themselves |
| ClipboardText.TextUnchanged | src/channels/RdpCliprdrChannel.cpp:355-370 | Such texts without CR LF arrive unchanged, lone CRs included |
| ClipboardSender.OwnTextKeepsOfferIff | src/channels/RdpCliprdrChannel.cpp:641-657 | Handled as a text, the joined paths of a fresh offer leave it alone exactly when no directory content was listed; otherwise they replace it |
| ClipboardSender.RootsListed | src/channels/RdpCliprdrChannel.cpp:692-730 | Every existing root is listed, and at most 5000 entries besides |
| ClipboardSender.ListingComplete | src/channels/RdpCliprdrChannel.cpp:692-730 | Up to 5000 entries everything in the existing roots is listed, in order; beyond, at least 5000 are, all of them from there |
| ClipboardSender.MissingRoot | src/channels/RdpCliprdrChannel.cpp:692-695 | A path that does not exist makes no difference to roots and listing |
| ClipboardSender.ListFiles | src/channels/RdpCliprdrChannel.cpp:692-730 | The nested listing loops equal the specified listing, cap included |
| ClipboardSender.Sender.OnHostClipboardChanged | src/channels/RdpCliprdrChannel.cpp:635-678 | Takes a text over exactly when the list of incoming files is empty, the text is no echo of the file offer and it is new, and then forgets the offer |
| ClipboardSender.Sender.OnHostClipboardFilesChanged | src/channels/RdpCliprdrChannel.cpp:680-811 | Takes files over exactly when something is listed, the list of incoming files is empty, and they are neither the files just received nor already on offer |
| ClipboardSender.Sender.ClientFormatDataRequest | src/channels/RdpCliprdrChannel.cpp:213-270 | Answers with the descriptor payload, the converted text, or the UTF-8 text and a NUL, and fails for formats that are none of these |
| ClipboardSender.Sender.ClientTextResponse | src/channels/RdpCliprdrChannel.cpp:354-380 | Text received as UTF-16 or UTF-8 replaces the offer; an empty one changes nothing |
| ClipboardSender.Sender.Close | src/channels/RdpCliprdrChannel.cpp:67-89 | Forgets both halves of the channel |
| ClipboardRouting.OnKlipperClipboardHistoryUpdated | src/core/RdpServer.cpp:1290-1327 | The loop over the trimmed lines routes the report as specified |
| ClipboardRouting.ReachesTextIff | src/core/RdpServer.cpp:1296-1324 | A report reaches the text handler exactly when it is not blank and some line names no existing file |
| ClipboardRouting.FilesReportedIff | src/core/RdpServer.cpp:1299-1318 | A report, one entry to a line, is handled as given files exactly when its lines name them, by file URL or absolute path, and they exist |
| ClipboardRouting.EchoKeepsOfferIff | src/core/RdpServer.cpp:1296-1324 | A report of the text of a fresh offer of plain absolute paths leaves the offer alone exactly when all copied paths still exist and listing them anew, directory contents included, names the same paths, or some are gone and no directory content was listed; otherwise the new listing replaces the offer, or the text does |
| ClipboardRouting.ChangedDirectoryReplacesOffer | src/channels/RdpCliprdrChannel.cpp:692-745 | A copied directory that lost a file since makes the report replace the offer, though every copied path exists |
| CursorGeometry.FindContentBounds | src/core/RdpCursorManager.cpp:5-31 | The nested loops equal the scan specification, null images included |
| CursorGeometry.BoundsLeast | src/core/RdpCursorManager.cpp:5-31 | The result is the least rectangle holding every pixel of nonzero alpha, none exactly when there is no such pixel |
| CursorGeometry.CropKeepsPicture | src/core/RdpCursorManager.cpp:109-117 | After the hotspot expansion the new hotspot lies in the crop, and at every offset from the hotspot the crop shows a pixel exactly when the image does, in the same colour |
| CursorGeometry.CropLeast | src/core/RdpCursorManager.cpp:109-117 | No rectangle holding the hotspot and all visible pixels is smaller |
| CursorGeometry.ProcessedFits | src/core/RdpCursorManager.cpp:119-136 | What is sent has sides between 1 and the client's limit and its hotspot inside, and is the plain crop when that fits |
| CursorGeometry.ScaledInProportion | src/core/RdpCursorManager.cpp:128-136 | A crop over the limit is sent with its longer side equal to the limit; the other side and both hotspot coordinates keep their proportion to the nearest pixel, a side being at least 1 and the hotspot at most the last pixel |
| CursorMask.CreateAndMask | src/core/RdpCursorManager.cpp:45-73 | Every write is in bounds, each mask row, read bit by bit, says which pixels of its bottom-up image row are transparent, with zero padding, and no other bytes do |
| CursorMask.DecodesIff | src/core/RdpCursorManager.cpp:45-73 | Among the byte sequences of the mask's length exactly the mask decodes to the transparent pixels, padding included |
| CursorMask.MaskSaysTransparent | src/core/RdpCursorManager.cpp:45-73 | Decoding the mask bottom-up at its stride gives back alpha == 0 for every pixel |
| CursorMask.MaskLengthsFit | src/core/RdpCursorManager.cpp:218-231 | For images up to 96 x 96 both mask lengths fit 16 bits |
| CursorCoherence.ClientShowsRequested | src/core/RdpCursorManager.cpp:75-264 | After every update of any run the client, replaying what it was sent, displays the processed cursor for the requested image and hotspot, also when the fast path sent nothing and whatever the hash does; the mask bytes it holds, lengths cut to the message's fields, decode to that cursor's transparent pixels |
| CursorCoherence.ShownFits | src/core/RdpCursorManager.cpp:119-136 | After every update the displayed cursor is within 384, 96 or 32 pixels, by the client's flags, is none exactly for an invisible image, and is the plain crop where that fits |
| CursorCoherence.RepeatChangesNothing | src/core/RdpCursorManager.cpp:87-91 | Asking for the same image and hotspot again changes neither the client nor the cache |
| CursorCoherence.CacheIsRecencyFront | src/core/RdpCursorManager.cpp:182-205 | The cache holds exactly the N most recently requested distinct cursors, each once, in slots below N, and the entry to evict is the least recent of them, although the fast path never refreshes a time |
| CursorLru.MruIsByRecency | src/core/RdpCursorManager.cpp:166-167 | The recency list of the previous row is the requested cursors, each once, ordered by the position of the last request for them |
| CursorCoherence.HitIffCached | src/core/RdpCursorManager.cpp:138-158 | The lookup finds an entry exactly when that very cursor is cached, hash collisions or not |
| CursorCoherence.FreeIff | src/core/RdpCursorManager.cpp:194-204 | A slot below the capacity is free exactly when the cache is not full |
| CursorCoherence.SlotAlways | src/core/RdpCursorManager.cpp:182-205 | In every reachable state there is a slot for every cursor |
| CursorCoherence.UpdatedKeeps | src/core/RdpCursorManager.cpp:75-264 | Every branch of an update keeps the mirror, key, recency and display invariants |
| CursorManager.FindFree | src/core/RdpCursorManager.cpp:193-204 | Returns the first unused position of a cache that is not full |
| CursorManager.Manager.UpdateCursorShape | src/core/RdpCursorManager.cpp:75-264 | Performs the update transition, sends exactly the returned message with the mask it creates, keeps the invariant, and leaves the expected cursor on display |
| CursorManager.Manager.Reset | src/core/RdpCursorManager.cpp:266-274 | Back to the empty cache of a new connection |
| ResolutionProofs.SingleLiveIff | src/display/KWinVirtualDisplay.cpp:423-428 | At most one timer or callback can act for the current generation at every moment of a run exactly when no start response is accepted while the debounce timer runs |
| ResolutionProofs.AtMostTwoLive | src/display/KWinVirtualDisplay.cpp:960-972 | In every run at most two can act, and only while the display is active |
| ResolutionProofs.UndisturbedSingleLive | src/display/KWinVirtualDisplay.cpp:361-428 | At most one can act in every run that creates and destroys the display only between handshakes |
| ResolutionProofs.TwoLiveThroughHandshake | src/display/KWinVirtualDisplay.cpp:64-122 | A run from the start in which every response is for the pending request and taken by that request's own handler, and two can act |
| ResolutionProofs.StaleStaysStale | src/display/KWinVirtualDisplay.cpp:361-377 | Once a request path stops being the current one, used up, replaced or dropped, every later response to that call is ignored, whichever handler it is given to |
| ResolutionProofs.InactiveStartsAreOrderly | src/display/KWinVirtualDisplay.cpp:867-870 | Start responses that find the display inactive never meet a running debounce timer |
| ResolutionProofs.OnlyLiveCallbackActs | src/display/KWinVirtualDisplay.cpp:551-569 | In orderly runs a pipeline event that changes the requested size or the retry count, or starts another stage, is the one live callback of the current generation |
| ResolutionProofs.ModeRetriesBounded | src/display/KWinVirtualDisplay.cpp:734-750 | At most three mode retries per generation in orderly runs, six in any run, and the counter never exceeds three |
| ResolutionProofs.StepKeeps | src/display/KWinVirtualDisplay.cpp:551-973 | Only an accepted start response can make a second callback live; every event keeps three retries per live chain |
| ResolutionProofs.ModeAddedIff | src/display/KWinVirtualDisplay.cpp:628-663 | A custom mode is added exactly when neither the first exact nor the first near mode has an id or a name; the size requested from then on is within 8 pixels at the same height |
| ResolutionRequests.RunsForRequest | src/display/KWinVirtualDisplay.cpp:942-973 | Over all runs: from a new display or an accepted change to a size until a query of the current generation lists modes, the requested size is that size and no retry is used up; that query applies a listed mode of the size requested from then on, within 8 pixels of it at the same height, or adds an 8-pixel aligned one of that height |
| ResolutionRequests.FirstIsChosen | src/display/KWinVirtualDisplay.cpp:628-663 | The first named mode of exactly that size is chosen, and without any of that size the first within 8 pixels |
| ResolutionRequests.AddedModeApplied | src/display/KWinVirtualDisplay.cpp:803-837 | After a mode was added the first acceptable listed one is applied and its size requested; without one no mode is |
| ResolutionRequests.CheckDecides | src/display/KWinVirtualDisplay.cpp:719-768 | A check retries a mismatch with everything else unchanged until the third retry; otherwise it ends the pipeline with the reported size, if any, as the requested one |
| ResolutionRequests.LiveConserved | src/display/KWinVirtualDisplay.cpp:551-973 | Exactly how every event changes the number of timers and callbacks that can act |
| ResolutionRequests.GoesOnUntilDone | src/display/KWinVirtualDisplay.cpp:551-973 | A pipeline begun by an accepted start response or change has one that can act, exactly one in orderly runs, until it is done or the display is created anew or destroyed |
| ResolutionRequests.TornDown | src/display/KWinVirtualDisplay.cpp:845-902 | A teardown ends the session and, exactly if there was one, deactivates the display; an inactive display can do nothing and accepts no size until a start response is accepted |
| ResolutionRequests.SessionFollows | src/display/KWinVirtualDisplay.cpp:127-146 | A session comes from the accepted response to a CreateSession call alone and ends with a teardown, a new display or another accepted response of that handler |
| ResolutionRequests.TeardownDropsRequest | src/display/KWinVirtualDisplay.cpp:845-865 | A teardown drops the current request for good: no response to that call is accepted in the rest of the run |
| ResolutionRequests.DisplayComesUp | src/display/KWinVirtualDisplay.cpp:64-768 | Whatever its size, a display whose calls are answered and whose mode is listed comes up active, with a session, at that size and with nothing pending |
| VirtualDisplay.FindMode | src/display/KWinVirtualDisplay.cpp:628-663 | The two search loops equal the specified choice |
| VirtualDisplay.FindAddedMode | src/display/KWinVirtualDisplay.cpp:812-833 | The search for the added mode returns the first acceptable one |
| VirtualDisplay.Display.CreateDisplay | src/display/KWinVirtualDisplay.cpp:64-122 | Tears down an active or pending session first, starts the retry count over, and makes the first call of the handshake |
| VirtualDisplay.Display.OnResponse | src/display/KWinVirtualDisplay.cpp:127-428 | A response is ignored unless it is about the very call whose request path is the current one; an accepted one uses the path up, and a failed one ends the handshake |
| VirtualDisplay.Display.CallFinished | src/display/KWinVirtualDisplay.cpp:104-122 | The reply to a call makes its request path the current one; an error takes the handler off instead |
| VirtualDisplay.Display.ChangeResolution | src/display/KWinVirtualDisplay.cpp:942-973 | Ignored unless active, nonempty and a change; else a new generation with the debounce timer armed |
| VirtualDisplay.Display.DestroyDisplay | src/display/KWinVirtualDisplay.cpp:845-902 | Always drops the request, stops the debounce timer and begins a generation; deactivates only when there is a session |
| VirtualDisplay.Display.DebounceTimeout | src/display/KWinVirtualDisplay.cpp:968-970 | Starts the pipeline without looking at a generation |
| VirtualDisplay.Display.TimerFired | src/display/KWinVirtualDisplay.cpp:611-618 | A tagged timer acts only for the current generation |
| VirtualDisplay.Display.QueryProcessFinished | src/display/KWinVirtualDisplay.cpp:563-842 | Discards a stale result; else ends, retries, adds a mode or applies one |
| VirtualDisplay.Display.RecheckProcessFinished | src/display/KWinVirtualDisplay.cpp:803-837 | Discards a stale result; else takes over the added mode's width and applies |
| VirtualDisplay.Display.CheckMode | src/display/KWinVirtualDisplay.cpp:719-768 | Retries a mismatch up to three times; when it ends the pipeline the requested size is the compositor's, if it reports one, and near the request unless the retries are used up |
| RttAdaptation.SmoothedWithin | src/core/RdpServer.cpp:1331-1342 | The smoothed value lies between the least and the greatest positive sample since the reset, and is zero exactly while there was none |
| RttAdaptation.GapShrinks | src/core/RdpServer.cpp:1337-1341 | Under a constant r a gap d above shrinks to floor(7d/10) and one below to ceil(7d/10) |
| RttAdaptation.FixedIff | src/core/RdpServer.cpp:1337-1341 | The fixed points under a constant r are exactly [r - 3, r] |
| RttAdaptation.Settles | src/core/RdpServer.cpp:1337-1341 | A constant r settles the value in [r - 3, r] for good within as many ticks as the gap |
| RttAdaptation.SlowerNeverBetter | src/core/RdpServer.cpp:1344-1371 | A history of samples that is slower one by one never leads to a higher frame rate or quality |
| RttAdaptation.AtMostFiveReconfigurations | src/core/RdpServer.cpp:1373-1379 | With constant RTT and settings at most five reconfigurations are emitted in any number of ticks, and the current target is the one for the smoothed value |
| RttAdaptation.EmittedWithin | src/core/RdpServer.cpp:1344-1379 | An emitted target is new, never above the configured frame rate, between 20 and 60 frames unless configured lower, and of the configured quality, if in range, or of 50 to 95 |
| RttAdaptation.SteadyTarget | src/core/RdpServer.cpp:1331-1379 | A constant RTT met long enough fixes the target of its step of the table, in each step but for its first three milliseconds |
| RttAdaptation.Adapter.CheckNetworkAdaptation | src/core/RdpServer.cpp:1329-1380 | One tick: the smoothed value stays the specified one for the samples so far, and a target is emitted exactly when it differs from the current one |
| UnicodeKeyboard.Decoder.PeerUnicodeKeyboardEvent | src/core/RdpServer.cpp:1219-1264 | Over any stream of events the strokes passed on are the well-formed nonzero scalars of the stream in order, each with the flag of the event that completed it; unpaired surrogates are dropped |
| UnicodeKeyboard.DecodeInvertsEncode | src/core/RdpServer.cpp:1226-1251 | Decoding the units of any sequence of nonzero scalars, all pressed or all released, gives the sequence back |
| UnicodeKeyboard.UnpairedDropped | src/core/RdpServer.cpp:1226-1244 | An unpaired surrogate makes no difference, wherever in the stream it stands |
| UnicodeKeyboard.StrokesAreScalars | src/core/RdpServer.cpp:1226-1258 | Nothing but nonzero scalars is ever passed on |
| UnicodeKeyboard.ReleaseSeenIff | src/core/RdpServer.cpp:1234-1244 | When every unit is pressed and released in turn the press of a scalar is always passed on, its release exactly when the scalar is a single unit |

## Left out

- FreeRDP, Qt, the D-Bus portal, PipeWire, libei, FFmpeg and kscreen-doctor are foreign code: only their inputs, results and the messages sent are modelled.
- Real time and condition-variable wakeups are nondeterministic steps with given clock readings; no liveness of the submission thread is claimed.
- Wrap-around of 32-bit frame and stream ids.
- Opening and closing of the graphics session, capability selection, and what SurfaceCommand and EndFrame carry.
- The check and the pop of the submission thread are two transitions here although the queue lock spans both; the proofs so cover more interleavings than the program has.
- The directory walk: what it lists is an input. The announcement messages after a clipboard change, and the formats a client announces.
- ClipboardSender.Sender.ClientFormatDataRequest: UTF-8 encoding belongs to the text library and is an uninterpreted function.
- ClipboardSender.Sender.ClientTextResponse: UTF-8 decoding belongs to the text library and is an uninterpreted function.
- ClipboardDescriptor.Parse: a name without a NUL stops at the end of the payload here, where the program reads on past it; such a read has no defined result.
- CursorGeometry.ProcessedFits: scaling is over the reals and the resampled pixels are an uninterpreted function of the requested dimensions.
- CursorGeometry.ScaledInProportion: the same; rounding of the program's doubles is not modelled.
- The XOR mask's bytes, image hashing and cache keys; a pointer message carries the picture, and a cached entry's pixels are compared as values.
- CursorCoherence.ClientShowsRequested: null images and missing peers are ignored by the program and excluded here.
- Whether the D-Bus library takes handlers off when asked without naming one (src/display/KWinVirtualDisplay.cpp:855-862) is an input, as is which of several connected handlers is given a response.
- The stream-opened flag, the untagged `openPipeWireRemote` timer (src/display/KWinVirtualDisplay.cpp:764), output priorities and scale values; whether the scale changed is an input.
- ResolutionProofs.ModeRetriesBounded: the unlimited "virtual output not found" retry has no bound to prove.
- The frame-rate cut in the display-control handler (src/core/RdpServer.cpp:411-425) and the connection-type defaults.
- UnicodeKeyboard.Decoder.PeerUnicodeKeyboardEvent: keysym lookup and the key signal itself.
- Authentication, audio, PipeWire streaming, input settings, configuration and logging: shallow branches or device I/O.
