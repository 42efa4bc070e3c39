# rumsh: a model of the state-synchronisation protocol

rumsh mirrors a remote terminal over lossy UDP. The server diffs each screen against a frame the client
acknowledged, seals the diff under a fresh number and cuts it into fragments; the client reassembles,
patches its own copy of the reference, shows the result with local echo on top, and returns keystrokes
over a retransmitted, cumulatively acknowledged stream. This project models the four layers, in the
form the source gives them, and joins them into one system whose every run is reasoned about.

| file | what it models |
|---|---|
| Base.dfy | types shared by every layer |
| Grid.dfy | screens, diff and patch |
| Fragments.dfy, Reassembly.dfy | chunking, reassembly with eviction, bitmask NACK, selective resend |
| Escape.dfy | the stdin escape interpreter and whole filtered streams |
| Frame.dfy, Echo.dfy, Terminal.dfy, TypedText.dfy, Acknowledge.dfy | the mirrored frame, predictions with undo data, the client terminal, what typed text shows, acknowledgements between frames |
| Protocol.dfy, ServerSession.dfy, ClientSession.dfy | packets and the two session engines |
| Network.dfy | both sessions joined by an adversarial network: steps and runs |
| Wire.dfy, Repainting.dfy | what each client entry point puts on the wire, and what it runs and repaints |
| ScreenChannel.dfy, ScreenRuns.dfy, MirrorRuns.dfy | the screen channel on every run, resets included |
| References.dfy, AckPacing.dfy | when frames are acknowledged and what the next one is diffed against, on every run |
| EchoRuns.dfy | when keys are echoed, from the server's recommendation to the screen |
| InputChannel.dfy, InputRuns.dfy, Delivery.dfy, Resets.dfy | the reliable input channel, exactly when its promises hold, and what a session reset does to them |
| NoPanic.dfy | when neither end panics, and how the client can |
| ReportedScreen.dfy | which screen a frame carries, and under which number |
| Healing.dfy | recovery from any loss in one round |
| FramePacing.dfy, Flooding.dfy, LossWindow.dfy, Retransmission.dfy, RoundTrip.dfy, NackPacing.dfy, KeepaliveBackoff.dfy | pacing, histories and timers over whole runs |
| Timeliness.dfy | time bounds for catching up, healing and keepalives |
| Transport.dfy, NackLoop.dfy | runs of fragments refine runs of packets; the selective-resend loop across them |

Each object the source updates in place is a class whose methods are proved equal to a function on
values (`Feed`, `CheckSync`, `Patch`, `Insert`, `Reconcile`, ...); the theorems are about those
functions and about runs of the whole system, so they hold of the methods.

A run (`Network.Run`) is any sequence of enabled steps from a valid start. Packets ever sealed stay
available and any one of them may be delivered at any step, or never: that covers loss, duplication,
delay and reordering. A diff job skipped because another is in flight is a frame that is never
delivered. The trace kept beside the sessions (grids recorded, payloads numbered, items processed,
times sent) is history only; no session reads it.

Assumptions, each visible in `Network.Enabled`, `Network.ValidConfig` or `Transport.LinkEnabled`:

- Only packets that were really sealed are delivered to an established session; sealing and opening are inverse and do not fail. A session-0 handshake may arrive at any time with any content.
- PTY writes and resizes succeed; the terminal emulator reports an arbitrary well-formed grid of at most 65536 cells.
- Counters do not overflow 64 bits; the client's reliable and transient counters stay below 2^63.
- Time is a monotone integer of milliseconds handed to each step; the session id is not 0.
- Each server packet takes at most 65535 fragments (fragment level only).
- `diff_from`'s u16 index wraps, as in a release build. The f32 round-trip smoothing uses exact tenths.

The server's window starts after the number it is given at start while the client numbers from 1, so
delivery results are stated with that start number as a parameter. In the program it is at least 1 and
the client's first packet is a resize, so the first resize is never processed unless a reset rewinds to
0. A session reset moves the window to the number its handshake carries; the run up to there is one
stretch, and the next starts at that number (`InputRuns.PresentStretch`). Delivery results hold on every
run for the stretch it ends in.

Where the repository's documentation and its code differ, the model follows the code:

- Architecture.md:94-100 describes a three-tier debouncer; `check_sync` has one interval of 16 ms, or 150 ms while the PTY floods.
- Architecture.md:131-135 describes a keepalive back-off that grows with the silence; the code chooses the interval only when the reconnecting flag changes, so with regular ticks it stays at 5 s (`KeepaliveBackoff.LadderStopsAtFiveSeconds`).

Properties that do not hold of the code without a condition, each with its exact condition:

- The diff sees every change, and diff and patch are inverse, up to 65536 cells and no further.
- A message can be reassembled up to 65535 chunks and no further.
- Delivery over a whole run is exactly-once and in order exactly as long as every handshake is ignored or carries the number already acknowledged (`Delivery.InOrderExactlyWhileWindowKept`).
- After a reset by a handshake carrying h exactly the payloads numbered above h can be processed (`SessionResets.ResetDecides`). So processed keystrokes can reach the PTY again exactly when h is below the highest number processed (`SessionResets.ResetRedeliversIff`), and unprocessed ones are skipped exactly when h is above the acknowledged number (`SessionResets.ResetLosesIff`).
- An acknowledgement between frames leaves every screen as it was, and repeating it changes nothing on any, exactly when the keys still pending echo nothing (`Acknowledging.AcknowledgeIdempotentIff`); otherwise there are screens on which they are typed again.
- NACKs for a frame are at least 100 ms apart for frames newer than the acknowledged one (`NackPacing.NacksAreSpaced`); a frame already superseded is asked for at every check, 40 ms apart (`NackPacing.SupersededFrameIsAskedAgain`).
- The client panics on a packet exactly when it ends an outage over a mirror without rows (`ClientSession.PanicsExactly`); a run reaches that (`NoPanic.PanicReached`), and none does while every screen has a row (`NoPanic.ClientNeverPanics`).

## Model

| member | source | states |
|---|---|---|
| TerminalGrid.GridState.Diff | src/protocol/grid.rs:95-161 | the nested diff loops compute `DiffFrom`, whose meaning the lemmas below give; the grid itself is not changed |
| TerminalGrid.GridState.ApplyPatch | src/protocol/grid.rs:163-199 | overwriting cells row by row computes `Patch`, including where an out-of-bounds update stops it half way |
| TerminalGrid.PatchFailsIff | src/protocol/grid.rs:163-199 | over every screen: patching fails if and only if some update of the diff lies outside the dimensions the diff announces |
| TerminalGrid.FailedPatchIsPartial | src/protocol/grid.rs:163-199 | a failing patch leaves exactly what the updates before the first bad one leave, the good cells of its own row included, with the cursor where it was |
| TerminalGrid.DiffPatchRoundTrip | src/protocol/grid.rs:95-199 | for every well-formed target of at most 65536 cells and every reference, of any size or absent, patching the reference (or a blank grid) with the diff never errors and yields exactly the target: cells, wrap flags, cursor and dimensions |
| TerminalGrid.DiffPatchExactlyUpTo65536Cells | src/protocol/grid.rs:120-132 | because the cell index is computed in u16, all targets and references of given dimensions round-trip if and only if cols * rows <= 65536 |
| TerminalGrid.LostChange | src/protocol/grid.rs:120-132 | a concrete pair of grids, for any larger dimensions, that differ while the diff lists no update at all, whatever its reference number, so the round trip fails |
| TerminalGrid.DiffIsMinimalAndOrdered | src/protocol/grid.rs:112-148 | a diff lists exactly the cells found changed at the u16 index the code reads, and exactly the rows with such a cell or a changed wrap flag, each once, rows and columns strictly increasing |
| TerminalGrid.ChangesSeenExactlyUpTo65536Cells | src/protocol/grid.rs:120-132 | for all grids of given dimensions, "found changed" means "the cell at this position differs" if and only if cols * rows <= 65536 |
| Fragmentation.SealServer | src/protocol/codec.rs:244-273 | sealing cuts a ciphertext into consecutive chunks of 1024 bytes, one fragment each, index and count cast to u16 |
| Fragmentation.FragmentBuffer.InsertFragment | src/protocol/codec.rs:53-145 | storing, completing, pruning and evicting in place compute `Insert`, the function the reassembly lemmas are about |
| Fragmentation.FragmentBuffer.GetIncompleteFrames | src/protocol/codec.rs:148-166 | reports exactly the incomplete frames by increasing number, each with a mask that has one word per 64 fragments and exactly the received bits set |
| Fragmentation.ReceivedMask | src/protocol/codec.rs:152-163 | the mask has exactly the bits of the buffered fragment indices set, across all word boundaries |
| Fragmentation.FragmentCache.Remember | src/server/network.rs:286-293 | of all frames remembered so far, the cache is exactly the newest four that took several fragments, in order |
| Fragmentation.FragmentCache.ResendFragments | src/server/network.rs:318-367 | resends of a cached frame exactly the fragments whose mask bit is clear, a missing word counting as clear, and nothing of a frame not cached |
| Reassembly.CachedFrameCompletes | src/server/network.rs:318-367 | if a buffered frame is among the newest four multi-fragment frames the server sent, what the cache resends for the client's mask completes it with the original |
| Reassembly.InsertKeepsBufferInv | src/protocol/codec.rs:74-145 | for any fragment at all: at most 32 frames stay buffered, each strictly incomplete, and right after frame s completes only frames above s remain |
| Reassembly.DeliverKeepsBufferInv | src/protocol/codec.rs:74-166 | the same after any run of arrivals, the clause on frames above the completed one included |
| Reassembly.InsertDropsOldest | src/protocol/codec.rs:136-143 | a fragment that completes nothing leaves every held frame and its own in the buffer, with its piece and wire length added, less only the smallest number, and that one only when 33 would be held |
| Reassembly.InsertSealed | src/protocol/codec.rs:85-133 | a fragment completes its frame exactly when every other index is held (pigeonhole behind the count test), and then yields the original ciphertext, number and ack |
| Reassembly.ReassemblyIsSafe | src/protocol/codec.rs:53-145 | under any interleaving, duplication and reordering of fragments of many sealed packets, whatever is returned is an exact original |
| Reassembly.LastMissingIndexCompletes | src/protocol/codec.rs:53-145 | in terms of what arrives: when at most 31 frame numbers above s are held or arrive meanwhile, whatever lies below s, and neither s nor a newer frame of several fragments is complete before, the arrival of the last missing index of s returns its original |
| Reassembly.ReassemblyLimit | src/protocol/codec.rs:244-273 | a message can be reassembled by some run of its own fragments if and only if its ciphertext is at most 65535 * 1024 bytes |
| Reassembly.ResendIsExact | src/server/network.rs:338-361 | for a mask that encodes what is held, the fragments resent are exactly the complement, in index order and once each |
| Reassembly.ResendCompletes | src/server/network.rs:318-367 | delivering those fragments to the still buffered frame completes it with the last of them, with the original as result |
| EscapeFilter.EscapeInterpreter.Handle | src/client/escape.rs:52-111 | the field-updating state machine computes `HandleByte`, from which whole streams are filtered |
| EscapeFilter.ChunkingIsIrrelevant | src/client/session.rs:317-348 | what is sent, which commands run and the state left behind do not depend on how stdin is cut into reads |
| EscapeFilter.NothingAfterDisconnect | src/client/session.rs:327-332 | nothing after a disconnect command is looked at |
| EscapeFilter.DoubledTildesSendAnything | src/client/escape.rs:52-111 | doubling each tilde at a line start sends every byte string unchanged and runs no command |
| EscapeFilter.ScriptIsFollowed | src/client/escape.rs:52-111 | for every sequence of texts and commands in which commands stand at line starts and a disconnect comes last: typing it (doubled tildes, and a tilde with `.`, ctrl-Z, `?` or `o`) sends exactly the texts and runs exactly the commands, in order |
| EscapeFilter.OtherPairsAreSent | src/client/escape.rs:45-111 | a session starts at a line start, where a tilde and any other key are both sent and run nothing |
| MirroredFrame.TerminalFrame.UpdateFromGridState | src/client/terminal.rs:88-139 | the compare-and-overwrite loops compute `UpdateFrom`; the result says whether the size changed |
| MirroredFrame.UpdateShows | src/client/terminal.rs:88-139 | whatever was mirrored before, an update from a well-formed grid leaves exactly its cells, cursor, visibility and size |
| MirroredFrame.UpdateMarksChanges | src/client/terminal.rs:88-139 | any change of dimensions included, a position shown differently after an update lies in a row marked dirty, of a frame that is dirty or asks for a clear (what `consume_updates` tests) |
| MirroredFrame.UnpaintedIsUnchanged | src/client/terminal.rs:88-139 | a frame that is neither dirty nor asks for a clear after an update was not changed by it at all |
| MirroredFrame.ResizedFrameStaysClean | src/client/terminal.rs:90-104 | a concrete resize that changes what is shown and leaves the dirty flag false, so the clear request is needed |
| LocalEcho.LocalEchoEngine.ApplyKeystrokes | src/client/echo.rs:29-100 | echoing byte by byte computes `Predict`: the new frame and one queue entry with its undo data |
| LocalEcho.LocalEchoEngine.ReconcileFrame | src/client/echo.rs:102-117 | popping and replaying compute `Reconcile` |
| LocalEcho.LocalEchoEngine.AbortPredictions | src/client/echo.rs:119-133 | undoing newest first computes `Abort` |
| LocalEcho.UndoIsExact | src/client/echo.rs:29-133 | for all bytes, undoing an entry gives back the frame it was predicted on, cells and cursor |
| LocalEcho.ReplayKeepsUnpredicted | src/client/echo.rs:109-116 | replaying any entries leaves the screen below the predictions as it was |
| LocalEcho.PruneIsFilter | src/client/echo.rs:103-108 | with one epoch and increasing numbers, popping from the front keeps exactly the entries above the ack |
| LocalEcho.ReconcileRefinesFilter | src/client/echo.rs:102-117 | reconciling is the input frame with the concatenated bytes of the entries above the ack echoed on it, and keeps the queue ordered |
| LocalEcho.ReconcileKeepsCursorInside | src/client/echo.rs:29-117 | a cursor inside a nonempty frame stays inside, whatever is pending |
| LocalEcho.AbortEndsTheEpoch | src/client/echo.rs:102-133 | after an abort nothing predicted before it survives a reconciliation, whatever is acknowledged |
| TypedText.TextIsShown | src/client/echo.rs:63-87 | printable text typed with the cursor on the frame stands letter by letter, unstyled, in the cells from the cursor on, over any number of rows while it ends before the last cell; no other cell changes, and the cursor is right behind it |
| TypedText.TextInARow | src/client/echo.rs:63-80 | when the text fits before the end of the row: cell (x, y) shows letter i exactly at x = cursor + i in the cursor's row, every other cell is as before |
| TypedText.LetterWraps | src/client/echo.rs:80-85 | a letter in the last column stands there, and the cursor goes to column 0 of the next row, or of the last one again |
| TypedText.BackspaceBlanks | src/client/echo.rs:43-61 | backspace and delete blank the cell to the left of the cursor and move onto it; in column 0 they do nothing |
| TypedText.LineEndsMove | src/client/echo.rs:36-42 | return goes to column 0, line feed to column 0 of the next row, or of the last one again; no cell changes |
| TypedText.OthersShowNothing | src/client/echo.rs:63-88 | every other byte leaves the frame as it is, and so does a letter while the cursor is off the frame |
| ClientMirror.ClientTerminal.ApplyGrid | src/client/terminal.rs:204-216 | update, then reconcile under the server's number |
| ClientMirror.ClientTerminal.PredictInput | src/client/terminal.rs:218-224 | predicts on the shared frame |
| ClientMirror.ClientTerminal.Acknowledge | src/client/terminal.rs:226-232 | reconciles the frame as it is, predictions included |
| ClientMirror.ClientTerminal.AbortPrediction | src/client/terminal.rs:234-238 | aborts on the shared frame |
| ClientMirror.AbortRestoresFrame | src/client/terminal.rs:204-238 | after a frame and any number of predictions, aborting shows exactly the frame's grid, with nothing pending |
| ClientMirror.ApplyFrameEchoesSurvivors | src/client/terminal.rs:204-216 | after a frame the screen is the grid with the bytes of the entries above its number typed on it |
| ClientMirror.AcknowledgeKeepsPredictions | src/client/terminal.rs:226-232 | an acknowledgement alone makes the predictions shown so far part of what an abort returns to |
| ClientMirror.AcknowledgedPredictionStays | src/client/terminal.rs:226-232 | a concrete mirror where one typed letter is not undone any more after an acknowledgement |
| Acknowledging.AcknowledgeLeavesScreenIff | src/client/terminal.rs:226-232 | for every queue and ack: the acknowledgement leaves every screen as it was if and only if the bytes still pending after it contain none that echoes |
| Acknowledging.AcknowledgeIdempotentIff | src/client/terminal.rs:226-232 | for every queue and ack: repeating the acknowledgement changes nothing, on every screen, if and only if the bytes still pending contain none that echoes |
| Acknowledging.RepeatableIff | src/client/terminal.rs:226-232 | for every mirror: repeating an acknowledgement changes nothing if and only if the first one left this screen as it was |
| Acknowledging.AcknowledgeLeavesMirrorIff | src/client/terminal.rs:226-232 | undo data included, an acknowledgement leaves every mirror with this queue as it was if and only if the queue is empty |
| Acknowledging.AcknowledgedKeyIsTypedAgain | src/client/terminal.rs:226-232 | a concrete mirror with one letter pending: an acknowledgement types it a second time, and repeating it is not idempotent |
| ServerSession.AuthoritativeSession.constructor | src/server/session.rs:121-162 | the initial numbering: the window opens right after the client's start number |
| ServerSession.AuthoritativeSession.FeedPacket | src/server/session.rs:164-387 | handshake, foreign session, transient bypass, duplicate, gap and in-order packet compute `Feed`, new state and actions |
| ServerSession.AuthoritativeSession.HandleHandshake | src/server/session.rs:178-213 | the reset path, silent within five seconds of the last packet |
| ServerSession.AuthoritativeSession.HandleInOrder | src/server/session.rs:304-386 | the window advances first, then everything released is processed in order, then the screen is synced |
| ServerSession.AuthoritativeSession.AdvanceWindow | src/server/session.rs:304-319 | draining the buffer in a loop gives the contiguous run and what is left of the buffer; the ack is set to the window's end |
| ServerSession.AuthoritativeSession.CheckSyncNow | src/server/session.rs:411-545 | throttling, skipping and emitting compute `CheckSync` |
| ServerSession.AuthoritativeSession.EmitFrame | src/server/session.rs:463-537 | prunes, chooses the reference, numbers and records the frame |
| ClientSession.MirrorSession.constructor | src/client/session.rs:64-105 | the initial numbering, timers and echo |
| ClientSession.MirrorSession.FeedPacket | src/client/session.rs:107-315 | acknowledgements, loss window, duplicate drop, reference lookup, patch and history compute `Feed`, new state, actions and outcome |
| ClientSession.MirrorSession.ReceiveHeader | src/client/session.rs:128-190 | what a packet does before its own number is looked at |
| ClientSession.MirrorSession.Hear | src/client/session.rs:209-217 | a newer packet sets time, acknowledgement and keepalive interval, and takes the banner down, failing exactly over a mirror without rows |
| ClientSession.PanicsExactly | src/client/session.rs:209-217 | a packet makes the client panic if and only if it is newer, an outage is showing and the mirrored frame has no rows |
| NoPanic.PanicReached | src/client/session.rs:209-217 | from every valid start over a mirror without rows there is a run, five silent seconds and a shutdown, that puts a packet on the wire the client panics on |
| ClientSession.MirrorSession.UpdateLossWindow | src/client/session.rs:155-175 | pushing lost slots one by one, or correcting a late one, computes `PushSlots` |
| ClientSession.MirrorSession.ReceiveFrame | src/client/session.rs:219-303 | reference lookup, missing-reference branch, patch, mirror, history and rate-limited ack |
| ClientSession.MirrorSession.FeedInput | src/client/session.rs:317-367 | the stdin loop computes the stream filter; what is left is numbered, kept and predicted |
| ClientSession.MirrorSession.Winch | src/client/session.rs:369-378 | a resize is numbered and kept, and aborts the predictions |
| ClientSession.MirrorSession.OnTick | src/client/session.rs:380-485 | keepalive, retransmission, banner, telemetry repaint and NACK in this order, the banner's marks included; the retransmissions are the overdue packets in some order, once each |
| ClientSession.MirrorSession.UpdateBanner | src/client/session.rs:418-440 | raises or lowers the flag with its marks, and chooses the keepalive interval only then |
| ClientSession.MirrorSession.Retransmit | src/client/session.rs:389-416 | collects exactly the packets overdue at the round-trip limit and marks each as sent now |
| ClientWire.TickSends | src/client/session.rs:389-416 | the packets a tick sends: its keepalive, exactly the overdue packets unchanged, and its NACKs |
| ClientWire.IncompleteFramesAreReported | src/client/session.rs:463-482 | when the 40 ms check is due, exactly the incomplete frames not reported during the last 100 ms are, each with its own mask, and no other frame |
| Repainting.StdinActs | src/client/session.rs:317-367 | a read of stdin quits, suspends and shows help exactly when such a command was typed, asks for a repaint exactly when the overlay was toggled or keys were predicted, and marks the frame dirty exactly for suspend, help and toggle |
| Repainting.StdinActsInOrder | src/client/session.rs:317-367 | the commands' actions come first, in the order typed, then the repaint for predicted keys, and the packet with exactly the filtered bytes last |
| Repainting.WinchActs | src/client/session.rs:369-378 | a resize is sent once as the next numbered payload, with a repaint of a frame marked dirty |
| Repainting.TickActs | src/client/session.rs:418-461 | a tick repaints exactly when the banner flips or a second has passed since the last figures; after it the flag says whether the silence exceeds 5 s |
| Repainting.OutageEndsRepainted | src/client/terminal.rs:305-316 | the packet that ends an outage leaves the frame dirty with its last row marked, whatever it carries, so the banner is painted over |
| ScreenChannel.ReferencePresent | src/server/session.rs:475-501 | an applied frame at most six numbers older than the arriving one is still in the client's 200-entry history, under its recorded grid |
| ScreenChannel.FeedKeeps | src/server/session.rs:164-387 | any packet fed to the server, resets included, keeps the channel invariant: one packet per number, every frame the diff of its recorded grid against an applied reference |
| ScreenChannel.AcknowledgedFrameIsTheReference | src/server/session.rs:255-258 | a newly acknowledged frame is what the next frame is diffed against if it lags by at most five and is remembered, which pruning never prevents; otherwise the frame is full |
| References.EveryFrameDiffsAgainstTheAck | src/server/session.rs:475-501 | on every run, resets included, every frame job is diffed against the frame the client acknowledged, computed from the packets that arrived alone, with its recorded grid, when it is remembered and at most five numbers behind, and against nothing otherwise |
| References.HandshakeHeededIff | src/server/session.rs:178-187 | on every run a handshake resets the session if and only if nothing was sealed yet or the last packet of the session, or heeded handshake, arrived at least 5 s ago |
| AckPacing.FeedAcks | src/client/session.rs:240-302 | every arriving packet, with the exact actions: an applied frame paints and, 30 ms after the last acknowledgement, acknowledges its own number; a frame whose reference is missing is answered by an acknowledgement at once; nothing else is |
| AckPacing.QuitsExactly | src/client/session.rs:307-310 | a packet ends the client if and only if it is a shutdown notice newer than everything acknowledged and does not make it panic |
| AckPacing.AppliedFrameIsAcknowledged | src/client/session.rs:295-302 | on every run: an applied frame n is acknowledged with ack n, under the next transient number, if and only if no acknowledgement was sent in the last 30 ms; no two ever are less than 30 ms apart, and no other arrival sends one |
| AckPacing.AckedFrameIsTheReference | src/server/session.rs:255-258 | wherever the run goes, that acknowledgement stays on the wire, and once it reaches the server as a higher one, the frame job then emitted is diffed against frame n with exactly its recorded grid if n lags by at most five and is remembered, and is full otherwise |
| ScreenRuns.RunKeeps | src/client/session.rs:200-287 | the screen channel's invariant holds on every run, with resets, shutdowns and acknowledgements that go down |
| MirrorRuns.HistoriesAgree | src/client/session.rs:284-287 | on every run, each entry of the client's and of the server's history is the grid the server recorded under that number |
| MirrorRuns.ServerSealsEachNumberOnce | src/server/session.rs:164-409 | on every run, two packets sealed by the server under one number are equal |
| MirrorRuns.NeverMissingReference | src/client/session.rs:231-277 | on every run, an arriving packet never reaches the missing-reference branch and never fails to patch; it is applied exactly when it is a frame above the acknowledged number and does not make the client panic |
| MirrorRuns.AcceptedFrameIsExact | src/client/session.rs:219-287 | on every run, an accepted frame ends as the newest history entry with exactly the recorded grid; with echo off the mirror is that grid with nothing pending, with echo on it is that grid with the keystrokes above both numbers typed on it |
| MirrorRuns.QueueOnEveryRun | src/client/echo.rs:102-117 | on every run the queued predictions carry the current epoch and increasing numbers the client has used |
| MirrorRuns.AbortShowsLastFrame | src/client/terminal.rs:204-238 | on every run, however much is typed after an accepted frame, aborting shows the recorded grid again |
| EchoRuns.SyncRecommends | src/server/session.rs:523-537 | every job a sync emits carries the echo recommendation of that moment |
| EchoRuns.RecommendationIsFollowed | src/client/session.rs:277-278 | on every run each frame on the wire carries what was recommended at the step that queued it, and the client predicts as the last frame it applied says, or always before any |
| EchoRuns.PredictionsFollowTheFlag | src/client/session.rs:350-363 | on every run, from an accepted frame until the next packet reaches the client, with any typing, ticks, resizes and server steps: with echo off the screen is exactly the frame's grid with nothing pending; with echo on it is that grid with the frame's surviving keystrokes and then every all-printable packet's bytes typed on it in order, until a resize takes them off, and nothing else |
| InputChannel.ContiguousIs | src/server/session.rs:307-316 | draining takes exactly the consecutive numbers from the expected one and leaves every other entry as it was |
| InputChannel.FeedIn | src/server/session.rs:229-386 | any packet of the session keeps the input invariant, never lowers the window, writes exactly the released items to the PTY, and a reliable packet is held or processed from then on |
| InputRuns.RunIn | src/server/session.rs:250-349 | the input channel's invariant holds on every run, whatever resets it has, for the stretch since the last reset that moved the window; without one that stretch is the whole run |
| InputRuns.HandshakeStepIn | src/server/session.rs:178-213 | a handshake ends the stretch if and only if it resets the session to another number than the acknowledged one; the new stretch then starts at that number, and an ignored handshake leaves the server as it is |
| Delivery.ExactlyOnceInOrder | src/server/session.rs:285-349 | on every run, resets included: since the last reset that moved the window the processed payloads are those numbered start + 1 to expected - 1, in order, once each, with start that reset's number, or clientStart while there was none; the ack is expected - 1; everything ever processed is a payload the client numbered; the PTY got exactly its operations; buffered keys lie above the window with their own payloads |
| Delivery.InOrderExactlyWhileWindowKept | src/server/session.rs:178-349 | over any run at all: the promise for the whole run, from clientStart, is kept all along it if and only if every handshake of it is ignored or carries the number acknowledged at that moment |
| Delivery.NothingForgottenEarly | src/client/session.rs:152-153 | on runs that kept their window, no server packet acknowledges beyond what was processed, so every unprocessed payload still waits at the client under its number |
| Delivery.TransientMovesNothing | src/server/session.rs:250-283 | in any state of the server, an Ack or NACK never changes the window, the buffer, the ack or the PTY |
| Delivery.CatchesUp | src/server/session.rs:285-318 | from every state of every run: once every unprocessed packet has reached the server, in any order, with duplicates and anything but a reset in between, all are processed and, with nothing newly numbered, the buffer is empty and the whole log from the stretch's start delivered |
| Delivery.KeystrokesReachThePty | src/client/session.rs:317-367 | on runs that kept their window, until a disconnect is typed, the filtered stdin is what was skipped by the start number, then the bytes written to the PTY, then what is not processed yet |
| Delivery.PtyHasPrefixOfStdin | src/server/session.rs:326-337 | when moreover no keystrokes lie among the skipped first packets, the PTY has a prefix of the filtered stdin, and the whole of it once all is processed |
| SessionResets.ProcessableIffAboveAck | src/server/session.rs:285-324 | on every run, resets included: a numbered payload can be processed from here on without another reset if and only if its number is above the acknowledged one, so nothing above is ever stuck and nothing up to there comes back |
| SessionResets.ResetDecides | src/server/session.rs:178-213 | after a reset by a handshake carrying h, at any point of any run, a numbered payload can be processed, for the first time or once more, in some continuation without another reset if and only if its number is above h |
| SessionResets.ResetRedeliversIff | src/server/session.rs:178-213 | some payload processed before, in whatever stretch, can be processed again after the reset if and only if h is below the highest number ever processed; on a run that kept its window, if and only if h and the start number are both below the acknowledged one |
| SessionResets.LostExactly | src/server/session.rs:178-213 | exactly the numbered payloads above the acknowledged number and up to h could be processed before the reset and cannot after it |
| SessionResets.ResetLosesIff | src/server/session.rs:178-213 | a reset makes the server skip some numbered payload if and only if h is above the acknowledged number and a numbered payload is still unprocessed |
| SessionResets.ResetDeliversAgain | src/server/session.rs:178-213 | one rewind in full: a late copy of a processed keystroke packet is written to the PTY a second time |
| NoPanic.ServerNeverPanics | src/server/session.rs:381 | on every run, resets included, the `unreachable!()` for a handshake in the reliable stream is not reached |
| NoPanic.ClientNeverPanics | src/client/session.rs:209-217 | on every run where neither the first mirror nor any reported screen lacks rows, no packet makes the client panic |
| ReportedScreen.ScreenIsReported | src/server/session.rs:338-394 | on every run the server's screen is the one reported last, by output of the terminal or by the resize a processed packet asked for |
| ReportedScreen.FrameShowsTheReport | src/server/session.rs:435-537 | on every run each frame number is recorded with the screen reported last when it was queued |
| ReportedScreen.NumberedInTurn | src/server/session.rs:164-387 | whatever packet arrives, the packets it makes the server send and the frame it queues, last, carry the numbers after seq_num one after the other, without a gap |
| Healing.SyncEmitsIff | src/server/session.rs:411-461 | a sync emits a frame, with the current screen, if and only if it is not throttled and either an acknowledgement is untold or a dirty screen is not the newest recorded one |
| Healing.RunTold | src/server/session.rs:189-195 | on every run, resets included, the last acknowledgement sent is not ahead of the current one, unless a reset just cleared the history and left a first frame owed |
| Healing.OneRoundSendsTheScreen | src/server/session.rs:411-544 | from every state of any run, resets included: a new in-order packet, any steps with the screen unchanged, handshakes included, and one unthrottled tick put a newly numbered frame with exactly that screen on the wire |
| Healing.OneRoundHealsAnyLoss | src/client/session.rs:200-287 | after that round, wherever the run goes, a client that receives the frame before any packet numbered above it, and does not panic on it, ends with exactly that screen |
| FramePacing.FrameRateIsBounded | src/server/session.rs:414-425 | on every run consecutive frame jobs are at least 16 ms apart, 150 ms while flooding, so jobs within T ms number at most 1 + T / 16 |
| Flooding.FloodSlowsFrames | src/server/session.rs:414-425 | on every run: after more than 2048 bytes of output without a pause of 50 ms, no frame is sent less than 150 ms after the last one while the output goes on |
| Flooding.CalmDoesNot | src/server/session.rs:414-429 | on every run: with at most 2048 bytes of output in all, or 50 ms after the last, a frame that is owed goes out 16 ms after the last one |
| Flooding.CountStartsOver | src/server/session.rs:427-429 | a sync that is not throttled, 50 ms after the last output, forgets what was counted before it |
| FramePacing.HistoryIsNewestFrames | src/server/session.rs:467-521 | on every run the server's history is a suffix of the frames queued since the last reset, numbers increasing and at most seq_num, at most 200 and at least the newest min(n, 100) |
| FramePacing.NoChangeIsLost | src/server/session.rs:427-465 | on every run a clean server has its screen as the newest recorded frame, if it recorded any, and one unthrottled sync makes a dirty one so |
| LossWindow.LossWindowMeansReceived | src/client/session.rs:128-179 | on every run the window has at most 100 slots, one per number counted since the last outage, and the slot g from the end is true exactly when number expected - 1 - g was received |
| Retransmission.RetransmittedInTime | src/client/session.rs:389-416 | on every run, while the last tick is at most d ms ago, every waiting packet was last sent less than 1100 + d ms ago, whatever the round trip; two transmissions of one packet are at least 200 ms apart |
| RoundTrip.FeedTrip | src/client/terminal.rs:254-268 | a packet sets the round trip to its first measured sample, or to four fifths of the old value and one fifth of the sample, and leaves it alone without one |
| RoundTrip.ResentByRoundTrip | src/client/session.rs:389-416 | on every run whose measured round trips lie between lo and hi, while the last tick is at most d ms ago, every waiting packet was last sent less than P + 100 + d ms ago, P being twice hi but between 200 and 1000 |
| RoundTrip.ResentAtTheRightAge | src/client/session.rs:391-408 | on such a run a due check resends every packet at least P ms old, and none younger than twice lo, but between 200 and 1000 |
| NackPacing.NacksAreSpaced | src/client/session.rs:463-482 | on every run a NACK for a frame newer than the acknowledged one comes at least 100 ms after every earlier one for it |
| NackPacing.SupersededFrameIsAskedAgain | src/client/session.rs:478-481 | of a superseded frame still held in part the check that asks for it forgets that it did, so a check 40 ms later asks again |
| KeepaliveBackoff.LadderStopsAtFiveSeconds | src/client/session.rs:418-440 | with ticks less than ten seconds apart the keepalive interval is 2 s without and 5 s during an outage, however long it lasts |
| KeepaliveBackoff.OneStepOfTheLadder | src/client/session.rs:426-439 | however far apart the ticks, the interval during an outage is the documented step for the silence seen by the one tick that raised the flag, and 2 s otherwise |
| KeepaliveBackoff.TickNeverLowersTheFlag | src/client/session.rs:418-424 | on every run a tick only ever raises the reconnecting flag, so only a packet takes the banner down |
| Timeliness.CatchesUpInTime | src/client/session.rs:389-416 | when 1100 + d ms have gone by since a state, with a tick at most d ms old, and every transmission made since reaches the server by a later state, without a reset, everything numbered at the first state is processed at the last |
| Timeliness.HealsInTime | src/server/session.rs:412-465 | from every state of any run: once a new client packet has arrived in order, the first server tick at least 150 ms later finds the current screen on the wire in a newly numbered frame, however much was throttled, and a client that takes that frame ends with that screen |
| Timeliness.KeepalivesKeepComing | src/client/session.rs:380-387 | with ticks at most d < 10000 ms apart, a keepalive was numbered and sent less than 5000 + d ms ago, outage or not |
| Transport.FragmentsRefinePackets | src/protocol/codec.rs:275-304 | every run of fragments, with any codec whose open inverts its seal, leaves both sessions exactly where the run of the packets it completes, and of its other steps, leaves them |
| Transport.HistoriesAgreeOverFragments | src/protocol/codec.rs:275-304 | so the histories agree with the recorded grids on every run of fragments too |
| Transport.ExactlyOnceOverFragments | src/protocol/codec.rs:275-304 | and delivery is exactly-once and in order on every run of fragments, for the stretch since the last reset that moved the window, and for the whole run while none did |
| Transport.OneRoundHealsOverFragments | src/protocol/codec.rs:275-304 | and one round heals on the link: a client that completes the frame's fragments first ends with exactly the screen |
| NackLoop.NackLoopCloses | src/client/session.rs:463-482 | on every run of fragments: when a tick asks for a frame held in part and the server still caches it, a NACK goes out, the server answers with the frame's resend for that mask, and when those fragments arrive the client receives the original packet, once, with the last of them |

## Left out

- ChaCha20-Poly1305, LZ4 and bincode: library code; sealing and opening appear only as functions that are inverse, without a claim about secrecy or authenticity.
- libghostty-vt and `ServerTerminalState`: foreign calls; any well-formed grid may be reported. Bytes the emulator writes back to the PTY are not modelled, so PTY results speak of the client's input only.
- Process inspection behind the echo recommendation: an arbitrary flag for each step.
- Sockets, roaming addresses, signals, bootstrap, port binding, command line, scripts, log output: plumbing that does not change the session state modelled here.
- Delays and task interleaving inside the action executor of src/server/network.rs: its sends may happen in any order at any later time.
- `ClientTerminalRenderer::paint`, overlay text, `consume_updates`, and the telemetry floats with the dirty flag they set while the overlay is shown: user interface and floating point. Nothing is claimed about what is physically painted; predictions do not mark rows dirty in the source either.
- The 300 ms keystroke priority and the other tiers of the documented debouncer: not in the code.
- The handshake loop as a delivery guarantee: a handshake is a step that may arrive at any time with any number. What a reset does to the input stream is stated exactly; that the client reaches the server with one is not.
- A client after a panic: its process is gone, and the run goes on without its answers.
- ClientSession.MirrorSession.FeedPacket: leaves out the dirty flag that new round-trip and loss figures set while the overlay is shown, because the figures are floats.
- ClientSession.MirrorSession.ReceiveHeader: leaves out the loss figure recorded with each round trip and the dirty flag it sets, for the same reason; the loss window itself is there.
- ClientSession.MirrorSession.OnTick: leaves out the same flag for the bandwidth and frame-rate figures; their once-a-second repaint action is there.
- Delivery.CatchesUp: allows any resets before the catching up but none during it, because a reset empties the buffer of packets that arrived early.
- Delivery.NothingForgottenEarly: covers runs that kept their window, because a reset to a higher number acknowledges packets the server never processed (SessionResets.LostExactly); Timeliness.CatchesUpInTime needs it and has the same premise.
- NackLoop.NackLoopCloses: the buffer receives nothing else of several fragments between the tick and the resent fragments; with other arrivals in between it is Reassembly.LastMissingIndexCompletes that tells when the frame completes.
- Grapheme clusters beyond equality, wide characters and their truncation: a cell holds an opaque string.
- `seal_client` and `open_client`: straight-line calls without state; client packets are delivered whole.
- FramePacing.NoChangeIsLost: speaks of recorded frames; a frame whose job is skipped while another is in flight is recorded but not sent, and it is the next acknowledgement that repairs this (Healing.OneRoundHealsAnyLoss).
- KeepaliveBackoff.LadderStopsAtFiveSeconds: covers ticks less than ten seconds apart, because a later first tick chooses a longer interval.
