# Verified model of the terminal server's stateful core

This project models the parts of a browser terminal server in which state, order and arithmetic matter,
and proves what they keep. Sessions, the monitor channel, the session registry and the WebSocket multiplexer
are step systems: every region the source runs under a lock, and every single channel operation, is one atomic
step, and the scheduler, the output, the clients, timeouts and process exits are free. The output scanner and the
other streaming or ordering kernels are imperative methods proved equal to small specification functions, about
which the laws are then proved.

Each component has one or two modules. Where the source updates objects in place there is a class with the same
fields, whose methods are tied to a value of a datatype (`View()` or `State()`); the step systems and the laws work on
that value, and a step applies the same function that the contract of the method it stands for names.

| files | component |
|---|---|
| `common`, `ring`, `route_codec`, `replay` | output ring, framed routes (server and browser halves), attach-time replay |
| `session`, `session_protocol` | attach, preempt, destroy and the output pump |
| `mirror`, `monitor` | screen mirror with its version, dirty-row pushes |
| `gfx_scanner`, `emulator` | the byte scanner and the rewriting writer in front of the terminal emulator |
| `emulator_stream`, `emulator_passthrough`, `emulator_placeholder`, `emulator_grammar`, `emulator_tokens`, `emulator_laws`, `emulator_wire` | what the writer makes of every stream of bytes, however it is cut into calls, and of text, numbers and strings |
| `manager`, `manager_runs`, `manager_service` | session registry |
| `ws_channel`, `ws_mux`, `ws_service` | logical channels on one WebSocket |
| `marker`, `capture_assembly` | marker search across reads, reassembly of chunked captures |
| `rotating_log` | size-rotated log files |
| `quantize`, `gif_timeline`, `gif_rounding`, `gif_sampler`, `gif_recording` | colour quantization, merging and timing of recordings, what a recording shows |
| `drag`, `mouse` | drag paths and synthetic mouse requests |
| `semver`, `semver_laws`, `semver_pairs` | version parsing and precedence |

## Findings

Some properties one would expect do not hold of the code; each has its exact condition or a concrete run.

- The replay boundary that is meant to filter live chunks never withholds one (`SessionProtocol.GuardNeverFilters`). A
  client gets a byte both in its replay and live if and only if the replay holds it and it was not yet offered when the
  client's connection was stored; there are such bytes only if a chunk found its target between that moment and the
  snapshot (`SessionProtocol.SeenTwiceIff`, and a run of five steps in `SessionProtocol.ReplayRepeatsDelivered`).
- A change that leaves rows and size alone, such as a cursor move, sends no monitor frame (`Monitor.DiffSendsOnlyVisibleChanges`).
- A rewritten CSI (`s`, `u`, `b`) that is cut by a call boundary keeps the bytes already forwarded before the last cut in
  it; other cuts, in escape sequences or CSIs that are not rewritten, in characters or in strings, change nothing
  (`EmulatorLaws.CsiCutVisible`, `EmulatorLaws.SameCutsSameOutput`). `CSI b` without a character since the start or the
  last reset emits the last cursor save or restore again (`EmulatorLaws.RepeatsStaleReplacement`,
  `EmulatorLaws.RepeatReplaysSave`).
- The second region of `Manager.Destroy` removes whatever the id names by then: another session, exactly when one
  was started under the id in between (`ManagerRuns.DestroyForgetsAnotherIff`, `ManagerRuns.DestroyMayForgetAnother`).
- The browser encoder accepts bodies over 65535 bytes, which the server then rejects (`RouteCodec.BrowserToServer`). A
  picture in more than 1024 frames is never answered, and neither is one that comes while the waiter holds part of
  another; it takes that part with it (`CaptureAssembly.AnySplitAssembles`, `CaptureAssembly.SplitThenAssemble`).
- The comment above the GIF encoder says merging leaves the total duration unchanged. That holds for the spans but not for
  the rounded delays (`GifTimeline.MergingCanChangePlayingTime`). The total loses exactly the drifts of the merged groups,
  so it is kept if and only if these add up to 0 (`GifRounding.MergingKeepsTotalIff`); with one repeated frame that is when
  the last digits of its two delays round alike (`GifRounding.OneRepeatKeepsTimeIff`). Every picture keeps its
  playing time if and only if no group drifts (`GifRounding.MergingKeepsTimesIff`).
- A bare mouse "up" releases a held button only if some held button was asked for by its lower-case name. A button asked
  for as "LEFT" is held at the end of a run if and only if neither a click named "LEFT" nor a reset in the output
  came since it was last pressed: no release frees it (`Mouse.BareUpReleasesIff`, `Mouse.PressThenRelease`,
  `Mouse.HeldForGood`).
- A prerelease number over the machine integer is ranked as text. The comparison is the standard's precedence exactly for
  versions whose numeric identifiers fit (`SemVerLaws.FollowsStandardIff`); for two given versions, exactly when the
  first two identifiers that differ are ordered alike as numbers and as text (`SemVerPairs.AgreesIff`). Rendering and
  parsing again loses a prerelease that ends in white space (`SemVerLaws.RenderThenParse`).

## Model

| member | source | states |
|---|---|---|
| OutputRing.Ring.Write | internal/session/ring.go:20-37 | after any writes the buffer is the last `cap` bytes of everything written |
| OutputRing.Ring.Bytes | internal/session/ring.go:40-44 | the copy is the last `cap` bytes of the history |
| Common.TailIs | internal/session/ring.go:20-37 | the last n bytes of a text are its end, n long or all of it |
| RouteCodec.EncodeRouteFrame | internal/terminal/protocol.go:316-331 | the filled buffer is the 16-byte id, the type, the big-endian length and the payload; wrong ids and over-long payloads are refused |
| RouteCodec.BrowserEncodeRoute | apps/web/src/utils/ws.ts:107-127 | the browser's buffer, id cut or zero-filled to 16 bytes, the length's low 16 bits |
| RouteCodec.RouteRoundTrip | internal/terminal/protocol.go:316-347 | what the server encodes both decoders read back; it encodes exactly 16-byte ids with payloads up to 65535 |
| RouteCodec.RouteDecodeInverse | internal/terminal/protocol.go:334-347 | only frames the encoder produces are accepted |
| RouteCodec.BrowserToServer | apps/web/src/utils/ws.ts:107-127 | the server accepts a browser frame if and only if its body fits the length field, and then reads what was sent |
| RouteCodec.FrameLayout | internal/terminal/protocol.go:310-331 | the bytes of a frame: 16 of the id, the type, the length with its high byte first, the payload of at most 65535 bytes |
| RouteCodec.FittedId | apps/web/src/utils/ws.ts:107-110 | an id of 16 bytes is kept, a longer one cut, a shorter one filled with zeros |
| RouteCodec.BrowserReads | apps/web/src/utils/ws.ts:137-143 | the browser reads the payload the header announces, or what there is of it, and ignores the rest |
| Replay.AlignTailStart | internal/session/session.go:667-680 | skips continuation bytes forward, then finds the last ESC within 1024 bytes back, if any |
| Replay.ReplayOutput | internal/session/session.go:630-655 | the writes made are the frames of the replay tail, up to the first write that fails |
| Replay.ChunksCover | internal/session/session.go:642-653 | the chunks concatenate to the tail; all have 32 KiB but the last, which has at least one byte and no more |
| Replay.ReplayTailIsSafeSuffix | internal/session/session.go:630-680 | the replay is a suffix of the snapshot of at most the limit plus 1024 bytes, and a cut stands on an ESC, at the end, or on a character start with no ESC in the 1024 bytes before |
| Replay.CutIsExact | internal/session/session.go:667-680 | where exactly a long snapshot is cut: at the last ESC of the 1024 bytes before the first position in its last 256 KiB that continues no character, if there is one, and else at that position; nothing else of the last 256 KiB is missing |
| Replay.CutExists | internal/session/session.go:667-680 | there is always such a position |
| Replay.ReplaySurvivesRoute | internal/session/session.go:630-655 | every replay frame fits a routed frame, and the browser reads back payloads that concatenate to the tail |
| SessionCore.Session.BeginAttach | internal/session/session.go:465-478 | a destroyed session refuses; otherwise the newcomer takes over under a new token and the previous connection is handed back to be closed |
| SessionCore.Session.EndAttach | internal/session/session.go:492-508 | only the token's owner frees the session; the outcome tells preemption from a normal end |
| SessionCore.Session.Destroy | internal/session/session.go:528-537 | destroying drops the connection and outdates every token, once |
| SessionCore.Session.TakeSnapshot | internal/session/session.go:562-565 | the boundary is the output position and the snapshot is the last bytes of the whole history |
| SessionCore.Session.AppendOutput | internal/session/session.go:735-742 | the chunk joins the history and the ring, and is eligible when it starts at or past the boundary |
| SessionProtocol.RunKeepsInv | internal/session/session.go:465-547 | every reachable state keeps the ownership, output and delivery invariants |
| SessionProtocol.GuardNeverFilters | internal/session/session.go:735-746 | in every run the boundary is at most the output position and the guard lets every chunk through to the attached client |
| SessionProtocol.OwnerSeesContiguousOutput | internal/session/session.go:465-585 | in every interleaving, an owner's replay followed by the live chunks after its snapshot is one contiguous piece of the output up to now, and what was addressed to it earlier repeats exactly the output between publish and snapshot |
| SessionProtocol.SeenTwiceIff | internal/session/session.go:557-585 | exactly which bytes an owner gets both in its replay and live; there are chunks addressed before the snapshot if and only if the pump looked up a target between publish and snapshot |
| SessionProtocol.ReplayRepeatsDelivered | internal/session/session.go:557-585 | a concrete run in which the whole replay was already delivered live |
| SessionProtocol.WritesFollowAddresses | internal/session/session.go:769-775 | without a failed write, clients get the addressed chunks in order, all but the one in hand |
| SessionProtocol.RunningIffConnected | internal/session/session.go:465-510 | a session is Running exactly while it stores a connection, which is that of its single owner in progress |
| SessionProtocol.LifecycleMonotone | internal/session/session.go:465-547 | Destroyed is absorbing, the token never falls, and it stays the same exactly when nobody published |
| SessionProtocol.OnlyOwnerReturnsToIdle | internal/session/session.go:492-508 | from one publish to the next and short of destruction, the session is Idle if and only if the attach that published has ended |
| SessionProtocol.SupersededIsPreempted | internal/session/session.go:492-510 | an ending attach reports preemption if and only if a later attach published and the session is not destroyed |
| SessionProtocol.PublishTakesOver | internal/session/session.go:465-478 | publishing makes the newcomer the running session's only owner, under a new token |
| SessionProtocol.DestroyedIff | internal/session/session.go:528-537 | a session is destroyed if and only if some step destroyed it, and then has no owner and no connection |
| SessionProtocol.OutputIsWhatWasRead | internal/session/session.go:735-748 | the output grows by what was read and by nothing else, the ring holds its last 4 MiB, and a snapshot moves the boundary to the end |
| ScreenMirror.Mirror.SyncMirrorSize | internal/session/session.go:301-310 | the version moves exactly when the applied size changes |
| ScreenMirror.ResizeApplies | internal/session/session.go:301-310 | a resize leaves its size applied; a version more and a screen of that size, at least one cell, come of it if and only if columns or rows differ from the applied ones |
| ScreenMirror.FeedDraws | internal/session/session.go:757-764 | a chunk leaves the screen it drew and one version more |
| ScreenMirror.Mirror.ScreenWithVersion | internal/session/agent.go:206-214 | version and snapshot belong together |
| Monitor.BuildMirrorDiff | internal/api/monitor_ws.go:161-189 | the frame lists the dirty rows of one snapshot, in order |
| Monitor.ApplyDiff | internal/api/monitor_ws.go:193-205 | rows are kept or blanked and then patched, out-of-range lines ignored |
| Monitor.FrameRebuildsScreen | internal/api/monitor_ws.go:161-205 | applying a partial frame to the rows it was built against, or a full frame to any rows, gives the screen's rows |
| Monitor.FrameCarries | internal/api/monitor_ws.go:161-189 | a frame has its screen's size and cursor and, from the top down, a line for just the rows the client does not hold, or for all if it is full |
| Monitor.SameVersionSameScreen | internal/session/agent.go:192-196 | in every run, equal versions mean equal screens |
| Monitor.ClientShowsLastVersion | internal/api/monitor_ws.go:79-157 | in every run, a primed client shows the rows and size the mirror had at version `lastVer`, and the baseline is what it shows |
| Monitor.QuietTickResyncs | internal/api/monitor_ws.go:117-156 | one tick with no change in it leaves the client showing the present screen, whatever was skipped before |
| Monitor.VersionCountsChanges | internal/session/session.go:301-310 | in every run the version counts the chunks and the resizes to another size |
| Monitor.ResizeReachesClient | internal/api/monitor_ws.go:117-156 | after a resize, output that keeps the size and one quiet tick, the client shows that many columns and rows |
| Monitor.OutputReachesClient | internal/api/monitor_ws.go:117-156 | after a chunk, without another change, and one quiet tick, the client shows the rows it drew |
| Monitor.DiffSendsOnlyVisibleChanges | internal/api/monitor_ws.go:127-156 | in every run, a change invisible in rows and size sends nothing; any other, a resize included, sends exactly one frame by the end of the tick |
| GfxScanner.ParseParams | internal/capture/emulator.go:943-965 | the values of the texts between separators, 0 for an empty or too large one |
| GfxScanner.ByteScanner.Advance | internal/capture/emulator.go:320-477 | one byte moves the machine as the step function says, over all ten states |
| GfxScanner.StepKeepsSound | internal/capture/emulator.go:233-250 | a pending character is always a proper prefix of one, and no payload buffer passes the limit |
| EmulatorWrite.Emulator.Write | internal/capture/emulator.go:804-869 | one call hands the emulator the specified bytes and reports the specified payloads |
| EmulatorStream.WritesRefineRewriter | internal/capture/emulator.go:804-869 | from any scanner state, any cutting of any stream into calls produces what a stream rewriter makes of the whole stream and the positions of the cuts |
| EmulatorPassthrough.WritesPassThrough | internal/capture/emulator.go:804-869 | with nothing rewritten or injected and no placeholder in a call, forwarded bytes and the pending character are the bytes given without their truncated characters, and those bytes themselves if and only if none is truncated |
| EmulatorPassthrough.StrippedWritesPass | internal/capture/emulator.go:804-869 | the same of what is left of calls with placeholders |
| EmulatorPlaceholder.StripNone | internal/capture/emulator.go:808-809 | bytes without a placeholder are left as they are |
| EmulatorPlaceholder.StripFirst | internal/capture/emulator.go:808-809 | the first placeholder goes, what is before it stays, and what is after it is stripped in its turn |
| EmulatorPlaceholder.StripAllIsConcat | internal/capture/emulator.go:808-809 | the stream of calls without placeholders is the bytes given |
| EmulatorPassthrough.PassedWholeIff | internal/capture/emulator.go:320-343 | bytes are lost if and only if some character is truncated |
| EmulatorPassthrough.LossIsTruncatedCharacter | internal/capture/emulator.go:320-343 | what is lost is a lead byte with fewer continuation bytes than it needs |
| EmulatorGrammar.Tokens | internal/capture/emulator.go:287-477 | every stream of bytes is a list of characters, broken characters, escapes, CSIs and strings with an unfinished one at its end |
| EmulatorGrammar.OneReading | internal/capture/emulator.go:287-477 | a stream has no other such reading |
| EmulatorTokens.StreamDoes | internal/capture/emulator.go:287-477 | from ground state the machine does with any stream what its tokens say, one by one: output, reports, pending character, truncation |
| EmulatorLaws.WritesRewriteTokens | internal/capture/emulator.go:804-869 | for all bytes and all cuts, the emulator gets the tokens, each rewritten on its own: cursor saves and restores in DEC form, repeats spelled out, room made and lines broken for characters, broken characters dropped, a cut CSI's forwarded bytes kept |
| EmulatorLaws.WritesReportStrings | internal/capture/emulator.go:424-475 | in every stream, however cut, each complete OSC, DCS or APC string is reported once, in order, with its bytes less the ESC pairs, or empty when over the limit |
| EmulatorLaws.WholeTokensPass | internal/capture/emulator.go:804-869 | a stream with nothing to rewrite or inject passes whole, up to a pending character, if and only if it holds no broken character |
| EmulatorLaws.SameCutsSameOutput | internal/capture/emulator.go:836-843 | only the cuts inside rewritten CSIs matter; with none, any cutting hands over what one call would |
| EmulatorLaws.SplitCsiKeepsPrefix | internal/capture/emulator.go:836-843 | anywhere in a stream, a rewritten CSI last cut after k bytes becomes those k bytes and the replacement |
| EmulatorLaws.CsiCutVisible | internal/capture/emulator.go:836-843 | of two cuttings alike before it, the bytes handed over are the same if and only if the CSI is last cut in the same place |
| EmulatorLaws.RepeatsLastCharacter | internal/capture/emulator.go:403-420 | in every stream a repeat is between 1 and 4096 copies of the last character since the start or the last reset |
| EmulatorLaws.RepeatsStaleReplacement | internal/capture/emulator.go:403-420 | without one, it is what the last cursor save or restore since then emitted, or nothing |
| EmulatorLaws.RepeatReplaysSave | internal/capture/emulator.go:403-420 | a concrete stream in which a repeat saves the cursor again |
| EmulatorWire.CharacterIsToken | internal/capture/emulator.go:287-343 | the UTF-8 encoding of every character but ESC is one character of the stream |
| EmulatorWire.LeadIff | internal/capture/emulator.go:297-310 | a byte begins a character of several bytes if and only if some character's encoding begins with it |
| EmulatorWire.AsciiPasses | internal/capture/emulator.go:804-869 | ASCII text without ESC reaches the emulator byte for byte, however cut, outside of insert mode |
| EmulatorWire.ShownIs | internal/capture/emulator.go:818-834 | a character is preceded by a line break if it is wide and does not fit, and in insert mode by a request for as many blanks as it is wide |
| EmulatorWire.DecimalIs | internal/capture/emulator.go:830-833 | the number in that request is in decimal, without leading zeros |
| EmulatorWire.NumbersReadBack | internal/capture/emulator.go:943-965 | numbers joined by either separator are read back as written, those beyond a machine integer as 0 |
| EmulatorWire.NumberedControl | internal/capture/emulator.go:369-420 | what CSI s, u, b, h and l with numbers do: the DEC forms, 1 to 4096 copies, and insert mode by number 4 |
| EmulatorWire.PrivateControl | internal/capture/emulator.go:369-420 | with a "?" CSI s, u, h and l are left alone |
| EmulatorWire.ControlRead | internal/capture/emulator.go:362-423 | a control sequence ends with its first byte from 0x40 to 0x7e |
| EmulatorWire.EscapeRead | internal/capture/emulator.go:345-368 | ESC c forgets everything, an ESC with any byte that introduces nothing changes nothing |
| EmulatorWire.StringWritten | internal/capture/emulator.go:424-475 | an OSC, DCS or APC string in any number of calls is reported once with its bytes, or with none beyond 16 MiB |
| EmulatorWire.EscapesAreSwallowed | internal/capture/emulator.go:424-475 | an ESC inside a string, with the byte after it, is not reported |
| SessionManager.Manager.CreateWithID | internal/session/manager.go:162-236 | the outcome and the new registry for every branch: alive id, full registry, resurrection, missing command, failed start |
| SessionManager.Manager.DestroyExpired | internal/session/manager.go:364-379 | exactly the gone and the timed-out sessions leave, and exactly the timed-out ones are destroyed |
| ManagerService.SweepKeepsTheLiving | internal/session/manager.go:364-379 | a sweep keeps a session if and only if it is neither exited nor destroyed nor timed out; what it removes is exited or destroyed then; and it destroys just the timed-out sessions that were alive |
| ManagerService.LeavesOnlyWhenTakenOut | internal/session/manager.go:287-379 | in every run an id leaves the registry only by a sweep that finds its session gone or timed out, or by the end of a destroy call for it |
| ManagerService.CreateOutcome | internal/session/manager.go:162-210 | a create returns the living session, or fails for a full registry, no command or no terminal, in that order, or starts a session; only the last changes anything |
| ManagerService.CreateStarts | internal/session/manager.go:205-235 | starting registers the session under its id alone and writes a new record, or the old one with one more run |
| ManagerService.DestroyKills | internal/session/manager.go:287-304 | a destroy call destroys the session it found |
| ManagerService.TitleLivesOn | internal/session/manager.go:326-343 | in every run a title given to a record stays, through sweeps, destruction and resurrection, until another is given |
| ManagerService.TitleChangesNothingElse | internal/session/manager.go:326-343 | giving a title changes that title only |
| SessionManager.Manager.Status | internal/session/manager.go:241-252 | the alive sessions among the ids, in the order asked |
| ManagerService.StatusInOrder | internal/session/manager.go:241-252 | the status of a list is that of its parts in order |
| ManagerService.StatusOfOne | internal/session/manager.go:241-252 | the status of one id is its session if registered, not exited and not destroyed |
| ManagerRuns.RegistryIsConsistent | internal/session/manager.go:162-236 | in every run the limit holds, run counts are creations minus one, and registered sessions run what their records say |
| ManagerRuns.RecordsNeverChange | internal/session/manager.go:213-233 | a record's command, arguments and creation time never change and no record is lost |
| ManagerRuns.EveryStartRunsTheFirst | internal/session/manager.go:162-236 | in every run, each session started under an id runs, for good, the command and arguments of the first one |
| ManagerRuns.CreateReturnsTheLiving | internal/session/manager.go:162-172 | in every run, while a session lives and stays registered every create for its id returns it and changes nothing |
| ManagerRuns.DestroyForgetsAnotherIff | internal/session/manager.go:287-304 | the second region removes a session other than the destroyed one if and only if it was started under the id in between |
| ManagerRuns.DestroyMayForgetAnother | internal/session/manager.go:287-304 | a concrete run in which a running session is lost from the registry |
| WsChannel.VirtualConn.TryClose | internal/api/ws_handler.go:403-414 | the first close wins and sets the reason; later ones change nothing |
| WsChannel.FirstCloseWins | internal/api/ws_handler.go:403-440 | a channel keeps the reason it was first closed for, and its frames |
| WsChannel.VirtualConn.ReadMessage | internal/api/ws_handler.go:360-373 | the oldest frame or the close reason |
| WsChannel.Router.Unregister | internal/api/ws_handler.go:200-204 | a bridge removes its own channel by identity and no other |
| WsMux.SignalledOnce | internal/api/ws_handler.go:403-440 | in every run no channel is closed twice |
| WsMux.FirstReasonStays | internal/api/ws_handler.go:403-440 | the first close reason stays |
| WsMux.EventsFollowTheReason | internal/api/ws_handler.go:403-440 | at most one event frame per channel, with the first reason, none after a plain detach; a finished close signalled once and told the reason |
| WsMux.ReadsAreInOrder | internal/api/ws_handler.go:360-373 | a bridge reads, in order, a prefix of the frames accepted for its own session, and at most 64 wait |
| WsService.OpenChannelAccepts | internal/api/ws_handler.go:225-233 | in every run a frame for a registered channel is accepted by the time the loop reads on, unless the channel has been closed |
| WsService.RoomForFrames | internal/api/ws_handler.go:387-399 | a frame waits for room only while 64 are queued, and is dropped only once the channel is signalled |
| WsService.AttachOpens | internal/api/ws_handler.go:165-194 | in every run attaching a session without a channel ends with a new, open channel for it |
| WsService.DetachCloses | internal/api/ws_handler.go:212-222 | in every run detaching takes the channel out of the registry and closes it |
| WsService.NothingToDo | internal/api/ws_handler.go:165-233 | attaching again or without a session, and frames or detaches without a channel, change nothing |
| WsService.CloseGivesReason | internal/api/ws_handler.go:424-440 | a session's close gives an open channel its reason |
| WsService.BridgeCleansUp | internal/api/ws_handler.go:196-208 | in every run a bridge's channel leaves the registry for good once its attach has returned and it is unregistered, and is closed when it is done |
| WsMux.RegisterFindsNone | internal/api/ws_handler.go:165-194 | registering never replaces a channel |
| WsMux.CleanupSparesNewer | internal/api/ws_handler.go:196-208 | clean-up never takes out a newer channel |
| WsMux.NoChannelLeaks | internal/api/ws_handler.go:273-284 | once the connection ended and its loop is done, every channel is closed or about to be by its bridge |
| MarkerSearch.OverlapSuffices | internal/capture/driver.go:69-74 | with the last length minus one bytes kept, a new occurrence is found if and only if it is there |
| MarkerSearch.ShorterOverlapMisses | internal/capture/driver.go:69-74 | any shorter overlap misses some split marker |
| MarkerSearch.MarkerReader.ReadAll | internal/capture/driver.go:145-160 | after any reads the flag is set if and only if the marker occurs in all bytes read, and until then the overlap is exactly the last bytes |
| CaptureAssembly.Waiter.ResolveCapture | internal/session/capture.go:146-187 | one frame extends, completes, fails or drops the partial picture |
| CaptureAssembly.FailureAnswers | internal/session/capture.go:155-164 | a failed capture is answered with its error and drops the partial picture |
| CaptureAssembly.FirstReplyStays | internal/session/capture.go:94-110 | against any frames the first reply stays, and without a waiter nothing happens |
| CaptureAssembly.FailureWasSent | internal/session/capture.go:155-164 | a failure handed over is the error of a frame that came |
| CaptureAssembly.WaitersTakeTurns | internal/session/capture.go:94-110 | a second capture is refused while one waits; the end of a capture takes out its own waiter only and drops the partial picture |
| CaptureAssembly.OnCaptureRequest | apps/web/src/utils/session-channel.ts:211-240 | the frames sent are the numbered pieces, or a single failure |
| CaptureAssembly.AssemblesConsecutiveFrames | internal/session/capture.go:146-187 | against any frames, the partial state is the latest frames numbered from 0 and below the limit, and a picture delivered is the data of consecutive frames numbered from 0 |
| CaptureAssembly.OneWaiter | internal/session/capture.go:94-110 | in every run at most one capture is under way, it is the registered one, and no partial picture outlives it |
| CaptureAssembly.AnySplitAssembles | internal/session/capture.go:146-187 | any picture in any number of pieces, fed in order to any pending waiter, is offered whole if and only if the waiter holds no part of another and the pieces are at most 1024; otherwise nothing is offered and the part is lost |
| CaptureAssembly.SplitThenAssemble | apps/web/src/utils/session-channel.ts:228-239 | so what the browser splits any pending waiter is offered whole if and only if it holds no part of another and the picture fits the frame limit |
| RotatingLog.RotatingWriter.Rotate | internal/utils/rotatingfile.go:98-127 | the rename loop shifts every file of the window by one, drops the last, and leaves all others alone, for any file system |
| RotatingLog.RotatingWriter.Write | internal/utils/rotatingfile.go:57-73 | appends whole, after a rotation when the size limit demands it; a closed writer refuses |
| RotatingLog.WriteKeepsAllBut | internal/utils/rotatingfile.go:57-73 | read oldest first, one write adds its bytes and drops exactly the oldest backup, exactly when rotation is on, the file is not empty and the write would take it over the limit |
| RotatingLog.WriteGoesTo | internal/utils/rotatingfile.go:57-127 | a write goes to the end of the current file, or under that condition to a new one, all others moving up by one |
| RotatingLog.LogIsRecentHistory | internal/utils/rotatingfile.go:57-127 | in every run of writes, closes and restarts the log is a suffix of everything written, backups stay contiguous and within the limit, and each rotated file is within the size limit or one write |
| Quantize.Histogram | internal/capture/gif.go:226-251 | every colour with the number of its pixels |
| Quantize.KeysAreRgb | internal/capture/gif.go:228-234 | a pixel's colour is that of its first three bytes: red, green, blue |
| Quantize.DistIs | internal/capture/gif.go:307-311 | the distance is the sum of the squared differences of red, green and blue |
| Quantize.PaletteSize | internal/capture/gif.go:218-278 | the palette has the limit's number of colours, from 2 to 256, or all there are; a single one is given twice |
| Quantize.Mapper.NearestIndex | internal/capture/gif.go:298-318 | index table and memo cache give the answer of the direct search |
| Quantize.PopularQuantize | internal/capture/gif.go:218-346 | every pixel of the row-by-row fill gets its colour's nearest palette index |
| Quantize.NearestIsFirstMinimum | internal/capture/gif.go:305-315 | the index is the first at the least squared distance |
| Quantize.ExactIff | internal/capture/gif.go:218-296 | a picture is reproduced exactly if and only if it has at most the clamped number of colours |
| Quantize.KeptAtLeastAsFrequent | internal/capture/gif.go:253-267 | every kept colour is at least as frequent as every dropped one |
| Quantize.MostPixelsExact | internal/capture/gif.go:214-217 | no choice of as many colours reproduces more pixels exactly |
| Quantize.BestPalette | internal/capture/gif.go:214-296 | the palette shows at least as many pixels exactly as any other within the limit |
| Quantize.SortedListingExists | internal/capture/gif.go:253-264 | every histogram has a listing of the kind the sort is taken to return |
| GifTimeline.PalettedFrameEqual | internal/capture/gif.go:194-212 | true if and only if both images show the same colours, whatever their palettes |
| GifTimeline.Compact | internal/capture/gif.go:361-371 | compaction over the front of the array it reads gives the merged list |
| GifTimeline.EncodeGIF | internal/capture/gif.go:356-397 | the images and delays of the kept frames, or the empty and static errors |
| GifTimeline.RefusedIff | internal/capture/gif.go:356-375 | a recording is refused as empty if it has no frame and as static if it has one, or, when merging, a single picture; any other is encoded |
| GifTimeline.EncodedIs | internal/capture/gif.go:377-397 | the file's pictures are those of the kept frames in order, each for the hundredths of a second its frame stood, to the nearest, but at least one |
| GifTimeline.MergedKeeps | internal/capture/gif.go:361-371 | the kept frames are a subsequence starting with the first, neighbours differ, and each shows what every frame up to the next kept one shows |
| GifTimeline.MergedTwice | internal/capture/gif.go:361-371 | merging a merged recording changes nothing |
| GifTimeline.SpansCoverRecording | internal/capture/gif.go:382-392 | for times in order the unrounded delays add up to the stop time minus the first, merged or not |
| GifTimeline.PlayingTime | internal/capture/gif.go:382-397 | the file's total is within 5 ms per frame below and 10 ms per frame above that, and exact when every span is a positive multiple of 10 ms |
| GifTimeline.CentisecondsExactIff | internal/capture/gif.go:393-396 | rounding one delay is exact if and only if it is a positive multiple of 10 ms |
| GifTimeline.MergingCanChangePlayingTime | internal/capture/gif.go:348-355 | a concrete recording whose rounded total differs when merged |
| GifRounding.RoundAlikeIff | internal/capture/gif.go:393-396 | two delays and their sum round alike if and only if their last digits and their carry meet a condition |
| GifRounding.OneRepeatKeepsTimeIff | internal/capture/gif.go:348-397 | merging a recording with one repeated frame keeps its playing time if and only if its two delays meet that condition |
| GifRounding.GroupRoundsAlikeIff | internal/capture/gif.go:393-396 | a group of delays rounds like its sum if and only if the rounding errors add up to no more than one may be |
| GifRounding.MergingKeepsTimesIff | internal/capture/gif.go:348-397 | merging leaves every kept picture and the end at its playing time if and only if that holds of every merged group |
| GifRounding.DriftIs | internal/capture/gif.go:393-396 | by how much the rounded delays of a group exceed its rounded sum, from its rounding errors |
| GifRounding.MergingKeepsTotalIff | internal/capture/gif.go:348-397 | merging shortens the file by exactly the sum of its groups' drifts, so it keeps the total if and only if that is 0 |
| GifSampling.GifSampler.TrySample | internal/capture/gif.go:104-117 | skips by deadline, interval and frame limit, else records or notes a repeat |
| GifSampling.SamplesArePaced | internal/capture/gif.go:104-158 | in every recording shots are a period apart, before the deadline, within the frame limit, and with optimization never repeat their predecessor |
| GifSampling.RecordingPlaysToTheStop | internal/capture/gif.go:121-178 | a recording closed with a last shot plays, before rounding, exactly from its first frame to the stop, merged or not |
| GifSampling.SampleIsOnShow | internal/capture/gif.go:104-158 | a sample is taken if and only if time is not over, a period has passed and the limit is not reached, and is on show then; any other changes nothing |
| GifSampling.ClosingShotIsOnShow | internal/capture/gif.go:121-135 | the closing shot sets the stop time and is on show too, however soon, if time is not over and the limit not reached |
| GifSampling.PeriodIs | internal/capture/gif.go:51-57 | the period goes as often as frames are asked for into a second, 10 by default |
| GifRecording.FewColorsShownExactly | internal/capture/gif.go:141-158 | a screenshot with at most 256 colours is shown exactly by every quantization of it, whatever the order of its colours |
| GifRecording.FewColorsPlayedExactly | internal/capture/gif.go:141-371 | a recording of such shots plays exactly what was shot: each kept frame shows what every shot up to the next kept one showed |
| Drag.Interpolate | internal/capture/mouse.go:357-375 | one point per step of the capped path |
| Drag.PathLength | internal/capture/mouse.go:357-375 | a point for each cell of the longer axis, both ends included, but at most 257 |
| Drag.PathPoint | internal/capture/mouse.go:357-375 | each point has gone the part of the way that it has of the steps, cut off to whole cells |
| Drag.PathEnds | internal/capture/mouse.go:357-375 | both ends are exact |
| Drag.PathStep | internal/capture/mouse.go:357-375 | neighbours differ, by at most 1 per axis or the capped stride, always toward the target |
| Drag.PathMonotone | internal/capture/mouse.go:357-375 | both axes are monotone along the path |
| Drag.PathInside | internal/capture/mouse.go:357-375 | no point leaves the rectangle of the two ends |
| Mouse.Emulator.EncodeMouse | internal/capture/mouse.go:216-319 | wires with their modifiers, cursor and held buttons after a request, or the refusal, for some admissible choice of held button |
| Mouse.WiresOnScreenAndCursorFollows | internal/capture/mouse.go:216-333 | an accepted request sends only on-screen events and leaves the cursor at the last; a refused one changes nothing |
| Mouse.Sends | internal/capture/mouse.go:232-303 | the events of each action with their button, place, motion, release, modifiers and encoding |
| Mouse.Holds | internal/capture/mouse.go:232-311 | the cursor and the held buttons after each action |
| Mouse.RefusedBecause | internal/capture/mouse.go:216-333 | why a request is refused, the first reason first |
| Mouse.LowerIs | internal/capture/mouse.go:195-201 | lower-casing changes the letters A to Z only |
| Mouse.HeldAreAccepted | internal/capture/mouse.go:378-407 | held names are names of buttons |
| Mouse.BareUpReleasesIff | internal/capture/mouse.go:244-255 | an up without a button releases one held button if and only if some held name is in lower case |
| Mouse.PressThenRelease | internal/capture/mouse.go:237-255 | press and release by one name leaves it held if and only if the name is not in lower case |
| Mouse.HeldForGood | internal/capture/mouse.go:378-397 | over every run of requests and resets, a button not named in lower case is held at the end if and only if neither a click by that very name nor a reset came since its last press |
| Mouse.Emulator.OnRIS | internal/capture/emulator.go:694-703 | a reset forgets every held button and leaves the cursor |
| SemVer.ParseVersion | internal/update/semver.go:20-49 | the parsed version or the error, for every text |
| SemVer.IsNumericIdentifier | internal/update/semver.go:111-125 | digits that fit the machine integer are a number, all else is text |
| SemVer.ComparePrerelease | internal/update/semver.go:65-109 | the loop with early returns is the identifier-wise comparison |
| SemVer.CompareVersions | internal/update/semver.go:129-148 | errors of either side in order, else the comparison of the parsed versions |
| SemVerLaws.CompareSwap | internal/update/semver.go:129-158 | reflexive and sign-antisymmetric on all versions |
| SemVerLaws.CompareTransitive | internal/update/semver.go:129-148 | transitive on all versions |
| SemVerLaws.FollowsStandard | internal/update/semver.go:60-109 | while numeric identifiers fit, it is the precedence of section 11 of Semantic Versioning 2.0.0 |
| SemVerLaws.Misranked | internal/update/semver.go:111-125 | every version with a too large identifier has one against which it is ranked wrongly |
| SemVerLaws.FollowsStandardIff | internal/update/semver.go:60-125 | the comparison follows the standard exactly for versions whose identifiers fit |
| SemVerPairs.NumberOrder | internal/update/semver.go:111-125 | numbers of any size without leading zeros compare by length and then in character order |
| SemVerPairs.AgreesIff | internal/update/semver.go:60-148 | two versions without leading zeros compare as the standard says if and only if the first differing identifiers, where they decide, are ordered alike |
| SemVerLaws.ParsedInRange | internal/update/semver.go:20-49 | parsed numbers are machine integers, not negative, and no build metadata survives |
| SemVerLaws.ParsedIs | internal/update/semver.go:20-49 | how a text is read: white space, "v", build metadata, prerelease, and three numbers before it |
| SemVerLaws.NumbersIff | internal/update/semver.go:38-48 | exactly three parts between dots, each of decimal digits and at most a machine integer, or the error |
| SemVerLaws.TrimIs | internal/update/semver.go:21 | white space at the ends is cut off and no other |
| SemVerLaws.JoinSplit | internal/update/semver.go:38 | splitting at the dots loses nothing |
| SemVerLaws.LessIs | internal/update/semver.go:92-98 | character order by the first differing place, or by length |
| SemVerLaws.RenderThenParse | internal/update/semver.go:20-58 | rendering and parsing gives a version back if and only if its prerelease has no "+" and does not end in white space |
| SemVerLaws.TagAndBuildIgnored | internal/update/semver.go:25-36 | with a leading "v" or none and any build metadata, a rendered version whose prerelease has no "+" is read back |

## Left out

- Machine wrap-around of the output position, ownership token, mirror version, pixel counts and drag products: they are unbounded integers here. Version numbers do have their 64-bit range.
- The terminal emulator, the ANSI library, character widths and cursor columns are parameters; the mirror may show anything after any output. Query answers, private mode tracking and the cursor-visibility flag are not part of this model.
- Clocks, tickers, idle times, process exits, write failures and generated ids are free inputs; two processes' terminals, signals, resize jitter and regular-expression waits are left out.
- EmulatorWrite.Emulator.Write: the stream the laws speak of is that of the calls' bytes less the placeholders found in each; one split across two calls is not removed, as in the source.
- Emulator.Resize, which resets the scanner and so drops a pending character, is no step of a stream: the laws begin again in the ground state it leaves.
- WsChannel.VirtualConn.ReadMessage: the byte-stream read path, which bridges do not use, is not modelled; the payload of a frame is opaque.
- Session.Detach only closes a connection and changes no field, so it has no step of its own.
- SessionManager.Manager.UpdateTitle: the live session's display name is not modelled, only the record's title.
- SessionManager.Manager.DestroyExpired: the sweep and the destroying of what it found are one step, as one lock is held throughout.
- The store is a map; its file form, JSON encodings and HTTP handlers are left out.
- RotatingLog.RotatingWriter.Write: input and output errors, and files changed by anyone else, are not modelled.
- Quantize.PopularQuantize: for a non-empty opaque image with full rows; the order in which the sort lists equally frequent colours is a parameter. Reading other image types pixel by pixel is left out.
- GifSampling.GifSampler.TrySample: quantization is a function given to the sampler; GifRecording says what it has to give. The GIF file encoder is left out.
- Mouse.Emulator.EncodeMouse: the bytes of one event belong to a library; lower-casing is that of ASCII letters; the "last event" text is left out, and the modes a request depends on come with it.
- SemVer.ParseVersion: texts are sequences of characters, so invalid UTF-8 is left out; error texts are reduced to their kinds.
- Image decoding, rasterization, fonts, browser driving, self-update download, themes and the user interface.
