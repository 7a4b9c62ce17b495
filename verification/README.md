# TermFleet: the grid mirror, the input socket and the private broker

TermFleet keeps terminals alive in a daemon and mirrors them into a window. This project models
the parts of it that are state machines, codecs and streaming parsers, and proves what they promise
over every input, every run and every interleaving.

| module | what it models |
|---|---|
| `WireFormat` | the binary dirty-row encoder of the grid mirror, and its test for a changed frame |
| `GridReader` | the two readers of that format in the window: the decoder with all its error branches and its older cell size, and the persistent screen with its repaint sets |
| `EmitSync` | subscribers and emitter as interleaved atomic steps, and the session object whose methods are those steps |
| `ControlFilter` | the streaming filter for synchronized-output markers and OSC 66, and the sliding scan for alternate-scroll sequences |
| `GridSessions` | the session map under concurrent attach, failed start, detach and resize |
| `BidiOrder` | the visual order of a row's columns and its application to the cells |
| `InputStream` | newline framing of a request and UTF-8 reassembly of typed input behind it |
| `BrokerBridge` | the private broker conversation, one call of `run`, and many concurrent calls over one catalog |
| `NativeCallbacks` | the one-shot native callbacks against an adversarial host |
| `RequestClaim` | claiming a queued request through link and unlink, with crashes |
| `ProcessTree` | fuel-bounded ancestry and the top-level agent of a process tree |
| `CivilTime` | day counts and timestamps of the session log |
| `RolloutLog` | the lifecycle of an agent from the tail of its log |
| `TranscriptWindow` | the newest records of a transcript within a byte budget |
| `LineSearch` | case-sensitive search in grid lines |

`Common` holds the shared result types and machine words. Code that updates state in place is a
class or a method with loops here, proved against a specification function or a state machine, and
the promises are proved about that specification. Everything outside (clocks, reads, packets, file
system answers, the terminal parser, the session effects, the paragraph analysis) is a parameter
that the theorems quantify over. Texts that are compared as bytes are sequences of bytes.

## What the proofs found

- `src-tauri/src/vt_grid.rs:569` says that overlap between a new subscriber and the emitter is
  always safe. It is not: `EmitSync.DirtyJoinStaysStale` and `EmitSync.LateJoinStaysStale` are runs
  that end clean and idle with a subscriber showing another screen, the second from a clean
  baseline. What the comment argues from is true (`GridReader.Idempotent`) but not enough.
  `EmitSync.JoinSafeIff` gives the exact condition on the state a join finds,
  `EmitSync.SubscribeSafeIff` the one on the state a whole subscription finds, and
  `EmitSync.InSyncIff` says row by row what a stale subscriber still gets right.
- The filtered output can contain a complete marker (`ControlFilter.MarkerCanSurvive`): for any
  chunking exactly when some stretch of the stream spells it with its literals around a token that
  was removed (`ControlFilter.TokenSurvivesIff`).
- A reset of the terminal state leaves a synchronized-output hold open
  (`ControlFilter.TermState.Reset`).
- The cleanup after a failed start says it leaves no half-created session. When another attach has
  renewed the token in between, the session stays in the map without a feed
  (`GridSessions.RenewedTokenLeavesDeadSession`, exactly when: `GridSessions.DeadIffNoCleanup`) and
  nothing but its removal ends that (`GridSessions.DeadForGood`). The same cleanup can instead stop
  the live session of another attach (`GridSessions.FailedStartStopsAnother`, exactly when:
  `GridSessions.SparesOthersIff`).
- `order_row` documents itself as total. It analyses only the first paragraph of a row, so columns
  behind a paragraph separator disappear (`BidiOrder.SecondParagraphIsLost`);
  `BidiOrder.PermutationIff` says exactly when none do. The mirror draws such a short row with
  blanks at its end (`GridReader.RoundTrip`).
- `take` ignores a failing removal of the request name. `RequestClaim.OnceIff` says that exactly the
  failure to remove the claimed request's own name loses at-most-once delivery. A request published
  between the link and the removal is lost (`RequestClaim.RepublishedRequestLost`), and so is an
  unclaimed one that a writer overwrites, or one whose claim cannot be read: `RequestClaim.LostIff`
  names exactly the steps that lose a request, `RequestClaim.LostInRunIff` says so of every run.
- On invalid UTF-8, characters of the same chunk before the error are not written. So what is written
  of an invalid stream depends on how it was cut, exactly when there is a valid part to write
  (`InputStream.CutMattersIff`). Nothing at all is written by some cut exactly when one read can reach
  from inside the first character to the error (`InputStream.WritesNothingIff`).
- The state read from a log tail is that of the whole log exactly when the tail holds a turn
  boundary or an open call (`RolloutLog.SuffixSound`, `RolloutLog.SuffixUnsettled`).

## Model

| member | source | states |
|---|---|---|
| WireFormat.ModesRoundTrip | src-tauri/src/vt_grid.rs:1387-1426 | testing the twelve flag positions of a frame's flag word gives back its twelve modes |
| WireFormat.ModeFlagsInjective | src-tauri/src/vt_grid.rs:1387-1426 | two frames have the same flag word only when all modes agree |
| WireFormat.DiffersFromIsInequality | src-tauri/src/vt_grid.rs:1430-1444 | the emitter's change test, which compares flag words instead of modes, is exactly inequality of frames; a first frame always passes |
| WireFormat.PushCell | src-tauri/src/vt_grid.rs:1458-1468 | the pushes of one cell append its 34 bytes in the documented order |
| WireFormat.PushRow | src-tauri/src/vt_grid.rs:1455-1469 | the loop appends index, cell count and all cells of the row |
| WireFormat.CollectDirty | src-tauri/src/vt_grid.rs:1479-1486 | the rows collected are those that must be sent, in increasing order |
| WireFormat.DirtyComplete | src-tauri/src/vt_grid.rs:1479-1486 | no row that changed, or that a full sync must carry, is left out |
| WireFormat.EncodeFrame | src-tauri/src/vt_grid.rs:1473-1502 | the buffer built is the message specified for this frame against the last one sent |
| WireFormat.EncodedLength | src-tauri/src/vt_grid.rs:1488-1489 | the reserved capacity 17 + dirty * (4 + 34 * cols) always suffices, and is exactly the length iff no carried row lacks columns |
| GridReader.AcceptsIff | src/lib/gridDiff.ts:98-183 | any bytes whatever are accepted iff type, size and cursor are in order and the rows stand one behind the other to the end, in the present cell size or, if they cannot in that, the older one, each inside the screen and of drawable cells |
| GridReader.MatchesIff | src/lib/gridDiff.ts:87-96 | the length test passes iff the rows can stand one behind the other to the end of the message |
| GridReader.LegacyCellMeans | src/lib/gridDiff.ts:137-178 | the fields of a cell of the older size |
| GridReader.CellMeans | src/lib/gridDiff.ts:137-178 | of any accepted cell: colours read red, green, blue from the top byte down, styles by their bits, one base character and the counted marks |
| GridReader.ModesMean | src/lib/gridDiff.ts:184-204 | of any accepted message: each mode is its own bit of the flag word |
| GridReader.CellFields | src-tauri/src/vt_grid.rs:1169-1177 | every field of an encoded cell stands at its documented offset |
| GridReader.DecodeEncoded | src/lib/gridDiff.ts:98-204 | the decoder accepts an encoded message exactly when the header and the carried rows are drawable, then recovers every field and row, and never mistakes it for the older cell size |
| GridReader.CarriedRowsLand | src/lib/gridBuffer.ts:70-76 | carried rows land at their index and no other row moves |
| GridReader.ReceiveEncoded | src/lib/gridBuffer.ts:56-93 | what any encoded message does to any screen: header of the frame, carried rows of the frame filled up with blanks where they are short, other rows as they were or blank after a change of size |
| GridReader.RoundTrip | src-tauri/src/vt_grid.rs:1471-1502 | a full message shows its frame on any screen, a diff shows it on the screen of the last frame, in every field and with short rows filled up |
| GridReader.Idempotent | src-tauri/src/vt_grid.rs:569-570 | on a screen that already shows its frame a message, full or diff against any frame, changes nothing |
| GridReader.ViewFaithful | src-tauri/src/vt_grid.rs:1288-1385 | captured frames that look alike are equal iff their rows are as wide: a lost column is drawn like a blank, and nothing else is lost |
| GridReader.GridBuffer.Apply | src/lib/gridBuffer.ts:51-110 | the screen becomes the applied one; the content rows are exactly those carried, or all on a full sync or new size, and the repaint set adds exactly the two cursor rows when the cursor changed; repainting those rows is enough, and rows outside `contentDirtyRows` keep their cells |
| EmitSync.InvAlways | src-tauri/src/vt_grid.rs:556-581 | in every reachable state: channels imply a last frame, a clean grid equals the frame last captured, channels are distinct, and a joining subscriber has received exactly its baseline |
| EmitSync.CleanMeansCurrent | src-tauri/src/vt_grid.rs:796-823 | a grid that is not dirty, with nothing in flight, equals the last frame sent |
| EmitSync.ResizeResyncs | src-tauri/src/vt_grid.rs:1474-1477 | a published change of dimensions brings every subscriber into step, whatever it showed |
| EmitSync.RowStep | src-tauri/src/vt_grid.rs:825-832 | over one step a row is current afterwards iff it was carried or was current before |
| EmitSync.SentIff | src-tauri/src/vt_grid.rs:822-832 | after the pending frame has been dealt with a subscriber shows the last frame iff its screen fitted that frame: every row carried or right already |
| EmitSync.ShownKept | src-tauri/src/vt_grid.rs:774-833 | so a subscriber that shows the last frame shows the next one after any step it survives |
| EmitSync.AheadCatchesUp | src-tauri/src/vt_grid.rs:822-832 | and one already showing the frame about to be sent shows the last frame once it is sent |
| EmitSync.InSyncForever | src-tauri/src/vt_grid.rs:556-581 | a subscriber whose baseline fits at the join is in step in every later state of every run, and shows exactly the last frame whenever the emitter is idle |
| EmitSync.NeverStaleIff | src-tauri/src/vt_grid.rs:774-833 | in any state: a subscriber shows the last frame at every rest of every continuation iff it is in step now |
| EmitSync.JoinSafeIff | src-tauri/src/vt_grid.rs:575-579 | a join is safe in every continuation iff there is no last frame, or the baseline looks like the last frame, or with a frame pending every row is carried by it (all are after a change of dimensions) or equal to it |
| EmitSync.SubscribeSafeIff | src-tauri/src/vt_grid.rs:556-581 | the same for a whole subscription that nothing interrupts, in terms of the grid it finds; a clean grid always suffices |
| EmitSync.StaleRun | src-tauri/src/vt_grid.rs:569-580 | whenever the emitter is idle, a subscriber that is out of step stays so to a clean rest when the grid returns to the last frame |
| EmitSync.QuietJoinInSync | src-tauri/src/vt_grid.rs:556-581 | a baseline from a clean grid with no capture before the join, or an uninterrupted subscription of a session without a last frame, keeps the subscriber in step for ever |
| EmitSync.RowLaw | src-tauri/src/vt_grid.rs:569-581 | for any join: a row is current iff it was current at the join or some message since carried it |
| EmitSync.InSyncIff | src-tauri/src/vt_grid.rs:569-581 | for any join, after a message has been published: in step iff every row was current at the join or carried since |
| EmitSync.DirtyJoinStaysStale | src-tauri/src/vt_grid.rs:569-570 | a run from a fresh session, with a subscriber joining a dirty grid, that ends clean and idle with that subscriber showing another screen |
| EmitSync.LateJoinStaysStale | src-tauri/src/vt_grid.rs:563-580 | a run in which a clean baseline goes stale because a frame is published before the join |
| EmitSync.Session.Changed | src-tauri/src/vt_grid.rs:213-219 | a mutation is the protocol's mutation step: it marks the grid dirty and moves the revision on with 64-bit wrap-around |
| EmitSync.Session.Resize | src-tauri/src/vt_grid.rs:308-319 | a resize to the current size changes nothing, any other is a mutation |
| EmitSync.Session.ScrollToBottom | src-tauri/src/vt_grid.rs:349-356 | scrolling at the bottom changes nothing, else it is a mutation |
| EmitSync.Session.SendBaseline | src-tauri/src/vt_grid.rs:564-573 | the first half of a subscription is the protocol's step, and a refused send leaves everything as it was |
| EmitSync.Session.JoinChannel | src-tauri/src/vt_grid.rs:575-579 | the second half adds the channel and gives a session without a last frame the baseline |
| EmitSync.Session.CaptureForEmit | src-tauri/src/vt_grid.rs:153-173 | captures and clears the flag iff there are channels, the grid is dirty, and no synchronized block is open or it was opened 120 ms ago or earlier; else changes nothing |
| EmitSync.Session.PublishFrame | src-tauri/src/vt_grid.rs:822-832 | publishing is the protocol's send step, including the frame that is not worth sending |
| EmitSync.Session.SendAll | src-tauri/src/vt_grid.rs:829-831 | each accepting channel gets the message once and stays, in order; the others go |
| ControlFilter.FilterAppend | src-tauri/src/vt_grid.rs:237-306 | filtering a stream is filtering a first part and then its held tail with the rest |
| ControlFilter.ChunkIndependent | src-tauri/src/vt_grid.rs:237-306 | however the stream is cut, output, held tail and last marker are those of one call |
| ControlFilter.OscEndMeaning | src-tauri/src/vt_grid.rs:1264-1275 | the scan finds the first terminator, or there is none |
| ControlFilter.OscEnd | src-tauri/src/vt_grid.rs:1264-1275 | the index loop computes that scan |
| ControlFilter.FilterReads | src-tauri/src/vt_grid.rs:254-305 | every stream reads as literals, markers and OSC 66 sequences with a held tail, and the filter returns the literals, the tail and the last marker of that reading |
| ControlFilter.ReadingUnique | src-tauri/src/vt_grid.rs:254-305 | the grammar leaves no choice of tokens or tail |
| ControlFilter.StreamMeaning | src-tauri/src/vt_grid.rs:213-306 | for any chunking: the outputs are exactly the literals, the hold is that of the last marker, and tokens and tail spell the stream |
| ControlFilter.MarkerCanSurvive | src-tauri/src/vt_grid.rs:258-270 | a stream whose filtered output is a marker |
| ControlFilter.ContainsIff | src-tauri/src/vt_grid.rs:254-305 | bytes stand in the literals of any tokens iff they are the literals of a stretch that begins and ends with one |
| ControlFilter.TokenSurvivesIff | src-tauri/src/vt_grid.rs:213-306 | for any chunking: a marker or complete OSC 66 sequence is in the output iff a stretch of the stream spells it around a token that was removed |
| ControlFilter.LiteralRunsHoldNoToken | src-tauri/src/vt_grid.rs:254-305 | literals that stood together in the stream never spell a marker or a complete OSC 66 sequence |
| ControlFilter.WindowFinds | src-tauri/src/vt_grid.rs:221-235 | a sequence of at most 17 bytes is in the whole stream iff it was there before or is in the last 16 bytes with the new ones |
| ControlFilter.WindowSlides | src-tauri/src/vt_grid.rs:233-234 | keeping the last bytes of the window keeps the last bytes of the stream |
| ControlFilter.AnyWindow | src-tauri/src/vt_grid.rs:224-230 | true iff the bytes contain the sequence |
| ControlFilter.TermState.ScanModeSequences | src-tauri/src/vt_grid.rs:221-235 | the flag is set iff the whole stream fed so far contains one of the two sequences |
| ControlFilter.TermState.StripUnsupportedControlSequences | src-tauri/src/vt_grid.rs:237-306 | output, held tail and hold are those of filtering the old tail with the new bytes |
| ControlFilter.TermState.Feed | src-tauri/src/vt_grid.rs:213-219 | after any feed the parser has been given exactly the filtered stream, and tail, hold and scroll flag are those of the whole stream |
| ControlFilter.TermState.Reset | src-tauri/src/vt_grid.rs:321-341 | a reset forgets the stream and the scroll flag but not the hold |
| GridSessions.InvAlways | src-tauri/src/vt_grid.rs:406-483 | in every reachable state the map holds exactly the sessions created and not stopped, each under one id |
| GridSessions.InMapIffNotStopped | src-tauri/src/vt_grid.rs:621-642 | a session is in the map iff its stop flag is unset |
| GridSessions.StoppedForever | src-tauri/src/vt_grid.rs:636-639 | a stopped session never comes back |
| GridSessions.SizeAndTokenAreLatest | src-tauri/src/vt_grid.rs:406-429 | an attached grid has the size of the last attach or resize and the token of the last attach |
| GridSessions.TokenedDetach | src-tauri/src/vt_grid.rs:622-642 | a detach with a token removes the session iff the token came with the latest attach, and touches no other |
| GridSessions.DeadIffNoCleanup | src-tauri/src/vt_grid.rs:474-480 | a step leaves a session without feed behind iff a failing start finds its token renewed |
| GridSessions.NoneDeadWhileCleaning | src-tauri/src/vt_grid.rs:460-483 | while failing starts can clean up, every session in the map is fed or about to be |
| GridSessions.RenewedTokenLeavesDeadSession | src-tauri/src/vt_grid.rs:474-480 | a run that leaves a session in the map without a feed or a pending start, and a later attach that does not feed it |
| GridSessions.DeadForGood | src-tauri/src/vt_grid.rs:470-483 | in every run, a session with neither feed nor pending start stays so as long as it is in the map |
| GridSessions.SparesOthersIff | src-tauri/src/vt_grid.rs:474-480 | a failing start leaves every other session as it was iff no other one has come to stand under its id with a token its own applies to |
| GridSessions.FailedStartStopsAnother | src-tauri/src/vt_grid.rs:474-480 | a run in which a late failing start removes and stops the fed session of another attach |
| GridSessions.GridManager.UpsertSession | src-tauri/src/vt_grid.rs:406-444 | the locked part of an attach is the model's step and tells whether the session is new |
| GridSessions.GridManager.Attach | src-tauri/src/vt_grid.rs:460-483 | an uninterrupted attach is its steps in order: it succeeds iff the session exists or its thread starts, with the asked size and token, and a failed one leaves the map as it was |
| GridSessions.GridManager.DetachSession | src-tauri/src/vt_grid.rs:622-642 | a detach is the model's step |
| GridSessions.GridManager.ResizeSession | src-tauri/src/vt_grid.rs:587-594 | a resize is the model's step and fails only for an unknown session |
| BidiOrder.StrongBlocks | src-tauri/src/bidi.rs:150-164 | the fast path looks for characters of the eleven right-to-left blocks and no others |
| BidiOrder.GroupsShape | src-tauri/src/bidi.rs:60-88 | each group is a run of neighbouring columns opened by a character, or by a leading spacer, and every column has one |
| BidiOrder.PermutationIff | src-tauri/src/bidi.rs:48-144 | no column is ever repeated, and all are kept iff the analysed runs reach every character |
| BidiOrder.OrderIsBijection | src-tauri/src/bidi.rs:124-144 | the two maps are inverse permutations and the flag is set iff nothing moved |
| BidiOrder.SpacersGlued | src-tauri/src/bidi.rs:60-88 | a spacer column stays immediately behind its predecessor |
| BidiOrder.RunDirection | src-tauri/src/bidi.rs:105-114 | columns keep their order inside a left-to-right run and reverse it inside a right-to-left one |
| BidiOrder.RunsKeepOrder | src-tauri/src/bidi.rs:99-114 | columns of an earlier visual run stand left of those of a later one |
| BidiOrder.SecondParagraphIsLost | src-tauri/src/bidi.rs:46-47 | a row with a paragraph separator whose order is not a permutation |
| BidiOrder.BuildGroups | src-tauri/src/bidi.rs:60-88 | the loop builds the specified groups and text |
| BidiOrder.CharOffsets | src-tauri/src/bidi.rs:95-97 | the byte offset of every character |
| BidiOrder.EncodeIsChar | src-tauri/src/bidi.rs:96 | the bytes of a character are one character of the grammar of RFC 3629, stand for it, and are as many as counted |
| BidiOrder.EncodeOnto | src-tauri/src/bidi.rs:96 | every character of that grammar is the encoding of what it stands for |
| BidiOrder.OffsetsAreUtf8 | src-tauri/src/bidi.rs:96 | the offset of a character is the length of the encodings before it, and there its encoding stands in the text |
| BidiOrder.WalkRuns | src-tauri/src/bidi.rs:99-114 | the loop lists the characters of the runs in visual order |
| BidiOrder.CharToGroup | src-tauri/src/bidi.rs:116-123 | writing by index gives every character its group |
| BidiOrder.EmitColumns | src-tauri/src/bidi.rs:124-132 | the leading group's columns and then those of each group in visual order |
| BidiOrder.Invert | src-tauri/src/bidi.rs:133-136 | writing by index builds the specified inverse |
| BidiOrder.OrderRow | src-tauri/src/bidi.rs:48-144 | the whole function, with both fast paths, computes the specified order |
| BidiOrder.ApplyBidiOrder | src-tauri/src/vt_grid.rs:960-974 | the `expect` is never hit iff the order is the identity or never repeats a column in range, and then each visual cell is the logical one of its column |
| BidiOrder.ReorderRow | src-tauri/src/vt_grid.rs:960-974 | order and application together keep every cell of a whole row and put it where the order says |
| InputStream.ValidUpToLongest | src-tauri/src/daemon.rs:1058-1062 | the decoded part is the longest prefix that is text by section 4 of RFC 3629 |
| InputStream.CheckMeaning | src-tauri/src/daemon.rs:1058-1062 | valid iff text; an error without length iff at most three bytes of a begun character remain; else no continuation can help |
| InputStream.ValidUpToAppend | src-tauri/src/daemon.rs:1052-1071 | decoding resumes where it stopped unless it stopped at an error |
| InputStream.InvalidStays | src-tauri/src/daemon.rs:1061 | nothing that follows repairs an invalid beginning |
| InputStream.ForwardChunk | src-tauri/src/daemon.rs:1052-1071 | one chunk: refused iff invalid or the write fails, with nothing consumed; else exactly the complete characters go out and a cut character is carried |
| InputStream.ForwardStream | src-tauri/src/daemon.rs:1073-1092 | each way a stream can end, exactly what has been written then, also at a refused write, and how much has been read; only the last read can have failed, and every text written was accepted and not empty |
| InputStream.ForwardAccepted | src-tauri/src/daemon.rs:1048-1092 | for any cutting: a valid stream is written exactly, a cut one up to its last character, an invalid one is refused with a prefix of its valid part written |
| InputStream.OutcomeAccepted | src-tauri/src/daemon.rs:1048-1092 | the same of any outcome in which all writes succeed |
| InputStream.DetectedSoon | src-tauri/src/daemon.rs:1058-1062 | an error shows at most four bytes behind the valid part |
| InputStream.LeftoverIsShort | src-tauri/src/daemon.rs:864-871 | what is left over behind a header is shorter than one read |
| InputStream.CutMattersIff | src-tauri/src/daemon.rs:1048-1092 | over every leftover shorter than a read and every reads, all writes accepted: what is written is the same for every cutting iff the stream is not invalid or has no valid part |
| InputStream.WritesValidPart | src-tauri/src/daemon.rs:1073-1092 | for every invalid stream some such cutting has its whole valid part written |
| InputStream.WritesLess | src-tauri/src/daemon.rs:1058-1062 | for every invalid stream with a valid part some such cutting has strictly less written |
| InputStream.WritesNothingIff | src-tauri/src/daemon.rs:1058-1062 | some such cutting has nothing written iff there is no valid part or one read reaches from inside the first character to the byte that shows the error |
| InputStream.ReadRequestFrame | src-tauri/src/daemon.rs:909-942 | for any script of reads: what is answered, after how many reads, with a buffer equal to the bytes read |
| InputStream.RefusedIff | src-tauri/src/daemon.rs:916-921 | a request with a newline is refused iff some read overshoots the limit before it |
| InputStream.FramingBounds | src-tauri/src/daemon.rs:895-942 | a newline within the limit is always framed, one a full read beyond it never is |
| InputStream.LeftoverFirst | src-tauri/src/daemon.rs:864-871 | the bytes behind the header followed by the unread ones are the rest of the stream |
| InputStream.HandleClient | src-tauri/src/daemon.rs:852-892 | which answer a connection gets, exactly: refused iff a read overshoots the limit before the line is there, dropped iff one fails before that, forwarded iff the line opens an input stream, else answered with exactly the first line; forwarded bytes are those behind the header, once and in order, all of them when they are text, no read fails after the line and timeouts before it are retried in time |
| BrokerBridge.ExchangeLaw | src-tauri/src/handoff_native_bridge.rs:209-290 | for every packet sequence: at most one effect, only one whose scope was accepted twice and whose ids agree, none in a recovery, and success only for its exact receipt, which a handoff wraps alone in an object |
| BrokerBridge.SucceedsIff | src-tauri/src/handoff_native_bridge.rs:179-277 | a call succeeds with a value iff the packets are an accepted guard, the method's successful effect (none in a recovery) and, as the last packet, a complete outcome with its receipt, and child and resources complete |
| BrokerBridge.ActsIff | src-tauri/src/handoff_native_bridge.rs:222-269 | for every packet sequence, exactly: the effect of the second packet is performed iff that packet asks for the method's own kind, names one operation in intent and tuple, and the scope is accepted again, and nothing else ever is; an operation is named iff the packet asks; it is certified that nothing was done iff an input's last packet says it is recorded or put aside |
| BrokerBridge.RunExchange | src-tauri/src/handoff_native_bridge.rs:214-279 | the loop computes the specified conversation |
| BrokerBridge.MachineKeeps | src-tauri/src/handoff_native_bridge.rs:72-290 | every interleaved step of enrolments and conversations keeps: runs hold distinct consumed entries, each conversation keeps its law, and a key is in the effects iff its conversation has acted, once |
| BrokerBridge.HeardOnce | src-tauri/src/handoff_native_bridge.rs:224-280 | whatever packet a conversation hears next, it has then performed at most one effect |
| BrokerBridge.AtMostOncePerJob | src-tauri/src/handoff_native_bridge.rs:72-290 | over any history of enrolments and concurrent conversations with any packets each job id has its effect at most once |
| BrokerBridge.ConsumedForever | src-tauri/src/handoff_native_bridge.rs:88-98 | a consumed entry stays consumed, an uncertain one uncertain, and its job is never replaced |
| BrokerBridge.KeyIs | src-tauri/src/handoff_native_bridge.rs:47-87 | a key is the method's protocol name, a colon and the digest |
| BrokerBridge.KeyInjective | src-tauri/src/handoff_native_bridge.rs:85-87 | no two methods share a key, nor two selectors of a method |
| BrokerBridge.Bridge.EnrollJob | src-tauri/src/handoff_native_bridge.rs:72-84 | enrols iff the job is well formed and neither key nor id is taken, else changes nothing |
| BrokerBridge.Bridge.ClaimJob | src-tauri/src/handoff_native_bridge.rs:88-95 | refuses an unknown or consumed job, else consumes it |
| BrokerBridge.Bridge.MarkUncertain | src-tauri/src/handoff_native_bridge.rs:96-98 | sets the flag of an existing entry and nothing else |
| BrokerBridge.Bridge.Run | src-tauri/src/handoff_native_bridge.rs:209-290 | a claimed job is consumed, its effects are those of a lawful exchange, and every failure after the resources are held marks it uncertain except the exit certifying no effect |
| BrokerBridge.RanKeeps | src-tauri/src/handoff_native_bridge.rs:209-290 | one call of `run` is steps of the concurrent machine from its claim to its end, and keeps its invariant |
| BrokerBridge.RanIsHistory | src-tauri/src/handoff_native_bridge.rs:209-290 | the steps themselves: claim, then giving up, failing to start, or hearing packets to the end of the exchange |
| NativeCallbacks.Serve | src-tauri/src/handoff_native.rs:348-375 | of any number of callbacks only the first can have an effect, and only if its intent is valid |
| NativeCallbacks.Judge | src-tauri/src/handoff_native.rs:376-387 | certified iff a valid first intent had an effect and the host echoes its receipt; every other answer names the first operation |
| NativeCallbacks.HashIs | src-tauri/src/handoff_native.rs:212-216 | a hash is 64 lower-case hexadecimal digits |
| NativeCallbacks.ServiceableIff | src-tauri/src/handoff_native.rs:293-339 | for exactly these proposals some intent is accepted: distinct panes and sessions, proper texts, an absolute hashed descriptor, one of the three providers and a visible size |
| NativeCallbacks.DeliverableIff | src-tauri/src/handoff_native.rs:443-478 | for exactly these places, and any bytes, an input is accepted: both owned by their pane, and either the same place or apart in pane, run and process |
| NativeCallbacks.RegistrableIff | src-tauri/src/handoff_native_binding.rs:57-87 | for exactly these routes a registration is accepted: a source on its own route, a target elsewhere on another's |
| NativeCallbacks.ActivatableIff | src-tauri/src/handoff_native_binding.rs:88-119 | for exactly these places and texts a provider's start is accepted |
| NativeCallbacks.Execute | src-tauri/src/handoff_native.rs:293-388 | at most one fresh start, certified only for a validated intent and a verified target other than the source; a failure names the operation of the host's first call |
| NativeCallbacks.DeliverInput | src-tauri/src/handoff_native.rs:427-497 | at most one write, certified only for a validated intent that was written; a failure names the operation of the host's first call |
| NativeCallbacks.RegisterProvider | src-tauri/src/handoff_native_binding.rs:65-151 | at most one registration, certified only for a validated mapping that was registered; a failure names the operation of the host's first call |
| NativeCallbacks.ActivateProvider | src-tauri/src/handoff_native_binding.rs:88-174 | at most one activation, certified only for a validated one whose wire is the pasted startup text; a failure names the operation of the host's first call |
| RequestClaim.StepKeepsInv | src-tauri/src/child_request_claim.rs:5-20 | every step that does not leave the name of a claimed request keeps: pollers inside hold the claim alone, and nothing delivered stands under a name again |
| RequestClaim.DeliveredAtMostOnce | src-tauri/src/child_request_claim.rs:5-20 | under every interleaving, crash, publication and harmless failure a request is delivered at most once, as long as no claimed request keeps its name |
| RequestClaim.OnceIff | src-tauri/src/child_request_claim.rs:9 | at any step: at-most-once survives every continuation that leaves no further name iff the step is not a failing removal of the claimed request's own name |
| RequestClaim.LeftNameRepeats | src-tauri/src/child_request_claim.rs:9-19 | after such a failure the poller and any next one deliver the same request, from every state |
| RequestClaim.OneInside | src-tauri/src/child_request_claim.rs:7-8 | at most one live poller is past the link, whatever fails |
| RequestClaim.AbandonedClaimKept | src-tauri/src/child_request_claim.rs:1-2 | a claim left by an interruption is never overwritten, removed or delivered, and blocks later ones |
| RequestClaim.FailedUnlinkDeliversTwice | src-tauri/src/child_request_claim.rs:9 | such a run from the start |
| RequestClaim.UnnamedNeverDelivered | src-tauri/src/child_request_claim.rs:5-20 | a request without a name and not read is never delivered |
| RequestClaim.LostIff | src-tauri/src/child_request_claim.rs:5-20 | at any step, whatever has failed before: a request still to be delivered is lost iff its unclaimed name is removed for another or overwritten, or its claim goes after a failed read |
| RequestClaim.LostInRunIff | src-tauri/src/child_request_claim.rs:5-20 | in every run a published request is lost for good iff one of those steps happens before it is delivered |
| RequestClaim.RepublishedRequestLost | src-tauri/src/child_request_claim.rs:8-9 | such a run from any state: a request published between a link and its removal loses its name unread |
| RequestClaim.Queue.Take | src-tauri/src/child_request_claim.rs:5-20 | one uninterrupted call takes the request under the name, or leaves a standing claim alone, and is those steps of the protocol |
| ProcessTree.ReachedInFuel | src-tauri/src/pane_process.rs:217 | what is reachable at all is reachable within the number of processes, even on a cyclic table |
| ProcessTree.IsDescendantOf | src-tauri/src/pane_process.rs:211-232 | the fuel-bounded walk is true reachability for any parent map |
| ProcessTree.CollectAgents | src-tauri/src/pane_process.rs:240-245 | the agents kept are exactly the provider processes at or below the root |
| ProcessTree.NoAgentAbove | src-tauri/src/pane_process.rs:248-271 | on an acyclic table with unique pids the filter keeps exactly the agents without another agent above |
| ProcessTree.TopsIsOnlyOutermost | src-tauri/src/pane_process.rs:246-277 | an agent above all others is the only outermost one |
| ProcessTree.OnlyOutermostTops | src-tauri/src/pane_process.rs:246-277 | the only outermost agent has all others at or below it |
| ProcessTree.TopLevelAgent | src-tauri/src/pane_process.rs:234-278 | on such tables it answers iff some agent has every agent at or below it, and answers that one |
| CivilTime.ClosedForm | src-tauri/src/agent_lifecycle.rs:74-82 | the algorithm with truncating division is a closed form with floored ones, in every year |
| CivilTime.NextDayIsOneMore | src-tauri/src/agent_lifecycle.rs:74-82 | the next calendar day is always one more |
| CivilTime.EpochIsZero | src-tauri/src/agent_lifecycle.rs:73-82 | 1970-01-01 is day zero |
| CivilTime.DaysAreNaive | src-tauri/src/agent_lifecycle.rs:74-82 | the algorithm equals counting years, months and days, for every valid date |
| CivilTime.ParseWritten | src-tauri/src/agent_lifecycle.rs:84-105 | parsing a UTC instant written with a fraction of any length, or none, gives its whole milliseconds since the epoch |
| CivilTime.ParseIntIff | src-tauri/src/agent_lifecycle.rs:90 | an integer is at least one digit behind an optional sign, and has that sign |
| CivilTime.RefusedIff | src-tauri/src/agent_lifecycle.rs:86-92 | for any text: refused iff shorter than the seconds, without the two separators, or with a field that is no integer |
| CivilTime.ClockAlone | src-tauri/src/agent_lifecycle.rs:93-104 | without a readable fraction the instant is that of the clock alone, and a zone offset is not looked at |
| CivilTime.LongFraction | src-tauri/src/agent_lifecycle.rs:96-100 | the first three digits of a longer fraction are its milliseconds, cut off and not rounded |
| CivilTime.ParseFormat | src-tauri/src/agent_lifecycle.rs:84-105 | so an instant written with milliseconds is read back exactly |
| CivilTime.EarlierIsSmaller | src-tauri/src/agent_lifecycle.rs:103-104 | an earlier instant has fewer milliseconds |
| CivilTime.OrderPreserved | src-tauri/src/agent_lifecycle.rs:84-105 | reading written instants keeps their order, both ways |
| RolloutLog.ClassifyTail | src-tauri/src/agent_lifecycle.rs:108-187 | the one-pass scan with its flags and pending list computes the state specified over the whole log |
| RolloutLog.VerdictMeaning | src-tauri/src/agent_lifecycle.rs:178-187 | idle iff an ended turn stands; pending iff a call of the current turn has no result, and then the newest such call; unknown iff nothing was recorded |
| RolloutLog.EventKinds | src-tauri/src/agent_lifecycle.rs:123-176 | which records, by their two type fields, end or start a turn, call, return or speak |
| RolloutLog.LogMeaning | src-tauri/src/agent_lifecycle.rs:115-187 | the same of the raw records: idle iff an ended turn is followed by results only; pending iff a call is followed by no boundary and no result of its id; unknown iff no record counts |
| RolloutLog.CallFields | src-tauri/src/agent_lifecycle.rs:45-68 | what is kept of a call: id, name or kind, the milliseconds of its written time, and that it may need approval iff it is no inside call and, for a script, its input runs a command or patch |
| RolloutLog.OneMore | src-tauri/src/agent_lifecycle.rs:123-176 | what one more record does to the calls without a result: a boundary clears them, a result removes its id, nothing else touches them |
| RolloutLog.SuffixSound | src-tauri/src/agent_lifecycle.rs:107-187 | a tail with a turn boundary or an open call has the state of any log that ends in it |
| RolloutLog.SuffixUnsettled | src-tauri/src/agent_lifecycle.rs:107-187 | for any other tail some log ending in it has another state |
| RolloutLog.TailWindowSound | src-tauri/src/agent_lifecycle.rs:117-119 | a tail that begins inside a line has the state of the whole log when what follows settles it |
| RolloutLog.WaitingIff | src-tauri/src/agent_lifecycle.rs:191-207 | the badge waits iff the newest open call asks the user, or may need approval and has no younger process; idle iff an ended turn stands, unavailable iff nothing was recorded |
| TranscriptWindow.ReadRelevant | src-tauri/src/commands.rs:3478-3505 | fails iff a line cannot be read, else joins the longest suffix of the accepted records that fits the budget |
| TranscriptWindow.MakeRoom | src-tauri/src/commands.rs:3494-3500 | the popping loop drops no more than it must and keeps the byte count equal to the kept sizes |
| TranscriptWindow.NextWindow | src-tauri/src/commands.rs:3487-3503 | dropping until the next record fits gives the longest fitting suffix with it |
| TranscriptWindow.WindowUnique | src-tauri/src/commands.rs:3478-3505 | there is only one longest fitting suffix |
| TranscriptWindow.JoinedLength | src-tauri/src/commands.rs:3504 | the text is one byte shorter than the counted bytes, so within the budget |
| TranscriptWindow.JoinInjective | src-tauri/src/commands.rs:3504 | the joined text determines the records |
| LineSearch.Find | src-tauri/src/search.rs:39 | the first occurrence from a position, or none |
| LineSearch.FindInLine | src-tauri/src/search.rs:36-50 | the loop terminates with the matches of the specified occurrences |
| LineSearch.FindInLines | src-tauri/src/search.rs:20-53 | the matches of all lines in order; none for an empty query |
| LineSearch.OccurrencesAreGreedy | src-tauri/src/search.rs:36-50 | those occurrences are in order and disjoint, and no other occurrence starts in a gap between them |
| LineSearch.GreedyUnique | src-tauri/src/search.rs:36-50 | only one list of positions is like that |
| LineSearch.CombiningBlocks | src-tauri/src/search.rs:62-76 | combining marks are the points of Hebrew without its punctuation, and five whole blocks |
| LineSearch.ColumnsOf | src-tauri/src/search.rs:56-60 | a text takes as many columns as characters iff it has no combining mark, and none iff it has nothing else |
| LineSearch.HighlightEnds | src-tauri/src/search.rs:40-45 | a highlight ends at the column where the text behind the match begins |
| LineSearch.DisjointColumns | src-tauri/src/search.rs:36-60 | matches of a line do not overlap in terminal columns either |

## Left out

- Parsing, colours and reflow of the terminal emulator: a grid is an abstract frame that any mutation may replace by any drawable one.
- The emitter's thread and its early stop for a detached session: emissions are one emitter's steps that may or may not happen.
- The analysis of the Unicode Bidirectional Algorithm: its visual runs are a parameter, required to be disjoint and to cover the first paragraph.
- JSON text: records, packets and proposals are datatypes, and which line of a transcript is relevant is a parameter.
- The check that a native tuple has exactly its fields when it is turned into a typed intent.
- SHA-256: a function parameter of the receipt checks.
- Sockets, threads, child processes, deadlines and `/proc` scanning: scripts of reads, packets, answers and process tables that the theorems quantify over.
- HandleClient: the forwarding itself is specified; the ordinary request handlers behind it are not part of this model.
- RequestClaim.Queue.Take: the last removal, of the claim, succeeds here; its failure is a step of the protocol.
- The size test of `take` before reading: a readable claim and a small one are one answer of the file system.
- Case-insensitive search: lower-casing changes lengths, and its columns are those of another text.
- Matching on UTF-8 bytes in the search: it finds the same characters, which the model compares directly.
- The memory of approved calls, which is forgotten once it holds more than 4096 of them.
- A first log line cut inside a character or a record is taken to be unreadable; no other reading of it is modelled.
- Overflow of 64-bit integers in timestamps and of the revision of a session object other than its wrap-around.
- `recover_owned`: a comparison of fields without further state.
- The window's React components, log rotation, path helpers and the verification scripts.
