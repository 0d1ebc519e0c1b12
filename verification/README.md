# Verification model of the esp32dash dashboard

The repository is an ESP32 desk dashboard: firmware in C, a host agent in Rust that
follows Claude sessions and talks to the device over a serial line, and a Python tool that
packs sprite sheets. This project models the parts of it that carry real invariants,
protocols and loops, and proves what they promise. `dafny verify dfyconfig.toml` checks
everything.

| module | what it models |
|---|---|
| `SpriteCodec` | the sprite sheet encoder and both decoders |
| `LineProtocol` | the device's byte-at-a-time line assembler and the host's frame search |
| `Screenshot` | the chunked screenshot stream between device and host |
| `SerialWorker` | the host's serial worker: connected, disconnected, paused |
| `Renderer` | the rotated fast renderer and the plain snapshot renderer |
| `FramePool` | the frame buffer pool between the renderer and the push task |
| `DmaPush` | pushing rows through one DMA buffer under a transfer-done interrupt |
| `WifiCandidates`, `WifiProfiles` | candidate order, profile table and its storage |
| `WifiRetry`, `WifiFastRetries`, `WifiOverlap`, `WifiChain` | the retry machine and its runs: fast retries, the timer over a connect, where retrying ends |
| `HookSettings`, `HookMeaning` | installing and removing hooks in `settings.json` |
| `PendingQueue`, `ToolCoalescing`, `SnapshotStream`, `SendOrder`, `SessionTable`, `SessionMeaning`, `AgentState` | the host agent's state |
| `Arith`, `Options`, `Ranking`, `Sequences` | shared definitions and small facts |

Loops and objects keep their own form: a class or a method per C or Rust routine that
updates state, proved against a function on values; the properties are lemmas about that
function over every input and every run. Concurrent parts are state machines of atomic
steps with an arbitrary environment: for the agent, one step per section of code under the
state lock, so that every interleaving of requests and timers is a run.

What a rule means is also told plainly, on the fields, texts and numbers it is about and
without the definitions that the code is modelled by: in `HookMeaning` on the JSON itself,
in `SessionMeaning` on the sessions, and at the end of most other modules.

## What the proofs say about the code

Most of what the code and its comments promise holds as it stands. Where a natural reading
does not, the code is modelled as it is and the exact condition is proved:

- The self-heal of the DMA push (the comment at src/components/bsp_board/src/bsp_display.c:252)
  protects exactly the pushes that start with no transfer running. A transfer still running
  at entry can have its buffer overwritten (`DmaPush.TearFreeIffIdle`), and a push that times
  out can leave one running (`DmaPush.StalledTransferTearsNext`).
- The retry chain of the Wi-Fi manager ends at a `esp_wifi_connect` whose error is ignored,
  and at a disconnect event taken for its own (`WifiChain.ChainEndsExactly`). The second
  leaves it believing in a link that is gone, and no event or user scan that can follow
  changes that; only a change of the profiles can. An ordinary boot and one stored network
  are enough (`WifiChain.StrandingHappens`, `WifiChain.StuckForever`). The comment at
  src/components/net_manager/src/net_manager.c:609 says that the ignore flag may stay set
  and that it will not swallow a real failure; it swallows one with a leave reason.
- Three fast reconnects are not always the bound between got-IP events and user scans. A
  got-IP event does not stop the retry timer, and a user scan arms it without counting a
  drop; a fourth can follow exactly then (`WifiFastRetries.ThreeFastExactlyWhenTimerIdle`,
  `WifiFastRetries.ThreeFastExactlyAfterScan`). A user scan during the first attempt is
  enough (`WifiOverlap.ScanExceptionHappens`). From an ordinary boot a got-IP event finds
  the timer running only if a user scan ended over a connect begun during it, or a
  cancelled connect was reported as lost during a later one
  (`WifiOverlap.ThreeFastFromBootExactly`, `WifiOverlap.GotIpExceptionHappens`); a scan
  with nothing in between never does that (`WifiOverlap.UninterruptedScanIsCalm`).
- The installer's change flag does not notice an entry that was only given a hooks list
  (`HookSettings.InstallFlagExact`).
- Snapshots are numbered under the lock but sent after it, so the device can be left on an
  older one (`SendOrder.SentInOrderExactly`, `SendOrder.LateSendShowsOld`).
- The host looks for the last protocol prefix on a line, so a device frame whose own text
  contains the prefix is lost (`LineProtocol.DeviceFrameRecovered`).
- Uninstalling hooks gives the settings back exactly when no empty hooks object, event
  array or hooks list was there to be used up (`HookSettings.UninstallUndoesInstall`).
- A restart with an empty session table brings one session back from the last snapshot
  (`SessionTable.RestartRestores`).
- The screenshot byte limit can never be the reason for a refusal
  (`Screenshot.ByteLimitRedundant`).

## Model

| member | source | states |
|---|---|---|
| `SpriteCodec.ExpandKeepsColour` | tools/sprite_convert.py:48-54 | each expanded channel has the bits of the colour in front and repeats them below, alpha is full, and reducing the pixel gives the colour back |
| `SpriteCodec.ReduceKeepsLeadingBits` | tools/sprite_convert.py:48-49 | reducing a colour keeps the leading 5, 6 and 5 bits of red, green and blue |
| `SpriteCodec.GreedyExpands` | tools/sprite_convert.py:88-98 | the greedy stream is well formed (runs of 1 to 255, indexes inside the palette) and expands to the index sequence it was made from |
| `SpriteCodec.GreedyIsOptimal` | tools/sprite_convert.py:88-98 | no stream of (run, index) pairs that expands to the same index sequence is shorter than the greedy one |
| `SpriteCodec.RunEnd` | tools/sprite_convert.py:93-95 | the inner loop stops at the end of the longest run of at most 255 equal indexes |
| `SpriteCodec.EncodeRuns` | tools/sprite_convert.py:90-98 | the two nested loops emit exactly the greedy stream |
| `SpriteCodec.RunEncoding` | tools/sprite_convert.py:88-98 | a run of one index becomes a count and then the index, cut after 255 |
| `SpriteCodec.FramePixelInRect` | tools/sprite_convert.py:111-113 | the address `p / w`, `p % w` of a crop position lies inside the frame and the crop rectangle, and different positions have different pixels |
| `SpriteCodec.CropRowByRow` | tools/sprite_convert.py:111-113 | the crop is read row by row: from the corner right within a row, and then to the start of the next |
| `SpriteCodec.FillRun` | src/apps/app_home/src/sprite_codec.c:28-33 | after a run, clipped to the rectangle, every pixel of the buffer shows the picture of the crop positions decoded so far, and no pixel more |
| `SpriteCodec.PaintRun` | src/apps/app_home/src/sprite_codec.c:16-34 | a run of any index, the transparent one included, advances the shown picture by its length |
| `SpriteCodec.SpriteDecodeFrame` | src/apps/app_home/src/sprite_codec.c:5-37 | the C decoder shows at every pixel what the stream means, stays inside the 64x64x4 buffer and reads exactly the stream of a faithful sheet |
| `SpriteCodec.DecodeFrame` | tools/sprite_convert.py:102-117 | the Python decoder shows the same picture; it fails with an index error, or with the coverage error, exactly on the streams described |
| `SpriteCodec.Survey` | tools/sprite_convert.py:77-81 | the bounding box is the smallest rectangle holding every opaque pixel of every frame, and the colour set is exactly the colours used |
| `SpriteCodec.OpaqueExactly` | tools/sprite_convert.py:77-81 | the surveyed pixels are those opaque in some frame |
| `SpriteCodec.ColoursExactly` | tools/sprite_convert.py:82-85 | the surveyed colours are those some frame uses |
| `SpriteCodec.RectIsTight` | tools/sprite_convert.py:77-81 | the rectangle holds every opaque pixel and has one on each edge |
| `SpriteCodec.Sorted` | tools/sprite_convert.py:81 | the palette after index 0 is strictly increasing and lists every colour once |
| `SpriteCodec.BuildIndex` | tools/sprite_convert.py:84-85 | the index map inverts the palette and never uses index 0 |
| `SpriteCodec.CropFrame` | tools/sprite_convert.py:89 | the cropped index sequence names, position by position, the colour of the frame pixel that the decoders address |
| `SpriteCodec.EncodeSheet` | tools/sprite_convert.py:76-99 | encoding succeeds exactly when some pixel is opaque and at most 255 colours occur, and then every stream is faithful to its frame; it fails with the two named errors otherwise |
| `SpriteCodec.ExpectedFrame` | tools/sprite_convert.py:120-124 | the expected bytes are the source pixels, expanded, in order |
| `SpriteCodec.RoundTrip` | tools/sprite_convert.py:181-184 | any buffer that shows a faithful stream equals the expected frame byte for byte |
| `SpriteCodec.CheckFrame` | tools/sprite_convert.py:182-184 | the Python decoder returns, and the C decoder writes, exactly the expected frame, and the comparison in the generator says so |
| `SpriteCodec.PerfectShowsSource` | tools/sprite_convert.py:102-125 | the bytes that both decoders then agree on: zero for a transparent pixel, otherwise opaque, blue first, and the source colour when reduced |
| `SpriteCodec.ConvertSheet` | tools/sprite_convert.py:177-185 | over any set of frames: conversion succeeds exactly when it can, and then the Python and the C decoder give back every frame byte for byte |
| `LineProtocol.LineAssembler.Feed` | src/components/device_protocol/src/device_protocol.c:18-52 | one byte in place: the new buffer, counters and event are those of the abstract assembler, and lines, overflows and their exact sizes are reported at the newline |
| `LineProtocol.AfterIsMeaning` | src/components/device_protocol/src/device_protocol.c:18-52 | byte-at-a-time assembly equals splitting the CR-stripped stream at newlines: short lines verbatim, a too long one as one overflow with its exact length, an empty one as nothing |
| `LineProtocol.CarriageReturnsIgnored` | src/components/device_protocol/src/device_protocol.c:18-52 | a carriage return makes no difference wherever it is |
| `LineProtocol.EmptyLinesSilent` | src/components/device_protocol/src/device_protocol.c:18-52 | an empty line is no event |
| `LineProtocol.FeedChunk` | src/components/device_link/src/device_link.c:1143-1156 | one buffer of bytes, fed to the assembler, appends exactly the events of those bytes |
| `LineProtocol.ReadAll` | src/components/device_link/src/device_link.c:1122-1158 | for every stream and every way of chunking it, the events are the meaning of the concatenated stream |
| `LineProtocol.DispatchFrame` | src/components/device_link/src/device_link.c:1095-1104 | a plain host frame, as a C string, is handed to the JSON parser unchanged |
| `LineProtocol.DispatchExactly` | src/components/device_link/src/device_link.c:1095-1104 | a line reaches the parser if and only if it starts with `@esp32dash `, and then without it; a NUL ends the line |
| `LineProtocol.HostFramesArrive` | tools/esp32dash/src/device.rs:256-258 | host frames sent after a newline are dispatched whole and in order, whatever came before and however many neighbours were too long; each too long one is reported once with its size |
| `LineProtocol.DeviceFrameRecovered` | tools/esp32dash/src/device.rs:260-273 | behind any log noise a device frame is recovered from its line if and only if its text has no protocol prefix in it, is not blank and does not end in a line ending |
| `Screenshot.StreamCapture` | src/components/device_link/src/device_link.c:300-352 | the chunk loop sends exactly the frames that cut the capture into 1024-byte pieces in order, then the done frame with the right totals; it stops early exactly at the first chunk whose text does not fit the encode buffer, which never happens with base64 |
| `Screenshot.DeviceMetaValid` | src/components/device_link/src/device_link.c:262-285 | the device metadata passes the host check if and only if the capture has packed rows and is within the size limits |
| `Screenshot.ByteLimitRedundant` | tools/esp32dash/src/device.rs:685-693 | the byte limit can never be what refuses a capture |
| `Screenshot.MetaValidExactly` | tools/esp32dash/src/device.rs:644-704 | the accepted metadata, as products and bounds: packed rows within 640 by 172, and just as many chunks as it takes |
| `Screenshot.RefusalNamesDefect` | tools/esp32dash/src/device.rs:644-704 | each refusal names a defect that is there |
| `Screenshot.ValidMetaCuts` | tools/esp32dash/src/device.rs:644-712 | accepted metadata cuts the image exactly: every chunk offset is below the data size and the last chunk ends at it |
| `Screenshot.StoreChunk` | tools/esp32dash/src/device.rs:559-587 | one chunk in place: either the state of the accepted chunk or exactly one of the error answers; nothing is written outside the chunk |
| `Screenshot.CaptureScreenshot` | tools/esp32dash/src/device.rs:541-642 | the receive loop returns what the run over its frames returns |
| `Screenshot.AcceptKeepsLink` | tools/esp32dash/src/device.rs:566-587 | an accepted chunk keeps every earlier chunk in place and the byte count equal to the sum of the chunks received |
| `Screenshot.ChunkAnswer` | tools/esp32dash/src/device.rs:554-590 | which chunk gets which answer, by what was accepted before |
| `Screenshot.EndAnswer` | tools/esp32dash/src/device.rs:591-616 | which end of the capture gets which answer |
| `Screenshot.OtherAnswers` | tools/esp32dash/src/device.rs:617-629 | silence, a broken line, unreadable frames and failure reports |
| `Screenshot.AcceptedPictureIsWhole` | tools/esp32dash/src/device.rs:541-642 | for arbitrary frames: if a picture is returned, every index arrived exactly once with its bytes in place before a matching done frame; the final length check and the overrun check never fire |
| `Screenshot.DeliveryExact` | tools/esp32dash/src/device.rs:546-642 | among frames that do not disturb the capture, the done frame is answered with a picture if and only if the chunks are acceptable, unrepeated and complete |
| `Screenshot.ScreenshotDelivered` | tools/esp32dash/src/device.rs:528-642 | device chunk frames in any order, with frames of other kinds and captures in between, then the done frame: the host returns exactly the captured bytes |
| `Renderer.AddressInside` | src/apps/app_home/src/screensaver_direct.c:76-107 | both pixel addresses stay inside the frame for every pixel on screen, in both rotations |
| `Renderer.AddressInjective` | src/apps/app_home/src/screensaver_direct.c:76-86 | different pixels have different addresses |
| `Renderer.NativeIndexOnto` | src/apps/app_home/src/screensaver_direct.c:76-86 | every index of the native framebuffer belongs to a pixel: the map is a bijection |
| `Renderer.TurnedRight` | src/apps/app_home/src/screensaver_direct.c:82-85 | the plain rotation: where the origin is, and that right is one panel row up and down one cell on |
| `Renderer.TurnedLeft` | src/apps/app_home/src/screensaver_direct.c:79-81 | the 270 degree rotation: origin and both steps |
| `Renderer.TurnsAreOpposite` | src/apps/app_home/src/screensaver_direct.c:76-88 | a pixel is as far from one end of the framebuffer in one rotation as from the other end in the other |
| `Renderer.DarkenQuartersChannels` | src/apps/app_home/src/screensaver_direct.c:112-116 | the two masked shifts divide each channel by four with nothing leaking into a neighbour |
| `Renderer.Scrim` | src/apps/app_home/src/screensaver_direct.c:120-132 | the loops darken each on-screen pixel of the rectangle exactly once and no other |
| `Renderer.PictureMeaning` | src/apps/app_home/src/screensaver_direct.c:385-420 | what a finished pixel is: the last text on it, else the last of the effect, quartered inside the clock rectangle only, else black |
| `Renderer.Render` | src/apps/app_home/src/screensaver_direct.c:395-404 | clear, effect, scrim and text leave at every pixel the colour the picture defines, for any writes |
| `Renderer.RenderBoth` | src/apps/app_home/src/screensaver_direct.c:444-463 | the rotated framebuffer and the logical snapshot show the same picture at every pixel |
| `FramePool.StepKeepsInv` | src/apps/app_home/src/screensaver_direct.c:362-419 | every atomic step of renderer or pusher, error paths included, keeps each buffer in one place and the frames in order |
| `FramePool.RunsKeepInv` | src/apps/app_home/src/screensaver_direct.c:170-204 | the invariant holds after every interleaving |
| `FramePool.PoolSafety` | src/apps/app_home/src/screensaver_direct.c:362-419 | after every interleaving each buffer is in exactly one place, no send finds its queue full, and the panel gets the frames drawn, in order, none skipped |
| `FramePool.IdleMeansDrained` | src/apps/app_home/src/screensaver_direct.c:286-303 | the free queue counts all buffers if and only if nobody holds one and nothing is queued, and then every frame drawn has been pushed |
| `FramePool.NeverStuck` | src/apps/app_home/src/screensaver_direct.c:362-419 | with at least one buffer some step is always possible |
| `DmaPush.Panel.Preempt` | src/components/bsp_board/src/bsp_display.c:94-103 | the interrupt completes the oldest running transfer and gives the binary semaphore |
| `DmaPush.Panel.Heal` | src/components/bsp_board/src/bsp_display.c:252-259 | the drain loop and the give, with the interrupt free to run before, between and after them, equal the abstract self-heal |
| `DmaPush.TokenExactly` | src/components/bsp_board/src/bsp_display.c:260-264 | exactly when a wait for the semaphore is served: it is full, or a running transfer completes by the end of the wait |
| `DmaPush.Panel.PushLoop` | src/components/bsp_board/src/bsp_display.c:260-289 | the chunk loop is the recursive push |
| `DmaPush.Panel.PushRows` | src/components/bsp_board/src/bsp_display.c:229-299 | the whole push, with its argument and zero-row checks |
| `DmaPush.CutsWriteEachRowOnce` | src/components/bsp_board/src/bsp_display.c:260-281 | cut into chunks of any size, the transfers write every row once, in order, in its place |
| `DmaPush.CutsFit` | src/components/bsp_board/src/bsp_display.c:260-281 | no transfer is empty, larger than asked for, or larger than the buffer |
| `DmaPush.PushRefuses` | src/components/bsp_board/src/bsp_display.c:229-250 | which arguments are refused, and that a refused or empty push touches nothing |
| `DmaPush.PromptPushSucceeds` | src/components/bsp_board/src/bsp_display.c:252-289 | a push succeeds if transfers complete in time and no draw call fails, whatever the semaphore was left at |
| `DmaPush.ChunksSafe` | src/components/bsp_board/src/bsp_display.c:260-289 | from a primed state the loop never overwrites the buffer under a transfer, starts a prefix of the transfers in order, and success means all of them completed |
| `DmaPush.PushFromIdle` | src/components/bsp_board/src/bsp_display.c:229-299 | the same for a whole push that starts with no transfer running, whatever the semaphore holds |
| `DmaPush.TearFreeIffIdle` | src/components/bsp_board/src/bsp_display.c:252-281 | a push is safe under every timing if and only if no transfer runs when it starts |
| `DmaPush.StalledTransferTearsNext` | src/components/bsp_board/src/bsp_display.c:260-289 | the unsafe case happens: if the DMA stalls, the push times out with its transfer running and nothing torn, and if it goes on stalling the next push overwrites the buffer |
| `DmaPush.RecoversAfterTimeout` | src/components/bsp_board/src/bsp_display.c:252-289 | after a timed-out push whose transfer completes later, the next push has the same guarantees |
| `WifiCandidates.MatchScan` | src/components/net_manager/src/net_manager.c:505-518 | the first pass finds, per profile, whether it is visible and its strongest signal |
| `WifiCandidates.PlaceVisible` | src/components/net_manager/src/net_manager.c:520-540 | repeated selection places the visible profiles by signal, ties in stored order |
| `WifiCandidates.PlaceTier` | src/components/net_manager/src/net_manager.c:542-558 | the later passes append the unseen hidden profiles and then the rest, each in stored order |
| `WifiCandidates.Rebuild` | src/components/net_manager/src/net_manager.c:478-567 | the rebuilt list is in the right order: every profile once, visible ones by best signal, then hidden, then the rest; a failed scan counts as an empty one |
| `WifiCandidates.RightOrderUnique` | src/components/net_manager/src/net_manager.c:505-558 | only one list is in the right order, so the order is fully determined by profiles and scan |
| `WifiCandidates.OrderMeaning` | src/components/net_manager/src/net_manager.c:520-558 | of any two candidates, which comes first and why, told on sight, signal, hidden flag and place |
| `WifiCandidates.SignalMeaning` | src/components/net_manager/src/net_manager.c:505-518 | the signal a candidate in sight carries is the strongest seen for its name |
| `WifiRetry.RetryMachine.StartConnectionToProfile` | src/components/net_manager/src/net_manager.c:569-615 | one attempt: every static variable it changes, for each way the driver can fail |
| `WifiRetry.RetryMachine.AdvanceToNextCandidate` | src/components/net_manager/src/net_manager.c:617-643 | the loop over the remaining candidates until one starts |
| `WifiRetry.RetryMachine.RetryTimer` | src/components/net_manager/src/net_manager.c:706-738 | the timer callback: wrap and advance after a slow delay, reconnect after a fast one |
| `WifiRetry.RetryMachine.StaDisconnected` | src/components/net_manager/src/net_manager.c:760-808 | the disconnect handler: deliberate leaves, auth failures, fast and slow retries |
| `WifiRetry.RetryMachine.BeginScan` | src/components/net_manager/src/net_manager.c:1052-1060 | a user scan up to the scan itself: whether it pauses, and every static variable it changes |
| `WifiRetry.RetryMachine.ScanAccessPoints` | src/components/net_manager/src/net_manager.c:1047-1065 | a user scan with nothing in between: off line it pauses the retries, may start the driver and arms a fast retry; on line it may only start the driver |
| `WifiRetry.RetryMachine.HandleEvent` | src/components/net_manager/src/net_manager.c:740-828 | every event changes the static variables as the step function says |
| `WifiRetry.AttemptsAreCyclic` | src/components/net_manager/src/net_manager.c:706-808 | over every run of events and every driver, the attempts follow the candidate list in cyclic order |
| `WifiRetry.EveryProfileIsTried` | src/components/net_manager/src/net_manager.c:715-726 | every window of candidate-count attempts contains every stored profile |
| `WifiRetry.CurrentIsLastAttempted` | src/components/net_manager/src/net_manager.c:569-580 | over every run from either boot, the profile taken for the current one is the one attempted last |
| `WifiRetry.PoweredUpIsQuiet` | src/components/net_manager/src/net_manager.c:830-853 | after initialisation nothing is pending or believed, and only a user can make something happen |
| `WifiFastRetries.FastRetriesBounded` | src/components/net_manager/src/net_manager.c:787-805 | over every run and every stretch of it without got-IP events and user scans: before the next attempt at most the budget at its start is spent on fast reconnects, which is at most four, and after each attempt at most three are made |
| `WifiFastRetries.FastBudgetExact` | src/components/net_manager/src/net_manager.c:787-805 | in every state the bound is exact over the events that can happen: where something is under way some possible stretch spends the whole budget and none exceeds it, and elsewhere nothing is spent |
| `WifiFastRetries.ThreeFastExactlyWhenTimerIdle` | src/components/net_manager/src/net_manager.c:800-815 | after a got-IP event the bound is three if and only if the event did not find the timer running |
| `WifiFastRetries.StaleTimerAddsOne` | src/components/net_manager/src/net_manager.c:810-826 | the possible run with four fast reconnects after a got-IP event that found the timer running |
| `WifiFastRetries.ThreeFastExactlyAfterScanEnds` | src/components/net_manager/src/net_manager.c:1061-1063 | after the end of a user scan that paused the retries the bound is three if and only if a drop is counted then |
| `WifiFastRetries.ThreeFastExactlyAfterScan` | src/components/net_manager/src/net_manager.c:1047-1065 | for a user scan with nothing in between: three if and only if a drop had been counted before it, or it left a connected manager with no fast retry pending |
| `WifiFastRetries.ScanAddsOne` | src/components/net_manager/src/net_manager.c:1047-1065 | the possible run with four fast reconnects after a scan that arms the timer with no drop counted |
| `WifiFastRetries.ScanPauses` | src/components/net_manager/src/net_manager.c:1052-1059 | while a user scan pauses the retries, no timer, no success and no loss can come from what went on before, but the report of the connect it cancelled |
| `WifiFastRetries.ScanResumes` | src/components/net_manager/src/net_manager.c:1061-1063 | its end arms a fast retry, which connects again to the same network |
| `WifiOverlap.RunCoherent` | src/components/net_manager/src/net_manager.c:760-826 | over every possible run, a manager that believes in a link awaits no report of a cancelled connect, and a link that is up is believed in |
| `WifiOverlap.TimerOverlapsExactly` | src/components/net_manager/src/net_manager.c:706-826 | with the driver running, a step arms the timer over a connect under way or a link if and only if a user scan ends there, or a cancelled connect is reported as lost during a later one |
| `WifiOverlap.ThreeFastFromBootExactly` | src/components/net_manager/src/net_manager.c:856-881 | over every possible run from an ordinary boot, three bounds what follows a got-IP event throughout if and only if no step of the run does that |
| `WifiOverlap.UninterruptedScanIsCalm` | src/components/net_manager/src/net_manager.c:1047-1065 | a user scan with nothing in between does not |
| `WifiOverlap.ScanExceptionHappens` | src/components/net_manager/src/net_manager.c:1050-1063 | from an ordinary boot, a user scan during the first attempt makes four fast reconnects possible |
| `WifiOverlap.GotIpExceptionHappens` | src/components/net_manager/src/net_manager.c:791-798 | from an ordinary boot, a refusal handled during a user scan starts the next attempt, the end of the scan arms the timer over it, and a got-IP event finds it running |
| `WifiOverlap.GotIpExceptionAfterLateStart` | src/components/net_manager/src/net_manager.c:602-607 | where the scan of the boot could not start the driver, a user scan during the first attempt is enough |
| `WifiChain.AliveExactly` | src/components/net_manager/src/net_manager.c:706-826 | a chain of retries is alive exactly when something can happen without a user, late reports of cancelled connects aside |
| `WifiChain.ChainEndsExactly` | src/components/net_manager/src/net_manager.c:733-808 | a living chain of retries ends exactly at an ignored connect error (fast reconnect, driver start) or at a disconnect event swallowed as deliberate, with nothing else under way; every other event keeps it going |
| `WifiChain.ChainBeginsExactly` | src/components/net_manager/src/net_manager.c:856-881 | starting the manager begins a chain if and only if some candidate starts, or the start of the driver is still to be reported |
| `WifiChain.ScanRevivesExactly` | src/components/net_manager/src/net_manager.c:1047-1065 | once the chain has ended a user scan begins another if and only if the manager knows it is off line or the scan starts the driver, and with no late report left nothing else can happen |
| `WifiChain.StuckForever` | src/components/net_manager/src/net_manager.c:766-772 | a manager that believes in a link that is gone stays so over every run of events that can still happen |
| `WifiChain.StrandingHappens` | src/components/net_manager/src/net_manager.c:608-614 | from an ordinary boot with one network stored: the first attempt leaves the ignore flag set and succeeds, a leave reason from the access point is swallowed, and nothing that can follow changes the manager |
| `WifiChain.StrandingAfterLateStart` | src/components/net_manager/src/net_manager.c:602-614 | where the scan of the boot could not start the driver, the same after a refused first network |
| `WifiRetry.RebuiltListIsReady` | src/components/net_manager/src/net_manager.c:560-566 | the lists that the candidate passes build satisfy what the retry results need |
| `WifiProfiles.AddSafe` | src/components/net_manager/src/net_manager.c:955-1001 | adding or updating keeps names unique, non-empty and in order, other profiles as they were, and the current network |
| `WifiProfiles.AddStatus` | src/components/net_manager/src/net_manager.c:955-996 | which arguments get which status, and that only success changes the table |
| `WifiProfiles.AddStores` | src/components/net_manager/src/net_manager.c:966-990 | after success the network has the given password, or its own if none is given, and the given hidden flag |
| `WifiProfiles.RemoveSafe` | src/components/net_manager/src/net_manager.c:1003-1045 | removing leaves exactly the profiles with other names, in their order; the current index keeps naming its network, or becomes -1 exactly when that was removed |
| `WifiProfiles.RunSound` | src/components/net_manager/src/net_manager.c:955-1045 | the table stays sound over every sequence of edits |
| `WifiProfiles.ProfileTable.FindIndex` | src/components/net_manager/src/net_manager.c:125-140 | the search finds the profile with the name, or -1 |
| `WifiProfiles.ProfileTable.AddOrUpdate` | src/components/net_manager/src/net_manager.c:955-996 | in place: the status and the new table are the specified ones, and a reconnect is forced exactly when the password of the network in use changed |
| `WifiProfiles.ProfileTable.UpdateAt` | src/components/net_manager/src/net_manager.c:970-977 | updating in place replaces the password when one is given and always the hidden flag |
| `WifiProfiles.ProfileTable.RemoveProfile` | src/components/net_manager/src/net_manager.c:1003-1041 | in place: the status and the new table are the specified ones |
| `WifiProfiles.ProfileTable.ShiftDown` | src/components/net_manager/src/net_manager.c:1020-1022 | the loop closes the gap and keeps what lies behind it |
| `WifiProfiles.Persist` | src/components/net_manager/src/net_manager.c:212-266 | whatever was stored before, the store then holds this table: its slots, no stale slot, no legacy key |
| `WifiProfiles.LoadAfterPersist` | src/components/net_manager/src/net_manager.c:268-358 | loading a persisted table gives it back |
| `WifiProfiles.LoadFits` | src/components/net_manager/src/net_manager.c:302-336 | anything that loads fits the buffers and the table size |
| `WifiProfiles.LoadSlotsExactly` | src/components/net_manager/src/net_manager.c:302-336 | loading fails exactly if a slot in range is bad, and otherwise gives what the named slots say |
| `WifiProfiles.LoadMeaning` | src/components/net_manager/src/net_manager.c:268-358 | how many slots are read, and when the network of an older firmware is taken over, with its password |
| `WifiProfiles.ReadSlots` | src/components/net_manager/src/net_manager.c:302-336 | the loop over the stored slots returns what they hold |
| `WifiProfiles.LoadProfiles` | src/components/net_manager/src/net_manager.c:268-358 | loading, with migration of the legacy credential; a reload then gives the same table and migrates nothing |
| `HookSettings.EnsureEventArray` | tools/esp32dash/src/hooks.rs:344-397 | the install loop over one event array returns the specified array, change flag and errors |
| `HookSettings.InstallHooks` | tools/esp32dash/src/hooks.rs:308-330 | installation over all specs returns the specified settings and flag |
| `HookSettings.InstallFlagExact` | tools/esp32dash/src/hooks.rs:186-191 | the flag that decides whether the file is written is true if and only if some spec is not installed; it says whether the settings changed except exactly when all specs are installed and on the way an entry without a hooks list was given one (or, with no specs at all, a hooks object was added) |
| `HookSettings.SilentChangeHappens` | tools/esp32dash/src/hooks.rs:346-363 | such a silent change: an empty entry before the installed one |
| `HookSettings.CleanEventArray` | tools/esp32dash/src/hooks.rs:502-541 | the removal pass over one event array: our hooks go, entries this empties go, and the change flag is true exactly when the array differs |
| `HookSettings.RemoveHooks` | tools/esp32dash/src/hooks.rs:486-560 | removal over the settings; the change flag is true exactly when the settings differ |
| `HookMeaning.RemovalTakesEverySpelling` | tools/esp32dash/src/hooks.rs:486-556 | on the JSON: after removal no hook under any event runs any spelling of the command |
| `HookMeaning.RemovalKeepsOthers` | tools/esp32dash/src/hooks.rs:486-556 | on the JSON: every other hook survives, in an entry with the same matcher and other fields |
| `HookMeaning.RemovalKeepsOtherEntries` | tools/esp32dash/src/hooks.rs:500-535 | on the JSON: an entry without any such hook survives as it is, whatever it is |
| `HookMeaning.InstallAddsNoneBeside` | tools/esp32dash/src/hooks.rs:348-366 | on the JSON: an entry of the matcher that runs any spelling makes installing for it add no hook and report no change |
| `HookMeaning.InstallAddsOne` | tools/esp32dash/src/hooks.rs:369-397 | on the JSON: without such an entry it adds exactly one hook and reports it |
| `HookMeaning.InstallKeepsPlaces` | tools/esp32dash/src/hooks.rs:332-398 | on the JSON: every hook stays in its place, in an entry with the same matcher and other fields |
| `HookMeaning.InstallAddsOnlyPath` | tools/esp32dash/src/hooks.rs:369-372 | on the JSON: whatever hook is new runs the installed path |
| `HookMeaning.InstallServesSpecs` | tools/esp32dash/src/hooks.rs:323-328 | on the JSON: afterwards an entry of the right event and matcher runs a spelling, for every spec |
| `HookMeaning.InstallPlace` | tools/esp32dash/src/hooks.rs:369-397 | on the JSON: a new hook goes to the end of the first entry of the matcher, or into a new last entry |
| `HookMeaning.InstallRefusedExactly` | tools/esp32dash/src/hooks.rs:348-366 | on the JSON: installing is refused if and only if a malformed entry comes before every entry that serves the matcher already |
| `HookMeaning.WrongShape` | tools/esp32dash/src/hooks.rs:313-321 | settings that are no object, or whose hooks are none, are refused when installing and left alone when removing |
| `HookSettings.EventRoundTrip` | tools/esp32dash/src/hooks.rs:332-398 | for one event: removal gives the array back if and only if it had none of our hooks and no entry the installation uses up |
| `HookSettings.UninstallUndoesInstall` | tools/esp32dash/src/hooks.rs:308-330 | for any accepted settings, removal after installation gives them back if and only if they are clean, a condition checked before installing |
| `HookSettings.AgentUninstallUndoesInstall` | tools/esp32dash/src/hooks.rs:23-100 | the same for the specs the agent installs |
| `HookSettings.InstallIsIdempotent` | tools/esp32dash/src/hooks.rs:332-398 | installing again changes nothing, for all accepted settings |
| `HookSettings.ForeignHooksSurvive` | tools/esp32dash/src/hooks.rs:486-560 | both passes keep every foreign hook of every event in its order and under its matcher, and every other setting |
| `HookMeaning.ForeignCounts` | tools/esp32dash/src/hooks.rs:486-556 | everyone else's hooks are counted by what they run, none of the spellings |
| `HookMeaning.ForeignOfMeans` | tools/esp32dash/src/hooks.rs:486-556 | the list of everyone else's hooks has each of an entry's, in order, with the entry's matcher |
| `PendingQueue.Queue.SubmitItem` | tools/esp32dash/src/pending.rs:110-116 | in place: the item becomes the freshest, replacing one with the same id |
| `PendingQueue.Queue.ClearEvent` | tools/esp32dash/src/pending.rs:119-130 | in place: exactly the entries the event resolves go, and their ids are returned oldest first |
| `PendingQueue.ApprovalOutlives` | tools/esp32dash/src/pending.rs:161-182 | exactly which approvals an event leaves |
| `PendingQueue.PromptOutlives` | tools/esp32dash/src/pending.rs:161-196 | exactly which prompts an event leaves |
| `PendingQueue.Queue.ClearSession` | tools/esp32dash/src/pending.rs:133-135 | in place: the entries of the session go, the rest stay in order |
| `PendingQueue.Queue.CurrentItem` | tools/esp32dash/src/pending.rs:138-158 | expired entries go, and the answer is the freshest approval, else the freshest entry |
| `PendingQueue.OutlivesClock` | tools/esp32dash/src/pending.rs:144-158 | how long an entry is answered, by its kind |
| `PendingQueue.OutlivesSubmitAndClear` | tools/esp32dash/src/pending.rs:110-135 | a submission replaces what has its id and nothing else, and clearing a session takes its entries and nothing else |
| `PendingQueue.LazyEqualsEager` | tools/esp32dash/src/pending.rs:138-158 | with a clock that never runs backwards, expiring only inside `current` gives the same answers as expiring at every step |
| `PendingQueue.AnswerIsFreshest` | tools/esp32dash/src/pending.rs:136-142 | over every run the answer is the latest-submitted live approval, else the latest-submitted live prompt, else nothing |
| `PendingQueue.IdsStayUnique` | tools/esp32dash/src/pending.rs:110-116 | no id is ever queued twice |
| `ToolCoalescing.Agent.IngestEvent` | tools/esp32dash/src/agent.rs:196-247 | one ingest in place equals the abstract step |
| `ToolCoalescing.Agent.FlushGeneration` | tools/esp32dash/src/agent.rs:249-267 | a timer flushes the held event only under its own generation |
| `ToolCoalescing.HeldIsWaiting` | tools/esp32dash/src/agent.rs:209-225 | the event held is exactly the one that waits, under its own generation |
| `ToolCoalescing.ProcessedIsDue` | tools/esp32dash/src/agent.rs:196-278 | over every interleaving of ingests and timers, the processed events plus the held one are the ingested events in order, each once, less exactly the PreToolUse events finished by the next ingested event before their timer fired |
| `ToolCoalescing.PairCoalesces` | tools/esp32dash/src/agent.rs:196-247 | by name and id: which pairs of events become one |
| `ToolCoalescing.TimerReleases` | tools/esp32dash/src/agent.rs:249-267 | a PreToolUse alone until its timer fires is processed then |
| `ToolCoalescing.StaleTimerHarmless` | tools/esp32dash/src/agent.rs:249-262 | a stale timer changes nothing |
| `SnapshotStream.Publisher.Finalize` | tools/esp32dash/src/agent.rs:550-586 | one finalize in place: publish a visibly different snapshot under the next number, else only move the time stamp; the ring buffer is cut from the front |
| `SnapshotStream.PublishesExactly` | tools/esp32dash/src/normalizer.rs:250-261 | one finalize publishes if and only if the next snapshot differs from the held one in more than number, event, time stamp and start of work; what it publishes and what it keeps |
| `SnapshotStream.StreamFields` | tools/esp32dash/src/agent.rs:550-575 | over every run, field by field, those four aside: the held snapshot agrees with the last one chosen and the last one published, neighbours differ, and the last 64 are kept |
| `SnapshotStream.PublishedAreTheChanges` | tools/esp32dash/src/agent.rs:550-571 | what has been published is exactly the visible changes, each once, in order, numbered consecutively |
| `SendOrder.SentInOrderExactly` | tools/esp32dash/src/agent.rs:317-331 | publishing under the lock and sending after it, as separate steps in any interleaving: what reaches the device channel is what was published, in number order, if and only if no task sends while an older snapshot still waits for its task |
| `SendOrder.InTurnShowsHeld` | tools/esp32dash/src/agent.rs:317-331 | then, with nothing left to send, the device was last sent what the agent holds |
| `SendOrder.LateSendShowsOld` | tools/esp32dash/src/agent.rs:317-331 | otherwise it need not: two changes sent in the other order leave the device on the older one |
| `SnapshotStream.StreamSafety` | tools/esp32dash/src/normalizer.rs:250-261 | over every run: consecutive numbers, neighbours never materially equal, the history is the last 64 published |
| `SessionTable.SessionKey` | tools/esp32dash/src/agent.rs:735-748 | an event always has a non-empty session key |
| `SessionMeaning.KeyPrecedence` | tools/esp32dash/src/agent.rs:735-748 | which identity wins: session id, working directory, process, none |
| `SessionMeaning.SameKeyExactly` | tools/esp32dash/src/agent.rs:735-748 | events identified in the same way have one key if and only if they name the same session |
| `SessionMeaning.TrimCuts` | tools/esp32dash/src/agent.rs:736-740 | trimming takes white space off both ends and nothing else |
| `SessionTable.AppliedIsSound` | tools/esp32dash/src/agent.rs:588-657 | applying an event keeps stored keys equal to map keys and process ids unique |
| `SessionTable.AppliedIsLocal` | tools/esp32dash/src/agent.rs:588-657 | an event changes its own session, retires the other sessions of its process, and touches nothing else |
| `SessionMeaning.EventLeaves` | tools/esp32dash/src/agent.rs:612-656 | the process, directory and time an event leaves in its session |
| `SessionMeaning.OneSessionPerProcess` | tools/esp32dash/src/agent.rs:596-610 | afterwards no other session has the process of the event |
| `SessionMeaning.EventTexts` | tools/esp32dash/src/agent.rs:620-641 | the texts are the normalizer's but for a missing session id and the mood at the end; when the turn clock stops, starts anew and keeps running |
| `SessionTable.FindBest` | tools/esp32dash/src/agent.rs:722-730 | the search in key order finds the best rank, the last of equal ones |
| `SessionTable.SelectDisplay` | tools/esp32dash/src/agent.rs:718-733 | the snapshot returned is that of the uniquely best session |
| `SessionTable.SelectedIsMostUrgent` | tools/esp32dash/src/agent.rs:718-733 | no session ranks above the one shown |
| `SessionTable.WaitingIsShown` | tools/esp32dash/src/model.rs:104-133 | a session that waits for input is never hidden behind one that does not, an ended one is shown only when all have ended, and of equal status an unread one comes first |
| `SessionMeaning.MostUrgentStatusIsShown` | tools/esp32dash/src/agent.rs:718-733 | the status shown is at least as urgent as every session's, in the order of the six status texts |
| `SessionMeaning.FreshestOfStatusIsShown` | tools/esp32dash/src/agent.rs:722-729 | of one status the unread, then the latest, then the greatest key is shown |
| `SessionMeaning.NothingIsShown` | tools/esp32dash/src/agent.rs:732-732 | an empty table shows that there is no data |
| `SessionTable.RemoveLowest` | tools/esp32dash/src/agent.rs:698-714 | removing the low end of the sorted keys leaves the top of the ranking |
| `SessionTable.PruneExcess` | tools/esp32dash/src/agent.rs:692-716 | excess pruning leaves exactly the top sessions and reports a change exactly when one was removed |
| `SessionTable.PruneIsFair` | tools/esp32dash/src/agent.rs:698-714 | a dropped session was no more urgent, and at equal urgency no more recent, than any kept one |
| `SessionMeaning.DroppedIsLeastUrgent` | tools/esp32dash/src/agent.rs:697-713 | the same told on status texts and times |
| `SessionTable.ReconciledIsSound` | tools/esp32dash/src/agent.rs:659-690 | reconciling keeps the table sound and leaves at most 16 sessions |
| `SessionTable.ReconcileMeaning` | tools/esp32dash/src/agent.rs:659-690 | after a reconcile active entries are alive and untouched, dead ones are marked idle, and a session leaves only for its age or because the table is full |
| `SessionMeaning.ActiveMeansLiving` | tools/esp32dash/src/agent.rs:658-675 | a session still shown as active after a reconcile is unchanged, and its process is alive or it was heard from in the last 900 seconds |
| `SessionMeaning.LivingStays` | tools/esp32dash/src/agent.rs:750-761 | a living active session is neither changed nor dropped unless the table is full |
| `SessionMeaning.DeadIsIdle` | tools/esp32dash/src/agent.rs:772-786 | a dead or silent one comes out idle, with no process, nothing unread and the right explanation |
| `SessionMeaning.InactiveAges` | tools/esp32dash/src/agent.rs:763-770 | one without an active status is never rewritten, and goes after 300 or 1800 seconds and no sooner unless the table is full |
| `SessionMeaning.AtMostSixteen` | tools/esp32dash/src/agent.rs:692-716 | at most sixteen sessions are tracked after a reconcile |
| `SessionTable.ReconcileIdempotent` | tools/esp32dash/src/agent.rs:659-690 | a second reconcile at the same moment finds nothing to do |
| `SessionTable.RestartRestores` | tools/esp32dash/src/agent.rs:989-1023 | a restart restores the saved table, moods apart, if and only if it was not empty or nothing was ever published |
| `SessionMeaning.RestartResetsMoods` | tools/esp32dash/src/agent.rs:926-940 | a restart resets every mood and nothing else in the sessions it restores |
| `Ranking.SortedKeys` | tools/esp32dash/src/agent.rs:711 | sorting yields each key once, by rank and then by key |
| `SessionMeaning.DictionaryOrder` | tools/esp32dash/src/agent.rs:722-729 | the order of keys is the dictionary order: the first difference decides |
| `Ranking.TopUnique` | tools/esp32dash/src/agent.rs:711-714 | only one set of sessions can be what a pruning to a size keeps |
| `AgentState.Agent.Finalize` | tools/esp32dash/src/agent.rs:550-571 | selection, queue answer and publication together, in place |
| `AgentState.Agent.Supersede` | tools/esp32dash/src/agent.rs:597-610 | the other sessions of the event process go, with what waits for their users |
| `AgentState.Agent.ApplyEvent` | tools/esp32dash/src/agent.rs:317-320 | the locked part of processing an event equals the abstract step |
| `AgentState.Agent.MarkLost` | tools/esp32dash/src/agent.rs:661-669 | the first loop marks exactly the dead sessions and returns their ids |
| `AgentState.Agent.RemoveAged` | tools/esp32dash/src/agent.rs:675-686 | the aged sessions go, with what waits for their users |
| `AgentState.Agent.ReconcileTable` | tools/esp32dash/src/agent.rs:659-690 | the whole reconcile in place; it reports a change exactly when the table differs |
| `AgentState.Agent.ReconcileSessions` | tools/esp32dash/src/agent.rs:375-381 | reconcile and finalize equal the abstract step |
| `AgentState.ReconcileForgets` | tools/esp32dash/src/agent.rs:669-688 | exactly which interactions a reconcile forgets, told on the sessions' fields |
| `AgentState.EventForgets` | tools/esp32dash/src/agent.rs:597-610 | exactly which interactions an event forgets |
| `AgentState.Agent.SetMoods` | tools/esp32dash/src/agent.rs:468-484 | moods change in place and the display is chosen anew only if one did |
| `AgentState.MoodsChangeOnlyEmotions` | tools/esp32dash/src/agent.rs:468-484 | moods change the emotion of the sessions they name and nothing else |
| `AgentState.Agent.ClearForEvent` | tools/esp32dash/src/agent.rs:280-291 | the queue drops what the event resolves; a refresh follows exactly when something was dropped |
| `AgentState.TableStaysSound` | tools/esp32dash/src/agent.rs:588-716 | over every interleaving of locked sections the table stays sound, and every reconcile leaves at most 16 sessions |
| `AgentState.HeldIsFresh` | tools/esp32dash/src/agent.rs:550-571 | after every finalize the held snapshot looks exactly like a fresh selection over all sessions plus the current item of the queue |
| `AgentState.HeldAfterEach` | tools/esp32dash/src/agent.rs:550-575 | after which sections the held snapshot shows, field by field, the session selected then with the queue's answer, and after which nothing held changes |
| `AgentState.StreamIsRun` | tools/esp32dash/src/agent.rs:550-571 | the snapshots the agent holds and publishes are those of the stream fed with its selections |
| `AgentState.PublishedStreamIsSafe` | tools/esp32dash/src/agent.rs:559-568 | over every interleaving the stream published under the lock is numbered, without visible repetition, and its last 64 are remembered |
| `AgentState.QueueIsRun` | tools/esp32dash/src/agent.rs:280-360 | the queue inside the agent behaves as a queue of its own fed the run of operations |
| `AgentState.HeldNamesTheFreshest` | tools/esp32dash/src/agent.rs:555-556 | after every finalize, under a clock that never runs backwards, the held snapshot names the latest-submitted live approval of the whole run, else the latest live prompt, else nothing |
| `SerialWorker.Worker.PauseLoop` | tools/esp32dash/src/device.rs:289-327 | the pause loop keeps the port free until the deadline, extends or ends it, and declines requests |
| `SerialWorker.Worker.BackOff` | tools/esp32dash/src/device.rs:446-469 | after a failed connection: one command or the delay |
| `SerialWorker.Worker.ServeOne` | tools/esp32dash/src/device.rs:368-424 | one command over the open session: push, event, request, pause or hang-up |
| `SerialWorker.Worker.Session` | tools/esp32dash/src/device.rs:330-445 | greeting, then rounds of time sync, one command and one frame, until the line fails |
| `SerialWorker.Worker.WorkerLoop` | tools/esp32dash/src/device.rs:275-472 | the worker loop follows the step function over any script of outcomes to its end |
| `SerialWorker.DeviceIsUpToDate` | tools/esp32dash/src/device.rs:334-390 | over every run the snapshot kept is the one commanded last, and a session that takes commands has been sent exactly that one |
| `SerialWorker.RequestsAreAnswered` | tools/esp32dash/src/device.rs:287-469 | every request gets one reply and every pause one acknowledgement, in order; pauses are acknowledged only while the port is closed and snapshots sent only while it is open |
| `SerialWorker.ReplyIsHonest` | tools/esp32dash/src/device.rs:386-403 | a request succeeds exactly if the port was open and the line served it; a failure closes the port |
| `SerialWorker.PausesAreKept` | tools/esp32dash/src/device.rs:287-327 | under a clock that never runs backwards the port is opened only when the deadline in force is over |
| `SerialWorker.DeadlineCovers` | tools/esp32dash/src/device.rs:306-318 | the deadline in force covers every pause asked for since the last explicit resume |
| `SerialWorker.PausesUntilLatestAsked` | tools/esp32dash/src/device.rs:306-318 | over every run a pausing worker waits for exactly the latest time asked for since the last request that resumes, that request included |
| `SerialWorker.ResumeReopens` | tools/esp32dash/src/device.rs:285-318 | over every run, after an explicit resume the worker stops pausing at its next look at the clock and opens the port with the next connection |
| `SerialWorker.FirstGreeting` | tools/esp32dash/src/device.rs:280-336 | what the first connection sends |
| `PendingQueue.EventClearsOwnSessionOnly` | tools/esp32dash/src/pending.rs:161-197 | reads back from the definition: an event leaves entries of other sessions, and a notification or the wait event that queued a prompt leaves that prompt |
| `AgentState.DisplayHidesContent` | tools/esp32dash/src/pending.rs:35-68 | reads back from the definition: the device learns a kind and one of nine labels, whatever the texts, ids and unknown tool names |

## Left out

- LVGL widgets, presenters, fonts, animation tables and settings screens: user interface.
- Serial line driver, USB, I2C, SPI, Wi-Fi driver, HTTP and WebSocket clients: they appear only as events, outcomes and stores of an arbitrary environment.
- JSON text: frames and payloads are abstract, and host frames are texts without raw CR, LF or NUL.
- Base64: any encode/decode pair with `decode(encode(x)) == x` and the encoded lengths that section 4 of RFC 4648 gives.
- Clocks and sleeping: a number the environment supplies, non-decreasing where a result needs it. `process_exists` is a set of live process ids.
- The PNG reader, alpha check, mirroring and the C source writer of `tools/sprite_convert.py`, and its FNV hash.
- SpriteCodec.SpriteDecodeFrame: requires what the sheet generator guarantees, namely that the stream covers the rectangle and its indexes fit the palette; the C code checks neither. A frame is 64x64 optional RGB565 colours.
- LineProtocol: the overflow counter of the C assembler is unbounded here; a line of more than `SIZE_MAX` bytes is not modelled.
- Counters, time stamps and sizes of 32 and 64 bits are unbounded numbers; pixels, bytes and colours have their real width.
- Screenshot: the deadlines are an input that ends the stream; the RPC that starts a capture is taken as answered with the metadata.
- Renderer: effects and glyphs are arbitrary lists of pixel writes; the readiness and capacity checks of the snapshot renderer are not modelled.
- FramePool: teardown (the stop token and `screensaver_direct_deinit`) and several concurrent renderers; `s_framebuf` is the buffer the renderer holds.
- DmaPush: one call at a time; draw errors are possible but, as in the code, not reported.
- WifiRetry: the profiles and the candidate list stay as they are during a run, so profile changes and scans that rebuild the list start a new run. Disconnect reports arrive in order, and a got-IP event still queued when its connect is cancelled is not modelled. The boots are those where the scan for the list starts the driver, with the start reported before the first attempt, and those where it fails to. Started without credentials the manager makes no attempt, and that state is not modelled.
- WifiProfiles: failed or partial flash writes; `reconcile_connection_after_profile_change`.
- HookSettings: file reading, backups and atomic replacement, and the hook script. The JSON tree is edited as a value, not through references, so aliasing inside it is not modelled; a rejected installation leaves the tree to the caller, who discards it.
- PendingQueue: `clear_for_event` may return ids of entries that have expired but were not dropped yet; only the order and the contents are stated.
- ToolCoalescing: an ingest is one step here. The finer interleaving of its locked sections is modelled in `AgentState` for the sessions, the queue and the stream, not for the held event.
- SessionTable: the texts, status and flags an event gives a snapshot are an arbitrary function of the event and the snapshot before; sorting and map iteration are the order of ranks and keys.
- AgentState: mood scoring is an arbitrary map of new moods; heartbeats, the state file writes and the admin requests are not modelled. Nothing is claimed about interactions of sessions that excess pruning drops.
- SerialWorker: the status record shown to the admin, port discovery and frame contents. The time sync step is one outcome, whether or not a sync was due.
- Market data, weather and price scaling.
- CLI, launchd, configuration files and endpoint checks.
