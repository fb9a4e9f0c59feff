# Odomatic terminal: device selection and command session

This project models, in Dafny, the two pieces of sequential logic inside the
Odomatic terminal Android app, and proves properties of them.

**The device-selection screen** (`MainActivity`) keeps two parallel lists:
the Bluetooth device records (`discoveredDevices`) and the labels shown for
them.

- A scan clears both lists and refills them from the bonded devices. A
  bonded device is added when its name, upper-cased, contains "OBD" or
  "ELM", and its label gets " (Paired)" appended.
- Live-scan events then append devices that pass the same filter and are
  not bonded; their label is the bare name.
- A null name is replaced by "Unknown (Paired)" or "Unknown". Neither
  placeholder passes the filter.
- The screen also tracks whether its broadcast receiver is registered.
- A click on a label hands the device at that position on by address. If
  the device is not bonded, a bond is requested first.

**The command screen** (`SendCommandActivity`) holds one RFCOMM connection
to an ELM327 adapter.

- A reader loop appends every chunk it reads to an accumulator (`msgTemp`).
  When a chunk holds the prompt `>`, the accumulator is published as the
  response (`receivedMessage`) and then reset.
- A command is written followed by a carriage return. The sender then waits
  until a response is published, and appends the response to the response
  pane with every carriage return turned into a line feed.
- A connect or read failure schedules one reconnect, 5000 ms later. The
  `isReconnecting` flag makes this single-flight.
- `closeConnection` releases the input stream, the output stream and the
  socket in three independent attempts.

Files:

- `java_text.dfy` (module `JavaText`): the `java.lang.String` behaviour the
  screens rely on, restated over `seq<char>`:
  - a null reference reads "null" in a concatenation;
  - ASCII `toUpperCase`;
  - `contains`;
  - `trim`;
  - `replaceAll("\\r", "\n")`.
- `device_filter.dfy` (module `DeviceFilter`): the name filter and its
  placeholders.
- `discovery.dfy` (module `Discovery`): class `DeviceList`. Its fields are
  the two lists, the receiver flag and the adapter's discovering flag. Each
  handler is a method proved to keep the lists parallel, with label i
  describing device i.
- `session_model.dfy` (module `SessionModel`): the command screen as a
  sequential state machine over a `Session` value. It has:
  - one step function per event: a read completing, a connect attempt
    ending, the UI thread running work posted to it with `runOnUiThread`,
    the reconnect task firing, a Send click, the waiting sender noticing the
    response, and teardown;
  - the UI thread's queue of posted work. While a send waits, the UI thread
    is blocked, so posted work, the reconnect task, clicks and teardown
    change nothing; only the reader and connect threads move;
  - the invariant every reachable session keeps;
  - the lemmas about framing, reconnection, sending and an example
    exchange.
- `command_session.dfy` (module `CommandScreen`): class `CommandSession`.
  Its fields are the fields of the activity, updated in place. Each method,
  including the reader `while` loop and the waiting loop of
  `sendOBDCommand`, is proved to produce exactly the state that the matching
  function of `SessionModel` computes. The methods that model a whole event
  (`ConnectFinished`, `RunPostedWork`, `ReconnectFired`, `ReadOnce`,
  `ReadLoop`, `SendOBDCommand`, `WriteCommand`, `AwaitResponse`,
  `ShowResponse`, `OnSendClicked`, `OnDestroy`) are also proved to keep the
  invariant. The methods that model only part of an event
  (`ConnectToDevice`, `ScheduleReconnection`, `CloseConnection`,
  `ConnectResult`, `ConnectFailed`, `RecordFailure`, `ConnectSucceeded`,
  `StoreConnection`, `Post`, `StartReading`) carry no invariant: the event
  that calls them does.

Behaviour is modelled as the code does it:

- The accumulator is never initialised, so the first response after
  connecting is preceded by "null". This is proved in
  `FirstExchangeShowsNullPrefix`.
- A send with no output stream shows "Not connected!" and still waits for a
  response. With no reader loop running, that wait never ends: the block
  that would start the reader is posted to the UI thread, which the wait
  blocks. This is proved in `SendWithoutStreamNeverReturns`.
- Live-scan additions are never de-duplicated.
- Teardown does not cancel a pending reconnect task. When that task fires,
  it reconnects, and once the UI thread runs the posted success block,
  `startReading` clears the stop flag again. This is proved in
  `ReconnectOutlivesTeardown`.

## Model

| member | source | states |
|---|---|---|
| JavaText.Upper | app/src/main/java/ca/mohawk/odomaticterminalapp/MainActivity.java:220 | upper-casing keeps the length and maps each character independently, changing only 'a'..'z' (by 32) |
| JavaText.UpperIgnoresCase | app/src/main/java/ca/mohawk/odomaticterminalapp/MainActivity.java:260 | two strings that agree up to ASCII case upper-case to the same string |
| JavaText.ContainedCharsOccur | app/src/main/java/ca/mohawk/odomaticterminalapp/MainActivity.java:220 | every character of a contained string occurs in the containing string |
| JavaText.Render | app/src/main/java/ca/mohawk/odomaticterminalapp/SendCommandActivity.java:162 | a null string reads "null" in a concatenation, any other string reads as itself |
| JavaText.Trim | app/src/main/java/ca/mohawk/odomaticterminalapp/SendCommandActivity.java:72 | the trimmed command is a slice of the input with only characters <= ' ' outside it; its first and last characters are not such characters; it is empty exactly when every input character is one |
| JavaText.LineFeeds | app/src/main/java/ca/mohawk/odomaticterminalapp/SendCommandActivity.java:217 | the rewrite keeps the length, turns each '\r' into '\n', keeps every other character, and leaves no '\r' |
| DeviceFilter.NameMatches | app/src/main/java/ca/mohawk/odomaticterminalapp/MainActivity.java:220 | the filter: the upper-cased name contains "OBD" or "ELM"; its meaning is stated by NameMatchesIgnoringCase |
| DeviceFilter.OccursIgnoringCaseIffUpper | app/src/main/java/ca/mohawk/odomaticterminalapp/MainActivity.java:220 | a marker occurs at a position of the upper-cased name exactly when it occurs there ignoring ASCII case |
| DeviceFilter.NameMatchesIgnoringCase | app/src/main/java/ca/mohawk/odomaticterminalapp/MainActivity.java:220 | the filter accepts a name if and only if "OBD" or "ELM" occurs in it in any mix of ASCII case |
| DeviceFilter.NameMatchesCaseInsensitive | app/src/main/java/ca/mohawk/odomaticterminalapp/MainActivity.java:260 | names that differ only in ASCII case are accepted or rejected together |
| DeviceFilter.NoMarkerLetterNoMatch | app/src/main/java/ca/mohawk/odomaticterminalapp/MainActivity.java:220 | a name with no 'B' and no 'L' in either case never passes the filter |
| DeviceFilter.PlaceholdersNeverMatch | app/src/main/java/ca/mohawk/odomaticterminalapp/MainActivity.java:216-220 | neither "Unknown (Paired)" nor "Unknown" passes the filter |
| DeviceFilter.NamelessNeverListed | app/src/main/java/ca/mohawk/odomaticterminalapp/MainActivity.java:255-260 | after placeholder substitution the filter accepts a device if and only if it has a name and that name passes |
| Discovery.BondedMatches | app/src/main/java/ca/mohawk/odomaticterminalapp/MainActivity.java:214-225 | the bonded devices the pass adds, in enumeration order: those whose name passes the filter; stated by BondedPass |
| Discovery.BondedLabels | app/src/main/java/ca/mohawk/odomaticterminalapp/MainActivity.java:214-225 | the labels the pass adds, one per added device; stated by BondedPass |
| Discovery.BondedPass | app/src/main/java/ca/mohawk/odomaticterminalapp/MainActivity.java:214-225 | the bonded pass yields one label per added device; label i is device i's name plus " (Paired)"; a bonded device is added if and only if it has a name that passes the filter |
| Discovery.AgreeAppend | app/src/main/java/ca/mohawk/odomaticterminalapp/MainActivity.java:264-266 | appending a device and a label describing it keeps the lists parallel |
| Discovery.AgreeAfterBondedPass | app/src/main/java/ca/mohawk/odomaticterminalapp/MainActivity.java:221-223 | appending the bonded pass's devices and labels keeps the lists parallel |
| Discovery.DeviceList.constructor | app/src/main/java/ca/mohawk/odomaticterminalapp/MainActivity.java:42-46 | both lists start empty and the receiver is not registered |
| Discovery.DeviceList.ListBondedDevices | app/src/main/java/ca/mohawk/odomaticterminalapp/MainActivity.java:206-226 | with the connect permission, the loop appends exactly the matching bonded devices and their labels in enumeration order; without it nothing changes; the lists stay parallel |
| Discovery.DeviceList.AddIfBondedMatch | app/src/main/java/ca/mohawk/odomaticterminalapp/MainActivity.java:215-224 | one device and its " (Paired)" label are appended together when the device is listed, nothing otherwise |
| Discovery.DeviceList.StartBluetoothDiscovery | app/src/main/java/ca/mohawk/odomaticterminalapp/MainActivity.java:175-201 | after a scan starts, the lists hold exactly the bonded pass's result; with the scan permission the receiver is registered and a discovery runs, without it both flags are unchanged |
| Discovery.DeviceList.OnReceive | app/src/main/java/ca/mohawk/odomaticterminalapp/MainActivity.java:233-271 | a found, readable-named, matching, not bonded device is appended with its bare name; every other event changes nothing; nothing is removed or de-duplicated |
| Discovery.DeviceList.StopDiscovery | app/src/main/java/ca/mohawk/odomaticterminalapp/MainActivity.java:281-304 | with the scan permission the receiver ends unregistered and no discovery runs, so a second call changes nothing; without it both flags are unchanged |
| Discovery.DeviceList.ChooseDevice | app/src/main/java/ca/mohawk/odomaticterminalapp/MainActivity.java:101-112 | the clicked label position indexes the device the label describes; its address is handed on, and a bond is requested exactly when the device reports at click time that it is not bonded |
| SessionModel.StatusTextNamesDevice | app/src/main/java/ca/mohawk/odomaticterminalapp/SendCommandActivity.java:130 | the failure text differs from every connected text, and the connected text is "Connected to: " followed by the device name ("null" for a null name) |
| SessionModel.Launch | app/src/main/java/ca/mohawk/odomaticterminalapp/SendCommandActivity.java:59-69 | without an address no session exists; otherwise the address is saved, one connect attempt to it runs, the accumulator is null and the invariant holds |
| SessionModel.ScheduleReconnection | app/src/main/java/ca/mohawk/odomaticterminalapp/SendCommandActivity.java:178-193 | afterwards a reconnect is in flight; a second request changes nothing; otherwise exactly one 5000 ms task is posted |
| SessionModel.ScheduleIsSingleFlight | app/src/main/java/ca/mohawk/odomaticterminalapp/SendCommandActivity.java:179-182 | scheduling twice is the same as scheduling once |
| SessionModel.ReconnectFired | app/src/main/java/ca/mohawk/odomaticterminalapp/SendCommandActivity.java:184-192 | the fired task is consumed, the connection is closed as closeConnection does, one connect attempt to the saved address starts and the flag is cleared, and nothing else changes; with no pending task nothing changes |
| SessionModel.ReconnectTargetsSavedAddress | app/src/main/java/ca/mohawk/odomaticterminalapp/SendCommandActivity.java:186-190 | in a reachable session the fired task releases every handle whose close does not throw, and leaves exactly one connect attempt, to the saved address, no pending task and the flag cleared |
| SessionModel.CloseConnection | app/src/main/java/ca/mohawk/odomaticterminalapp/SendCommandActivity.java:237-249 | each existing stream is closed unless its own close throws, whatever the others do; the socket is closed only when it reports connected; nothing else changes |
| SessionModel.ConnectFinished | app/src/main/java/ca/mohawk/odomaticterminalapp/SendCommandActivity.java:82-149 | the end of the oldest running connect attempt: it is removed and its outcome applied by ConnectResult |
| SessionModel.ConnectResult | app/src/main/java/ca/mohawk/odomaticterminalapp/SendCommandActivity.java:83-148 | no adapter or no device posts finish; no permission only shows a message; success stores the connection and posts the success block; an exception posts the failure status and schedules a reconnect |
| SessionModel.Established | app/src/main/java/ca/mohawk/odomaticterminalapp/SendCommandActivity.java:123-135 | the connected socket and both streams are stored and the block that sets the status and starts the reader is posted |
| SessionModel.FailedAttempt | app/src/main/java/ca/mohawk/odomaticterminalapp/SendCommandActivity.java:123-146 | what was assigned before the exception stays assigned (an unconnected socket, or a connected socket and possibly its output stream), and the failure status is posted |
| SessionModel.ConnectFinishedFraming | app/src/main/java/ca/mohawk/odomaticterminalapp/SendCommandActivity.java:82-149 | the end of a connect attempt leaves the saved address, the accumulator, the response slot, the wait, the reader count, the response pane and the written commands unchanged |
| SessionModel.ConnectResultFraming | app/src/main/java/ca/mohawk/odomaticterminalapp/SendCommandActivity.java:83-148 | every connect outcome leaves the saved address, the accumulator, the response slot, the wait, the reader count, the response pane and the written commands unchanged |
| SessionModel.ConnectFailureSchedulesOnce | app/src/main/java/ca/mohawk/odomaticterminalapp/SendCommandActivity.java:139-148 | a failed connect attempt posts the failure status to the UI thread and leaves exactly one pending 5000 ms reconnect task |
| SessionModel.RunPostedWork | app/src/main/java/ca/mohawk/odomaticterminalapp/SendCommandActivity.java:129-146 | the UI thread runs the oldest posted block: the success block sets the status to the device name and starts the reader, the failure block sets the failure status, finish marks the screen finished |
| SessionModel.RunPostedWorkFraming | app/src/main/java/ca/mohawk/odomaticterminalapp/SendCommandActivity.java:129-146 | running posted work removes exactly the oldest block and adds a reader loop exactly when that block is the success block; the accumulator, the response slot, the wait, the reconnect state and the connect attempts are unchanged; with nothing posted nothing changes |
| SessionModel.RunPostedWorkKeepsInv | app/src/main/java/ca/mohawk/odomaticterminalapp/SendCommandActivity.java:129-146 | running posted work keeps the session invariant and the saved address |
| SessionModel.StepOutsideWait | app/src/main/java/ca/mohawk/odomaticterminalapp/SendCommandActivity.java:184-235 | outside a wait, teardown, the reconnect task and posted work do exactly what their handlers do |
| SessionModel.StuckWaitStep | app/src/main/java/ca/mohawk/odomaticterminalapp/SendCommandActivity.java:210-215 | with no reader loop and an empty response slot, no single event ends the wait, starts a reader, fills the slot, or changes the response pane or the written commands |
| SessionModel.StuckWaitNeverEnds | app/src/main/java/ca/mohawk/odomaticterminalapp/SendCommandActivity.java:210-215 | with no reader loop and an empty response slot, no sequence of events ends the wait, fills the slot, or changes the response pane or the written commands |
| SessionModel.SendWithoutStream | app/src/main/java/ca/mohawk/odomaticterminalapp/SendCommandActivity.java:195-210 | a send with no output stream and no reader says "not connected", writes nothing, empties the slot and starts a wait with no reader loop |
| SessionModel.SendWithoutStreamNeverReturns | app/src/main/java/ca/mohawk/odomaticterminalapp/SendCommandActivity.java:195-215 | a send with no output stream and no reader never returns, whatever happens afterwards, and changes neither the response pane nor the written commands |
| SessionModel.SendBeforeConnectNeverReturns | app/src/main/java/ca/mohawk/odomaticterminalapp/SendCommandActivity.java:59-69 | a send made right after launch, before any connect attempt has completed, says "not connected", writes nothing and never returns |
| SessionModel.ReaderStep | app/src/main/java/ca/mohawk/odomaticterminalapp/SendCommandActivity.java:158-172 | one turn of the reader loop: a stop request ends it, a null stream skips the read, a non-empty chunk is accumulated and published at the prompt, a read error (or a read on a closed stream) schedules a reconnect and ends it; stated by ReaderStepFraming, ReadErrorSchedulesOnce and ClosedStreamsThrow |
| SessionModel.ReaderStepFraming | app/src/main/java/ca/mohawk/odomaticterminalapp/SendCommandActivity.java:158-172 | an ended loop takes no turn; a stop request ends the loop and changes nothing else; a chunk with the prompt publishes the accumulator plus that chunk and resets the accumulator; a chunk without it is appended; an empty read, a null stream or a stopped loop changes neither; the accumulator never gains the prompt |
| SessionModel.ReadErrorSchedulesOnce | app/src/main/java/ca/mohawk/odomaticterminalapp/SendCommandActivity.java:168-172 | a read error ends the loop and leaves exactly one pending reconnect task, with the accumulator and response unchanged |
| SessionModel.AccumulateOne | app/src/main/java/ca/mohawk/odomaticterminalapp/SendCommandActivity.java:160-162 | a non-empty chunk without the prompt grows the accumulator by that chunk and the loop keeps running |
| SessionModel.PublishOne | app/src/main/java/ca/mohawk/odomaticterminalapp/SendCommandActivity.java:163-166 | a chunk with the prompt publishes the accumulator followed by the chunk and empties the accumulator |
| SessionModel.ResponseIsAccumulatedText | app/src/main/java/ca/mohawk/odomaticterminalapp/SendCommandActivity.java:158-166 | over a run of chunks ending with the prompt, the published response is the old accumulator followed by all the chunks, and the accumulator ends empty |
| SessionModel.ReaderRunIdle | app/src/main/java/ca/mohawk/odomaticterminalapp/SendCommandActivity.java:171-173 | once the reader loop has ended, further turns change nothing |
| SessionModel.ReaderRunKeepsInv | app/src/main/java/ca/mohawk/odomaticterminalapp/SendCommandActivity.java:158-173 | any run of reader turns keeps the session invariant and the saved address |
| SessionModel.SendCommand | app/src/main/java/ca/mohawk/odomaticterminalapp/SendCommandActivity.java:195-209 | the first half of sendOBDCommand: the slot is cleared, the framed command written when there is an open stream and the write succeeds, and the wait starts; stated by SendWritesFramedCommand and ClosedStreamsThrow |
| SessionModel.SendWritesFramedCommand | app/src/main/java/ca/mohawk/odomaticterminalapp/SendCommandActivity.java:195-209 | the slot is cleared; exactly the command followed by one carriage return is written when the write is reported successful, nothing otherwise; "not connected" exactly when there is no stream; the wait starts in every case |
| SessionModel.ClosedStreamsThrow | app/src/main/java/ca/mohawk/odomaticterminalapp/SendCommandActivity.java:158-209 | streams released by closeConnection stay assigned and throw when used: a read on the closed input stream ends the loop exactly as a read error does, and a write on the closed output stream writes nothing and reports a send error |
| SessionModel.SendClicked | app/src/main/java/ca/mohawk/odomaticterminalapp/SendCommandActivity.java:71-78 | the Send button: the input is trimmed and sent only when something is left; stated by ClickSendsTrimmedInput |
| SessionModel.ClickSendsTrimmedInput | app/src/main/java/ca/mohawk/odomaticterminalapp/SendCommandActivity.java:71-78 | input made only of characters <= ' ' sends nothing; any other input sends its trimmed, non-empty form |
| SessionModel.ShowResponse | app/src/main/java/ca/mohawk/odomaticterminalapp/SendCommandActivity.java:216-218 | the end of the wait: the response slot is rewritten with line feeds and appended to the pane after a line feed; stated by ShownResponseUsesLineFeeds |
| SessionModel.ShownResponseUsesLineFeeds | app/src/main/java/ca/mohawk/odomaticterminalapp/SendCommandActivity.java:216-218 | the pane gains a line feed and the response with carriage returns turned into line feeds, no carriage return is added, and the wait ends |
| SessionModel.Await | app/src/main/java/ca/mohawk/odomaticterminalapp/SendCommandActivity.java:210-215 | the wait: the reader takes turns until the response slot is non-empty, then the response is shown; with no time-out; stated by AwaitTakesTurn, AwaitEndsAtPrompt and AwaitShowsAccumulatedText |
| SessionModel.AwaitTakesTurn | app/src/main/java/ca/mohawk/odomaticterminalapp/SendCommandActivity.java:210-215 | while no response is ready, waiting lets the reader take its next turn |
| SessionModel.AwaitEndsAtPrompt | app/src/main/java/ca/mohawk/odomaticterminalapp/SendCommandActivity.java:210-218 | the turn that brings the prompt ends the wait and shows the accumulator plus that chunk with line feeds |
| SessionModel.AwaitFirstChunk | app/src/main/java/ca/mohawk/odomaticterminalapp/SendCommandActivity.java:160-162 | a first chunk without the prompt is accumulated and the wait continues |
| SessionModel.AwaitShowsAccumulatedText | app/src/main/java/ca/mohawk/odomaticterminalapp/SendCommandActivity.java:210-218 | a waiting send ends exactly at the prompt and shows the accumulated chunks with line feeds after a line feed; later turns are not taken |
| SessionModel.ConnectFinishedKeepsInv | app/src/main/java/ca/mohawk/odomaticterminalapp/SendCommandActivity.java:123-148 | every connect outcome keeps the session invariant and the saved address |
| SessionModel.ConnectResultKeepsInv | app/src/main/java/ca/mohawk/odomaticterminalapp/SendCommandActivity.java:83-148 | an outcome applied while nothing else runs or is pending keeps the session invariant |
| SessionModel.ReconnectFiredKeepsInv | app/src/main/java/ca/mohawk/odomaticterminalapp/SendCommandActivity.java:186-190 | the reconnect task keeps the session invariant and the saved address |
| SessionModel.ReaderStepKeepsInv | app/src/main/java/ca/mohawk/odomaticterminalapp/SendCommandActivity.java:158-172 | a reader turn keeps the session invariant and the saved address |
| SessionModel.SendCommandKeepsInv | app/src/main/java/ca/mohawk/odomaticterminalapp/SendCommandActivity.java:195-209 | starting a send keeps the session invariant and the saved address |
| SessionModel.SendClickKeepsInv | app/src/main/java/ca/mohawk/odomaticterminalapp/SendCommandActivity.java:71-78 | a Send click keeps the session invariant and the saved address |
| SessionModel.AwaitKeepsInv | app/src/main/java/ca/mohawk/odomaticterminalapp/SendCommandActivity.java:210-218 | the wait keeps the session invariant and the saved address |
| SessionModel.ShowResponseKeepsInv | app/src/main/java/ca/mohawk/odomaticterminalapp/SendCommandActivity.java:216-218 | showing the response keeps the session invariant and the saved address |
| SessionModel.Destroy | app/src/main/java/ca/mohawk/odomaticterminalapp/SendCommandActivity.java:228-235 | onDestroy: the stop flag is set and the connection closed; a pending reconnect task is not cancelled; stated by DestroyKeepsInv and ReconnectOutlivesTeardown |
| SessionModel.DestroyKeepsInv | app/src/main/java/ca/mohawk/odomaticterminalapp/SendCommandActivity.java:228-235 | teardown keeps the session invariant and the saved address |
| SessionModel.Step | app/src/main/java/ca/mohawk/odomaticterminalapp/SendCommandActivity.java:40-43 | one event; the UI-thread events (posted work, the reconnect task, a click, teardown) change nothing while a send waits; stated by StepKeepsInv, StepOutsideWait and StuckWaitStep |
| SessionModel.StepKeepsInv | app/src/main/java/ca/mohawk/odomaticterminalapp/SendCommandActivity.java:40-43 | every event keeps the session invariant and the saved address |
| SessionModel.RunKeepsInv | app/src/main/java/ca/mohawk/odomaticterminalapp/SendCommandActivity.java:40-43 | every sequence of events keeps the session invariant and the saved address |
| SessionModel.SessionSafety | app/src/main/java/ca/mohawk/odomaticterminalapp/SendCommandActivity.java:178-193 | from launch, whatever happens: at most one reader loop, at most one pending 5000 ms reconnect task, every connect attempt to the launch address, and the accumulator never holds the prompt |
| SessionModel.ReconnectOutlivesTeardown | app/src/main/java/ca/mohawk/odomaticterminalapp/SendCommandActivity.java:228-235 | a reconnect task pending at teardown still fires and reconnects; a successful connect posts the success block, and once the UI thread has run its posted work the reader runs again with the stop flag cleared and the status naming the device |
| SessionModel.TeardownKeepsReconnect | app/src/main/java/ca/mohawk/odomaticterminalapp/SendCommandActivity.java:184-190 | after teardown the pending task still fires: one connect attempt to the saved address runs, the stop flag stays set and no reader or success block exists |
| SessionModel.ConnectPostsStart | app/src/main/java/ca/mohawk/odomaticterminalapp/SendCommandActivity.java:123-135 | a successful connect stores the input stream and posts exactly one success block, without starting a reader itself |
| SessionModel.DrainStartsReader | app/src/main/java/ca/mohawk/odomaticterminalapp/SendCommandActivity.java:129-135 | when the only success block posted is the last queued work, running everything posted sets the status to the device name and starts one more reader loop with the stop flag cleared |
| SessionModel.ExampleReplyRewritten | app/src/main/java/ca/mohawk/odomaticterminalapp/SendCommandActivity.java:217-218 | the example reply after "null", rewritten and prefixed, reads "\nnullELM327 v1.5\n\n>" |
| SessionModel.ExampleConnects | app/src/main/java/ca/mohawk/odomaticterminalapp/SendCommandActivity.java:123-135 | right after a successful connect and the UI thread running the success block, the reader runs with a null accumulator, the status names the device and nothing has been written |
| SessionModel.ExampleCommandTrimmed | app/src/main/java/ca/mohawk/odomaticterminalapp/SendCommandActivity.java:72 | "ATZ" is unchanged by trimming |
| SessionModel.ExampleSends | app/src/main/java/ca/mohawk/odomaticterminalapp/SendCommandActivity.java:195-201 | clicking Send with "ATZ" writes exactly "ATZ\r" and starts the wait |
| SessionModel.ExampleReceives | app/src/main/java/ca/mohawk/odomaticterminalapp/SendCommandActivity.java:160-166 | the reply ending in the prompt is published as "null" followed by the reply |
| SessionModel.ExampleShows | app/src/main/java/ca/mohawk/odomaticterminalapp/SendCommandActivity.java:216-218 | the published reply is shown after a line feed with line feeds for carriage returns |
| SessionModel.FirstExchangeShowsNullPrefix | app/src/main/java/ca/mohawk/odomaticterminalapp/SendCommandActivity.java:160-218 | the first exchange after connecting writes "ATZ\r" and shows "\nnullELM327 v1.5\n\n>": the never-initialised accumulator reads "null" |
| CommandScreen.CommandSession.constructor | app/src/main/java/ca/mohawk/odomaticterminalapp/SendCommandActivity.java:59-69 | the fields are those of the launched session for the address, and the invariant holds |
| CommandScreen.CommandSession.ConnectToDevice | app/src/main/java/ca/mohawk/odomaticterminalapp/SendCommandActivity.java:81-82 | one more connect attempt to the address runs |
| CommandScreen.CommandSession.ScheduleReconnection | app/src/main/java/ca/mohawk/odomaticterminalapp/SendCommandActivity.java:178-193 | the new state is that of SessionModel.ScheduleReconnection |
| CommandScreen.CommandSession.CloseConnection | app/src/main/java/ca/mohawk/odomaticterminalapp/SendCommandActivity.java:237-249 | the new state is that of SessionModel.CloseConnection |
| CommandScreen.CommandSession.ConnectFinished | app/src/main/java/ca/mohawk/odomaticterminalapp/SendCommandActivity.java:82-149 | the oldest connect attempt ends as its outcome dictates, as SessionModel.ConnectFinished computes; the invariant is kept |
| CommandScreen.CommandSession.ConnectResult | app/src/main/java/ca/mohawk/odomaticterminalapp/SendCommandActivity.java:83-148 | the outcome is applied (finish posted, nothing, failure with reconnect, or success), as SessionModel.ConnectResult computes |
| CommandScreen.CommandSession.ConnectFailed | app/src/main/java/ca/mohawk/odomaticterminalapp/SendCommandActivity.java:139-148 | the failure path: what was assigned before the exception stays, the failure status is posted and a reconnect is scheduled |
| CommandScreen.CommandSession.RecordFailure | app/src/main/java/ca/mohawk/odomaticterminalapp/SendCommandActivity.java:124-146 | the socket and output stream assigned before the exception stay assigned and the failure status is posted, as SessionModel.FailedAttempt computes |
| CommandScreen.CommandSession.ConnectSucceeded | app/src/main/java/ca/mohawk/odomaticterminalapp/SendCommandActivity.java:123-135 | the socket and both streams are stored and the success block is posted, as SessionModel.Established computes |
| CommandScreen.CommandSession.StoreConnection | app/src/main/java/ca/mohawk/odomaticterminalapp/SendCommandActivity.java:124-127 | the connected socket and its streams are stored; nothing else changes |
| CommandScreen.CommandSession.Post | app/src/main/java/ca/mohawk/odomaticterminalapp/SendCommandActivity.java:129-135 | the work joins the end of the UI thread's queue; nothing else changes |
| CommandScreen.CommandSession.RunPostedWork | app/src/main/java/ca/mohawk/odomaticterminalapp/SendCommandActivity.java:129-146 | the UI thread runs the oldest posted block, as SessionModel.RunPostedWork computes; the invariant is kept |
| CommandScreen.CommandSession.StartReading | app/src/main/java/ca/mohawk/odomaticterminalapp/SendCommandActivity.java:153-155 | the stop flag is cleared and one more reader loop runs; nothing else changes |
| CommandScreen.CommandSession.ReconnectFired | app/src/main/java/ca/mohawk/odomaticterminalapp/SendCommandActivity.java:184-192 | the new state is that of SessionModel.ReconnectFired; the invariant is kept |
| CommandScreen.CommandSession.ReadOnce | app/src/main/java/ca/mohawk/odomaticterminalapp/SendCommandActivity.java:158-172 | one turn of the reader loop, as SessionModel.ReaderStep computes; the invariant is kept |
| CommandScreen.CommandSession.ReadLoop | app/src/main/java/ca/mohawk/odomaticterminalapp/SendCommandActivity.java:158-173 | the loop's final state is the reader run over its read outcomes; it stops early only once the loop has ended; the invariant is kept |
| CommandScreen.CommandSession.SendOBDCommand | app/src/main/java/ca/mohawk/odomaticterminalapp/SendCommandActivity.java:195-218 | the notice is the one for the write, and the final state is the send followed by the wait over the reader's turns; the invariant is kept |
| CommandScreen.CommandSession.WriteCommand | app/src/main/java/ca/mohawk/odomaticterminalapp/SendCommandActivity.java:196-209 | clears the slot, writes the framed command when possible and starts the wait, as SessionModel.SendCommand computes |
| CommandScreen.CommandSession.AwaitResponse | app/src/main/java/ca/mohawk/odomaticterminalapp/SendCommandActivity.java:210-218 | the waiting loop lets the reader take turns until a response is ready, then shows it, as SessionModel.Await computes |
| CommandScreen.CommandSession.ShowResponse | app/src/main/java/ca/mohawk/odomaticterminalapp/SendCommandActivity.java:216-218 | the new state is that of SessionModel.ShowResponse |
| CommandScreen.CommandSession.OnSendClicked | app/src/main/java/ca/mohawk/odomaticterminalapp/SendCommandActivity.java:71-78 | nothing is sent exactly when the trimmed input is empty; otherwise the trimmed command is sent and awaited |
| CommandScreen.CommandSession.OnDestroy | app/src/main/java/ca/mohawk/odomaticterminalapp/SendCommandActivity.java:228-235 | the stop flag is set and the connection closed, as SessionModel.Destroy computes; the invariant is kept |

## Left out

- Android plumbing is not modelled. This covers layouts, `Toast`, intents and extras, the activity-result launcher, the enable-Bluetooth prompt in `MainActivity.onCreate`, `ScrollView` scrolling and clearing the command field after a click. Permission checks and requests appear only as boolean inputs (`connectAllowed`, `scanAllowed`, `nameReadable`, the `NoPermission` outcome).
- Bluetooth I/O is modelled only by its outcomes:
  - adapter lookup, `getRemoteDevice`, RFCOMM socket creation with the Serial Port Profile UUID, `connect` and getting the streams are each a `ConnectOutcome`;
  - a read is a `ReadOutcome` whose bytes are already decoded text;
  - a write is a success or failure flag;
  - each close is a failure flag;
  - a stream released by `closeConnection` stays assigned, and a read or
    write on it throws `IOException`, as Bluetooth socket streams do.
- `createBond` appears only as the `requestBond` result of `ChooseDevice`. Its effect on the bond state is not modelled.
- Threads, the `Handler` timer, `runOnUiThread` and `Thread.interrupt` are replaced by atomic events taken one at a time. The data races on `msgTemp` and `receivedMessage` are not modelled, and neither is the check-then-set on the volatile `isReconnecting`. A read still blocked at teardown is likewise outside the model.
- The text of toast messages is not modelled. `SendNotice` records only which message `sendOBDCommand` shows.
- Decoding bytes with the platform charset and locale-sensitive upper-casing are left out. Chunks are strings, and upper-casing changes only ASCII letters.
- The status line's initial layout text is not part of this model. It is taken as empty (`Initial`).
- The adapter-null guard of `stopDiscovery` is left out. `DeviceList` exists only once an adapter was found, since `onCreate` finishes the screen otherwise.
- CommandScreen.CommandSession.AwaitResponse: the busy-wait (100 ms sleeps) is modelled as a loop that runs over a given finite sequence of reader turns. When the turns run out before a response is ready, the method returns with the wait still pending. The source's unbounded blocking, with no time-out, is a liveness matter and is not stated.
- The UI thread is blocked while a send waits, so a Send click, posted work, the reconnect task and teardown are held rather than queued: in `Step` they change nothing then, and `OnSendClicked` requires that no send is waiting. Their delivery after the wait is not modelled, as the wait ends only through a reader loop already running. During the wait only the reader and connect threads take steps, each as one atomic event.
- The reconnect task runs `closeConnection`, `connectToDevice` and the flag reset on a thread of its own. The model takes these as one atomic event on the UI thread's timer, so a connect attempt that fails before the flag is reset is not modelled.
