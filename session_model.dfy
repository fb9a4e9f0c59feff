/** The command screen's session as a sequential state machine.

    The screen keeps one Bluetooth connection (socket plus input and output
    streams), a reader loop that gathers incoming text into an accumulator and
    publishes it once the ELM327 prompt '>' arrives, a single-flight reconnect
    supervisor driven by a 5000 ms delayed task, and a send path that writes a
    command terminated by a carriage return and then waits for the published
    response. Threads, the delayed-task handler and the UI thread are replaced
    by atomic events: a read completing, a connect attempt completing, the UI
    thread running work the connect thread posted to it, the delayed task
    firing, a click on Send, the waiting sender noticing a response, and
    teardown. The wait of a send runs on the UI thread, so while it lasts only
    the reader and connect threads make progress. */
module SessionModel {
  import opened JavaText

  /** The ELM327 prompt that ends every response. */
  const Prompt: char := '>'
  /** Appended to every command before it is written. */
  const CommandTerminator: string := "\r"
  /** The delay of the reconnect task, in milliseconds. */
  const ReconnectDelayMs: nat := 5000
  /** Status line texts. */
  const ConnectionFailedText: string := "Connection failed"
  const ConnectedPrefix: string := "Connected to: "

  /** What the status line shows: the text it was laid out with, the
      failure message, or the name of the connected device. */
  datatype StatusLine = Initial | ConnectionFailed | ConnectedTo(deviceName: Option<string>)

  /** The text of the status line. The layout's own initial text is not part
      of this model and is taken as empty. A null device name reads
      "null". */
  function StatusText(st: StatusLine): string
  {
    match st
    case Initial => ""
    case ConnectionFailed => ConnectionFailedText
    case ConnectedTo(name) => ConnectedPrefix + Render(name)
  }

  /** The status line tells a failure from a connection, and after a
      connection it names the device, "null" when the name is null. */
  lemma StatusTextNamesDevice(name: Option<string>)
    ensures StatusText(ConnectionFailed) != StatusText(ConnectedTo(name))
    ensures StatusText(ConnectedTo(name))[..|ConnectedPrefix|] == ConnectedPrefix
    ensures StatusText(ConnectedTo(name))[|ConnectedPrefix|..] == Render(name)
  {
    var connected := StatusText(ConnectedTo(name));
    assert ConnectionFailedText[7] == 'i' && connected[7] == 'e';
  }

  /** An input or output stream, open until closed. */
  datatype Stream = Stream(open: bool)
  /** The RFCOMM socket and whether it reports itself connected. */
  datatype Socket = Socket(connected: bool)

  /** What one `read` on the input stream does: return some bytes, decoded as
      text (the empty text stands for a return value of zero or less), or
      throw an IOException. */
  datatype ReadOutcome = Read(text: string) | ReadError

  /** How a connect attempt ends: no adapter (the screen finishes), the
      connect permission missing (only a message), the device not found (the
      screen finishes), socket creation failing, `connect` failing on the
      created socket, obtaining a stream failing on the connected socket
      (`outputOpened` says that the output stream had already been obtained),
      or success with the device's (possibly null) name. */
  datatype ConnectOutcome =
    | NoAdapter
    | NoPermission
    | DeviceNotFound
    | SocketError
    | ConnectError
    | StreamError(outputOpened: bool)
    | Connected(deviceName: Option<string>)

  /** Which of the three releases of `closeConnection` throws. */
  datatype CloseFaults = CloseFaults(input: bool, output: bool, socket: bool)

  /** The message `sendOBDCommand` reports about its write. */
  datatype SendNotice = Written | SendError | NotConnected

  /** Work the connect thread posts to the UI thread with `runOnUiThread`:
      the success block (status line and `startReading`), the failure
      status, and `finish`. */
  datatype UiWork = ShowConnected(name: Option<string>) | ShowFailure | Finish

  /** The number of posted success blocks, each of which starts a reader
      loop when it runs. */
  function StartsPosted(q: seq<UiWork>): nat
  {
    if q == [] then 0
    else StartsPosted(q[..|q| - 1]) + if q[|q| - 1].ShowConnected? then 1 else 0
  }

  lemma StartsPostedAppend(q: seq<UiWork>, w: UiWork)
    ensures StartsPosted(q + [w]) == StartsPosted(q) + if w.ShowConnected? then 1 else 0
  {
    assert (q + [w])[..|q|] == q;
  }

  lemma {:induction false} StartsPostedPop(q: seq<UiWork>)
    requires q != []
    ensures StartsPosted(q) == StartsPosted(q[1..]) + if q[0].ShowConnected? then 1 else 0
  {
    if |q| > 1 {
      var init := q[..|q| - 1];
      StartsPostedPop(init);
      assert init[1..] == q[1..][..|q| - 2];
    }
  }

  /** The fields of the command screen. `msgTemp` and `receivedMessage` start
      out null. `readers` counts running reader loops, `connecting` holds the
      address of every connect attempt still running, `uiPending` the work
      posted to the UI thread and not yet run, `pendingReconnects` the
      delay of every posted reconnect task that has not fired, `written` the
      texts written to the output stream, `response` the response pane,
      `awaiting` whether a send is waiting for a response, and `finished`
      whether the screen asked to close itself. */
  datatype Session = Session(
    deviceAddr: string,
    socket: Option<Socket>,
    outStream: Option<Stream>,
    inStream: Option<Stream>,
    msgTemp: Option<string>,
    receivedMessage: Option<string>,
    stopReading: bool,
    readers: nat,
    isReconnecting: bool,
    pendingReconnects: seq<nat>,
    connecting: seq<string>,
    uiPending: seq<UiWork>,
    written: seq<string>,
    response: string,
    status: StatusLine,
    awaiting: bool,
    finished: bool)

  /** The invariant of every reachable session:
      - the accumulator never holds the prompt;
      - at most one of "a reader loop runs", "a connect attempt runs", "a
        success block is posted", "a reconnect task is pending" holds at
        any time;
      - the reconnect flag is set exactly while a reconnect task is pending,
        and every pending task has the 5000 ms delay;
      - every connect attempt targets the screen's device address;
      - a waiting send has a non-null response slot to poll. */
  predicate Inv(s: Session)
  {
    && Prompt !in Render(s.msgTemp)
    && s.readers + |s.connecting| + StartsPosted(s.uiPending) + |s.pendingReconnects| <= 1
    && (s.isReconnecting <==> s.pendingReconnects != [])
    && (forall d :: d in s.pendingReconnects ==> d == ReconnectDelayMs)
    && (forall a :: a in s.connecting ==> a == s.deviceAddr)
    && (s.awaiting ==> s.receivedMessage.Some?)
  }

  // ---------------------------------------------------------------------------
  // onCreate

  /** `onCreate`: without a device address the screen finishes and no session
      exists; otherwise the address is saved and one connect attempt starts. */
  function Launch(deviceAddress: Option<string>): (s: Option<Session>)
    ensures deviceAddress.None? <==> s.None?
    ensures s.Some? ==> Inv(s.value) && s.value.deviceAddr == deviceAddress.value
                        && s.value.connecting == [deviceAddress.value]
                        && s.value.msgTemp.None? && s.value.readers == 0 && s.value.uiPending == []
  {
    match deviceAddress
    case None => None
    case Some(a) =>
      Some(Session(a, None, None, None, None, None, false, 0, false, [], [a], [], [], "", Initial, false, false))
  }

  // ---------------------------------------------------------------------------
  // Reconnect supervisor

  /** `scheduleReconnection`: a no-op while a reconnect is in flight;
      otherwise the flag is set and one delayed task is posted. */
  function ScheduleReconnection(s: Session): (t: Session)
    ensures t.isReconnecting
    ensures s.isReconnecting ==> t == s
    ensures !s.isReconnecting ==> t.pendingReconnects == s.pendingReconnects + [ReconnectDelayMs]
  {
    if s.isReconnecting then s
    else s.(isReconnecting := true, pendingReconnects := s.pendingReconnects + [ReconnectDelayMs])
  }

  /** `connectToDevice`: starts a connect attempt on its own thread. */
  function ConnectToDevice(s: Session, address: string): Session
  {
    s.(connecting := s.connecting + [address])
  }

  /** The delayed reconnect task: close everything, start a connect attempt
      to the saved address, and clear the flag whatever the attempt will do. */
  function ReconnectFired(s: Session, faults: CloseFaults): (t: Session)
    ensures s.pendingReconnects != [] ==>
      t == CloseConnection(s, faults).(pendingReconnects := s.pendingReconnects[1..],
                                       connecting := s.connecting + [s.deviceAddr],
                                       isReconnecting := false)
    ensures s.pendingReconnects == [] ==> t == s
  {
    if s.pendingReconnects == [] then s
    else
      var closed := CloseConnection(s.(pendingReconnects := s.pendingReconnects[1..]), faults);
      ConnectToDevice(closed, closed.deviceAddr).(isReconnecting := false)
  }

  // ---------------------------------------------------------------------------
  // Connection lifecycle

  function CloseStream(h: Option<Stream>, fails: bool): Option<Stream>
  {
    if h.Some? && !fails then Some(Stream(false)) else h
  }

  function CloseSocket(h: Option<Socket>, fails: bool): Option<Socket>
  {
    if h.Some? && h.value.connected && !fails then Some(Socket(false)) else h
  }

  /** `closeConnection`: the input stream, the output stream and the socket
      are released in three independent attempts. Each handle that exists is
      released unless its own close throws, whatever the other two did; the
      socket is closed only when it reports connected; no field is cleared. */
  function CloseConnection(s: Session, faults: CloseFaults): (t: Session)
    ensures s.inStream.Some? && !faults.input ==> t.inStream == Some(Stream(false))
    ensures s.outStream.Some? && !faults.output ==> t.outStream == Some(Stream(false))
    ensures s.socket == Some(Socket(true)) && !faults.socket ==> t.socket == Some(Socket(false))
    ensures s.inStream.None? || faults.input ==> t.inStream == s.inStream
    ensures s.outStream.None? || faults.output ==> t.outStream == s.outStream
    ensures s.socket != Some(Socket(true)) || faults.socket ==> t.socket == s.socket
    ensures t == s.(inStream := t.inStream, outStream := t.outStream, socket := t.socket)
  {
    s.(inStream := CloseStream(s.inStream, faults.input),
       outStream := CloseStream(s.outStream, faults.output),
       socket := CloseSocket(s.socket, faults.socket))
  }

  /** `startReading`: clears the stop flag and starts one more reader loop. */
  function StartReading(s: Session): Session
  {
    s.(stopReading := false, readers := s.readers + 1)
  }

  /** The end of a connect attempt (the oldest one still running). */
  function ConnectFinished(s: Session, outcome: ConnectOutcome): Session
  {
    if s.connecting == [] then s
    else ConnectResult(s.(connecting := s.connecting[1..]), outcome)
  }

  /** What the connect thread does once its attempt has an outcome: without
      an adapter or a device it posts `finish`; without the permission it
      only shows a message; otherwise it stores what it obtained and posts
      the success or failure block, and on failure it schedules a reconnect
      itself. */
  function ConnectResult(s: Session, outcome: ConnectOutcome): Session
  {
    match outcome
    case NoAdapter => Post(s, Finish)
    case NoPermission => s
    case DeviceNotFound => Post(s, Finish)
    case Connected(name) => Established(s, name)
    case _ => ScheduleReconnection(FailedAttempt(s, outcome))
  }

  /** `runOnUiThread` from a background thread: the work joins the UI
      thread's queue. */
  function Post(s: Session, w: UiWork): Session
  {
    s.(uiPending := s.uiPending + [w])
  }

  /** The success path on the connect thread: the connected socket and both
      streams are stored, and the block that sets the status and starts the
      reader is posted. */
  function Established(s: Session, name: Option<string>): Session
  {
    Post(s.(socket := Some(Socket(true)), outStream := Some(Stream(true)), inStream := Some(Stream(true))),
         ShowConnected(name))
  }

  /** The failure path, up to scheduling the reconnect: what the connect
      thread had assigned before the exception stays assigned (a created but
      unconnected socket, or a connected socket and possibly its output
      stream), and the failure status is posted. */
  function FailedAttempt(s: Session, outcome: ConnectOutcome): Session
  {
    match outcome
    case ConnectError => Post(s.(socket := Some(Socket(false))), ShowFailure)
    case StreamError(outputOpened) =>
      Post(s.(socket := Some(Socket(true)),
              outStream := if outputOpened then Some(Stream(true)) else s.outStream),
           ShowFailure)
    case _ => Post(s, ShowFailure)
  }

  /** The UI thread runs the oldest posted work: the success block sets the
      status and calls `startReading`, the failure block sets the status,
      and `finish` marks the screen finished. */
  function RunPostedWork(s: Session): Session
  {
    if s.uiPending == [] then s
    else
      var rest := s.(uiPending := s.uiPending[1..]);
      match s.uiPending[0]
      case ShowConnected(name) => StartReading(rest.(status := ConnectedTo(name)))
      case ShowFailure => rest.(status := ConnectionFailed)
      case Finish => rest.(finished := true)
  }

  /** The UI thread runs everything posted to it, in order. */
  function RunAllPosted(s: Session): Session
    decreases |s.uiPending|
  {
    if s.uiPending == [] then s else RunAllPosted(RunPostedWork(s))
  }

  // ---------------------------------------------------------------------------
  // Reader loop

  /** A reader loop is between reads and will read from an open stream. */
  predicate ReaderActive(s: Session)
  {
    s.readers > 0 && !s.stopReading && s.inStream == Some(Stream(true))
  }

  /** One turn of a reader loop. A stop request ends the loop. With no input
      stream nothing happens. A non-empty chunk is appended to the
      accumulator (a null accumulator reads as "null"); when the chunk holds
      the prompt, the whole accumulator is published as the response and the
      accumulator restarts empty. A read error schedules a reconnect and ends
      the loop. A read on a closed stream throws, like any read error. */
  function ReaderStep(s: Session, outcome: ReadOutcome): Session
  {
    if s.readers == 0 then s
    else if s.stopReading then s.(readers := s.readers - 1)
    else if s.inStream.None? then s
    else
      match if s.inStream.value.open then outcome else ReadError
      case ReadError => ScheduleReconnection(s.(readers := s.readers - 1))
      case Read(text) =>
        if text == "" then s
        else
          var acc := Render(s.msgTemp) + text;
          if Prompt in text then s.(receivedMessage := Some(acc), msgTemp := Some(""))
          else s.(msgTemp := Some(acc))
  }

  /** The framing done by one turn: nothing changes in the accumulator or
      the response slot unless a running reader reads a non-empty chunk; a
      chunk with the prompt publishes the accumulator followed by the chunk
      and resets the accumulator; a chunk without it is appended to the
      accumulator. The accumulator never comes to hold the prompt. */
  lemma ReaderStepFraming(s: Session, outcome: ReadOutcome)
    ensures var t := ReaderStep(s, outcome);
      && (!ReaderActive(s) || outcome == Read("") ==>
            t.msgTemp == s.msgTemp && t.receivedMessage == s.receivedMessage)
      && (ReaderActive(s) && outcome.Read? && Prompt in outcome.text ==>
            t.receivedMessage == Some(Render(s.msgTemp) + outcome.text) && t.msgTemp == Some(""))
      && (ReaderActive(s) && outcome.Read? && Prompt !in outcome.text && outcome.text != "" ==>
            t.receivedMessage == s.receivedMessage && t.msgTemp == Some(Render(s.msgTemp) + outcome.text))
      && (Prompt !in Render(s.msgTemp) ==> Prompt !in Render(t.msgTemp))
      && (s.readers == 0 ==> t == s)
      && (s.readers > 0 && s.stopReading ==> t == s.(readers := s.readers - 1))
  {
    var t := ReaderStep(s, outcome);
    if ReaderActive(s) && outcome.Read? && outcome.text != "" && Prompt !in outcome.text && Prompt !in Render(s.msgTemp) {
      assert Render(t.msgTemp) == Render(s.msgTemp) + outcome.text;
    }
  }

  /** Consecutive turns of the reader loop with nothing else happening. */
  function ReaderRun(s: Session, outcomes: seq<ReadOutcome>): Session
    decreases |outcomes|
  {
    if outcomes == [] then s else ReaderRun(ReaderStep(s, outcomes[0]), outcomes[1..])
  }

  // ---------------------------------------------------------------------------
  // Command exchange

  /** The text written for a command: the command and a carriage return. */
  function Frame(command: string): string
  {
    command + CommandTerminator
  }

  /** `sendOBDCommand` up to its wait: the response slot is cleared and the
      framed command is written when there is an output stream and the write
      does not throw (a write on a closed stream always throws). The wait
      starts in every case, including when there is no stream. */
  function SendCommand(s: Session, command: string, writeFails: bool): Session
  {
    var cleared := s.(receivedMessage := Some(""), awaiting := true);
    if s.outStream == Some(Stream(true)) && !writeFails then cleared.(written := s.written + [Frame(command)])
    else cleared
  }

  /** The message `sendOBDCommand` shows about its write. */
  function SendNoticeOf(s: Session, writeFails: bool): SendNotice
  {
    if s.outStream.None? then NotConnected
    else if writeFails || !s.outStream.value.open then SendError
    else Written
  }

  /** The end of the wait in `sendOBDCommand`: once the response slot is
      non-empty, carriage returns in it become line feeds and it is appended
      to the response pane after a line feed. */
  function ShowResponse(s: Session): Session
  {
    if !s.awaiting || !ResponseReady(s) then s
    else
      var shown := LineFeeds(s.receivedMessage.value);
      s.(receivedMessage := Some(shown), response := s.response + "\n" + shown, awaiting := false)
  }

  /** The response slot holds a response. */
  predicate ResponseReady(s: Session)
  {
    s.receivedMessage.Some? && s.receivedMessage.value != ""
  }

  /** The wait of `sendOBDCommand`, during which the reader loop takes the
      given turns: as soon as the response slot is non-empty the response is
      shown. When the turns run out first, the wait is still going on: it has
      no time-out. */
  function Await(s: Session, outcomes: seq<ReadOutcome>): Session
    decreases |outcomes|
  {
    if ResponseReady(s) then ShowResponse(s)
    else if outcomes == [] then s
    else Await(ReaderStep(s, outcomes[0]), outcomes[1..])
  }

  /** The Send button: the input is trimmed and sent only when something is
      left. */
  function SendClicked(s: Session, input: string, writeFails: bool): Session
  {
    var command := Trim(input);
    if command == "" then s else SendCommand(s, command, writeFails)
  }

  // ---------------------------------------------------------------------------
  // onDestroy

  /** `onDestroy`: ask the reader loop to stop and close everything. A posted
      reconnect task is not cancelled. */
  function Destroy(s: Session, faults: CloseFaults): Session
  {
    CloseConnection(s.(stopReading := true), faults)
  }

  // ---------------------------------------------------------------------------
  // Events

  datatype Event =
    | ReadDone(outcome: ReadOutcome)
    | ConnectDone(connectOutcome: ConnectOutcome)
    | UiWorkRuns
    | TimerFired(timerFaults: CloseFaults)
    | SendClick(input: string, writeFails: bool)
    | ResponsePoll
    | Teardown(teardownFaults: CloseFaults)

  /** One event. The reader and connect threads run whenever their event
      comes. Everything else runs on the UI thread (posted work, the
      reconnect task posted to the main looper, clicks, teardown), which is
      blocked while a send waits: such an event changes nothing then. The
      waiting sender noticing the response is the end of that wait. */
  function Step(s: Session, e: Event): Session
  {
    match e
    case ReadDone(o) => ReaderStep(s, o)
    case ConnectDone(o) => ConnectFinished(s, o)
    case UiWorkRuns => if s.awaiting then s else RunPostedWork(s)
    case TimerFired(f) => if s.awaiting then s else ReconnectFired(s, f)
    case SendClick(input, writeFails) => if s.awaiting then s else SendClicked(s, input, writeFails)
    case ResponsePoll => ShowResponse(s)
    case Teardown(f) => if s.awaiting then s else Destroy(s, f)
  }

  function Run(s: Session, events: seq<Event>): Session
  {
    if events == [] then s else Step(Run(s, events[..|events| - 1]), events[|events| - 1])
  }

  // ---------------------------------------------------------------------------
  // The invariant is kept by every event

  lemma ConnectFinishedKeepsInv(s: Session, o: ConnectOutcome)
    requires Inv(s)
    ensures Inv(ConnectFinished(s, o))
    ensures ConnectFinished(s, o).deviceAddr == s.deviceAddr
  {
    ConnectFinishedFraming(s, o);
    if s.connecting != [] {
      assert forall a :: a in s.connecting[1..] ==> a in s.connecting;
      ConnectResultKeepsInv(s.(connecting := s.connecting[1..]), o);
    }
  }

  /** A connect attempt ends when nothing else runs or is pending: its
      outcome keeps the invariant. */
  lemma ConnectResultKeepsInv(s: Session, o: ConnectOutcome)
    requires Inv(s)
    requires s.readers == 0 && s.connecting == [] && StartsPosted(s.uiPending) == 0 && s.pendingReconnects == []
    ensures Inv(ConnectResult(s, o))
  {
    ConnectResultFraming(s, o);
    match o
    case Connected(name) =>
      StartsPostedAppend(s.uiPending, ShowConnected(name));
    case NoAdapter =>
      StartsPostedAppend(s.uiPending, Finish);
    case DeviceNotFound =>
      StartsPostedAppend(s.uiPending, Finish);
    case NoPermission =>
    case _ =>
      StartsPostedAppend(s.uiPending, ShowFailure);
      assert FailedAttempt(s, o).uiPending == s.uiPending + [ShowFailure];
  }

  /** Posted work touches only the queue, the status, the finished flag and
      the reader loop it may start. */
  lemma RunPostedWorkFraming(s: Session)
    ensures var t := RunPostedWork(s);
      && t.deviceAddr == s.deviceAddr && t.msgTemp == s.msgTemp
      && t.receivedMessage == s.receivedMessage && t.awaiting == s.awaiting
      && t.isReconnecting == s.isReconnecting && t.pendingReconnects == s.pendingReconnects
      && t.connecting == s.connecting
      && (s.uiPending == [] ==> t == s)
      && (s.uiPending != [] ==>
            t.uiPending == s.uiPending[1..]
            && t.readers == s.readers + if s.uiPending[0].ShowConnected? then 1 else 0)
  {
  }

  lemma RunPostedWorkKeepsInv(s: Session)
    requires Inv(s)
    ensures Inv(RunPostedWork(s))
    ensures RunPostedWork(s).deviceAddr == s.deviceAddr
  {
    RunPostedWorkFraming(s);
    if s.uiPending != [] {
      StartsPostedPop(s.uiPending);
    }
  }

  lemma ReconnectFiredKeepsInv(s: Session, f: CloseFaults)
    requires Inv(s)
    ensures Inv(ReconnectFired(s, f))
    ensures ReconnectFired(s, f).deviceAddr == s.deviceAddr
  {
    if s.pendingReconnects != [] {
      assert s.connecting == [] && s.readers == 0;
    }
  }

  lemma ReaderStepKeepsInv(s: Session, o: ReadOutcome)
    requires Inv(s)
    ensures Inv(ReaderStep(s, o))
    ensures ReaderStep(s, o).deviceAddr == s.deviceAddr
  {
    ReaderStepFraming(s, o);
    if s.readers > 0 && !s.stopReading && s.inStream.Some? {
      assert s.pendingReconnects == [];
    }
  }

  lemma SendClickKeepsInv(s: Session, input: string, writeFails: bool)
    requires Inv(s)
    ensures Inv(SendClicked(s, input, writeFails))
    ensures SendClicked(s, input, writeFails).deviceAddr == s.deviceAddr
  {
    if Trim(input) != "" {
      SendCommandKeepsInv(s, Trim(input), writeFails);
    }
  }

  lemma DestroyKeepsInv(s: Session, f: CloseFaults)
    requires Inv(s)
    ensures Inv(Destroy(s, f))
    ensures Destroy(s, f).deviceAddr == s.deviceAddr
  {
    var t := Destroy(s, f);
    assert t.msgTemp == s.msgTemp && t.readers == s.readers && t.connecting == s.connecting;
    assert t.pendingReconnects == s.pendingReconnects && t.isReconnecting == s.isReconnecting;
    assert t.awaiting == s.awaiting && t.receivedMessage == s.receivedMessage && t.uiPending == s.uiPending;
  }

  lemma ShowResponseKeepsInv(s: Session)
    requires Inv(s)
    ensures Inv(ShowResponse(s))
    ensures ShowResponse(s).deviceAddr == s.deviceAddr
  {
    var t := ShowResponse(s);
    assert t.msgTemp == s.msgTemp && t.readers == s.readers && t.connecting == s.connecting;
    assert t.pendingReconnects == s.pendingReconnects && t.isReconnecting == s.isReconnecting;
    assert t.uiPending == s.uiPending;
  }

  lemma StepKeepsInv(s: Session, e: Event)
    requires Inv(s)
    ensures Inv(Step(s, e))
    ensures Step(s, e).deviceAddr == s.deviceAddr
  {
    match e
    case ReadDone(o) => ReaderStepKeepsInv(s, o);
    case ConnectDone(o) => ConnectFinishedKeepsInv(s, o);
    case UiWorkRuns =>
      if !s.awaiting {
        RunPostedWorkKeepsInv(s);
      }
    case TimerFired(f) =>
      if !s.awaiting {
        ReconnectFiredKeepsInv(s, f);
      }
    case SendClick(input, wf) =>
      if !s.awaiting {
        SendClickKeepsInv(s, input, wf);
      }
    case ResponsePoll => ShowResponseKeepsInv(s);
    case Teardown(f) =>
      if !s.awaiting {
        DestroyKeepsInv(s, f);
      }
  }

  /** Every run of events keeps the invariant and the saved device address. */
  lemma {:induction false} RunKeepsInv(s: Session, events: seq<Event>)
    requires Inv(s)
    ensures Inv(Run(s, events))
    ensures Run(s, events).deviceAddr == s.deviceAddr
  {
    if events != [] {
      var init := events[..|events| - 1];
      RunKeepsInv(s, init);
      StepKeepsInv(Run(s, init), events[|events| - 1]);
    }
  }

  /** From launch on, whatever happens: at most one reader loop runs, at most
      one reconnect task is pending and it has the 5000 ms delay, every
      connect attempt targets the address the screen was opened with, and the
      accumulator never holds the prompt. */
  lemma SessionSafety(address: string, events: seq<Event>)
    ensures var s := Run(Launch(Some(address)).value, events);
      && s.readers <= 1
      && |s.pendingReconnects| <= 1
      && (forall d :: d in s.pendingReconnects ==> d == ReconnectDelayMs)
      && (forall a :: a in s.connecting ==> a == address)
      && Prompt !in Render(s.msgTemp)
  {
    RunKeepsInv(Launch(Some(address)).value, events);
  }

  // ---------------------------------------------------------------------------
  // Reconnect supervisor

  /** A second failure report while a reconnect is in flight changes
      nothing: scheduling twice is scheduling once. */
  lemma ScheduleIsSingleFlight(s: Session)
    ensures ScheduleReconnection(ScheduleReconnection(s)) == ScheduleReconnection(s)
  {
  }

  /** A read error in a running reader loop ends the loop and posts exactly
      one reconnect task, leaving the accumulator and the response alone. */
  lemma ReadErrorSchedulesOnce(s: Session)
    requires Inv(s)
    requires ReaderActive(s)
    ensures var t := ReaderStep(s, ReadError);
      && t.readers == s.readers - 1
      && t.isReconnecting
      && t.pendingReconnects == [ReconnectDelayMs]
      && t.msgTemp == s.msgTemp && t.receivedMessage == s.receivedMessage
  {
    assert s.pendingReconnects == [];
  }

  /** A failed connect attempt posts the failure status to the UI thread and
      schedules exactly one reconnect task. */
  lemma ConnectFailureSchedulesOnce(s: Session, o: ConnectOutcome)
    requires Inv(s)
    requires s.connecting != []
    requires o.SocketError? || o.ConnectError? || o.StreamError?
    ensures var t := ConnectFinished(s, o);
      && t.pendingReconnects == [ReconnectDelayMs]
      && t.isReconnecting
      && t.uiPending == s.uiPending + [ShowFailure]
      && t.connecting == []
  {
    assert s.pendingReconnects == [];
    assert |s.connecting| == 1;
  }

  /** The reconnect task, once it fires, releases every handle whose close
      does not throw, then starts exactly one connect attempt to the saved
      address and clears the flag, so a later failure can post a new task. */
  lemma ReconnectTargetsSavedAddress(s: Session, f: CloseFaults)
    requires Inv(s)
    requires s.pendingReconnects != []
    ensures var t := ReconnectFired(s, f);
      && t.connecting == [s.deviceAddr]
      && !t.isReconnecting
      && t.pendingReconnects == []
      && (s.inStream.Some? && !f.input ==> t.inStream == Some(Stream(false)))
      && (s.outStream.Some? && !f.output ==> t.outStream == Some(Stream(false)))
      && (s.socket == Some(Socket(true)) && !f.socket ==> t.socket == Some(Socket(false)))
  {
    assert s.connecting == [];
    assert |s.pendingReconnects| == 1;
  }

  /** Teardown does not cancel a pending reconnect task: when it fires, it
      connects again, and once the UI thread has run what was posted to it,
      the reader loop runs again with the stop flag cleared. */
  lemma ReconnectOutlivesTeardown(s: Session, f: CloseFaults, g: CloseFaults, name: Option<string>)
    requires Inv(s)
    requires s.pendingReconnects != [] && !s.awaiting
    ensures var t := Run(s, [Teardown(f), TimerFired(g), ConnectDone(Connected(name))]);
      && t.stopReading && t.inStream == Some(Stream(true))
      && t.uiPending == s.uiPending + [ShowConnected(name)]
      && var u := RunAllPosted(t);
         u.readers == 1 && !u.stopReading && u.status == ConnectedTo(name)
  {
    RunThree(s, Teardown(f), TimerFired(g), ConnectDone(Connected(name)));
    var t1 := Destroy(s, f);
    StepOutsideWait(s, Teardown(f));
    TeardownKeepsReconnect(s, f, g);
    var t2 := ReconnectFired(t1, g);
    StepOutsideWait(t1, TimerFired(g));
    ConnectPostsStart(t2, name);
    DrainStartsReader(ConnectFinished(t2, Connected(name)), name);
  }

  /** Outside a wait, the UI-thread events do what their handlers do. */
  lemma StepOutsideWait(s: Session, e: Event)
    requires !s.awaiting
    ensures e.Teardown? ==> Step(s, e) == Destroy(s, e.teardownFaults)
    ensures e.TimerFired? ==> Step(s, e) == ReconnectFired(s, e.timerFaults)
    ensures e.UiWorkRuns? ==> Step(s, e) == RunPostedWork(s)
  {
  }

  /** After teardown the pending reconnect task still fires: the stop flag
      stays set and one connect attempt to the saved address runs. */
  lemma TeardownKeepsReconnect(s: Session, f: CloseFaults, g: CloseFaults)
    requires Inv(s)
    requires s.pendingReconnects != [] && !s.awaiting
    ensures var t2 := ReconnectFired(Destroy(s, f), g);
      && t2.connecting == [s.deviceAddr] && t2.readers == 0 && t2.stopReading && !t2.awaiting
      && StartsPosted(t2.uiPending) == 0 && t2.uiPending == s.uiPending
  {
    var t1 := Destroy(s, f);
    DestroyKeepsInv(s, f);
    assert t1.pendingReconnects == s.pendingReconnects && t1.uiPending == s.uiPending;
    ReconnectTargetsSavedAddress(t1, g);
    ReconnectFiredKeepsInv(t1, g);
  }

  /** A successful connect, with no success block posted before, posts the
      one that starts the reader. */
  lemma ConnectPostsStart(s: Session, name: Option<string>)
    requires s.connecting != [] && StartsPosted(s.uiPending) == 0
    ensures var t := ConnectFinished(s, Connected(name));
      && t.uiPending == s.uiPending + [ShowConnected(name)]
      && StartsPosted(t.uiPending) == 1
      && t.inStream == Some(Stream(true)) && t.stopReading == s.stopReading && t.readers == s.readers
  {
    StartsPostedAppend(s.uiPending, ShowConnected(name));
  }

  lemma RunThree(s: Session, e1: Event, e2: Event, e3: Event)
    ensures Run(s, [e1, e2, e3]) == Step(Step(Step(s, e1), e2), e3)
  {
    RunSnoc(s, [], e1);
    assert [] + [e1] == [e1];
    RunSnoc(s, [e1], e2);
    assert [e1] + [e2] == [e1, e2];
    RunSnoc(s, [e1, e2], e3);
    assert [e1, e2] + [e3] == [e1, e2, e3];
  }

  /** When the only success block posted is the last work in the queue, the
      UI thread, once it has run everything, has set the status to the
      device name and started one more reader loop with the stop flag
      cleared. */
  lemma {:induction false} DrainStartsReader(s: Session, name: Option<string>)
    requires s.uiPending != [] && s.uiPending[|s.uiPending| - 1] == ShowConnected(name)
    requires StartsPosted(s.uiPending) == 1
    ensures var u := RunAllPosted(s);
      u.readers == s.readers + 1 && !u.stopReading && u.status == ConnectedTo(name) && u.uiPending == []
    decreases |s.uiPending|
  {
    var q := s.uiPending;
    var t := RunPostedWork(s);
    StartsPostedPop(q);
    if |q| == 1 {
      assert t.uiPending == [];
    } else {
      var rest := q[1..];
      assert rest[|rest| - 1] == ShowConnected(name);
      assert StartsPosted(rest) >= 1 by {
        assert rest == rest[..|rest| - 1] + [ShowConnected(name)];
        StartsPostedAppend(rest[..|rest| - 1], ShowConnected(name));
      }
      assert !q[0].ShowConnected?;
      assert t.readers == s.readers && t.uiPending == rest;
      DrainStartsReader(t, name);
    }
  }

  // ---------------------------------------------------------------------------
  // A wait that nothing can end

  /** One event leaves a wait with no reader loop unchanged where it
      matters: nothing on the UI thread runs, and no reader can publish. */
  lemma StuckWaitStep(s: Session, e: Event)
    requires s.awaiting && s.readers == 0 && !ResponseReady(s)
    ensures var t := Step(s, e);
      && t.awaiting && t.readers == 0 && !ResponseReady(t)
      && t.response == s.response && t.written == s.written
  {
    if e.ConnectDone? {
      ConnectFinishedFraming(s, e.connectOutcome);
    }
  }

  /** The end of a connect attempt leaves the reader side, the send side
      and the panes alone. */
  lemma ConnectFinishedFraming(s: Session, o: ConnectOutcome)
    ensures var t := ConnectFinished(s, o);
      && t.deviceAddr == s.deviceAddr && t.msgTemp == s.msgTemp
      && t.receivedMessage == s.receivedMessage && t.awaiting == s.awaiting
      && t.readers == s.readers && t.response == s.response && t.written == s.written
  {
    if s.connecting != [] {
      ConnectResultFraming(s.(connecting := s.connecting[1..]), o);
    }
  }

  lemma ConnectResultFraming(s: Session, o: ConnectOutcome)
    ensures var t := ConnectResult(s, o);
      && t.deviceAddr == s.deviceAddr && t.msgTemp == s.msgTemp
      && t.receivedMessage == s.receivedMessage && t.awaiting == s.awaiting
      && t.readers == s.readers && t.response == s.response && t.written == s.written
  {
    match o
    case NoAdapter =>
    case NoPermission =>
    case DeviceNotFound =>
    case Connected(name) =>
    case SocketError =>
    case ConnectError =>
    case StreamError(_) =>
  }

  /** A send made while no reader loop runs never returns: the success block
      that would start one is posted to the UI thread, which the wait
      blocks. Whatever happens afterwards, the wait goes on and the response
      pane and the written commands stay as they were. */
  lemma {:induction false} StuckWaitNeverEnds(s: Session, events: seq<Event>)
    requires s.awaiting && s.readers == 0 && !ResponseReady(s)
    ensures var t := Run(s, events);
      && t.awaiting && t.readers == 0 && !ResponseReady(t)
      && t.response == s.response && t.written == s.written
  {
    if events != [] {
      var init := events[..|events| - 1];
      StuckWaitNeverEnds(s, init);
      StuckWaitStep(Run(s, init), events[|events| - 1]);
    }
  }

  lemma {:induction false} RunAppend(s: Session, a: seq<Event>, b: seq<Event>)
    ensures Run(s, a + b) == Run(Run(s, a), b)
  {
    if b == [] {
      assert a + b == a;
    } else {
      var init := b[..|b| - 1];
      var ab := a + b;
      assert ab[..|ab| - 1] == a + init;
      assert ab[|ab| - 1] == b[|b| - 1];
      RunAppend(s, a, init);
    }
  }

  /** A command sent while there is no output stream and no reader loop
      reports "not connected", writes nothing and never returns: whatever
      the connect thread and the reader do afterwards, the wait goes on and
      the response pane and the written commands stay as they were. */
  lemma SendWithoutStreamNeverReturns(s: Session, input: string, writeFails: bool, events: seq<Event>)
    requires s.outStream.None? && s.readers == 0 && !s.awaiting
    requires Trim(input) != ""
    ensures SendNoticeOf(s, writeFails) == NotConnected
    ensures var t := Run(s, [SendClick(input, writeFails)] + events);
      t.awaiting && t.response == s.response && t.written == s.written
  {
    var click := SendClick(input, writeFails);
    SendWithoutStream(s, input, writeFails);
    assert Run(s, [click]) == Step(s, click) by {
      assert [click][..0] == [];
    }
    RunAppend(s, [click], events);
    StuckWaitNeverEnds(Run(s, [click]), events);
  }

  /** In particular, a command sent before the first connect attempt has
      completed never returns. */
  lemma SendBeforeConnectNeverReturns(address: string, input: string, writeFails: bool, events: seq<Event>)
    requires Trim(input) != ""
    ensures var s0 := Launch(Some(address)).value;
      && SendNoticeOf(s0, writeFails) == NotConnected
      && var t := Run(s0, [SendClick(input, writeFails)] + events);
         t.awaiting && t.response == "" && t.written == []
  {
    SendWithoutStreamNeverReturns(Launch(Some(address)).value, input, writeFails, events);
  }

  /** A send while no output stream exists and no reader loop runs: the
      notice says "not connected", nothing is written, the response slot is
      emptied and the wait has nothing that could end it. */
  lemma SendWithoutStream(s: Session, input: string, writeFails: bool)
    requires s.outStream.None? && s.readers == 0 && !s.awaiting
    requires Trim(input) != ""
    ensures SendNoticeOf(s, writeFails) == NotConnected
    ensures var t := Step(s, SendClick(input, writeFails));
      && t.awaiting && t.readers == 0 && !ResponseReady(t)
      && t.response == s.response && t.written == s.written
  {
  }

  // ---------------------------------------------------------------------------
  // The reader loop on its own

  /** A reader loop that has ended stays ended: further turns change
      nothing. */
  lemma {:induction false} ReaderRunIdle(s: Session, outcomes: seq<ReadOutcome>)
    requires s.readers == 0
    ensures ReaderRun(s, outcomes) == s
  {
    if outcomes != [] {
      ReaderRunIdle(s, outcomes[1..]);
    }
  }

  lemma {:induction false} ReaderRunKeepsInv(s: Session, outcomes: seq<ReadOutcome>)
    requires Inv(s)
    ensures Inv(ReaderRun(s, outcomes))
    ensures ReaderRun(s, outcomes).deviceAddr == s.deviceAddr
    decreases |outcomes|
  {
    if outcomes != [] {
      ReaderStepKeepsInv(s, outcomes[0]);
      ReaderRunKeepsInv(ReaderStep(s, outcomes[0]), outcomes[1..]);
    }
  }

  // ---------------------------------------------------------------------------
  // Response framing

  /** Concatenation of chunks. */
  function Concat(chunks: seq<string>): string
  {
    if chunks == [] then "" else chunks[0] + Concat(chunks[1..])
  }

  /** The reader outcomes that deliver the given chunks. */
  function Chunks(chunks: seq<string>): (os: seq<ReadOutcome>)
    ensures |os| == |chunks|
    ensures forall i :: 0 <= i < |chunks| ==> os[i] == Read(chunks[i])
  {
    seq(|chunks|, i requires 0 <= i < |chunks| => Read(chunks[i]))
  }

  /** The chunks a response is made of: every chunk before the last is
      non-empty and lacks the prompt, and the last one holds it. */
  predicate ResponseChunks(chunks: seq<string>)
  {
    && |chunks| > 0
    && (forall i :: 0 <= i < |chunks| - 1 ==> chunks[i] != "" && Prompt !in chunks[i])
    && Prompt in chunks[|chunks| - 1]
  }

  /** One chunk without the prompt grows the accumulator and leaves the
      reader running. */
  lemma AccumulateOne(s: Session, chunk: string)
    requires ReaderActive(s)
    requires chunk != "" && Prompt !in chunk
    ensures var t := ReaderStep(s, Read(chunk));
      && ReaderActive(t) && t.readers == s.readers && t.awaiting == s.awaiting
      && Render(t.msgTemp) == Render(s.msgTemp) + chunk
      && t.receivedMessage == s.receivedMessage && t.response == s.response && t.written == s.written
  {
  }

  /** A chunk holding the prompt publishes the accumulator with that chunk
      and resets the accumulator; the reader keeps running. */
  lemma PublishOne(s: Session, chunk: string)
    requires ReaderActive(s)
    requires Prompt in chunk
    ensures var t := ReaderStep(s, Read(chunk));
      && ReaderActive(t) && t.readers == s.readers && t.awaiting == s.awaiting
      && t.receivedMessage == Some(Render(s.msgTemp) + chunk) && t.msgTemp == Some("")
      && t.response == s.response && t.written == s.written
  {
  }

  /** A response is everything read since the accumulator was last reset, up
      to and including the chunk that brings the prompt; after it the
      accumulator is empty again and the reader keeps running. */
  lemma {:induction false} ResponseIsAccumulatedText(s: Session, chunks: seq<string>)
    requires ReaderActive(s)
    requires ResponseChunks(chunks)
    ensures var t := ReaderRun(s, Chunks(chunks));
      && t.receivedMessage == Some(Render(s.msgTemp) + Concat(chunks))
      && t.msgTemp == Some("")
      && ReaderActive(t)
    decreases |chunks|
  {
    var os := Chunks(chunks);
    var t1 := ReaderStep(s, Read(chunks[0]));
    assert os[0] == Read(chunks[0]);
    assert os[1..] == Chunks(chunks[1..]);
    if |chunks| == 1 {
      assert chunks[1..] == [] && os[1..] == [];
      assert Concat(chunks) == chunks[0] + "" == chunks[0];
      PublishOne(s, chunks[0]);
      assert ReaderRun(s, os) == ReaderRun(t1, []) == t1;
    } else {
      AccumulateOne(s, chunks[0]);
      assert Render(t1.msgTemp) + Concat(chunks[1..]) == Render(s.msgTemp) + Concat(chunks) by {
        assert Concat(chunks) == chunks[0] + Concat(chunks[1..]);
      }
      ResponseIsAccumulatedText(t1, chunks[1..]);
    }
  }

  /** Until a response is ready, the wait lets the reader take its next
      turn. */
  lemma AwaitTakesTurn(s: Session, o: ReadOutcome, rest: seq<ReadOutcome>)
    requires !ResponseReady(s)
    ensures Await(s, [o] + rest) == Await(ReaderStep(s, o), rest)
  {
    assert ([o] + rest)[1..] == rest;
  }

  /** The turn that publishes a response ends the wait and shows it. */
  lemma AwaitEndsAtPrompt(s: Session, chunk: string, later: seq<ReadOutcome>)
    requires ReaderActive(s) && s.awaiting && s.receivedMessage == Some("")
    requires Prompt in chunk
    ensures var t := Await(s, [Read(chunk)] + later);
      && t.response == s.response + "\n" + LineFeeds(Render(s.msgTemp) + chunk)
      && !t.awaiting && t.msgTemp == Some("") && t.written == s.written
  {
    AwaitTakesTurn(s, Read(chunk), later);
    var t1 := ReaderStep(s, Read(chunk));
    PublishOne(s, chunk);
    assert ResponseReady(t1);
    ShownResponseUsesLineFeeds(t1);
  }

  /** The exchange seen from the waiting sender: with the slot cleared and
      the reader running, the wait ends exactly at the chunk that brings the
      prompt, and the pane gains a line feed and the accumulated text with
      carriage returns turned into line feeds. Later turns are not taken. */
  lemma {:induction false} AwaitShowsAccumulatedText(s: Session, chunks: seq<string>, later: seq<ReadOutcome>)
    requires ReaderActive(s) && s.awaiting && s.receivedMessage == Some("")
    requires ResponseChunks(chunks)
    ensures var t := Await(s, Chunks(chunks) + later);
      && t.response == s.response + "\n" + LineFeeds(Render(s.msgTemp) + Concat(chunks))
      && !t.awaiting
      && t.msgTemp == Some("")
      && t.written == s.written
    decreases |chunks|
  {
    if |chunks| == 1 {
      assert Chunks(chunks) + later == [Read(chunks[0])] + later;
      assert Concat(chunks) == chunks[0] + "" == chunks[0];
      AwaitEndsAtPrompt(s, chunks[0], later);
    } else {
      AwaitFirstChunk(s, chunks, later);
      var t1 := ReaderStep(s, Read(chunks[0]));
      assert Render(t1.msgTemp) + Concat(chunks[1..]) == Render(s.msgTemp) + Concat(chunks) by {
        assert Concat(chunks) == chunks[0] + Concat(chunks[1..]);
      }
      AwaitShowsAccumulatedText(t1, chunks[1..], later);
    }
  }

  /** The first chunk of a longer response is accumulated and the wait goes
      on with the remaining turns. */
  lemma AwaitFirstChunk(s: Session, chunks: seq<string>, later: seq<ReadOutcome>)
    requires ReaderActive(s) && s.awaiting && s.receivedMessage == Some("")
    requires ResponseChunks(chunks) && |chunks| > 1
    ensures var t1 := ReaderStep(s, Read(chunks[0]));
      && Await(s, Chunks(chunks) + later) == Await(t1, Chunks(chunks[1..]) + later)
      && ReaderActive(t1) && t1.awaiting && t1.receivedMessage == Some("")
      && ResponseChunks(chunks[1..])
      && Render(t1.msgTemp) == Render(s.msgTemp) + chunks[0]
      && t1.response == s.response && t1.written == s.written
  {
    var rest := Chunks(chunks[1..]) + later;
    assert Chunks(chunks) + later == [Read(chunks[0])] + rest;
    AwaitTakesTurn(s, Read(chunks[0]), rest);
    AccumulateOne(s, chunks[0]);
    assert forall i :: 0 <= i < |chunks| - 2 ==> chunks[1..][i] == chunks[i + 1];
  }

  lemma SendCommandKeepsInv(s: Session, command: string, writeFails: bool)
    requires Inv(s)
    ensures Inv(SendCommand(s, command, writeFails))
    ensures SendCommand(s, command, writeFails).deviceAddr == s.deviceAddr
  {
    var t := SendCommand(s, command, writeFails);
    assert t.msgTemp == s.msgTemp && t.readers == s.readers && t.connecting == s.connecting;
    assert t.pendingReconnects == s.pendingReconnects && t.isReconnecting == s.isReconnecting;
    assert t.uiPending == s.uiPending;
  }

  lemma {:induction false} AwaitKeepsInv(s: Session, outcomes: seq<ReadOutcome>)
    requires Inv(s)
    ensures Inv(Await(s, outcomes))
    ensures Await(s, outcomes).deviceAddr == s.deviceAddr
    decreases |outcomes|
  {
    if ResponseReady(s) {
      ShowResponseKeepsInv(s);
    } else if outcomes != [] {
      ReaderStepKeepsInv(s, outcomes[0]);
      AwaitKeepsInv(ReaderStep(s, outcomes[0]), outcomes[1..]);
    }
  }

  // ---------------------------------------------------------------------------
  // Command exchange

  /** Sending writes exactly the framed command when there is an output
      stream and the write succeeds, and nothing otherwise; it clears the
      response slot; and it waits even when there is no stream. */
  lemma SendWritesFramedCommand(s: Session, command: string, writeFails: bool)
    ensures var t := SendCommand(s, command, writeFails);
      && t.receivedMessage == Some("")
      && t.awaiting
      && (SendNoticeOf(s, writeFails) == Written ==> t.written == s.written + [command + "\r"])
      && (SendNoticeOf(s, writeFails) != Written ==> t.written == s.written)
      && (s.outStream.None? <==> SendNoticeOf(s, writeFails) == NotConnected)
  {
  }

  /** Streams released by `closeConnection` stay assigned, and using them
      throws: a read on the closed input stream ends the reader loop exactly
      as a read error does, and a write on the closed output stream writes
      nothing and reports a send error. */
  lemma ClosedStreamsThrow(s: Session, o: ReadOutcome, command: string, writeFails: bool)
    ensures s.readers > 0 && !s.stopReading && s.inStream == Some(Stream(false)) ==>
      ReaderStep(s, o) == ReaderStep(s.(inStream := Some(Stream(true))), ReadError).(inStream := s.inStream)
    ensures s.outStream == Some(Stream(false)) ==>
      SendCommand(s, command, writeFails).written == s.written && SendNoticeOf(s, writeFails) == SendError
  {
  }

  /** Input that is empty or only control characters and spaces is never
      sent; otherwise the trimmed command is written. */
  lemma ClickSendsTrimmedInput(s: Session, input: string, writeFails: bool)
    ensures (forall k :: 0 <= k < |input| ==> IsTrimmed(input[k])) ==> SendClicked(s, input, writeFails) == s
    ensures (exists k :: 0 <= k < |input| && !IsTrimmed(input[k])) ==>
      SendClicked(s, input, writeFails) == SendCommand(s, Trim(input), writeFails)
      && Trim(input) != ""
  {
  }

  /** The shown response has every carriage return turned into a line feed
      and is appended to the pane after a line feed; the wait then ends. */
  lemma ShownResponseUsesLineFeeds(s: Session)
    requires s.awaiting && s.receivedMessage.Some? && s.receivedMessage.value != ""
    ensures var t := ShowResponse(s);
      && t.response == s.response + "\n" + LineFeeds(s.receivedMessage.value)
      && '\r' !in t.response[|s.response|..]
      && !t.awaiting
  {
    var shown := LineFeeds(s.receivedMessage.value);
    var t := ShowResponse(s);
    assert t.response[|s.response|..] == "\n" + shown;
  }

  lemma RunSnoc(s: Session, events: seq<Event>, e: Event)
    ensures Run(s, events + [e]) == Step(Run(s, events), e)
  {
    assert (events + [e])[..|events|] == events;
  }

  const ExampleCommand: string := "ATZ"
  const ExampleReply: string := "ELM327 v1.5\r\r>"

  lemma ExampleReplyRewritten()
    ensures "\n" + LineFeeds("null" + ExampleReply) == "\nnullELM327 v1.5\n\n>"
  {
    var r := "\n" + LineFeeds("null" + ExampleReply);
    assert |r| == 19;
    forall i | 0 <= i < 19 ensures r[i] == "\nnullELM327 v1.5\n\n>"[i] {
    }
  }

  /** The example exchange, event by event: once the connect thread has
      succeeded and the UI thread has run its success block, the reader runs
      with a null accumulator. */
  lemma ExampleConnects(address: string, name: Option<string>)
    ensures var s := Run(Launch(Some(address)).value, [ConnectDone(Connected(name)), UiWorkRuns]);
      && ReaderActive(s) && s.msgTemp.None? && s.outStream == Some(Stream(true))
      && !s.awaiting && s.written == [] && s.response == "" && s.status == ConnectedTo(name)
  {
    var s0 := Launch(Some(address)).value;
    RunSnoc(s0, [], ConnectDone(Connected(name)));
    assert [] + [ConnectDone(Connected(name))] == [ConnectDone(Connected(name))];
    var s1 := ConnectFinished(s0, Connected(name));
    assert s1.uiPending == [ShowConnected(name)];
    RunSnoc(s0, [ConnectDone(Connected(name))], UiWorkRuns);
    assert [ConnectDone(Connected(name))] + [UiWorkRuns] == [ConnectDone(Connected(name)), UiWorkRuns];
    assert Step(s1, UiWorkRuns) == RunPostedWork(s1);
  }

  lemma ExampleCommandTrimmed()
    ensures Trim(ExampleCommand) == ExampleCommand
  {
    assert TrimLeading(ExampleCommand) == ExampleCommand;
    assert TrimTrailing(ExampleCommand) == ExampleCommand;
  }

  /** Clicking Send with "ATZ" writes "ATZ\r" and starts the wait. */
  lemma ExampleSends(address: string, name: Option<string>)
    ensures var s := Run(Launch(Some(address)).value,
                         [ConnectDone(Connected(name)), UiWorkRuns, SendClick(ExampleCommand, false)]);
      && ReaderActive(s) && s.msgTemp.None?
      && s.awaiting && s.written == ["ATZ\r"] && s.response == ""
  {
    var s0 := Launch(Some(address)).value;
    var prefix := [ConnectDone(Connected(name)), UiWorkRuns];
    ExampleConnects(address, name);
    var s1 := Run(s0, prefix);
    RunSnoc(s0, prefix, SendClick(ExampleCommand, false));
    assert prefix + [SendClick(ExampleCommand, false)]
        == [ConnectDone(Connected(name)), UiWorkRuns, SendClick(ExampleCommand, false)];
    ExampleSendStep(s1);
  }

  /** The click of the example on a connected, idle screen. */
  lemma ExampleSendStep(s: Session)
    requires ReaderActive(s) && s.msgTemp.None? && s.outStream == Some(Stream(true))
    requires !s.awaiting && s.written == [] && s.response == ""
    ensures var t := Step(s, SendClick(ExampleCommand, false));
      && ReaderActive(t) && t.msgTemp.None?
      && t.awaiting && t.written == ["ATZ\r"] && t.response == ""
  {
    ExampleCommandTrimmed();
    assert Step(s, SendClick(ExampleCommand, false)) == SendCommand(s, ExampleCommand, false);
    assert Frame(ExampleCommand) == "ATZ\r" by {
      assert ExampleCommand + CommandTerminator == "ATZ\r";
    }
  }

  /** The reply, which ends in the prompt, is published after "null". */
  lemma ExampleReceives(address: string, name: Option<string>)
    ensures var s := Run(Launch(Some(address)).value,
                         [ConnectDone(Connected(name)), UiWorkRuns, SendClick(ExampleCommand, false),
                          ReadDone(Read(ExampleReply))]);
      && s.receivedMessage == Some("null" + ExampleReply)
      && s.awaiting && s.written == ["ATZ\r"] && s.response == ""
  {
    var s0 := Launch(Some(address)).value;
    var prefix := [ConnectDone(Connected(name)), UiWorkRuns, SendClick(ExampleCommand, false)];
    ExampleSends(address, name);
    var s2 := Run(s0, prefix);
    RunSnoc(s0, prefix, ReadDone(Read(ExampleReply)));
    assert prefix + [ReadDone(Read(ExampleReply))]
        == [ConnectDone(Connected(name)), UiWorkRuns, SendClick(ExampleCommand, false), ReadDone(Read(ExampleReply))];
    assert Prompt in ExampleReply by {
      assert ExampleReply[13] == Prompt;
    }
    assert Step(s2, ReadDone(Read(ExampleReply))) == ReaderStep(s2, Read(ExampleReply));
  }

  /** The published reply is shown with line feeds after a line feed. */
  lemma ExampleShows(s: Session)
    requires s.awaiting && s.receivedMessage == Some("null" + ExampleReply) && s.response == ""
    ensures var t := ShowResponse(s);
      t.response == "\n" + LineFeeds("null" + ExampleReply) && !t.awaiting && t.written == s.written
  {
    ShownResponseUsesLineFeeds(s);
    assert "" + "\n" + LineFeeds("null" + ExampleReply) == "\n" + LineFeeds("null" + ExampleReply);
  }

  /** The example exchange: right after connecting, sending "ATZ" and
      receiving "ELM327 v1.5\r\r>" writes "ATZ\r" and shows the response with
      line feeds, preceded by "null" because the accumulator started out
      null. */
  lemma FirstExchangeShowsNullPrefix(address: string, name: Option<string>)
    ensures var s := Run(Launch(Some(address)).value,
                         [ConnectDone(Connected(name)), UiWorkRuns, SendClick(ExampleCommand, false),
                          ReadDone(Read(ExampleReply)), ResponsePoll]);
      && s.written == ["ATZ\r"]
      && s.response == "\nnullELM327 v1.5\n\n>"
      && !s.awaiting
  {
    var s0 := Launch(Some(address)).value;
    var prefix := [ConnectDone(Connected(name)), UiWorkRuns, SendClick(ExampleCommand, false),
                   ReadDone(Read(ExampleReply))];
    ExampleReceives(address, name);
    var s3 := Run(s0, prefix);
    RunSnoc(s0, prefix, ResponsePoll);
    assert prefix + [ResponsePoll] == [ConnectDone(Connected(name)), UiWorkRuns, SendClick(ExampleCommand, false),
                                       ReadDone(Read(ExampleReply)), ResponsePoll];
    assert Step(s3, ResponsePoll) == ShowResponse(s3);
    ExampleShows(s3);
    ExampleReplyRewritten();
  }
}
