/** The command screen as an object: its fields are updated in place by the
    handlers, the connect thread, the reader loop and the reconnect task.
    Every method is proved against the state machine of module SessionModel:
    the new field values are those the matching step function computes from
    the old ones, and the session invariant is kept. */
module CommandScreen {
  import opened JavaText
  import opened SessionModel

  class CommandSession {
    var deviceAddr: string
    var socket: Option<Socket>
    var outStream: Option<Stream>
    var inStream: Option<Stream>
    var msgTemp: Option<string>
    var receivedMessage: Option<string>
    var stopReading: bool
    var readers: nat
    var isReconnecting: bool
    var pendingReconnects: seq<nat>
    var connecting: seq<string>
    var uiPending: seq<UiWork>
    var written: seq<string>
    var response: string
    var status: StatusLine
    var awaiting: bool
    var finished: bool

    /** The fields as one session value. */
    function Snapshot(): Session
      reads this
    {
      Session(deviceAddr, socket, outStream, inStream, msgTemp, receivedMessage, stopReading, readers,
              isReconnecting, pendingReconnects, connecting, uiPending, written, response, status, awaiting, finished)
    }

    ghost predicate Valid()
      reads this
    {
      Inv(Snapshot())
    }

    /** `onCreate` with a device address: the address is saved and a connect
        attempt starts. */
    constructor (deviceAddress: string)
      ensures Launch(Some(deviceAddress)) == Some(Snapshot())
      ensures Valid()
    {
      deviceAddr := deviceAddress;
      socket, outStream, inStream := None, None, None;
      msgTemp, receivedMessage := None, None;
      stopReading, readers := false, 0;
      isReconnecting, pendingReconnects := false, [];
      connecting, uiPending, written := [deviceAddress], [], [];
      response, status := "", Initial;
      awaiting, finished := false, false;
    }

    /** `connectToDevice`: a connect attempt to `address` starts. */
    method ConnectToDevice(address: string)
      modifies this
      ensures Snapshot() == SessionModel.ConnectToDevice(old(Snapshot()), address)
    {
      connecting := connecting + [address];
    }

    /** `scheduleReconnection`. */
    method ScheduleReconnection()
      modifies this
      ensures Snapshot() == SessionModel.ScheduleReconnection(old(Snapshot()))
    {
      if isReconnecting {
        return;
      }
      isReconnecting := true;
      pendingReconnects := pendingReconnects + [ReconnectDelayMs];
    }

    /** `closeConnection`: three independent releases. */
    method CloseConnection(faults: CloseFaults)
      modifies this
      ensures Snapshot() == SessionModel.CloseConnection(old(Snapshot()), faults)
    {
      inStream := CloseStream(inStream, faults.input);
      outStream := CloseStream(outStream, faults.output);
      socket := CloseSocket(socket, faults.socket);
    }

    /** The connect thread of the oldest running attempt ends with `outcome`. */
    method ConnectFinished(outcome: ConnectOutcome)
      requires Valid()
      modifies this
      ensures Snapshot() == SessionModel.ConnectFinished(old(Snapshot()), outcome)
      ensures Valid()
    {
      ghost var before := Snapshot();
      ConnectFinishedKeepsInv(before, outcome);
      if connecting == [] {
        return;
      }
      connecting := connecting[1..];
      assert Snapshot() == before.(connecting := before.connecting[1..]);
      ConnectResult(outcome);
    }

    /** What the connect thread does with the outcome of its attempt. */
    method ConnectResult(outcome: ConnectOutcome)
      modifies this
      ensures Snapshot() == SessionModel.ConnectResult(old(Snapshot()), outcome)
    {
      match outcome
      case NoAdapter =>
        Post(Finish);
      case NoPermission =>
      case DeviceNotFound =>
        Post(Finish);
      case SocketError =>
        ConnectFailed(outcome);
      case ConnectError =>
        ConnectFailed(outcome);
      case StreamError(_) =>
        ConnectFailed(outcome);
      case Connected(name) =>
        ConnectSucceeded(name);
    }

    /** The failure path of the connect thread: whatever was assigned before
        the exception stays assigned, the failure status is posted to the UI
        thread and a reconnect is scheduled. */
    method ConnectFailed(outcome: ConnectOutcome)
      requires outcome.SocketError? || outcome.ConnectError? || outcome.StreamError?
      modifies this
      ensures Snapshot() == SessionModel.ConnectResult(old(Snapshot()), outcome)
    {
      RecordFailure(outcome);
      ScheduleReconnection();
    }

    /** What the connect thread had assigned before the exception, and the
        posted failure status. */
    method RecordFailure(outcome: ConnectOutcome)
      requires outcome.SocketError? || outcome.ConnectError? || outcome.StreamError?
      modifies this
      ensures Snapshot() == FailedAttempt(old(Snapshot()), outcome)
    {
      if outcome.ConnectError? {
        socket := Some(Socket(false));
      } else if outcome.StreamError? {
        socket := Some(Socket(true));
        if outcome.outputOpened {
          outStream := Some(Stream(true));
        }
      }
      Post(ShowFailure);
    }

    /** The success path of the connect thread: the socket and both streams
        are stored, and the block that shows the device name and starts the
        reader is posted to the UI thread. */
    method ConnectSucceeded(name: Option<string>)
      modifies this
      ensures Snapshot() == Established(old(Snapshot()), name)
    {
      StoreConnection();
      Post(ShowConnected(name));
    }

    /** The connected socket and both of its streams are stored. */
    method StoreConnection()
      modifies this
      ensures Snapshot() == old(Snapshot()).(socket := Some(Socket(true)), outStream := Some(Stream(true)),
                                             inStream := Some(Stream(true)))
    {
      socket, outStream, inStream := Some(Socket(true)), Some(Stream(true)), Some(Stream(true));
    }

    /** `runOnUiThread` from a background thread: `work` joins the UI
        thread's queue. */
    method Post(work: UiWork)
      modifies this
      ensures Snapshot() == SessionModel.Post(old(Snapshot()), work)
    {
      uiPending := uiPending + [work];
    }

    /** The UI thread runs the oldest posted work: the status line and the
        reader loop after a connection, the status line after a failure, or
        `finish`. */
    method RunPostedWork()
      requires Valid()
      modifies this
      ensures Snapshot() == SessionModel.RunPostedWork(old(Snapshot()))
      ensures Valid()
    {
      ghost var before := Snapshot();
      RunPostedWorkKeepsInv(before);
      if uiPending == [] {
        return;
      }
      var work := uiPending[0];
      uiPending := uiPending[1..];
      assert Snapshot() == before.(uiPending := before.uiPending[1..]);
      match work
      case ShowConnected(name) =>
        status := ConnectedTo(name);
        StartReading();
      case ShowFailure =>
        status := ConnectionFailed;
      case Finish =>
        finished := true;
    }

    /** `startReading`: the stop flag is cleared and one more reader loop
        starts. */
    method StartReading()
      modifies this
      ensures Snapshot() == SessionModel.StartReading(old(Snapshot()))
    {
      stopReading, readers := false, readers + 1;
    }

    /** The delayed reconnect task fires. */
    method ReconnectFired(faults: CloseFaults)
      requires Valid()
      modifies this
      ensures Snapshot() == SessionModel.ReconnectFired(old(Snapshot()), faults)
      ensures Valid()
    {
      ReconnectFiredKeepsInv(Snapshot(), faults);
      if pendingReconnects == [] {
        return;
      }
      pendingReconnects := pendingReconnects[1..];
      CloseConnection(faults);
      ConnectToDevice(deviceAddr);
      isReconnecting := false;
    }

    /** One turn of the reader loop. */
    method ReadOnce(outcome: ReadOutcome)
      requires Valid()
      modifies this
      ensures Snapshot() == SessionModel.ReaderStep(old(Snapshot()), outcome)
      ensures Valid()
    {
      ReaderStepKeepsInv(Snapshot(), outcome);
      if readers == 0 {
        return;
      }
      if stopReading {
        readers := readers - 1;
        return;
      }
      if inStream.None? {
        return;
      }
      match if inStream.value.open then outcome else ReadError
      case ReadError =>
        readers := readers - 1;
        ScheduleReconnection();
      case Read(text) =>
        if text != "" {
          var acc := Render(msgTemp) + text;
          msgTemp := Some(acc);
          if Prompt in text {
            receivedMessage := msgTemp;
            msgTemp := Some("");
          }
        }
    }

    /** The reader loop of `startReading`, fed the outcomes of its reads in
        order: it runs until it ends (a stop request or a read error) or the
        outcomes run out. */
    method ReadLoop(outcomes: seq<ReadOutcome>) returns (taken: nat)
      requires Valid()
      modifies this
      ensures Snapshot() == ReaderRun(old(Snapshot()), outcomes)
      ensures taken <= |outcomes|
      ensures taken < |outcomes| ==> readers == 0
      ensures Valid()
    {
      taken := 0;
      while taken < |outcomes| && readers > 0
        invariant taken <= |outcomes|
        invariant Valid()
        invariant ReaderRun(Snapshot(), outcomes[taken..]) == ReaderRun(old(Snapshot()), outcomes)
      {
        assert outcomes[taken..][1..] == outcomes[taken + 1..];
        ReadOnce(outcomes[taken]);
        taken := taken + 1;
      }
      if taken < |outcomes| {
        ReaderRunIdle(Snapshot(), outcomes[taken..]);
      }
    }

    /** `sendOBDCommand`: the framed command is written (or the failure
        reported), then the sender waits while the reader loop takes the
        given turns, and shows the response as soon as one is published. */
    method SendOBDCommand(command: string, writeFails: bool, turns: seq<ReadOutcome>)
      returns (notice: SendNotice)
      requires Valid()
      modifies this
      ensures notice == SendNoticeOf(old(Snapshot()), writeFails)
      ensures Snapshot() == Await(SendCommand(old(Snapshot()), command, writeFails), turns)
      ensures Valid()
    {
      notice := WriteCommand(command, writeFails);
      AwaitResponse(turns);
    }

    /** The first half of `sendOBDCommand`: the response slot is cleared, the
        framed command written when there is an output stream, and the wait
        begins. */
    method WriteCommand(command: string, writeFails: bool) returns (notice: SendNotice)
      requires Valid()
      modifies this
      ensures notice == SendNoticeOf(old(Snapshot()), writeFails)
      ensures Snapshot() == SendCommand(old(Snapshot()), command, writeFails)
      ensures Valid()
    {
      SendCommandKeepsInv(Snapshot(), command, writeFails);
      receivedMessage := Some("");
      if outStream.None? {
        notice := NotConnected;
      } else if writeFails || !outStream.value.open {
        notice := SendError;
      } else {
        written := written + [Frame(command)];
        notice := Written;
      }
      awaiting := true;
    }

    /** The second half of `sendOBDCommand`: the loop that waits until the
        response slot is non-empty, with the reader loop taking the given
        turns meanwhile; then the response is shown. */
    method AwaitResponse(turns: seq<ReadOutcome>)
      requires Valid()
      modifies this
      ensures Snapshot() == Await(old(Snapshot()), turns)
      ensures Valid()
    {
      var i := 0;
      while !ResponseReady(Snapshot()) && i < |turns|
        invariant i <= |turns|
        invariant Valid()
        invariant Await(Snapshot(), turns[i..]) == Await(old(Snapshot()), turns)
      {
        assert turns[i..][1..] == turns[i + 1..];
        ReadOnce(turns[i]);
        i := i + 1;
      }
      ShowResponse();
    }

    /** The end of the wait: the response is shown with line feeds. */
    method ShowResponse()
      requires Valid()
      modifies this
      ensures Snapshot() == SessionModel.ShowResponse(old(Snapshot()))
      ensures Valid()
    {
      ShowResponseKeepsInv(Snapshot());
      if !awaiting || receivedMessage.None? || receivedMessage.value == "" {
        return;
      }
      var shown := LineFeeds(receivedMessage.value);
      receivedMessage := Some(shown);
      response := response + "\n" + shown;
      awaiting := false;
    }

    /** The Send button: the input is trimmed; when something is left it is
        sent and the screen waits for the response. The button is not
        delivered while a send is waiting. */
    method OnSendClicked(input: string, writeFails: bool, turns: seq<ReadOutcome>)
      returns (notice: Option<SendNotice>)
      requires Valid()
      requires !awaiting
      modifies this
      ensures notice.None? <==> Trim(input) == ""
      ensures notice.Some? ==> notice.value == SendNoticeOf(old(Snapshot()), writeFails)
      ensures Snapshot() == if Trim(input) == "" then old(Snapshot())
                            else Await(SendCommand(old(Snapshot()), Trim(input), writeFails), turns)
      ensures Valid()
    {
      var command := Trim(input);
      if command == "" {
        notice := None;
        return;
      }
      var sent := SendOBDCommand(command, writeFails, turns);
      notice := Some(sent);
    }

    /** `onDestroy`. */
    method OnDestroy(faults: CloseFaults)
      requires Valid()
      modifies this
      ensures Snapshot() == Destroy(old(Snapshot()), faults)
      ensures Valid()
    {
      DestroyKeepsInv(Snapshot(), faults);
      stopReading := true;
      CloseConnection(faults);
    }
  }
}
