/** `main`: parse the selector, open the keyboard's raw-HID interface, take
    at most 31 bytes of input, build the frame and send it until the echo
    comes back or the deadline passes.  Every `process::exit(1)` of the
    source becomes a failure value here, and exit status 0 means the echo
    was confirmed. */
module Tool {
  import opened Types
  import opened Args
  import opened Locator
  import opened Frame
  import opened Classifier
  import opened Retry

  /** Why the tool exits with status 1. */
  datatype Failure =
    | BadArgument(argError: ArgError)
    | NotLocated(locateError: LocateError)
    | BadInput(inputError: InputError)
    | NoMatchingResponse(attempts: nat)

  /** How one run of the tool went: its outcome, the open requests it made,
      and the transfer, when it got as far as sending. */
  datatype Session = Session(result: Result<Report, Failure>, opens: seq<OpenCall>, transfer: Option<Report>)

  /** The process exit status: 0 only when the echo was confirmed. */
  function ExitStatus(s: Session): (code: int)
    ensures code == 0 || code == 1
    ensures code == 0 <==> s.result.Ok?
  {
    if s.result.Ok? then 0 else 1
  }

  /** With the frame `main` builds, an accepted reply is a full 32-byte
      report: the success marker, the input, and zeros to the end. */
  lemma {:induction false} AcceptedEchoIsWholeFrame(input: seq<uint8>, read: ReadResult)
    requires |input| <= MaxInput
    requires Accepts(read, SentPayload(FrameOf(input)))
    ensures read.ReadOk? && BytesRead(read) == FrameSize
    ensures read.report[0] == SuccessMarker
    ensures read.report[1..1 + |input|] == input
    ensures forall i :: 1 + |input| <= i < FrameSize ==> read.report[i] == 0
  {
    var payload := SentPayload(FrameOf(input));
    SentPayloadOfFrame(input);
    var n := BytesRead(read);
    assert n == FrameSize;
    var buffer := ResponseBuffer(read);
    assert buffer[..n] == [SuccessMarker] + payload;
    assert read.ReadOk?;
    assert read.report[..n] == buffer[..n];
    FrameLayout(input);
    forall i | 1 <= i < FrameSize
      ensures read.report[i] == payload[i - 1]
    {
      assert read.report[..n][i] == ([SuccessMarker] + payload)[i];
    }
    assert read.report[..n][0] == SuccessMarker;
    assert read.report[1..1 + |input|] == payload[..|input|];
  }

  /** `main` with the transport given as the enumeration, the two open
      operations and the device's scripted behaviour, and standard input
      given as its bytes. */
  method ViaSendRaw(args: Args, devices: seq<DeviceInfo>,
                    openPath: string -> OpenResult, openIds: (uint16, uint16) -> OpenResult,
                    input: seq<uint8>, script: Script) returns (s: Session)
    requires Progressing(script)
    ensures ParseArgs(args).Err? ==> s == Session(Err(BadArgument(ParseArgs(args).error)), [], None)
    ensures ParseArgs(args).Ok? ==> s.opens == OpenDevice(devices, ParseArgs(args).value, openPath, openIds).calls
    ensures ParseArgs(args).Ok? && OpenDevice(devices, ParseArgs(args).value, openPath, openIds).result.Err? ==>
              s.result == Err(NotLocated(OpenDevice(devices, ParseArgs(args).value, openPath, openIds).result.error))
    ensures s.transfer.Some? <==>
              ParseArgs(args).Ok? && OpenDevice(devices, ParseArgs(args).value, openPath, openIds).result.Ok?
              && |input| <= MaxInput
    ensures s.transfer.Some? ==> |input| <= MaxInput && s.transfer.value == Run(script, SentPayload(FrameOf(input)))
    ensures s.transfer.Some? && !s.transfer.value.success ==>
              s.result == Err(NoMatchingResponse(|s.transfer.value.attempts|))
    ensures s.result.Ok? <==> s.transfer.Some? && s.transfer.value.success
    ensures ExitStatus(s) == 0 <==> s.result.Ok?
  {
    var selector;
    match ParseArgs(args) {
      case Err(e) =>
        return Session(Err(BadArgument(e)), [], None);
      case Ok(sel) =>
        selector := sel;
    }
    var located := OpenDevice(devices, selector, openPath, openIds);
    if located.result.Err? {
      return Session(Err(NotLocated(located.result.error)), located.calls, None);
    }
    var checked := CheckInputLength(input);
    if checked.Err? {
      return Session(Err(BadInput(checked.error)), located.calls, None);
    }
    var frame := BuildFrame(checked.value);
    var success, attempts, elapsed := SendDataWithRetry(script, frame);
    var report := Report(success, attempts, elapsed);
    if !success {
      return Session(Err(NoMatchingResponse(|attempts|)), located.calls, Some(report));
    }
    return Session(Ok(report), located.calls, Some(report));
  }
}
