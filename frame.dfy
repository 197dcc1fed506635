/** The 32-byte command frame `main` builds from standard input: the VIA
    custom-command marker 0xFF, then the input, then zero padding. */
module Frame {
  import opened Types

  /** Size of one raw-HID report. */
  const FrameSize: nat := 32

  /** Room left for input once the marker byte is placed. */
  const MaxInput: nat := 31

  /** Marker of a VIA custom command, the first byte of every frame sent. */
  const ViaMarker: uint8 := 0xFF

  datatype InputError = InputTooLong(length: nat)

  /** The length guard of `read_stdin_or_exit`: input longer than 31 bytes is
      refused, anything shorter is passed on unchanged. */
  function CheckInputLength(input: seq<uint8>): (r: Result<seq<uint8>, InputError>)
    ensures r.Ok? <==> |input| <= MaxInput
    ensures r.Ok? ==> r.value == input
    ensures r.Err? ==> r.error == InputTooLong(|input|)
  {
    if |input| > MaxInput then Err(InputTooLong(|input|)) else Ok(input)
  }

  /** The frame for an input of at most 31 bytes. */
  function FrameOf(input: seq<uint8>): (frame: seq<uint8>)
    requires |input| <= MaxInput
    ensures |frame| == FrameSize && frame[0] == ViaMarker
  {
    [ViaMarker] + input + Fill(0, MaxInput - |input|)
  }

  /** The frame is 32 bytes: the marker, the input at indices 1..1+len, and
      zeros after it. */
  lemma {:induction false} FrameLayout(input: seq<uint8>)
    requires |input| <= MaxInput
    ensures |FrameOf(input)| == FrameSize && FrameOf(input)[0] == ViaMarker
    ensures FrameOf(input)[1..1 + |input|] == input
    ensures forall i :: 1 + |input| <= i < FrameSize ==> FrameOf(input)[i] == 0
  {
    var frame := FrameOf(input);
    assert frame[1..1 + |input|] == input;
    forall i | 1 + |input| <= i < FrameSize
      ensures frame[i] == 0
    {
      assert frame[i] == Fill(0, MaxInput - |input|)[i - 1 - |input|];
    }
  }

  /** The payload the device has to echo: everything after the marker,
      padding included. */
  function SentPayload(frame: seq<uint8>): (payload: seq<uint8>)
    requires |frame| >= 1
    ensures |payload| == |frame| - 1
    ensures [frame[0]] + payload == frame
  {
    frame[1..]
  }

  /** The echo the device must send back is the input followed by zeros up to
      31 bytes, so the input can be read back from it. */
  lemma {:induction false} SentPayloadOfFrame(input: seq<uint8>)
    requires |input| <= MaxInput
    ensures SentPayload(FrameOf(input)) == input + Fill(0, MaxInput - |input|)
    ensures |SentPayload(FrameOf(input))| == MaxInput
    ensures SentPayload(FrameOf(input))[..|input|] == input
  {
    var pad := Fill(0, MaxInput - |input|);
    assert FrameOf(input) == [ViaMarker] + (input + pad);
    assert (input + pad)[..|input|] == input;
  }

  /** Lines 67-69 of `main`: a zeroed 32-byte buffer, the marker at index 0,
      and the input copied to indices 1..1+len. */
  method BuildFrame(input: seq<uint8>) returns (frame: seq<uint8>)
    requires |input| <= MaxInput
    ensures |frame| == FrameSize && frame[0] == ViaMarker
    ensures frame[1..1 + |input|] == input
    ensures forall i :: 1 + |input| <= i < FrameSize ==> frame[i] == 0
    ensures frame == FrameOf(input)
  {
    var buffer := new uint8[FrameSize](_ => 0);
    buffer[0] := ViaMarker;
    var i := 0;
    while i < |input|
      invariant 0 <= i <= |input|
      invariant buffer[0] == ViaMarker
      invariant forall j :: 0 <= j < i ==> buffer[1 + j] == input[j]
      invariant forall j :: 1 + i <= j < FrameSize ==> buffer[j] == 0
    {
      buffer[1 + i] := input[i];
      i := i + 1;
    }
    frame := buffer[..];
    assert frame[1..1 + |input|] == input;
    FrameLayout(input);
    assert frame == FrameOf(input);
  }
}
