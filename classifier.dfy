/** The response check of `process_response`: a reply is accepted only when
    data arrived, its first byte is the firmware's success marker 0x01, and
    the rest of what was read equals the payload that was sent. */
module Classifier {
  import opened Types

  /** The first byte the firmware puts in a reply to mark success. */
  const SuccessMarker: uint8 := 0x01

  /** Why a reply was accepted or turned down; the source prints one line per
      reason and then returns its verdict. */
  datatype Verdict = Accepted | NoResponse | StatusMismatch(firstByte: uint8) | PayloadMismatch

  /** The checks of `process_response`, in the order the source makes them. */
  function Classify(response: seq<uint8>, bytesRead: nat, sentPayload: seq<uint8>): (v: Verdict)
    requires bytesRead <= |response|
    ensures v == NoResponse <==> bytesRead == 0
    ensures v.StatusMismatch? <==> bytesRead > 0 && response[0] != SuccessMarker
    ensures v.StatusMismatch? ==> v.firstByte == response[0]
    ensures v == Accepted <==> response[..bytesRead] == [SuccessMarker] + sentPayload
  {
    if bytesRead == 0 then NoResponse
    else if response[0] != SuccessMarker then StatusMismatch(response[0])
    else if response[1..bytesRead] != sentPayload then
      assert response[..bytesRead][1..] == response[1..bytesRead];
      PayloadMismatch
    else
      assert response[..bytesRead] == [response[0]] + response[1..bytesRead];
      Accepted
  }

  /** `process_response`: true exactly when what was read is the success
      marker followed by the sent payload, so an accepted reply is always one
      byte longer than the payload. */
  function ProcessResponse(response: seq<uint8>, bytesRead: nat, sentPayload: seq<uint8>): (accepted: bool)
    requires bytesRead <= |response|
    ensures accepted <==> response[..bytesRead] == [SuccessMarker] + sentPayload
    ensures accepted ==> bytesRead == 1 + |sentPayload| && response[0] == SuccessMarker
  {
    Classify(response, bytesRead, sentPayload) == Accepted
  }

  /** A device that echoes the payload behind the success marker is accepted,
      whatever follows in the buffer past the bytes read. */
  lemma {:induction false} EchoAccepted(payload: seq<uint8>, rest: seq<uint8>)
    ensures ProcessResponse([SuccessMarker] + payload + rest, 1 + |payload|, payload)
  {
    var response := [SuccessMarker] + payload + rest;
    assert response[..1 + |payload|] == [SuccessMarker] + payload;
  }

  /** A reply carrying any other payload behind the success marker is turned
      down as a payload mismatch. */
  lemma {:induction false} OtherPayloadRejected(other: seq<uint8>, payload: seq<uint8>)
    requires other != payload
    ensures Classify([SuccessMarker] + other, 1 + |other|, payload) == PayloadMismatch
  {
    var response := [SuccessMarker] + other;
    assert response[1..1 + |other|] == other;
  }
}
