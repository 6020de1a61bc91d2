// What the link layers of CS 101 exchange, above the octet level of Ft12.dfy: requests of a primary, responses of a
// secondary, function codes and the states of a primary (link_layer.c, link_layer_private.h).
module LinkFrames {
  import opened Bytes
  import Ft12

  const RESET_REMOTE_LINK := 0
  const TEST_FUNCTION := 2
  const USER_DATA_CONFIRMED := 3
  const USER_DATA_NO_REPLY := 4
  const RESET_FCB := 7
  const REQUEST_LINK_STATUS := 9
  const REQUEST_CLASS_1 := 10
  const REQUEST_CLASS_2 := 11

  const ACK := 0
  const NACK := 1
  const RESP_USER_DATA := 8
  const RESP_NO_DATA := 9
  const STATUS_OF_LINK := 11
  const NOT_FUNCTIONING := 14
  const NOT_IMPLEMENTED := 15

  datatype PrimaryState =
    | Idle | RequestStatus | ResetRemote | Available | SendConfirm | RequestRespond | Busy | TimedOut

  datatype Parameters = Parameters(addressLength: nat, timeoutForAck: nat, timeoutRepeat: nat, timeoutLinkState: nat)

  /** fcb means something only if fcv is set. */
  datatype Request = Request(fc: nat, fcb: bool, fcv: bool, data: seq<byte>)

  datatype Response = Response(fc: nat, acd: bool, dfc: bool, data: seq<byte>)

  function Plain(fc: nat): Response { Response(fc, false, false, []) }

  function TestRequest(fcb: bool): Request { Request(TEST_FUNCTION, fcb, true, []) }

  /** User data too long for a frame is not sent at all. */
  function DataRequests(n: nat, fcb: bool, asdu: seq<byte>): seq<Request> {
    if Ft12.FitsVariable(n, asdu) then [Request(USER_DATA_CONFIRMED, fcb, true, asdu)] else []
  }

  /** A stored time that lies in the future counts as the present: the clock was set back. */
  function Plausible(time: nat, now: nat): nat { if time > now then now else time }

  /** The frame of a request: user data in a variable length frame, everything else in a fixed one. */
  function RequestFrame(r: Request, address: nat, dir: bool): Ft12.Frame {
    var c := Ft12.Control(r.fc, true, dir, r.fcb, r.fcv);
    if r.fc in {USER_DATA_CONFIRMED, USER_DATA_NO_REPLY} then Ft12.VariableFrame(c, address, r.data)
    else Ft12.FixedFrame(c, address)
  }

  function ResponseFrame(r: Response, address: nat, dir: bool): Ft12.Frame {
    var c := Ft12.Control(r.fc, false, dir, r.acd, r.dfc);
    if r.fc == RESP_USER_DATA then Ft12.VariableFrame(c, address, r.data) else Ft12.FixedFrame(c, address)
  }

  /** What a handler receives for a frame that got through the parser. */
  function RequestOf(reading: Ft12.Reading, buffer: seq<byte>): Request
    requires reading.length > 0 ==> 0 <= reading.start <= reading.start + reading.length <= |buffer|
  {
    var c := Ft12.ControlOf(reading.c);
    Request(c.fc, c.fcb, c.fcv,
            if reading.length > 0 then buffer[reading.start..reading.start + reading.length] else [])
  }

  function ResponseOf(reading: Ft12.Reading, buffer: seq<byte>): Response
    requires reading.length > 0 ==> 0 <= reading.start <= reading.start + reading.length <= |buffer|
  {
    var c := Ft12.ControlOf(reading.c);
    Response(c.fc, c.fcb, c.fcv,
             if reading.length > 0 then buffer[reading.start..reading.start + reading.length] else [])
  }

  /** Requests and responses survive the octet level, for every address length, with the direction they were sent in and
      the address they were sent to or from. */
  lemma FramesCarry(n: nat, q: Request, r: Response, address: nat, dir: bool, buffer: seq<byte>)
    requires n <= 2
    requires q.fc !in {USER_DATA_CONFIRMED, USER_DATA_NO_REPLY} ==> q.data == []
    requires r.fc != RESP_USER_DATA ==> r.data == []
    ensures Ft12.Encodable(n, RequestFrame(q, address, dir))
            && Ft12.Holds(buffer, Ft12.Encode(n, RequestFrame(q, address, dir)))
            ==> var p := Ft12.ParsePrimary(n, buffer, |Ft12.Encode(n, RequestFrame(q, address, dir))|);
                && p.Handled? && Ft12.ControlOf(p.reading.c).prm && RequestOf(p.reading, buffer) == q
                && Ft12.ControlOf(p.reading.c).dir == dir && p.reading.address == address
    ensures Ft12.Encodable(n, ResponseFrame(r, address, dir))
            && Ft12.Holds(buffer, Ft12.Encode(n, ResponseFrame(r, address, dir)))
            ==> var p := Ft12.ParsePrimary(n, buffer, |Ft12.Encode(n, ResponseFrame(r, address, dir))|);
                && p.Handled? && !Ft12.ControlOf(p.reading.c).prm && ResponseOf(p.reading, buffer) == r
                && Ft12.ControlOf(p.reading.c).dir == dir && p.reading.address == address
  {
    hide Ft12.Encodable, Ft12.Encode, Ft12.Holds, Ft12.ParsePrimary, Ft12.ControlOf;
    var f, g := RequestFrame(q, address, dir), ResponseFrame(r, address, dir);
    if Ft12.Encodable(n, f) && Ft12.Holds(buffer, Ft12.Encode(n, f)) {
      Ft12.FrameRoundTrip(n, f, buffer);
    }
    if Ft12.Encodable(n, g) && Ft12.Holds(buffer, Ft12.Encode(n, g)) {
      Ft12.FrameRoundTrip(n, g, buffer);
    }
  }
}
