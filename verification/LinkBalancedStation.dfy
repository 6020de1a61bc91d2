// The objects of the balanced link layer in link_layer.c, updated in place; every method is one of the functions of
// LinkBalanced.dfy.
module LinkBalancedStation {
  import opened Bytes
  import opened LinkFrames
  import opened Wrappers
  import B = LinkBalanced

  class SecondaryBalanced {
    var expectedFcb: bool
    var delivered: seq<seq<byte>>    // handed to the application
    var sent: seq<Response>

    constructor ()
      ensures expectedFcb && delivered == [] && sent == []
    {
      expectedFcb, delivered, sent := true, [], [];
    }

    method CheckFcb(fcb: bool) returns (valid: bool)
      modifies this`expectedFcb
      ensures valid <==> fcb == old(expectedFcb)
      ensures expectedFcb == if valid then !old(expectedFcb) else old(expectedFcb)
    {
      if fcb != expectedFcb {
        valid := false;
      } else {
        expectedFcb := !expectedFcb;
        valid := true;
      }
    }

    method HandleMessage(r: Request, accepts: bool)
      modifies this
      ensures var o := B.HandleRequest(old(expectedFcb), r, accepts);
              && expectedFcb == o.expectedFcb && delivered == old(delivered) + o.delivered
              && sent == old(sent) + o.responses
    {
      if r.fcv {
        var valid := CheckFcb(r.fcb);
        if !valid {
          return;
        }
      }
      if r.fc == RESET_REMOTE_LINK {
        expectedFcb := true;
        sent := sent + [Plain(ACK)];
      } else if r.fc == TEST_FUNCTION {
        sent := sent + [Plain(ACK)];
      } else if r.fc == USER_DATA_CONFIRMED {
        if |r.data| > 0 {
          delivered := delivered + [r.data];
          if accepts {
            sent := sent + [Plain(ACK)];
          }
        }
      } else if r.fc == USER_DATA_NO_REPLY {
        if |r.data| > 0 {
          delivered := delivered + [r.data];
        }
      } else if r.fc == REQUEST_LINK_STATUS {
        sent := sent + [Plain(STATUS_OF_LINK)];
      } else {
        sent := sent + [Plain(NOT_IMPLEMENTED)];
      }
    }
  }

  class PrimaryBalanced {
    const parameters: Parameters
    const idleTimeout: nat
    var primaryState: PrimaryState
    var waitingForResponse: bool
    var lastSendTime: nat
    var originalSendTime: nat
    var lastReceivedMsg: nat
    var sendLinkLayerTestFunction: bool
    var nextFcb: bool
    var lastSendAsdu: seq<byte>
    var sent: seq<Request>

    ghost function View(): B.Primary reads this {
      B.Primary(primaryState, parameters, idleTimeout, waitingForResponse, lastSendTime, originalSendTime,
                lastReceivedMsg, sendLinkLayerTestFunction, nextFcb, lastSendAsdu)
    }

    constructor (parameters: Parameters, idleTimeout: nat)
      ensures View() == B.Primary(Idle, parameters, idleTimeout, false, 0, 0, 0, false, true, []) && sent == []
    {
      this.parameters, this.idleTimeout := parameters, idleTimeout;
      primaryState, waitingForResponse, sendLinkLayerTestFunction, nextFcb := Idle, false, false, true;
      lastSendTime, originalSendTime, lastReceivedMsg, lastSendAsdu, sent := 0, 0, 0, [], [];
    }

    method Send(out: seq<Request>)
      modifies this`sent
      ensures sent == old(sent) + out
    {
      sent := sent + out;
    }

    method HandleMessage(fc: nat, dfc: bool, now: nat)
      modifies this
      ensures View() == B.Receive(old(View()), fc, dfc, now).0
      ensures sent == old(sent) + B.Receive(old(View()), fc, dfc, now).1
    {
      var newState := primaryState;
      lastReceivedMsg := now;
      if dfc {
        if primaryState in {RequestStatus, ResetRemote} {
          newState := RequestStatus;
        } else if primaryState in {SendConfirm, Busy} {
          newState := Busy;
        }
        primaryState := newState;
        return;
      }
      if fc == ACK {
        if primaryState == ResetRemote {
          newState := Available;
          waitingForResponse := false;
        } else if primaryState == SendConfirm {
          if sendLinkLayerTestFunction {
            sendLinkLayerTestFunction := false;
          }
          newState := Available;
          waitingForResponse := false;
        } else if primaryState == RequestStatus {
          // stay and wait for the status of link
        } else {
          waitingForResponse := false;
        }
      } else if fc == NACK {
        if primaryState == SendConfirm {
          newState := Busy;
        }
      } else if fc == RESP_USER_DATA || fc == RESP_NO_DATA {
        newState := Idle;
      } else if fc == STATUS_OF_LINK {
        if primaryState == RequestStatus {
          Send([Request(RESET_REMOTE_LINK, false, false, [])]);
          lastSendTime := now;
          waitingForResponse := true;
          newState := ResetRemote;
        } else {
          newState := Idle;
        }
      } else if fc == NOT_FUNCTIONING || fc == NOT_IMPLEMENTED {
        if sendLinkLayerTestFunction {
          sendLinkLayerTestFunction := false;
        }
        if primaryState == SendConfirm {
          newState := Available;
        }
      }
      primaryState := newState;
    }

    method SendUserData(fcb: bool)
      modifies this`sent
      ensures sent == old(sent) + DataRequests(parameters.addressLength, fcb, lastSendAsdu)
    {
      if 1 + parameters.addressLength + |lastSendAsdu| <= 255 {
        Send([Request(USER_DATA_CONFIRMED, fcb, true, lastSendAsdu)]);
      }
    }

    method RunAvailable(now: nat, supply: Option<seq<byte>>) returns (newState: PrimaryState)
      requires primaryState == Available
      modifies this
      ensures var (p, out) := B.RunAvailable(old(View()), now, supply);
              newState == p.state && View() == p.(state := Available) && sent == old(sent) + out
    {
      newState := primaryState;
      if lastReceivedMsg > now {
        lastReceivedMsg := now;
      }
      if now - lastReceivedMsg > idleTimeout {
        sendLinkLayerTestFunction := true;
      }
      if sendLinkLayerTestFunction {
        Send([TestRequest(nextFcb)]);
        nextFcb := !nextFcb;
        lastSendTime := now;
        originalSendTime := lastSendTime;
        newState := SendConfirm;
      } else if supply.Some? {
        lastSendAsdu := supply.value;
        SendUserData(nextFcb);
        nextFcb := !nextFcb;
        lastSendTime := now;
        originalSendTime := lastSendTime;
        waitingForResponse := true;
        newState := SendConfirm;
      }
    }

    method RunStateMachine(now: nat, supply: Option<seq<byte>>)
      modifies this
      ensures View() == B.Run(old(View()), now, supply).0
      ensures sent == old(sent) + B.Run(old(View()), now, supply).1
    {
      var newState := primaryState;
      match primaryState {
        case Idle =>
          originalSendTime := 0;
          sendLinkLayerTestFunction := false;
          Send([Request(REQUEST_LINK_STATUS, false, false, [])]);
          lastSendTime := now;
          waitingForResponse := true;
          newState := RequestStatus;
        case RequestStatus =>
          if waitingForResponse {
            if lastSendTime > now {
              lastSendTime := now;
            }
            if now > lastSendTime + parameters.timeoutForAck {
              newState := Idle;
            }
          } else {
            Send([Request(RESET_REMOTE_LINK, false, false, [])]);
            lastSendTime := now;
            waitingForResponse := true;
            newState := ResetRemote;
          }
        case ResetRemote =>
          if waitingForResponse {
            if lastSendTime > now {
              lastSendTime := now;
            }
            if now > lastSendTime + parameters.timeoutForAck {
              waitingForResponse := false;
              newState := Idle;
            }
          } else {
            newState := Available;
          }
        case Available =>
          newState := RunAvailable(now, supply);
        case SendConfirm =>
          if lastSendTime > now {
            lastSendTime := now;
          }
          if now > lastSendTime + parameters.timeoutForAck {
            if now > originalSendTime + parameters.timeoutRepeat {
              newState := Idle;
            } else {
              if sendLinkLayerTestFunction {
                Send([TestRequest(!nextFcb)]);
              } else {
                SendUserData(!nextFcb);
              }
              lastSendTime := now;
            }
          }
        case Busy =>
        case _ =>
      }
      primaryState := newState;
    }
  }
}
