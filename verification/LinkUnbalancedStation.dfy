// The objects of the unbalanced link layer in link_layer.c, updated in place; every method is one of the functions of
// LinkUnbalanced.dfy and LinkBus.dfy.
module LinkUnbalancedStation {
  import opened Bytes
  import opened LinkFrames
  import opened Wrappers
  import Bus = LinkBus
  import Rings
  import U = LinkUnbalanced

  class SecondaryUnbalanced {
    const addressLength: nat
    const useSingleCharAck: bool
    var expectedFcb: bool
    var userData: seq<byte>          // the buffer up to userDataSize
    var delivered: seq<seq<byte>>    // handed to the application
    var taken: seq<seq<byte>>        // taken from the application
    var sent: seq<Response>

    ghost function View(): U.Slave reads this { U.Slave(addressLength, useSingleCharAck, expectedFcb, userData) }

    constructor (addressLength: nat, useSingleCharAck: bool)
      ensures View() == U.Slave(addressLength, useSingleCharAck, true, []) && delivered == [] == taken && sent == []
    {
      this.addressLength, this.useSingleCharAck := addressLength, useSingleCharAck;
      expectedFcb, userData, delivered, taken, sent := true, [], [], [], [];
    }

    method CheckFcb(fcb: bool) returns (valid: bool)
      modifies this`expectedFcb
      ensures valid <==> fcb == old(expectedFcb)
      ensures expectedFcb == if valid then !old(expectedFcb) else old(expectedFcb)
    {
      if fcb != expectedFcb {
        valid := false;
      } else {
        expectedFcb := !expectedFcb;
        valid := true;
      }
    }

    method SendShort(fc: nat, accessDemand: bool)
      modifies this`sent
      ensures sent == old(sent) + [U.Short(View(), fc, accessDemand)]
    {
      if useSingleCharAck && !accessDemand {
        sent := sent + [Plain(ACK)];
      } else {
        sent := sent + [Response(fc, accessDemand, false, [])];
      }
    }

    /** Both poll services, with the data their application function would give. */
    method HandlePoll(r: Request, data: Option<seq<byte>>, accessDemand: bool)
      modifies this
      ensures var o := U.Poll(old(View()), r, data, accessDemand);
              View() == o.slave && taken == old(taken) + o.taken && sent == old(sent) + o.responses
      ensures delivered == old(delivered)
    {
      var invalidFcb := false;
      if r.fcv {
        var valid := CheckFcb(r.fcb);
        if !valid {
          invalidFcb := true;
        }
      }
      var asdu: Option<seq<byte>> := None;
      if invalidFcb {
        if |userData| > 0 {
          asdu := Some(userData);
        }
      } else {
        asdu := data;
        if asdu.Some? {
          taken := taken + [asdu.value];
          userData := asdu.value;
        } else {
          userData := [];
        }
      }
      if asdu.Some? {
        if 1 + addressLength + |asdu.value| <= 255 {
          sent := sent + [Response(RESP_USER_DATA, accessDemand, false, asdu.value)];
        }
      } else {
        SendShort(RESP_NO_DATA, accessDemand);
      }
    }

    method HandleMessage(r: Request, supply: U.Supply)
      modifies this
      ensures var o := U.HandleRequest(old(View()), r, supply);
              && View() == o.slave && delivered == old(delivered) + o.delivered && taken == old(taken) + o.taken
              && sent == old(sent) + o.responses
    {
      hide U.Poll;
      if r.fc == REQUEST_LINK_STATUS {
        if r.fcv {
          return;
        }
        sent := sent + [Response(STATUS_OF_LINK, supply.accessDemand, false, [])];
      } else if r.fc == RESET_REMOTE_LINK {
        if r.fcv || r.fcb {
          return;
        }
        expectedFcb := true;
        sent := sent + [Plain(ACK)];
      } else if r.fc == RESET_FCB {
        if r.fcv || r.fcb {
          return;
        }
        expectedFcb := true;
        sent := sent + [Plain(ACK)];
      } else if r.fc == REQUEST_CLASS_2 {
        PollDelivers(r, supply.class2, supply.accessDemand);
        HandlePoll(r, supply.class2, supply.accessDemand);
      } else if r.fc == REQUEST_CLASS_1 {
        PollDelivers(r, supply.class1, supply.accessDemand);
        HandlePoll(r, supply.class1, supply.accessDemand);
      } else if r.fc == USER_DATA_CONFIRMED {
        var indicateUserData := true;
        if r.fcv {
          var valid := CheckFcb(r.fcb);
          if !valid {
            indicateUserData := false;
          }
        }
        if indicateUserData && |r.data| > 0 {
          delivered := delivered + [r.data];
        }
        SendShort(ACK, supply.accessDemand);
      } else if r.fc == USER_DATA_NO_REPLY {
        if r.fcv {
          return;
        }
        if |r.data| > 0 {
          delivered := delivered + [r.data];
        }
      } else {
        sent := sent + [Plain(NOT_IMPLEMENTED)];
      }
    }

    lemma PollDelivers(r: Request, data: Option<seq<byte>>, accessDemand: bool)
      ensures U.Poll(View(), r, data, accessDemand).delivered == []
    {
    }
  }

  class SlaveConnection {
    const address: int
    const parameters: Parameters
    var primaryState: PrimaryState
    var hasMessageToSend: bool
    var nextMessage: seq<byte>
    var lastSendTime: nat
    var originalSendTime: nat
    var requestClass1Data: bool
    var requestClass2Data: bool
    var waitingForResponse: bool
    var sendLinkLayerTestFunction: bool
    var nextFcb: bool
    var received: seq<seq<byte>>     // handed to the application
    var sent: seq<Request>

    ghost function View(): U.Connection reads this {
      U.Connection(primaryState, parameters, hasMessageToSend, nextMessage, lastSendTime, originalSendTime,
                   requestClass1Data, requestClass2Data, waitingForResponse, sendLinkLayerTestFunction, nextFcb)
    }

    constructor (parameters: Parameters, slaveAddress: int)
      ensures View() == U.NewConnection(parameters) && address == slaveAddress
      ensures received == [] && sent == []
    {
      this.parameters, address := parameters, slaveAddress;
      primaryState, hasMessageToSend, nextMessage, lastSendTime, originalSendTime := Idle, false, [], 0, 0;
      requestClass1Data, requestClass2Data, waitingForResponse := false, false, false;
      sendLinkLayerTestFunction, nextFcb, received, sent := false, true, [], [];
    }

    method Send(out: seq<Request>)
      modifies this`sent
      ensures sent == old(sent) + out
    {
      sent := sent + out;
    }

    method SendMessage(fcb: bool)
      modifies this`sent
      ensures sent == old(sent) + DataRequests(parameters.addressLength, fcb, nextMessage)
    {
      if 1 + parameters.addressLength + |nextMessage| <= 255 {
        Send([Request(USER_DATA_CONFIRMED, fcb, true, nextMessage)]);
      }
    }

    /** LinkLayerPrimaryUnbalanced_sendConfirmed for this slave. */
    method SendConfirmed(message: seq<byte>) returns (accepted: bool)
      modifies this
      ensures accepted <==> !old(hasMessageToSend)
      ensures View() == if accepted then old(View()).(hasMessage := true, message := message) else old(View())
      ensures received == old(received) && sent == old(sent)
    {
      if !hasMessageToSend {
        nextMessage := message;
        hasMessageToSend := true;
        return true;
      }
      return false;
    }

    /** The master's application asks for class 1 data. */
    method AccessDemand()
      modifies this`requestClass1Data
      ensures requestClass1Data
    {
      requestClass1Data := true;
    }

    method HandleMessage(r: Response, now: nat)
      modifies this
      ensures var o := U.HandleResponse(old(View()), r, now);
              View() == o.c && received == old(received) + o.received && sent == old(sent) + o.requests
    {
      hide U.HandleService;
      if r.dfc {
        var newState := primaryState;
        if primaryState in {RequestStatus, ResetRemote} {
          newState := RequestStatus;
        } else if primaryState in {SendConfirm, Busy} {
          newState := Busy;
        }
        primaryState := newState;
        return;
      }
      if r.acd {
        requestClass1Data := true;
      }
      HandleService(r, now);
      if r.acd {
        AccessDemand();
      }
    }

    method Acknowledge()
      modifies this
      ensures View() == U.Acknowledged(old(View())) && received == old(received) && sent == old(sent)
    {
      var newState := primaryState;
      if primaryState == ResetRemote {
        newState := Available;
      } else if primaryState == SendConfirm {
        if sendLinkLayerTestFunction {
          sendLinkLayerTestFunction := false;
        } else {
          hasMessageToSend := false;
        }
        newState := Available;
      } else if primaryState == RequestRespond {
        newState := Available;
      }
      waitingForResponse := false;
      primaryState := newState;
    }

    method HandleAnswer(r: Response)
      requires r.fc == RESP_USER_DATA || r.fc == RESP_NO_DATA
      modifies this
      ensures var o := U.Answered(old(View()), r);
              View() == o.c && received == old(received) + o.received && sent == old(sent) + o.requests
    {
      if r.fc == RESP_USER_DATA {
        if primaryState == RequestRespond {
          received := received + [r.data];
          requestClass1Data := false;
          requestClass2Data := false;
          primaryState := Available;
        } else {
          primaryState := Idle;
        }
      } else {
        if primaryState == RequestRespond {
          primaryState := Available;
        } else {
          primaryState := Idle;
        }
      }
      waitingForResponse := false;
    }

    method HandleService(r: Response, now: nat)
      modifies this
      ensures var o := U.HandleService(old(View()), r, now);
              View() == o.c && received == old(received) + o.received && sent == old(sent) + o.requests
    {
      hide U.Acknowledged, U.Answered;
      if r.fc == ACK {
        Acknowledge();
      } else if r.fc == NACK {
        if primaryState == SendConfirm {
          primaryState := Busy;
        }
        waitingForResponse := false;
      } else if r.fc == STATUS_OF_LINK {
        if primaryState == RequestStatus {
          Send([Request(RESET_REMOTE_LINK, false, false, [])]);
          lastSendTime := now;
          waitingForResponse := true;
          primaryState := ResetRemote;
        } else {
          primaryState := Idle;
        }
      } else if r.fc == RESP_USER_DATA || r.fc == RESP_NO_DATA {
        HandleAnswer(r);
      } else if r.fc == NOT_FUNCTIONING || r.fc == NOT_IMPLEMENTED {
        if primaryState == SendConfirm {
          primaryState := Available;
        }
        waitingForResponse := false;
      } else {
        waitingForResponse := false;
      }
    }

    method PlausibleSendTime(now: nat)
      modifies this`lastSendTime
      ensures lastSendTime == Plausible(old(lastSendTime), now)
    {
      if lastSendTime > now {
        lastSendTime := now;
      }
    }

    method Begin(now: nat)
      modifies this`nextFcb, this`lastSendTime, this`originalSendTime, this`waitingForResponse
      ensures nextFcb == !old(nextFcb) && lastSendTime == originalSendTime == now && waitingForResponse
    {
      nextFcb := !nextFcb;
      lastSendTime := now;
      originalSendTime := now;
      waitingForResponse := true;
    }

    method RunAvailable(now: nat)
      requires primaryState == Available
      modifies this
      ensures View() == U.RunAvailable(old(View()), now).0
      ensures sent == old(sent) + U.RunAvailable(old(View()), now).1 && received == old(received)
    {
      if sendLinkLayerTestFunction {
        Send([TestRequest(nextFcb)]);
        Begin(now);
        primaryState := RequestRespond;
      } else if hasMessageToSend {
        SendMessage(nextFcb);
        Begin(now);
        primaryState := SendConfirm;
      } else if requestClass1Data || requestClass2Data {
        if requestClass1Data {
          Send([U.PollRequest(true, nextFcb)]);
          requestClass1Data := false;
        } else {
          Send([U.PollRequest(false, nextFcb)]);
          requestClass2Data := false;
        }
        Begin(now);
        primaryState := RequestRespond;
      }
    }

    method RunWaiting(now: nat)
      requires primaryState in {SendConfirm, RequestRespond}
      modifies this
      ensures View() == U.RunConnection(old(View()), now).0
      ensures sent == old(sent) + U.RunConnection(old(View()), now).1 && received == old(received)
    {
      hide DataRequests;
      PlausibleSendTime(now);
      if now > lastSendTime + parameters.timeoutForAck {
        if now > originalSendTime + parameters.timeoutRepeat {
          if primaryState == SendConfirm {
            waitingForResponse := false;
            lastSendTime := now;
            primaryState := TimedOut;
          } else {
            primaryState := Idle;
            requestClass1Data := false;
            requestClass2Data := false;
          }
        } else {
          if primaryState == SendConfirm {
            if sendLinkLayerTestFunction {
              Send([TestRequest(!nextFcb)]);
            } else {
              SendMessage(!nextFcb);
            }
          } else {
            Send([U.PollRequest(requestClass1Data, !nextFcb)]);
          }
          lastSendTime := now;
        }
      }
    }

    method RunLinkSetup(now: nat)
      requires primaryState in {RequestStatus, ResetRemote}
      modifies this
      ensures View() == U.RunConnection(old(View()), now).0
      ensures sent == old(sent) + U.RunConnection(old(View()), now).1 && received == old(received)
    {
      if waitingForResponse {
        PlausibleSendTime(now);
        if now > lastSendTime + parameters.timeoutForAck {
          waitingForResponse := false;
          lastSendTime := now;
          primaryState := TimedOut;
        }
      } else if primaryState == RequestStatus {
        Send([Request(RESET_REMOTE_LINK, false, false, [])]);
        lastSendTime := now;
        waitingForResponse := true;
        nextFcb := true;
        primaryState := ResetRemote;
      } else {
        primaryState := Available;
      }
    }

    method RunStateMachine(now: nat)
      modifies this
      ensures View() == U.RunConnection(old(View()), now).0
      ensures sent == old(sent) + U.RunConnection(old(View()), now).1 && received == old(received)
    {
      match primaryState {
        case TimedOut =>
          PlausibleSendTime(now);
          if now > lastSendTime + parameters.timeoutLinkState {
            primaryState := Idle;
          }
        case Idle =>
          originalSendTime := 0;
          sendLinkLayerTestFunction := false;
          Send([Request(REQUEST_LINK_STATUS, false, false, [])]);
          lastSendTime := now;
          waitingForResponse := true;
          primaryState := RequestStatus;
        case RequestStatus =>
          RunLinkSetup(now);
        case ResetRemote =>
          RunLinkSetup(now);
        case Available =>
          RunAvailable(now);
        case SendConfirm =>
          RunWaiting(now);
        case RequestRespond =>
          RunWaiting(now);
        case Busy =>
      }
    }
  }

  class PrimaryUnbalanced {
    const parameters: Parameters
    var slaveConnections: seq<SlaveConnection>
    var currentSlave: Option<nat>     // its place in the list
    var currentSlaveIndex: nat
    var nextBroadcast: Option<seq<byte>>
    var broadcasts: seq<Request>

    ghost predicate Valid() reads this {
      && (forall i, j | 0 <= i < j < |slaveConnections| :: slaveConnections[i].address != slaveConnections[j].address)
      && (currentSlave.Some? ==> currentSlave.value < |slaveConnections|)
      && (if slaveConnections == [] then currentSlaveIndex == 0 else currentSlaveIndex < |slaveConnections|)
    }

    ghost function View(): Bus.Bus
      reads this, slaveConnections
    {
      Bus.Bus(seq(|slaveConnections|, i requires 0 <= i < |slaveConnections| reads this, slaveConnections =>
                    slaveConnections[i].View()),
              currentSlave, currentSlaveIndex)
    }

    /** The place of an address in the list. */
    ghost predicate IsPlaceOf(place: Option<nat>, slaveAddress: int) reads this {
      match place
      case Some(i) => i < |slaveConnections| && slaveConnections[i].address == slaveAddress
      case None => forall i | 0 <= i < |slaveConnections| :: slaveConnections[i].address != slaveAddress
    }

    constructor (parameters: Parameters)
      ensures Valid() && slaveConnections == [] && currentSlave == None && currentSlaveIndex == 0
      ensures this.parameters == parameters && nextBroadcast == None && broadcasts == []
    {
      slaveConnections, currentSlave, currentSlaveIndex, nextBroadcast, broadcasts := [], None, 0, None, [];
      this.parameters := parameters;
    }

    method GetSlaveConnection(slaveAddress: int) returns (place: Option<nat>)
      ensures IsPlaceOf(place, slaveAddress)
    {
      var i := 0;
      while i < |slaveConnections|
        invariant i <= |slaveConnections|
        invariant forall j | 0 <= j < i :: slaveConnections[j].address != slaveAddress
      {
        if slaveConnections[i].address == slaveAddress {
          return Some(i);
        }
        i := i + 1;
      }
      return None;
    }

    /** A known slave is not added again. */
    method AddSlaveConnection(slaveAddress: int)
      requires Valid()
      modifies this`slaveConnections
      ensures Valid()
      ensures if old(IsPlaceOf(None, slaveAddress))
              then |slaveConnections| == |old(slaveConnections)| + 1
                   && slaveConnections[..|old(slaveConnections)|] == old(slaveConnections)
                   && fresh(slaveConnections[|old(slaveConnections)|])
                   && slaveConnections[|old(slaveConnections)|].address == slaveAddress
                   && slaveConnections[|old(slaveConnections)|].View() == U.NewConnection(parameters)
              else slaveConnections == old(slaveConnections)
    {
      var place := GetSlaveConnection(slaveAddress);
      if place.None? {
        var newSlave := new SlaveConnection(parameters, slaveAddress);
        slaveConnections := slaveConnections + [newSlave];
      }
    }

    /** A response reaches the slave with its address, or for a single character (address -1) the current slave; from
        an unknown address it reaches no one. */
    method HandleMessage(slaveAddress: int, r: Response, now: nat)
      requires Valid()
      modifies slaveConnections
      ensures Valid()
      ensures forall i | 0 <= i < |slaveConnections| ::
                slaveConnections[i].View() ==
                  if (if slaveAddress == -1 then currentSlave == Some(i) else slaveConnections[i].address == slaveAddress)
                  then U.HandleResponse(old(slaveConnections[i].View()), r, now).c else old(slaveConnections[i].View())
    {
      hide U.HandleResponse;
      var slave: Option<nat>;
      if slaveAddress == -1 {
        slave := currentSlave;
      } else {
        slave := GetSlaveConnection(slaveAddress);
      }
      if slave.Some? {
        slaveConnections[slave.value].HandleMessage(r, now);
      }
    }

    method RunStateMachine(now: nat)
      requires Valid()
      modifies this, slaveConnections
      ensures Valid() && slaveConnections == old(slaveConnections)
      ensures if slaveConnections == [] then currentSlave == old(currentSlave)
              else Bus.ValidBus(old(View())) && View() == Bus.RunBus(old(View()), now).0
      ensures broadcasts == old(broadcasts)
                            + if old(nextBroadcast).Some? && Ft12.FitsVariable(parameters.addressLength, old(nextBroadcast).value)
                              then [Request(USER_DATA_NO_REPLY, false, false, old(nextBroadcast).value)] else []
      ensures nextBroadcast == None
    {
      hide U.RunConnection, Bus.Select;
      SendBroadcast();
      assert View().connections == old(View().connections);
      if |slaveConnections| > 0 {
        SelectSlave();
        RunCurrent(now);
      }
    }

    method SendBroadcast()
      modifies this`nextBroadcast, this`broadcasts
      ensures broadcasts == old(broadcasts)
                            + if old(nextBroadcast).Some? && Ft12.FitsVariable(parameters.addressLength, old(nextBroadcast).value)
                              then [Request(USER_DATA_NO_REPLY, false, false, old(nextBroadcast).value)] else []
      ensures nextBroadcast == None
    {
      if nextBroadcast.Some? {
        if 1 + parameters.addressLength + |nextBroadcast.value| <= 255 {
          broadcasts := broadcasts + [Request(USER_DATA_NO_REPLY, false, false, nextBroadcast.value)];
        }
        nextBroadcast := None;
      }
    }

    method RunCurrent(now: nat)
      requires Valid() && currentSlave.Some?
      modifies slaveConnections
      ensures var b := old(View());
              var i := currentSlave.value;
              View() == b.(connections := b.connections[i := U.RunConnection(b.connections[i], now).0])
    {
      hide U.RunConnection;
      ghost var b := View();
      slaveConnections[currentSlave.value].RunStateMachine(now);
      assert View().connections == b.connections[currentSlave.value := slaveConnections[currentSlave.value].View()];
    }

    /** Which slave is run now. */
    method SelectSlave()
      requires Valid() && slaveConnections != []
      modifies this`currentSlave, this`currentSlaveIndex
      ensures Valid() && Bus.ValidBus(old(View())) && View() == Bus.Select(old(View())) && currentSlave.Some?
    {
      Rings.FollowingWraps(currentSlaveIndex, |slaveConnections|);
      if currentSlave.Some? {
        if !slaveConnections[currentSlave.value].waitingForResponse {
          currentSlave := None;
        }
      }
      if currentSlave.None? {
        currentSlave := Some(currentSlaveIndex);
        currentSlaveIndex := Rings.Following(currentSlaveIndex, |slaveConnections|);
      }
    }
  }
}
