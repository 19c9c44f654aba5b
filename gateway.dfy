/** The standalone gateway transport as the object it is in the sketch: the
    globals become fields and the node table an array of 255 slots. Each
    entry point that changes the globals is a method proved to follow its
    function in TransportSpec; the node-ID calls follow Allocator. */
module Gateway {
  import opened Protocol
  import Allocator
  import TransportSpec

  class StandaloneTransport {
    var nodeStates: array<NodeState>
    var inclusion: bool
    var inclusionStartTime: u32
    var nextNodeId: byte
    var lastMessageCommand: byte
    var lastMessageSender: byte
    var lastMessageSensor: byte
    var lastMessageType: byte
    var lastMessageByte: byte
    var responseMsg: Response
    var messageCounter: u16
    /** The EEPROM byte at EEPROM_LAST_NODE_ID. */
    var eeprom: byte
    /** The calls made into the MySensors core and the sketch, in order. */
    ghost var events: seq<Event>

    ghost predicate Valid()
      reads this
    {
      nodeStates.Length == TransportSpec.NodeCount && nextNodeId != 0
    }

    /** The fields as one TransportSpec.State value. */
    ghost function View(): TransportSpec.State
      reads this, nodeStates
    {
      TransportSpec.State(nodeStates[..], inclusion, inclusionStartTime, nextNodeId,
                          lastMessageCommand, lastMessageSender, lastMessageSensor,
                          lastMessageType, lastMessageByte, responseMsg,
                          messageCounter, eeprom)
    }

    /** Static initialisation of the globals; the EEPROM keeps what it held. */
    constructor (storedByte: byte)
      ensures Valid() && fresh(nodeStates)
      ensures View() == TransportSpec.PowerOn(storedByte) && events == []
    {
      nodeStates := new NodeState[TransportSpec.NodeCount](_ => ZeroState);
      inclusion := false;
      inclusionStartTime := 0;
      nextNodeId := TransportSpec.NoCachedId;
      lastMessageCommand := 0;
      lastMessageSender := 0;
      lastMessageSensor := 0;
      lastMessageType := 0;
      lastMessageByte := 0;
      responseMsg := ClearedResponse;
      messageCounter := 0;
      eeprom := storedByte;
      events := [];
    }

    /** getTransportInclusionTimeout(duration) at time now. */
    function GetTransportInclusionTimeout(now: u32, duration: u32): (timedOut: bool)
      reads this, nodeStates
      ensures timedOut == TransportSpec.InclusionTimedOut(View(), now, duration)
    {
      Elapsed(inclusionStartTime, now) > duration
    }

    /** getLastNodeId: reads the stored byte and changes nothing. */
    method GetLastNodeId() returns (id: byte)
      ensures id == Allocator.LastNodeId(eeprom)
      ensures id != Allocator.ErasedByte
    {
      id := eeprom;
      if id == Allocator.ErasedByte {
        id := 0;
      }
    }

    /** getnextNodeId: issue one past the last issued ID and persist it. */
    method GetNextNodeId() returns (id: byte)
      modifies this`eeprom
      ensures Allocator.NextNodeId(old(eeprom)) == Allocator.Issue(id, eeprom)
      ensures 1 <= id
    {
      var lastNodeId := eeprom;
      if lastNodeId == Allocator.ErasedByte {
        lastNodeId := 0;
      }
      lastNodeId := lastNodeId + 1;
      eeprom := lastNodeId;
      id := lastNodeId;
    }

    /** resetTransport. */
    method ResetTransport()
      requires Valid()
      modifies this`eeprom
      ensures Valid() && View() == TransportSpec.Reset(old(View()))
    {
      eeprom := 0;
    }

    /** setTransportInclusion(open) at time now. */
    method SetTransportInclusion(open: bool, now: u32)
      requires Valid()
      modifies this`inclusion, this`inclusionStartTime, this`nextNodeId, this`events
      ensures Valid() && View() == TransportSpec.SetInclusion(old(View()), open, now)
      ensures events == old(events) + [InclusionModeSet(open)]
    {
      inclusion := open;
      events := events + [InclusionModeSet(inclusion)];
      inclusionStartTime := now;
      if !open {
        nextNodeId := TransportSpec.NoCachedId;
      }
    }

    /** getNodeState(nodeId): the slot of a node ID below 255. */
    function GetNodeState(nodeId: byte): (st: NodeState)
      requires Valid() && nodeId as int < TransportSpec.NodeCount
      reads this, nodeStates
      ensures st == View().nodes[nodeId]
    {
      nodeStates[nodeId]
    }

    /** gatewayTransportReceived(message) at time now. */
    method GatewayTransportReceived(message: Message, now: u32)
      requires Valid() && message.sender as int < TransportSpec.NodeCount
      modifies this, nodeStates
      ensures Valid() && nodeStates == old(nodeStates)
      ensures View() == TransportSpec.Received(old(View()), message, now)
      ensures events == old(events) + [NodeReceived(message.sender)]
    {
      messageCounter := IncU16(messageCounter);

      lastMessageCommand := message.command;
      lastMessageSender := message.sender;
      lastMessageSensor := message.sensor;
      lastMessageType := message.msgType;
      lastMessageByte := message.byteValue;

      if lastMessageSensor == TempSensor && lastMessageType == V_TEMP {
        nodeStates[lastMessageSender] := nodeStates[lastMessageSender].(temp := message.floatValue);
      }

      if lastMessageSensor == BatterySensor && lastMessageType == V_VOLTAGE {
        nodeStates[lastMessageSender] := nodeStates[lastMessageSender].(voltage := message.floatValue);
      }

      nodeStates[lastMessageSender] := nodeStates[lastMessageSender].(time := now);

      events := events + [NodeReceived(lastMessageSender)];
    }

    /** gatewayTransportSend(message): ingest it, signal a transmission, and
      report success. */
    method GatewayTransportSend(message: Message, now: u32) returns (ok: bool)
      requires Valid() && message.sender as int < TransportSpec.NodeCount
      modifies this, nodeStates
      ensures Valid() && nodeStates == old(nodeStates)
      ensures View() == TransportSpec.Received(old(View()), message, now)
      ensures events == old(events) + [NodeReceived(message.sender), IndicationTx]
      ensures ok
    {
      GatewayTransportReceived(message, now);
      events := events + [IndicationTx];
      ok := true;
    }

    /** gatewayTransportInit at time now, with the loop bounded by the 255
      slots of the table. */
    method GatewayTransportInit(now: u32) returns (ok: bool)
      requires Valid()
      modifies this, nodeStates
      ensures Valid() && nodeStates == old(nodeStates)
      ensures View() == TransportSpec.Init(old(View()), now)
      ensures events == old(events) + [InclusionInit, InclusionModeSet(false)]
      ensures ok
    {
      inclusion := false;
      events := events + [InclusionInit, InclusionModeSet(false)];
      inclusionStartTime := now;

      var i := 0;
      while i < nodeStates.Length
        modifies nodeStates
        invariant 0 <= i <= nodeStates.Length
        invariant forall k :: 0 <= k < i ==> nodeStates[k] == Unset
      {
        nodeStates[i] := nodeStates[i].(voltage := InvalidF, temp := InvalidF, time := 0);
        i := i + 1;
      }
      ok := true;
    }

    /** gatewayTransportAvailable: answer a pending internal command in the
      response buffer and mark it handled. */
    method GatewayTransportAvailable() returns (result: bool)
      requires Valid()
      modifies this
      ensures Valid() && nodeStates == old(nodeStates)
      ensures TransportSpec.Available(old(View())) == TransportSpec.Poll(result, View())
      ensures events == old(events) +
                if TransportSpec.Pending(old(View())) && old(lastMessageType) == I_REGISTRATION_REQUEST
                then [IndicationRx] else []
    {
      result := false;
      if lastMessageCommand == C_INTERNAL && inclusion {
        result := true;

        responseMsg := ClearedResponse;
        responseMsg := responseMsg.(command := C_INTERNAL);
        responseMsg := responseMsg.(sender := GatewayId);
        responseMsg := responseMsg.(destination := lastMessageSender);

        if lastMessageType == I_REGISTRATION_REQUEST {
          events := events + [IndicationRx];
          responseMsg := responseMsg.(msgType := I_REGISTRATION_RESPONSE);
          responseMsg := responseMsg.(payload := BoolPayload(true));
        } else if lastMessageType == I_ID_REQUEST {
          responseMsg := responseMsg.(msgType := I_ID_RESPONSE);
          responseMsg := responseMsg.(sensor := Auto);
          if nextNodeId == TransportSpec.NoCachedId {
            nextNodeId := GetNextNodeId();
          }
          if nextNodeId != 0 {
            responseMsg := responseMsg.(payload := BytePayload(nextNodeId));
          }
        } else if lastMessageType == I_FIND_PARENT_REQUEST {
          responseMsg := responseMsg.(msgType := I_FIND_PARENT_RESPONSE);
          responseMsg := responseMsg.(payload := BytePayload(0));
        } else if lastMessageType == I_DISCOVER_REQUEST {
          responseMsg := responseMsg.(msgType := I_DISCOVER_RESPONSE);
          responseMsg := responseMsg.(payload := BytePayload(0));
        } else if lastMessageType == I_PING {
          responseMsg := responseMsg.(msgType := I_PONG);
          responseMsg := responseMsg.(payload := BytePayload(lastMessageByte));
          lastMessageByte := IncByte(lastMessageByte);
        } else if lastMessageType == I_CONFIG {
          responseMsg := responseMsg.(msgType := I_CONFIG);
          responseMsg := responseMsg.(payload := BytePayload(0));
        } else {
          result := false;
        }
        lastMessageCommand := C_INVALID_7;
      }
    }

    /** gatewayTransportReceive: the response buffer as the last availability
      check left it, whether or not that check answered. */
    method GatewayTransportReceive() returns (message: Response)
      ensures message == responseMsg
    {
      message := responseMsg;
    }
  }
}
