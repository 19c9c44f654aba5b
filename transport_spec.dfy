/** The whole state of the standalone gateway transport as one value, and
    every operation on it as a function from the old state to the new one.
    The class in module Gateway is proved to follow these functions. */
module TransportSpec {
  import opened Protocol
  import Allocator

  /** nodeStates[255]: one slot per node ID 0..254. */
  const NodeCount := 255

  /** nextNodeId when no ID is cached for the current inclusion window. */
  const NoCachedId: byte := 255

  datatype State = State(
    nodes: seq<NodeState>,     // nodeStates
    inclusion: bool,           // inclusion
    inclusionStart: u32,       // inclusionStartTime
    nextNodeId: byte,          // nextNodeId
    lastCommand: byte,         // lastMessageCommand
    lastSender: byte,          // lastMessageSender
    lastSensor: byte,          // lastMessageSensor
    lastType: byte,            // lastMessageType
    lastByte: byte,            // lastMessageByte
    response: Response,        // _responseMsg
    counter: u16,              // messageCounter
    stored: byte)              // EEPROM byte EEPROM_LAST_NODE_ID

  /** The table has its 255 slots. */
  predicate Sized(s: State)
  {
    |s.nodes| == NodeCount
  }

  /** What every operation preserves: the table has its 255 slots, and the
      cached ID is never 0 (it is 255 or an ID getnextNodeId returned). */
  predicate Inv(s: State)
  {
    Sized(s) && s.nextNodeId != 0
  }

  /** The globals after static initialisation, with the EEPROM byte as found. */
  function PowerOn(eeprom: byte): (s: State)
    ensures Inv(s) && !s.inclusion && s.nextNodeId == NoCachedId
    ensures s.counter == 0 && s.stored == eeprom
  {
    State(seq(NodeCount, _ => ZeroState), false, 0, NoCachedId,
          0, 0, 0, 0, 0, ClearedResponse, 0, eeprom)
  }

  // ---------------------------------------------------------------------
  // Inclusion window

  /** setTransportInclusion: set the flag and restart the window clock;
      closing the window also drops the cached ID, opening keeps it. */
  function SetInclusion(s: State, open: bool, now: u32): (t: State)
    ensures t.inclusion == open && t.inclusionStart == now
    ensures !open ==> t.nextNodeId == NoCachedId
    ensures open ==> t.nextNodeId == s.nextNodeId
    ensures t.(inclusion := s.inclusion, inclusionStart := s.inclusionStart,
               nextNodeId := s.nextNodeId) == s
    ensures Inv(s) ==> Inv(t)
  {
    s.(inclusion := open, inclusionStart := now,
       nextNodeId := if open then s.nextNodeId else NoCachedId)
  }

  /** getTransportInclusionTimeout: more than duration milliseconds have
      passed on the wrapping clock since the window was last set. */
  predicate InclusionTimedOut(s: State, now: u32, duration: u32)
  {
    Elapsed(s.inclusionStart, now) > duration
  }

  /** resetTransport: store 0 as the last issued ID. */
  function Reset(s: State): (t: State)
    ensures t.stored == 0 && t.(stored := s.stored) == s
    ensures Allocator.NextNodeId(t.stored).id == 1
    ensures Inv(s) ==> Inv(t)
  {
    s.(stored := 0)
  }

  // ---------------------------------------------------------------------
  // Ingestion

  predicate IsTemperature(m: Message)
  {
    m.sensor == TempSensor && m.msgType == V_TEMP
  }

  predicate IsVoltage(m: Message)
  {
    m.sensor == BatterySensor && m.msgType == V_VOLTAGE
  }

  /** The sender's slot after ingesting m at time now. */
  function UpdatedSlot(slot: NodeState, m: Message, now: u32): NodeState
  {
    var withTemp := if IsTemperature(m) then slot.(temp := m.floatValue) else slot;
    var withVoltage := if IsVoltage(m) then withTemp.(voltage := m.floatValue) else withTemp;
    withVoltage.(time := now)
  }

  /** gatewayTransportReceived: count the message, snapshot its header, and
      refresh the sender's slot. */
  function Received(s: State, m: Message, now: u32): (t: State)
    requires Sized(s) && m.sender as int < NodeCount
    ensures Sized(t) && (Inv(s) ==> Inv(t))
    ensures t.counter as int == (s.counter as int + 1) % 0x1_0000
    ensures t.lastCommand == m.command && t.lastSender == m.sender
    ensures t.lastSensor == m.sensor && t.lastType == m.msgType && t.lastByte == m.byteValue
    ensures forall i :: 0 <= i < NodeCount && i != m.sender as int ==> t.nodes[i] == s.nodes[i]
    ensures t.nodes[m.sender].temp ==
              if IsTemperature(m) then m.floatValue else s.nodes[m.sender].temp
    ensures t.nodes[m.sender].voltage ==
              if IsVoltage(m) then m.floatValue else s.nodes[m.sender].voltage
    ensures t.nodes[m.sender].time == now
    ensures t.(nodes := s.nodes, counter := s.counter, lastCommand := s.lastCommand,
               lastSender := s.lastSender, lastSensor := s.lastSensor,
               lastType := s.lastType, lastByte := s.lastByte) == s
  {
    s.(counter := IncU16(s.counter),
       lastCommand := m.command, lastSender := m.sender, lastSensor := m.sensor,
       lastType := m.msgType, lastByte := m.byteValue,
       nodes := s.nodes[m.sender := UpdatedSlot(s.nodes[m.sender], m, now)])
  }

  /** Ingest a sequence of messages one after the other. */
  function ReceivedAll(s: State, ms: seq<Message>, now: u32): (t: State)
    requires Inv(s) && forall j :: 0 <= j < |ms| ==> ms[j].sender as int < NodeCount
    ensures Inv(t)
    decreases |ms|
  {
    if ms == [] then s else ReceivedAll(Received(s, ms[0], now), ms[1..], now)
  }

  /** Received's precondition is that the sender has a slot, as the source
      writes nodeStates[sender]. A node without an ID yet sends as AUTO
      (255), and no message of such a node meets it. */
  lemma NewNodeMessageIndexesPastTable(s: State, m: Message)
    requires Sized(s) && m.sender == Auto
    ensures !(0 <= m.sender as int < |s.nodes|)
    ensures !(m.sender as int < NodeCount)
  {
  }

  /** The node IDs that sent any of ms. */
  function Senders(ms: seq<Message>): set<int>
  {
    set j | 0 <= j < |ms| :: ms[j].sender as int
  }

  // ---------------------------------------------------------------------
  // Start-up

  /** gatewayTransportInit, with the loop over the table's slots 0..254:
      close the window, restart its clock, and mark every slot unset. */
  function Init(s: State, now: u32): (t: State)
    ensures !t.inclusion && t.inclusionStart == now
    ensures |t.nodes| == NodeCount
    ensures forall i :: 0 <= i < NodeCount ==> t.nodes[i] == Unset
    ensures t.(nodes := s.nodes, inclusion := s.inclusion, inclusionStart := s.inclusionStart) == s
    ensures Inv(s) ==> Inv(t)
  {
    s.(inclusion := false, inclusionStart := now, nodes := seq(NodeCount, _ => Unset))
  }

  /** The indices the init loop as written visits: `for (uint8_t i = start; ;
      i++) { ...; if (i == 255) break; }`. */
  function InitLoopVisits(start: byte): (r: seq<int>)
    decreases 255 - start
  {
    if start == 255 then [start as int] else [start as int] + InitLoopVisits(start + 1)
  }

  /** The loop as written visits every value a uint8_t can hold, in order. */
  lemma {:induction false} InitLoopVisitsRange(start: byte)
    ensures |InitLoopVisits(start)| == 256 - start as int
    ensures forall j :: 0 <= j < |InitLoopVisits(start)| ==>
              InitLoopVisits(start)[j] == start as int + j
    decreases 255 - start
  {
    if start < 255 {
      InitLoopVisitsRange(start + 1);
    }
  }

  /** The loop as written stores into nodeStates[255], one past the last slot
      of the 255-entry table. */
  lemma InitLoopWritesPastTable()
    ensures 255 in InitLoopVisits(0)
    ensures exists j :: 0 <= j < |InitLoopVisits(0)| && InitLoopVisits(0)[j] >= NodeCount
  {
    InitLoopVisitsRange(0);
    assert InitLoopVisits(0)[255] == 255;
  }

  // ---------------------------------------------------------------------
  // Response handler

  /** The availability check responds only to an unhandled internal command
      while the inclusion window is open. */
  predicate Pending(s: State)
  {
    s.lastCommand == C_INTERNAL && s.inclusion
  }

  /** The result of gatewayTransportAvailable and the state it leaves. */
  datatype Poll = Poll(ready: bool, next: State)

  /** The ID for an ID request: the cached one, or a fresh one from
      getnextNodeId when nothing is cached. */
  function IdForRequest(s: State): Allocator.Issue
  {
    if s.nextNodeId == NoCachedId then Allocator.NextNodeId(s.stored)
    else Allocator.Issue(s.nextNodeId, s.stored)
  }

  /** gatewayTransportAvailable: answer the pending internal command, if any,
      in the response buffer, and mark the command handled. */
  function Available(s: State): (p: Poll)
    ensures !Pending(s) ==> p == Poll(false, s)
    ensures p.ready <==> Pending(s) && s.lastType in AnsweredTypes
    ensures Pending(s) ==> p.next.lastCommand == C_INVALID_7
    ensures Pending(s) ==> (p.next.response.command == C_INTERNAL &&
                            p.next.response.sender == GatewayId &&
                            p.next.response.destination == s.lastSender)
    ensures p.next.nodes == s.nodes && p.next.counter == s.counter
    ensures p.next.inclusion == s.inclusion && p.next.inclusionStart == s.inclusionStart
    ensures p.next.lastSender == s.lastSender && p.next.lastSensor == s.lastSensor
    ensures p.next.lastType == s.lastType
    ensures p.next.stored != s.stored || p.next.nextNodeId != s.nextNodeId ==>
              Pending(s) && s.lastType == I_ID_REQUEST
    ensures p.next.lastByte != s.lastByte ==> Pending(s) && s.lastType == I_PING
    ensures Inv(s) ==> Inv(p.next)
  {
    if !Pending(s) then Poll(false, s)
    else
      var base := ClearedResponse.(command := C_INTERNAL, sender := GatewayId,
                                   destination := s.lastSender);
      var handled := s.(lastCommand := C_INVALID_7);
      if s.lastType == I_REGISTRATION_REQUEST then
        Poll(true, handled.(response := base.(msgType := I_REGISTRATION_RESPONSE,
                                              payload := BoolPayload(true))))
      else if s.lastType == I_ID_REQUEST then
        var issue := IdForRequest(s);
        var reply := base.(msgType := I_ID_RESPONSE, sensor := Auto,
                           payload := if issue.id != 0 then BytePayload(issue.id) else NoPayload);
        Poll(true, handled.(nextNodeId := issue.id, stored := issue.stored, response := reply))
      else if s.lastType == I_FIND_PARENT_REQUEST then
        Poll(true, handled.(response := base.(msgType := I_FIND_PARENT_RESPONSE,
                                              payload := BytePayload(0))))
      else if s.lastType == I_DISCOVER_REQUEST then
        Poll(true, handled.(response := base.(msgType := I_DISCOVER_RESPONSE,
                                              payload := BytePayload(0))))
      else if s.lastType == I_PING then
        Poll(true, handled.(lastByte := IncByte(s.lastByte),
                            response := base.(msgType := I_PONG,
                                              payload := BytePayload(s.lastByte))))
      else if s.lastType == I_CONFIG then
        Poll(true, handled.(response := base.(msgType := I_CONFIG,
                                              payload := BytePayload(0))))
      else
        Poll(false, handled.(response := base))
  }

  /** One turn of the outer transport loop: ingest m, then poll for a response. */
  function Round(s: State, m: Message, now: u32): (p: Poll)
    requires Inv(s) && m.sender as int < NodeCount
    ensures Inv(p.next)
  {
    Available(Received(s, m, now))
  }

  /** An ID request from a node that already has a usable sender ID. */
  predicate IsIdRequest(m: Message)
  {
    m.command == C_INTERNAL && m.msgType == I_ID_REQUEST && m.sender as int < NodeCount
  }

  /** Turns of the transport loop over a sequence of ID requests. */
  function IdRounds(s: State, ms: seq<Message>, now: u32): (t: State)
    requires Inv(s) && forall j :: 0 <= j < |ms| ==> IsIdRequest(ms[j])
    ensures Inv(t)
    decreases |ms|
  {
    if ms == [] then s
    else
      assert IsIdRequest(ms[0]);
      IdRounds(Round(s, ms[0], now).next, ms[1..], now)
  }
}
