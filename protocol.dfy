/** Machine integers, MySensors protocol constants and the records the
    standalone gateway transport reads and writes. */
module Protocol {

  newtype byte = x: int | 0 <= x < 0x100
  newtype u16 = x: int | 0 <= x < 0x1_0000
  newtype u32 = x: int | 0 <= x < 0x1_0000_0000

  /** `b++` on a uint8_t: wraps from 255 to 0. */
  function IncByte(b: byte): (r: byte)
    ensures b < 255 ==> r as int == b as int + 1
    ensures b == 255 ==> r == 0
  {
    ((b as int + 1) % 0x100) as byte
  }

  /** `c++` on a uint16_t: wraps from 65535 to 0. */
  function IncU16(c: u16): (r: u16)
    ensures c < 0xFFFF ==> r as int == c as int + 1
    ensures c == 0xFFFF ==> r == 0
  {
    ((c as int + 1) % 0x1_0000) as u16
  }

  /** `now - start` on uint32_t millisecond timestamps: the number of
      milliseconds that takes the wrapping 32-bit clock from start to now. */
  function Elapsed(start: u32, now: u32): (d: u32)
    ensures (start as int + d as int) % 0x1_0000_0000 == now as int
  {
    ((now as int - start as int) % 0x1_0000_0000) as u32
  }

  // Message commands (mysensors_command_t)
  const C_INTERNAL: byte := 3
  const C_INVALID_7: byte := 7

  // Internal message subtypes (mysensors_internal_t)
  const I_ID_REQUEST: byte := 3
  const I_ID_RESPONSE: byte := 4
  const I_CONFIG: byte := 6
  const I_FIND_PARENT_REQUEST: byte := 7
  const I_FIND_PARENT_RESPONSE: byte := 8
  const I_DISCOVER_REQUEST: byte := 20
  const I_DISCOVER_RESPONSE: byte := 21
  const I_PING: byte := 24
  const I_PONG: byte := 25
  const I_REGISTRATION_REQUEST: byte := 26
  const I_REGISTRATION_RESPONSE: byte := 27

  /** The internal subtypes the gateway answers itself. */
  const AnsweredTypes: set<byte> :=
    {I_REGISTRATION_REQUEST, I_ID_REQUEST, I_FIND_PARENT_REQUEST,
     I_DISCOVER_REQUEST, I_PING, I_CONFIG}

  /** The AUTO marker placed in the sensor field of an ID response. */
  const Auto: byte := 255

  /** getNodeId() of a gateway. */
  const GatewayId: byte := 0

  // The two telemetry channels the node table tracks
  const TempSensor: byte := 1
  const V_TEMP: byte := 0
  const BatterySensor: byte := 201
  const V_VOLTAGE: byte := 38

  /** A single-precision float, kept as its IEEE-754 bits: the transport only
      stores and copies these values. */
  datatype Reading = Reading(bits: bv32)

  /** INVALID_F, that is -1000.0f. */
  const InvalidF: Reading := Reading(0xC47A_0000)

  /** 0.0f, the value of a zero-initialised float. */
  const ZeroF: Reading := Reading(0)

  /** nodeState_t: last known telemetry of one node. */
  datatype NodeState = NodeState(voltage: Reading, temp: Reading, time: u32)

  /** A slot as the init loop leaves it. */
  const Unset: NodeState := NodeState(InvalidF, InvalidF, 0)

  /** A slot as static zero-initialisation leaves it. */
  const ZeroState: NodeState := NodeState(ZeroF, ZeroF, 0)

  /** The fields of an inbound MyMessage that the transport reads. */
  datatype Message = Message(
    command: byte,
    sender: byte,
    sensor: byte,
    msgType: byte,
    byteValue: byte,
    floatValue: Reading)

  /** The payload of the response buffer: absent after clear(), a byte after
      set(uint8_t), a boolean after set(bool). */
  datatype Payload = NoPayload | BytePayload(value: byte) | BoolPayload(flag: bool)

  /** The fields of the outbound response MyMessage that the transport sets. */
  datatype Response = Response(
    command: byte,
    sender: byte,
    destination: byte,
    sensor: byte,
    msgType: byte,
    payload: Payload)

  /** A MyMessage after clear(). */
  const ClearedResponse: Response := Response(0, 0, 0, 0, 0, NoPayload)

  /** Calls into the MySensors core and the sketch, which have no visible
      behaviour here: inclusionInit(), inclusionModeSet(b), received(node),
      setIndication(INDICATION_GW_RX) and setIndication(INDICATION_GW_TX). */
  datatype Event =
    | InclusionInit
    | InclusionModeSet(on: bool)
    | NodeReceived(node: byte)
    | IndicationRx
    | IndicationTx
}
