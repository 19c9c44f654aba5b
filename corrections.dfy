/** The transport with its two ID-path defects corrected: the allocator
    reports exhaustion with 0 instead of handing out the reserved 255, and a
    message from a node that has no ID yet (sender AUTO) is ingested without
    touching the node table. With both, a new node's ID requests within one
    window always get one and the same answer. */
module Corrections {
  import opened Protocol
  import Allocator
  import opened TransportSpec

  // ---------------------------------------------------------------------
  // Ingestion

  /** gatewayTransportReceived with the table write skipped for a sender
      that has no slot. */
  function ReceivedGuarded(s: State, m: Message, now: u32): (t: State)
    requires Sized(s)
    ensures Sized(t) && (Inv(s) ==> Inv(t))
    ensures m.sender as int < NodeCount ==> t == Received(s, m, now)
    ensures m.sender as int >= NodeCount ==>
              t.nodes == s.nodes &&
              t.counter as int == (s.counter as int + 1) % 0x1_0000 &&
              t.lastCommand == m.command && t.lastSender == m.sender &&
              t.lastSensor == m.sensor && t.lastType == m.msgType && t.lastByte == m.byteValue &&
              t.(counter := s.counter, lastCommand := s.lastCommand,
                 lastSender := s.lastSender, lastSensor := s.lastSensor,
                 lastType := s.lastType, lastByte := s.lastByte) == s
  {
    if m.sender as int < NodeCount then Received(s, m, now)
    else
      s.(counter := IncU16(s.counter),
         lastCommand := m.command, lastSender := m.sender, lastSensor := m.sensor,
         lastType := m.msgType, lastByte := m.byteValue)
  }

  // ---------------------------------------------------------------------
  // Response handler

  /** The ID for an ID request: the cached one, or else one from the
      intended allocator. */
  function IdForRequestIntended(s: State): Allocator.Issue
  {
    if s.nextNodeId == NoCachedId then Allocator.NextNodeIdIntended(s.stored)
    else Allocator.Issue(s.nextNodeId, s.stored)
  }

  /** The payload of an ID response for ID id: none when id is 0. */
  function IdPayload(id: byte): Payload
  {
    if id != 0 then BytePayload(id) else NoPayload
  }

  /** gatewayTransportAvailable with the intended allocator. Every other
      subtype is answered as before. */
  function AvailableIntended(s: State): (p: Poll)
    ensures !(Pending(s) && s.lastType == I_ID_REQUEST) ==> p == Available(s)
    ensures Pending(s) && s.lastType == I_ID_REQUEST ==>
              p.ready &&
              p.next.response ==
                Response(C_INTERNAL, GatewayId, s.lastSender, Auto, I_ID_RESPONSE,
                         IdPayload(IdForRequestIntended(s).id)) &&
              p.next.response.payload != BytePayload(255) &&
              p.next.lastCommand == C_INVALID_7
    ensures p.next.nodes == s.nodes && p.next.inclusion == s.inclusion
  {
    if Pending(s) && s.lastType == I_ID_REQUEST then
      var issue := IdForRequestIntended(s);
      var reply := Response(C_INTERNAL, GatewayId, s.lastSender, Auto, I_ID_RESPONSE,
                            IdPayload(issue.id));
      Poll(true, s.(lastCommand := C_INVALID_7, nextNodeId := issue.id,
                    stored := issue.stored, response := reply))
    else
      Available(s)
  }

  /** One turn of the corrected transport loop. */
  function RoundIntended(s: State, m: Message, now: u32): (p: Poll)
    requires Sized(s)
    ensures Sized(p.next)
  {
    AvailableIntended(ReceivedGuarded(s, m, now))
  }

  /** An ID request from any node, with or without an ID of its own. */
  predicate IsAnyIdRequest(m: Message)
  {
    m.command == C_INTERNAL && m.msgType == I_ID_REQUEST
  }

  /** Turns of the corrected transport loop over a sequence of ID requests. */
  function IdRoundsIntended(s: State, ms: seq<Message>, now: u32): (t: State)
    requires Sized(s)
    ensures Sized(t)
    decreases |ms|
  {
    if ms == [] then s else IdRoundsIntended(RoundIntended(s, ms[0], now).next, ms[1..], now)
  }

  /** A new node's ID request gets the next free ID back, addressed to AUTO,
      and the node table is left alone. */
  lemma NewNodeGetsId(s: State, m: Message, now: u32)
    requires Sized(s) && s.inclusion && s.nextNodeId == NoCachedId
    requires IsAnyIdRequest(m) && m.sender == Auto
    requires Allocator.LastNodeId(s.stored) != 254
    ensures RoundIntended(s, m, now).ready
    ensures RoundIntended(s, m, now).next.response ==
              Response(C_INTERNAL, GatewayId, Auto, Auto, I_ID_RESPONSE,
                       BytePayload(Allocator.LastNodeId(s.stored) + 1))
    ensures RoundIntended(s, m, now).next.nodes == s.nodes
  {
  }

  /** Once the window has an answer (an ID, or 0 for none free), every
      further ID request in it gets that answer, to whichever node asked,
      and the stored byte does not move. */
  lemma {:induction false} IntendedAnswerIsRepeated(s: State, ms: seq<Message>, now: u32)
    requires Sized(s) && s.inclusion && s.nextNodeId != NoCachedId
    requires forall j :: 0 <= j < |ms| ==> IsAnyIdRequest(ms[j])
    ensures IdRoundsIntended(s, ms, now).inclusion
    ensures IdRoundsIntended(s, ms, now).nextNodeId == s.nextNodeId
    ensures IdRoundsIntended(s, ms, now).stored == s.stored
    ensures ms != [] ==>
              IdRoundsIntended(s, ms, now).response.payload == IdPayload(s.nextNodeId) &&
              IdRoundsIntended(s, ms, now).response.destination == ms[|ms| - 1].sender
    decreases |ms|
  {
    if ms != [] {
      assert IsAnyIdRequest(ms[0]);
      var t := RoundIntended(s, ms[0], now).next;
      assert t.nextNodeId == s.nextNodeId && t.stored == s.stored && t.inclusion;
      IntendedAnswerIsRepeated(t, ms[1..], now);
      if |ms| == 1 {
        assert ms[1..] == [];
      } else {
        assert ms[1..][|ms[1..]| - 1] == ms[|ms| - 1];
      }
    }
  }

  /** However often the ID request is repeated within one window, whatever
      the stored byte: every answer is the same, the reserved 255 is never
      handed out, and the stored byte moves at most once. */
  lemma IntendedOneIdPerWindow(s: State, m: Message, ms: seq<Message>, now: u32)
    requires Sized(s) && s.inclusion && s.nextNodeId == NoCachedId
    requires IsAnyIdRequest(m) && forall j :: 0 <= j < |ms| ==> IsAnyIdRequest(ms[j])
    ensures IdRoundsIntended(RoundIntended(s, m, now).next, ms, now).stored
            == Allocator.NextNodeIdIntended(s.stored).stored
    ensures IdRoundsIntended(RoundIntended(s, m, now).next, ms, now).response.payload
            == IdPayload(Allocator.NextNodeIdIntended(s.stored).id)
    ensures IdRoundsIntended(RoundIntended(s, m, now).next, ms, now).response.payload
            != BytePayload(255)
  {
    var first := RoundIntended(s, m, now).next;
    assert first.nextNodeId == Allocator.NextNodeIdIntended(s.stored).id;
    IntendedAnswerIsRepeated(first, ms, now);
  }

  /** With the last issued ID at 254, the corrected window answers both ID
      requests without a payload and leaves the stored byte at 254. */
  lemma ExhaustionDropsPayload(s: State, m1: Message, m2: Message, now: u32)
    requires Sized(s) && s.inclusion && s.nextNodeId == NoCachedId && s.stored == 254
    requires IsAnyIdRequest(m1) && IsAnyIdRequest(m2)
    ensures RoundIntended(s, m1, now).next.response.payload == NoPayload
    ensures RoundIntended(RoundIntended(s, m1, now).next, m2, now).next.response.payload == NoPayload
    ensures RoundIntended(RoundIntended(s, m1, now).next, m2, now).next.stored == 254
  {
  }
}
