/** Properties of the transport that span several calls: the inclusion
    window's clock, the response table, ID reuse within a window, and the
    message counter. */
module TransportProperties {
  import opened Protocol
  import Allocator
  import opened TransportSpec

  // ---------------------------------------------------------------------
  // Inclusion window

  /** Right after the window is set, it has not timed out, whatever the
      duration. */
  lemma NotTimedOutWhenSet(s: State, open: bool, now: u32, duration: u32)
    ensures !InclusionTimedOut(SetInclusion(s, open, now), now, duration)
  {
  }

  /** Across a wrap of the 32-bit clock, the window times out exactly when
      more than duration milliseconds have really passed, as long as fewer
      than 2^32 have. */
  lemma TimedOutIffElapsedExceeds(s: State, passed: int, duration: u32)
    requires 0 <= passed < 0x1_0000_0000
    ensures InclusionTimedOut(s, ((s.inclusionStart as int + passed) % 0x1_0000_0000) as u32, duration)
            <==> passed > duration as int
  {
  }

  // ---------------------------------------------------------------------
  // Response handler

  /** With the window closed, ingesting any message and polling yields no
      response and changes nothing more than the ingestion did. */
  lemma ClosedWindowNeverAnswers(s: State, m: Message, now: u32)
    requires Inv(s) && m.sender as int < NodeCount && !s.inclusion
    ensures Round(s, m, now) == Poll(false, Received(s, m, now))
  {
  }

  /** A poll marks whatever it answered as handled, so a second poll without
      a new ingestion answers nothing and changes nothing. */
  lemma SecondPollIsQuiet(s: State)
    ensures !Available(Available(s).next).ready
    ensures Available(Available(s).next).next == Available(s).next
  {
  }

  /** Registration, find-parent, discover and config requests get their
      response subtype with a fixed payload, addressed back to the sender. */
  lemma FixedReplies(s: State)
    requires Pending(s)
    ensures s.lastType == I_REGISTRATION_REQUEST ==>
      Available(s).next.response ==
        Response(C_INTERNAL, GatewayId, s.lastSender, 0, I_REGISTRATION_RESPONSE, BoolPayload(true))
    ensures s.lastType == I_FIND_PARENT_REQUEST ==>
      Available(s).next.response ==
        Response(C_INTERNAL, GatewayId, s.lastSender, 0, I_FIND_PARENT_RESPONSE, BytePayload(0))
    ensures s.lastType == I_DISCOVER_REQUEST ==>
      Available(s).next.response ==
        Response(C_INTERNAL, GatewayId, s.lastSender, 0, I_DISCOVER_RESPONSE, BytePayload(0))
    ensures s.lastType == I_CONFIG ==>
      Available(s).next.response ==
        Response(C_INTERNAL, GatewayId, s.lastSender, 0, I_CONFIG, BytePayload(0))
  {
  }

  /** A ping is answered with a pong that echoes the last payload byte, and
      that byte then moves on by one, wrapping at 256. */
  lemma PingEchoesAndCounts(s: State)
    requires Pending(s) && s.lastType == I_PING
    ensures Available(s).ready
    ensures Available(s).next.response ==
              Response(C_INTERNAL, GatewayId, s.lastSender, 0, I_PONG, BytePayload(s.lastByte))
    ensures Available(s).next.lastByte as int == (s.lastByte as int + 1) % 256
  {
  }

  /** An internal command of any other subtype is not answered, but it is
      still consumed, and the response buffer is left cleared and addressed. */
  lemma UnknownSubtypeIsConsumed(s: State)
    requires Pending(s) && s.lastType !in AnsweredTypes
    ensures !Available(s).ready
    ensures Available(s).next == s.(lastCommand := C_INVALID_7,
                                    response := Response(C_INTERNAL, GatewayId, s.lastSender, 0, 0, NoPayload))
  {
  }

  /** An ID request is answered with the cached ID, or else with a fresh one
      from the allocator, which alone touches the stored byte. The answer
      always carries the ID: the source's check for an ID of 0 never fails. */
  lemma IdRequestAnswer(s: State)
    requires Inv(s) && Pending(s) && s.lastType == I_ID_REQUEST
    ensures Available(s).ready
    ensures Available(s).next.response.msgType == I_ID_RESPONSE
    ensures Available(s).next.response.sensor == Auto
    ensures s.nextNodeId == NoCachedId ==>
              Available(s).next.response.payload == BytePayload(Allocator.NextNodeId(s.stored).id) &&
              Available(s).next.nextNodeId == Allocator.NextNodeId(s.stored).id &&
              Available(s).next.stored == Allocator.NextNodeId(s.stored).stored
    ensures s.nextNodeId != NoCachedId ==>
              Available(s).next.response.payload == BytePayload(s.nextNodeId) &&
              Available(s).next.nextNodeId == s.nextNodeId &&
              Available(s).next.stored == s.stored
    ensures Available(s).next.response.payload.BytePayload?
    ensures Available(s).next.response.payload.value != 0
  {
  }

  // ---------------------------------------------------------------------
  // One ID per inclusion window

  /** Once an ID is cached, every further ID request in the window is
      answered with it, to whichever node asked, and the stored byte does not
      move. */
  lemma {:induction false} CachedIdIsReissued(s: State, ms: seq<Message>, now: u32)
    requires Inv(s) && s.inclusion && s.nextNodeId != NoCachedId
    requires forall j :: 0 <= j < |ms| ==> IsIdRequest(ms[j])
    ensures IdRounds(s, ms, now).inclusion
    ensures IdRounds(s, ms, now).nextNodeId == s.nextNodeId
    ensures IdRounds(s, ms, now).stored == s.stored
    ensures ms != [] ==>
              IdRounds(s, ms, now).response.payload == BytePayload(s.nextNodeId) &&
              IdRounds(s, ms, now).response.destination == ms[|ms| - 1].sender
    decreases |ms|
  {
    if ms != [] {
      assert IsIdRequest(ms[0]);
      var r := Received(s, ms[0], now);
      IdRequestAnswer(r);
      var t := Round(s, ms[0], now).next;
      CachedIdIsReissued(t, ms[1..], now);
      if |ms| == 1 {
        assert ms[1..] == [];
      } else {
        assert ms[1..][|ms[1..]| - 1] == ms[|ms| - 1];
      }
    }
  }

  /** With nothing cached, the first ID request of a window takes a fresh ID
      from the allocator and caches it, unless that ID is 255, which reads as
      "nothing cached". */
  lemma FirstIdRequestAllocates(s: State, m: Message, now: u32)
    requires Inv(s) && s.inclusion && s.nextNodeId == NoCachedId && IsIdRequest(m)
    ensures Round(s, m, now).ready
    ensures Round(s, m, now).next.response.payload == BytePayload(Allocator.NextNodeId(s.stored).id)
    ensures Round(s, m, now).next.stored == Allocator.NextNodeId(s.stored).stored
    ensures Round(s, m, now).next.nextNodeId == Allocator.NextNodeId(s.stored).id
    ensures Round(s, m, now).next.inclusion
  {
  }

  /** However often the ID request is repeated within one window, every
      answer carries the same ID and the stored byte advances once, provided
      the last issued ID is not 254. */
  lemma OneIdPerWindow(s: State, m: Message, ms: seq<Message>, now: u32)
    requires Inv(s) && s.inclusion && s.nextNodeId == NoCachedId
    requires Allocator.LastNodeId(s.stored) != 254
    requires IsIdRequest(m) && forall j :: 0 <= j < |ms| ==> IsIdRequest(ms[j])
    ensures IdRounds(Round(s, m, now).next, ms, now).stored == Allocator.NextNodeId(s.stored).stored
    ensures IdRounds(Round(s, m, now).next, ms, now).response.payload
            == BytePayload(Allocator.NextNodeId(s.stored).id)
  {
    FirstIdRequestAllocates(s, m, now);
    CachedIdIsReissued(Round(s, m, now).next, ms, now);
  }

  /** When the last issued ID is 254, the window hands out 255, the reserved
      ID, and does not cache it; the next request in the same window takes
      another ID from the allocator, which restarts at 1, an ID already in use. */
  lemma IssuingIdErasedValueBreaksCache(s: State, m1: Message, m2: Message, now: u32)
    requires Inv(s) && s.inclusion && s.nextNodeId == NoCachedId && s.stored == 254
    requires IsIdRequest(m1) && IsIdRequest(m2)
    ensures Round(s, m1, now).next.response.payload == BytePayload(255)
    ensures Round(s, m1, now).next.nextNodeId == NoCachedId
    ensures Round(Round(s, m1, now).next, m2, now).next.response.payload == BytePayload(1)
    ensures Round(Round(s, m1, now).next, m2, now).next.stored == 1
  {
  }

  /** Closing the window and opening a new one makes the next ID request
      take the ID after the one the previous window issued. */
  lemma NextWindowIssuesNextId(s: State, m1: Message, m2: Message, t1: u32, t2: u32, t3: u32)
    requires Inv(s) && Allocator.LastNodeId(s.stored) < 254
    requires IsIdRequest(m1) && IsIdRequest(m2)
    ensures
      var w1 := Round(SetInclusion(SetInclusion(s, false, t1), true, t1), m1, t1);
      var w2 := Round(SetInclusion(SetInclusion(w1.next, false, t2), true, t2), m2, t3);
      w1.next.response.payload == BytePayload(Allocator.LastNodeId(s.stored) + 1) &&
      w2.next.response.payload == BytePayload(Allocator.LastNodeId(s.stored) + 2)
  {
  }

  /** After resetTransport, a freshly opened window answers an ID request
      from node 7 with ID 1 addressed to node 7, and a second poll without a
      new message answers nothing. */
  lemma ResetWindowScenario(s: State, sensor: byte, payload: byte, value: Reading, now: u32)
    requires Inv(s)
    ensures
      var window := SetInclusion(SetInclusion(Reset(s), false, now), true, now);
      var p := Round(window, Message(C_INTERNAL, 7, sensor, I_ID_REQUEST, payload, value), now);
      p.ready &&
      p.next.response == Response(C_INTERNAL, GatewayId, 7, Auto, I_ID_RESPONSE, BytePayload(1)) &&
      p.next.stored == 1 &&
      !Available(p.next).ready
  {
  }

  /** After resetTransport with the window open, an ID request gets 1 when
      nothing is cached and the cached ID otherwise: reset does not drop the
      cache, and no close is needed when there is nothing to drop. */
  lemma ResetIssuesOneUnlessCached(s: State, m: Message, now: u32)
    requires Inv(s) && s.inclusion && IsIdRequest(m)
    ensures Round(Reset(s), m, now).ready
    ensures Round(Reset(s), m, now).next.response.payload ==
              if s.nextNodeId == NoCachedId then BytePayload(1) else BytePayload(s.nextNodeId)
  {
  }

  // ---------------------------------------------------------------------
  // Ingestion

  /** The message counter counts ingested messages modulo 2^16, and the slot
      of a node that sent none of them is left as it was. */
  lemma {:induction false} ReceivedAllCounts(s: State, ms: seq<Message>, now: u32)
    requires Inv(s) && forall j :: 0 <= j < |ms| ==> ms[j].sender as int < NodeCount
    ensures ReceivedAll(s, ms, now).counter as int == (s.counter as int + |ms|) % 0x1_0000
    ensures forall i :: 0 <= i < NodeCount && i !in Senders(ms) ==>
              ReceivedAll(s, ms, now).nodes[i] == s.nodes[i]
    decreases |ms|
  {
    if ms != [] {
      assert ms[0].sender as int < NodeCount;
      var t := Received(s, ms[0], now);
      assert ReceivedAll(s, ms, now) == ReceivedAll(t, ms[1..], now);
      ReceivedAllCounts(t, ms[1..], now);
      WrapThenAdd(s.counter as int, |ms| - 1);
      assert Senders(ms[1..]) <= Senders(ms) by {
        forall x | x in Senders(ms[1..]) ensures x in Senders(ms) {
          var j :| 0 <= j < |ms[1..]| && ms[1..][j].sender as int == x;
          assert ms[j + 1].sender as int == x;
        }
      }
      assert ms[0].sender as int in Senders(ms);
    }
  }

  lemma WrapThenAdd(a: int, n: nat)
    ensures ((a + 1) % 0x1_0000 + n) % 0x1_0000 == (a + n + 1) % 0x1_0000
  {
  }

  /** A battery-voltage report sets the sender's voltage and time and leaves
      its temperature alone; a temperature report does the converse. */
  lemma TelemetryChannelsAreSeparate(s: State, m: Message, now: u32)
    requires Inv(s) && m.sender as int < NodeCount
    ensures IsVoltage(m) ==>
              Received(s, m, now).nodes[m.sender] ==
                s.nodes[m.sender].(voltage := m.floatValue, time := now)
    ensures IsTemperature(m) ==>
              Received(s, m, now).nodes[m.sender] ==
                s.nodes[m.sender].(temp := m.floatValue, time := now)
    ensures !IsVoltage(m) && !IsTemperature(m) ==>
              Received(s, m, now).nodes[m.sender] == s.nodes[m.sender].(time := now)
  {
  }

  /** After start-up every node's slot reads invalid, until that node reports. */
  lemma UnreportedNodesReadInvalid(s: State, ms: seq<Message>, now: u32, t: u32, n: int)
    requires Inv(s) && 0 <= n < NodeCount && n !in Senders(ms)
    requires forall j :: 0 <= j < |ms| ==> ms[j].sender as int < NodeCount
    ensures ReceivedAll(Init(s, now), ms, t).nodes[n] == NodeState(InvalidF, InvalidF, 0)
  {
    ReceivedAllCounts(Init(s, now), ms, t);
  }
}
