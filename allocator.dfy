/** The node-ID counter kept in EEPROM slot EEPROM_LAST_NODE_ID: one byte
    holding the last ID handed out, where the erased value 0xFF means that no
    ID has been handed out yet. */
module Allocator {
  import opened Protocol

  const ErasedByte: byte := 0xFF

  /** getLastNodeId: the stored byte, with the erased value read as 0. */
  function LastNodeId(stored: byte): (last: byte)
    ensures last != ErasedByte
    ensures stored != ErasedByte ==> last == stored
    ensures stored == ErasedByte ==> last == 0
  {
    if stored == ErasedByte then 0 else stored
  }

  /** What getnextNodeId returns and what it leaves in the EEPROM byte. */
  datatype Issue = Issue(id: byte, stored: byte)

  /** getnextNodeId: one past the last issued ID, saved back as the new last
      issued ID. It never yields 0; it does yield 255, the erased value. */
  function NextNodeId(stored: byte): (r: Issue)
    ensures r.id != 0
    ensures r.id as int == LastNodeId(stored) as int + 1
    ensures r.stored == r.id
  {
    var last := LastNodeId(stored);
    var next := last + 1;
    Issue(next, next)
  }

  /** After resetTransport stores 0, the next ID is 1 and 1 is persisted. */
  lemma ResetThenNextIsOne()
    ensures NextNodeId(0) == Issue(1, 1)
  {
  }

  /** Successive calls hand out successive IDs as long as the previous one
      was below 255. */
  lemma SuccessiveIdsIncrease(stored: byte)
    requires NextNodeId(stored).id < 255
    ensures NextNodeId(NextNodeId(stored).stored).id as int == NextNodeId(stored).id as int + 1
  {
  }

  /** Handing out 255 saves the erased value, so the call after it restarts
      at 1 and hands out an ID that is already in use. */
  lemma IssuingErasedValueRestarts()
    ensures NextNodeId(254) == Issue(255, ErasedByte)
    ensures NextNodeId(NextNodeId(254).stored) == Issue(1, 1)
  {
  }

  /** getnextNodeId as the check for 0 at its call site expects it: 0 when
      no ID below the reserved 255 is free, and then nothing is saved. */
  function NextNodeIdIntended(stored: byte): (r: Issue)
    ensures r.id != 255
    ensures r.id == 0 <==> LastNodeId(stored) == 254
    ensures r.id == 0 ==> r.stored == stored
    ensures r.id != 0 ==> r.id as int == LastNodeId(stored) as int + 1 && r.stored == r.id
  {
    if LastNodeId(stored) == 254 then Issue(0, stored) else NextNodeId(stored)
  }

  /** The intended allocator never hands out an ID twice without a reset:
      the call after a successful one gives a larger ID or reports that none
      is free. */
  lemma IntendedIdsNeverRestart(stored: byte)
    requires NextNodeIdIntended(stored).id != 0
    ensures var again := NextNodeIdIntended(NextNodeIdIntended(stored).stored);
            again.id == 0 || again.id > NextNodeIdIntended(stored).id
  {
  }
}
