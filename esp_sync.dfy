/**
 * The ESP link handshake (common/esp_sync.c).  Each end starts Shy and sends
 * SYNC every handshake period; a SYNC_RESP makes it Curious, and it then sends
 * CONF; a CONF_RESP makes it Garrulous: the link is up.  While up it sends
 * KEEP_ALIVE every keep-alive period and resets the link after four
 * unanswered ones.  Handshake packets are one header byte: the code.
 */
module EspSync {
  import opened Machine
  import opened Wrappers
  import opened Esp
  import opened EspTx
  import opened EspLinkReset
  import EspFraming

  const KEEP_ALIVE_PERIOD: U16 := 500
  /** The keep-alive count at which the link is reset. */
  const KEEP_ALIVE_LIMIT := 4

  /** The packet ESP_SyncTxPacket queues; the fields it leaves unset are taken as zero. */
  function SyncPacketOf(code: Byte): (p: Packet)
    ensures p.kind == SyncPacket && p.header0 == code && p.data.None?
  {
    Packet(SyncPacket, false, code, 0, None)
  }

  /**
   * The five handshake codes are distinct, and none is a SLIP control byte,
   * so each travels unescaped as the three-byte frame FRAME, code, FRAME.
   */
  lemma SyncCodesPlain()
    ensures |{SYNC, SYNC_RESP, CONF, CONF_RESP, KEEP_ALIVE}| == 5
    ensures forall c | c in {SYNC, SYNC_RESP, CONF, CONF_RESP, KEEP_ALIVE} ::
      c != EspFraming.FRAME && c != EspFraming.ESC
      && EspFraming.Frame(SyncPacketOf(c).WireBytes()[..SYNC_PKT_SIZE]) == [EspFraming.FRAME, c, EspFraming.FRAME]
  {
    forall c | c in {SYNC, SYNC_RESP, CONF, CONF_RESP, KEEP_ALIVE}
      ensures EspFraming.Frame(SyncPacketOf(c).WireBytes()[..SYNC_PKT_SIZE]) == [EspFraming.FRAME, c, EspFraming.FRAME]
    {
      assert SyncPacketOf(c).WireBytes()[..SYNC_PKT_SIZE] == [c];
      assert EspFraming.Stuff([c]) == EspFraming.Escaped(c) + EspFraming.Stuff([]);
    }
  }

  /** ESP_SyncTxPacket: queues a handshake packet carrying `code`. */
  method SyncTxPacket(l: Link, code: Byte)
    requires l.Valid()
    modifies l`txList
    ensures l.Valid() && l.txList == old(l.txList) + [SyncPacketOf(code)]
  {
    TxPacket(l, SyncPacketOf(code));
  }

  /** What a received handshake code makes an end do. */
  datatype SyncAction =
    | Ignore
    | Reply(code: Byte)
    | BecomeCurious
    | BecomeGarrulous
    | ClearKeepAlive
    | Reset

  /**
   * The decision table of ESP_SyncRxPacket.  SYNC is answered with SYNC_RESP
   * until the link is up, and resets a link that is up; CONF is answered with
   * CONF_RESP once Curious; SYNC_RESP moves Shy to Curious; CONF_RESP moves
   * Curious to Garrulous; KEEP_ALIVE is noted only when up; anything else is
   * ignored.
   */
  function OnSyncPacket(state: SyncState, code: Byte): (a: SyncAction)
    ensures a == BecomeGarrulous <==> state == Curious && code == CONF_RESP
    ensures a == BecomeCurious <==> state == Shy && code == SYNC_RESP
    ensures a == Reset <==> state == Garrulous && code == SYNC
    ensures a == ClearKeepAlive <==> state == Garrulous && code == KEEP_ALIVE
    ensures a.Reply? ==> (code == SYNC && a.code == SYNC_RESP && state != Garrulous)
                         || (code == CONF && a.code == CONF_RESP && state != Shy)
    ensures code !in {SYNC, SYNC_RESP, CONF, CONF_RESP, KEEP_ALIVE} ==> a == Ignore
  {
    match state
    case Shy =>
      if code == SYNC then Reply(SYNC_RESP)
      else if code == SYNC_RESP then BecomeCurious
      else Ignore
    case Curious =>
      if code == SYNC then Reply(SYNC_RESP)
      else if code == CONF then Reply(CONF_RESP)
      else if code == CONF_RESP then BecomeGarrulous
      else Ignore
    case Garrulous =>
      if code == CONF then Reply(CONF_RESP)
      else if code == SYNC then Reset
      else if code == KEEP_ALIVE then ClearKeepAlive
      else Ignore
  }

  /** The handshake state after an action. */
  function NextState(state: SyncState, a: SyncAction): (s: SyncState)
    ensures s != state ==> a == BecomeCurious || a == BecomeGarrulous || a == Reset
    ensures s == Garrulous && state != Garrulous ==> a == BecomeGarrulous
    ensures a == Reset ==> s == Shy
  {
    match a
    case BecomeCurious => Curious
    case BecomeGarrulous => Garrulous
    case Reset => Shy
    case _ => state
  }

  /** The handshake state after receiving a run of codes (timers aside). */
  function Run(state: SyncState, codes: seq<Byte>): SyncState
    decreases |codes|
  {
    if codes == [] then state else Run(NextState(state, OnSyncPacket(state, codes[0])), codes[1..])
  }

  /** A Curious end comes up only on receiving CONF_RESP. */
  lemma {:induction false} CuriousNeedsConfResp(codes: seq<Byte>)
    requires Run(Curious, codes) == Garrulous
    ensures exists j :: 0 <= j < |codes| && codes[j] == CONF_RESP
    decreases |codes|
  {
    assert codes != [];
    if codes[0] != CONF_RESP {
      CuriousNeedsConfResp(codes[1..]);
      var j :| 0 <= j < |codes[1..]| && codes[1..][j] == CONF_RESP;
      assert codes[j + 1] == CONF_RESP;
    }
  }

  /**
   * A Shy end comes up only after receiving SYNC_RESP and, later, CONF_RESP:
   * the three-way handshake cannot be skipped.
   */
  lemma {:induction false} ShyNeedsHandshake(codes: seq<Byte>)
    requires Run(Shy, codes) == Garrulous
    ensures exists i, j :: 0 <= i < j < |codes| && codes[i] == SYNC_RESP && codes[j] == CONF_RESP
    decreases |codes|
  {
    assert codes != [];
    if codes[0] == SYNC_RESP {
      CuriousNeedsConfResp(codes[1..]);
      var j :| 0 <= j < |codes[1..]| && codes[1..][j] == CONF_RESP;
      assert codes[0] == SYNC_RESP && codes[j + 1] == CONF_RESP;
    } else {
      ShyNeedsHandshake(codes[1..]);
      var i, j :| 0 <= i < j < |codes[1..]| && codes[1..][i] == SYNC_RESP && codes[1..][j] == CONF_RESP;
      assert codes[i + 1] == SYNC_RESP && codes[j + 1] == CONF_RESP;
    }
  }

  /** The handshake completes on exactly that exchange. */
  lemma HandshakeCompletes()
    ensures Run(Shy, [SYNC_RESP, CONF_RESP]) == Garrulous
  {
    var codes := [SYNC_RESP, CONF_RESP];
    assert codes[1..] == [CONF_RESP];
    assert Run(Curious, [CONF_RESP]) == Run(Garrulous, []);
  }

  /**
   * ESP_SyncRxPacket: reacts to a received handshake code as OnSyncPacket
   * decides.  Coming up restarts the keep-alive timer and count and tells the
   * application; a SYNC while up resets the link.
   */
  method SyncRxPacket(l: Link, code: Byte)
    requires l.Valid()
    modifies l`syncState, l`syncTimer, l`syncKeepAlive, l`events,
             l`rxAck, l`rxSeq, l`rxWindow, l`rxAckTimer, l`rxRetransmitPeriod,
             l`rxPacket, l`rxDataIndex, l`rxDataSize, l`rxFrame,
             l`txAck, l`txSeq, l`txWindow, l`txAckTimer, l`txRetransmitPeriod, l`txAckList, l`txList,
             l`txPacket, l`released
    ensures l.Valid()
    ensures l.syncState == NextState(old(l.syncState), OnSyncPacket(old(l.syncState), code))
    ensures OnSyncPacket(old(l.syncState), code) != Reset ==>
      TransportOf(l) == old(TransportOf(l)) && l.released == old(l.released)
      && l.rxPacket == old(l.rxPacket) && l.rxDataIndex == old(l.rxDataIndex) && l.rxDataSize == old(l.rxDataSize)
      && l.rxFrame == old(l.rxFrame)
    ensures match OnSyncPacket(old(l.syncState), code)
      case Ignore =>
        l.syncTimer == old(l.syncTimer) && l.syncKeepAlive == old(l.syncKeepAlive)
        && l.txList == old(l.txList) && l.events == old(l.events)
      case Reply(r) =>
        l.syncTimer == old(l.syncTimer) && l.syncKeepAlive == old(l.syncKeepAlive)
        && l.txList == old(l.txList) + [SyncPacketOf(r)] && l.events == old(l.events)
      case BecomeCurious =>
        l.syncTimer == TIMER_NOW && l.syncKeepAlive == old(l.syncKeepAlive)
        && l.txList == old(l.txList) && l.events == old(l.events)
      case BecomeGarrulous =>
        l.syncTimer == KEEP_ALIVE_PERIOD && l.syncKeepAlive == 0
        && l.txList == old(l.txList) && l.events == old(l.events) + [Event.LinkActive]
      case ClearKeepAlive =>
        l.syncTimer == old(l.syncTimer) && l.syncKeepAlive == 0
        && l.txList == old(l.txList) && l.events == old(l.events)
      case Reset =>
        l.syncKeepAlive == old(l.syncKeepAlive)
        && WasReset(l, old(l.events), old(l.released), old(l.txAckList), old(l.txList), old(l.txPacket))
  {
    var action := OnSyncPacket(l.syncState, code);
    if action == Reset {
      EspLinkReset.LinkReset(l);
    } else {
      SyncReact(l, action);
    }
  }

  /** The cases of ESP_SyncRxPacket that keep the link: only the handshake, the queue and the application see them. */
  method SyncReact(l: Link, action: SyncAction)
    requires l.Valid() && action != Reset
    modifies l`syncState, l`syncTimer, l`syncKeepAlive, l`events, l`txList
    ensures l.Valid()
    ensures l.syncState == NextState(old(l.syncState), action)
    ensures match action
      case Ignore =>
        l.syncTimer == old(l.syncTimer) && l.syncKeepAlive == old(l.syncKeepAlive)
        && l.txList == old(l.txList) && l.events == old(l.events)
      case Reply(r) =>
        l.syncTimer == old(l.syncTimer) && l.syncKeepAlive == old(l.syncKeepAlive)
        && l.txList == old(l.txList) + [SyncPacketOf(r)] && l.events == old(l.events)
      case BecomeCurious =>
        l.syncTimer == TIMER_NOW && l.syncKeepAlive == old(l.syncKeepAlive)
        && l.txList == old(l.txList) && l.events == old(l.events)
      case BecomeGarrulous =>
        l.syncTimer == KEEP_ALIVE_PERIOD && l.syncKeepAlive == 0
        && l.txList == old(l.txList) && l.events == old(l.events) + [Event.LinkActive]
      case ClearKeepAlive =>
        l.syncTimer == old(l.syncTimer) && l.syncKeepAlive == 0
        && l.txList == old(l.txList) && l.events == old(l.events)
      case Reset => false
  {
    match action
    case Ignore =>
    case Reply(r) =>
      SyncTxPacket(l, r);
    case BecomeCurious =>
      l.syncState := Curious;
      l.syncTimer := TIMER_NOW;
    case BecomeGarrulous =>
      l.syncState := Garrulous;
      l.syncTimer := KEEP_ALIVE_PERIOD;
      l.syncKeepAlive := 0;
      EspLinkReset.LinkActive(l);
    case ClearKeepAlive =>
      l.syncKeepAlive := 0;
  }

  /**
   * ESP_SyncTask: when the handshake timer expires, a Shy end sends SYNC and a
   * Curious one CONF, each re-arming the timer for one handshake period; an
   * end that is up sends KEEP_ALIVE, re-arms for one keep-alive period and
   * counts it, resetting the link (which destroys that KEEP_ALIVE too) once
   * the count reaches four.
   */
  method SyncTask(l: Link)
    requires l.Valid()
    modifies l`syncState, l`syncTimer, l`syncKeepAlive, l`events,
             l`rxAck, l`rxSeq, l`rxWindow, l`rxAckTimer, l`rxRetransmitPeriod,
             l`rxPacket, l`rxDataIndex, l`rxDataSize, l`rxFrame,
             l`txAck, l`txSeq, l`txWindow, l`txAckTimer, l`txRetransmitPeriod, l`txAckList, l`txList,
             l`txPacket, l`released
    ensures l.Valid()
    ensures !(old(l.syncTimer) == TIMER_NOW && old(l.syncState) == Garrulous && l.syncKeepAlive >= KEEP_ALIVE_LIMIT) ==>
      TransportOf(l) == old(TransportOf(l)) && l.released == old(l.released)
      && l.rxPacket == old(l.rxPacket) && l.rxDataIndex == old(l.rxDataIndex) && l.rxDataSize == old(l.rxDataSize)
      && l.rxFrame == old(l.rxFrame)
    ensures old(l.syncTimer) != TIMER_NOW ==>
      l.syncState == old(l.syncState) && l.syncTimer == old(l.syncTimer) && l.syncKeepAlive == old(l.syncKeepAlive)
      && l.txList == old(l.txList) && l.events == old(l.events)
    ensures old(l.syncTimer) == TIMER_NOW && old(l.syncState) != Garrulous ==>
      l.syncState == old(l.syncState) && l.syncTimer == SYNC_PERIOD && l.syncKeepAlive == old(l.syncKeepAlive)
      && l.txList == old(l.txList) + [SyncPacketOf(if old(l.syncState) == Shy then SYNC else CONF)]
      && l.events == old(l.events)
    ensures old(l.syncTimer) == TIMER_NOW && old(l.syncState) == Garrulous ==>
      l.syncKeepAlive == (old(l.syncKeepAlive) + 1) % 0x100
      && if l.syncKeepAlive >= KEEP_ALIVE_LIMIT then
           WasReset(l, old(l.events), old(l.released), old(l.txAckList),
                    old(l.txList) + [SyncPacketOf(KEEP_ALIVE)], old(l.txPacket))
         else
           l.syncState == Garrulous && l.syncTimer == KEEP_ALIVE_PERIOD
           && l.txList == old(l.txList) + [SyncPacketOf(KEEP_ALIVE)] && l.events == old(l.events)
  {
    if l.syncState != Garrulous {
      if l.syncTimer == TIMER_NOW {
        // Shy or Curious: the switch's default case cannot be reached.
        if l.syncState == Shy {
          SyncTxPacket(l, SYNC);
        } else {
          SyncTxPacket(l, CONF);
        }
        l.syncTimer := SYNC_PERIOD;
      }
    } else {
      if l.syncTimer == TIMER_NOW {
        SendKeepAlive(l);
      }
    }
  }

  /** The keep-alive branch of ESP_SyncTask. */
  method SendKeepAlive(l: Link)
    requires l.Valid()
    modifies l`syncState, l`syncTimer, l`syncKeepAlive, l`events,
             l`rxAck, l`rxSeq, l`rxWindow, l`rxAckTimer, l`rxRetransmitPeriod,
             l`rxPacket, l`rxDataIndex, l`rxDataSize, l`rxFrame,
             l`txAck, l`txSeq, l`txWindow, l`txAckTimer, l`txRetransmitPeriod, l`txAckList, l`txList,
             l`txPacket, l`released
    ensures l.Valid()
    ensures l.syncKeepAlive == (old(l.syncKeepAlive) + 1) % 0x100
    ensures l.syncKeepAlive < KEEP_ALIVE_LIMIT ==>
      TransportOf(l) == old(TransportOf(l)) && l.released == old(l.released)
      && l.rxPacket == old(l.rxPacket) && l.rxDataIndex == old(l.rxDataIndex) && l.rxDataSize == old(l.rxDataSize)
      && l.rxFrame == old(l.rxFrame)
    ensures if l.syncKeepAlive >= KEEP_ALIVE_LIMIT then
              WasReset(l, old(l.events), old(l.released), old(l.txAckList),
                       old(l.txList) + [SyncPacketOf(KEEP_ALIVE)], old(l.txPacket))
            else
              l.syncState == old(l.syncState) && l.syncTimer == KEEP_ALIVE_PERIOD
              && l.txList == old(l.txList) + [SyncPacketOf(KEEP_ALIVE)] && l.events == old(l.events)
  {
    SyncTxPacket(l, KEEP_ALIVE);
    l.syncTimer := KEEP_ALIVE_PERIOD;
    l.syncKeepAlive := (l.syncKeepAlive + 1) % 0x100;
    if l.syncKeepAlive >= KEEP_ALIVE_LIMIT {
      EspLinkReset.LinkReset(l);
    }
  }
}
