/**
 * The packet queue of the SAMD21 command station (samd21/dcc.c): a list of
 * packets each sent a given number of times (its burst count, 0xFF meaning
 * for ever), the packet on the track, and the waveform machine that sends
 * it followed by a 5 ms low gap.
 *
 * The pure part is here: DCC_InitPacket, the add-by-priority of
 * DCC_SendPacket, the scan and rewrite of DCC_UpdatePacket, the two halves
 * of DCC_Task (a packet completed, the track went idle) and the interrupt's
 * state logic. The class DccQueueStation.QueueStation holds the statics and
 * is proved against these functions.
 */
module DccQueue {
  import opened Machine
  import opened Wrappers
  import opened DccBytes
  import DccTx
  import DccSched

  /** `Priority:2` and `PreambleBits:6`: the widths of the bit-fields. */
  type U2 = x: int | 0 <= x < 4
  type U6 = x: int | 0 <= x < 64

  /** The preamble of an operations-mode packet and of a service-mode packet. */
  const OPS_PREAMBLE: U8 := 14
  const SERVICE_PREAMBLE: U8 := 50

  /** The burst count that is never decremented: the packet is sent for ever. */
  const FOREVER: U8 := 0xFF

  /** DCC_EndDelay: ticks of 58 microseconds held low after a packet, 5000 / 58. */
  const PACKET_DELAY: U16 := 5000 / 58

  /** The signal DCC_DirectWriteByte and DCC_DirectVerifyByte wait on, 1 << 15. */
  const SERVICE_SIGNAL: U16 := 0x8000

  /** DCC_Packet_t. The resend period is stored and never read. */
  datatype QPacket = QPacket(burst: U8, periodMs: U16, priority: U2, preambleBits: U6, data: seq<Byte>, taskId: U8, signal: U16)

  /** A packet whose Data array holds its bytes: at least the address byte, at most six. */
  predicate Formed(p: QPacket)
  {
    1 <= |p.data| <= 6
  }

  /** The address byte, Data[0], that DCC_UpdatePacket matches on. */
  function Address(p: QPacket): Byte
    requires Formed(p)
  {
    p.data[0]
  }

  /** DCC_InitPacket: the bit-fields keep the low bits of what they are given. */
  function Init(data: seq<Byte>, preambleBits: U8, burst: U8, periodMs: U16, priority: U8, taskId: U8, signal: U16): QPacket
  {
    QPacket(burst, periodMs, priority % 4, preambleBits % 64, data, taskId, signal)
  }

  /** A packet with non-zero priority jumps the queue. */
  predicate Urgent(p: QPacket)
  {
    p.priority != 0
  }

  /** The add of DCC_SendPacket and DCC_Task: OS_ListAddHead for an urgent packet, else OS_ListAddTail. */
  function Enqueue(l: seq<QPacket>, p: QPacket): (r: seq<QPacket>)
    ensures |r| == |l| + 1 && multiset(r) == multiset(l) + multiset{p}
    ensures Urgent(p) ==> r[0] == p && r[1..] == l
    ensures !Urgent(p) ==> r[|l|] == p && r[..|l|] == l
  {
    if Urgent(p) then [p] + l else l + [p]
  }

  /** DCC_PacketList, DCC_Packet (the packet on the track or about to be) and the signals sent to waiting tasks. */
  datatype Queue = Queue(list: seq<QPacket>, current: Option<QPacket>, signalled: seq<(U8, U16)>)

  predicate AllFormed(l: seq<QPacket>)
  {
    forall i :: 0 <= i < |l| ==> Formed(l[i])
  }

  predicate QueueFormed(q: Queue)
  {
    AllFormed(q.list) && (q.current.Some? ==> Formed(q.current.value))
  }

  // ---------------------------------------------------------------------
  // Sending and updating

  /** DCC_SendPacket: an operations-mode packet with the caller's task and signal. */
  function Send(q: Queue, data: seq<Byte>, burst: U8, periodMs: U16, priority: U8, signal: U16, taskId: U8): (r: Queue)
    ensures r.current == q.current && r.signalled == q.signalled
    ensures multiset(r.list) == multiset(q.list) + multiset{Init(data, OPS_PREAMBLE, burst, periodMs, priority, taskId, signal)}
  {
    q.(list := Enqueue(q.list, Init(data, OPS_PREAMBLE, burst, periodMs, priority, taskId, signal)))
  }

  /** DCC_SendServicePacket: the long preamble and no resend period. */
  function SendService(q: Queue, data: seq<Byte>, burst: U8, priority: U8, signal: U16, taskId: U8): (r: Queue)
    ensures r.current == q.current && r.signalled == q.signalled
    ensures multiset(r.list) == multiset(q.list) + multiset{Init(data, SERVICE_PREAMBLE, burst, 0, priority, taskId, signal)}
  {
    q.(list := Enqueue(q.list, Init(data, SERVICE_PREAMBLE, burst, 0, priority, taskId, signal)))
  }

  /** The position of the first listed packet with address a, or |l| when there is none. */
  function Find(l: seq<QPacket>, a: Byte): (k: nat)
    requires AllFormed(l)
    ensures k <= |l|
    ensures k < |l| ==> Address(l[k]) == a
    ensures forall i :: 0 <= i < k ==> Address(l[i]) != a
    decreases |l|
  {
    if l == [] then 0
    else if Address(l[0]) == a then 0
    else 1 + Find(l[1..], a)
  }

  /** The first match is the only position with Find's properties. */
  lemma {:induction false} FindIs(l: seq<QPacket>, a: Byte, k: nat)
    requires AllFormed(l) && k <= |l| && (k < |l| ==> Address(l[k]) == a)
    requires forall i :: 0 <= i < k ==> Address(l[i]) != a
    ensures Find(l, a) == k
    decreases |l|
  {
    if l != [] && k > 0 {
      assert Address(l[0]) != a;
      FindIs(l[1..], a, k - 1);
    }
  }

  /**
   * DCC_UpdatePacket: the first listed packet with the same address byte is
   * rewritten in place; when none is listed, a new packet goes on the list
   * by priority and a packet on the track with that address has its burst
   * count cleared.
   */
  function Update(q: Queue, data: seq<Byte>, burst: U8, periodMs: U16, priority: U8, taskId: U8): (r: Queue)
    requires AllFormed(q.list) && |data| >= 1
    ensures Init(data, OPS_PREAMBLE, burst, periodMs, priority, taskId, 0) in r.list
    ensures r.signalled == q.signalled && r.current.Some? == q.current.Some?
    ensures Find(q.list, data[0]) < |q.list| ==> |r.list| == |q.list| && r.current == q.current
    ensures Find(q.list, data[0]) == |q.list| ==> |r.list| == |q.list| + 1
  {
    var p := Init(data, OPS_PREAMBLE, burst, periodMs, priority, taskId, 0);
    var k := Find(q.list, data[0]);
    if k < |q.list| then
      var l := q.list[k := p];
      assert l[k] == p;
      q.(list := l)
    else
      var cur := if q.current.Some? && Formed(q.current.value) && Address(q.current.value) == data[0]
        then Some(q.current.value.(burst := 0)) else q.current;
      q.(list := Enqueue(q.list, p), current := cur)
  }

  // ---------------------------------------------------------------------
  // The DCC task

  /** A send: the burst count goes down by one in uint8_t unless it is 0xFF. */
  function Decrement(b: U8): (r: U8)
    ensures b == FOREVER ==> r == FOREVER
    ensures 0 < b < FOREVER ==> r == b - 1
    ensures b == 0 ==> r == FOREVER
  {
    if b != FOREVER then ToU8(b - 1) else b
  }

  /**
   * DCC_SIGNAL_PKT_COMPLETE: the packet on the track is put back on the
   * list while its burst count is non-zero, else its signal (if any) goes
   * to its task and it is freed; either way nothing is on the track.
   */
  function Complete(q: Queue): (r: Queue)
    ensures r.current.None?
    ensures q.current.None? ==> r == q
    ensures q.current.Some? && Decrement(q.current.value.burst) != 0 ==>
      r.list == Enqueue(q.list, q.current.value.(burst := Decrement(q.current.value.burst))) && r.signalled == q.signalled
    ensures q.current.Some? && Decrement(q.current.value.burst) == 0 ==>
      r.list == q.list && r.signalled == q.signalled + (if q.current.value.signal != 0 then [(q.current.value.taskId, q.current.value.signal)] else [])
  {
    if q.current.None? then q
    else
      var c := q.current.value;
      var p := c.(burst := Decrement(c.burst));
      if p.burst != 0 then Queue(Enqueue(q.list, p), None, q.signalled)
      else Queue(q.list, None, q.signalled + (if c.signal != 0 then [(c.taskId, c.signal)] else []))
  }

  /** The idle packet DCC_Task makes when the list is empty: sent once. */
  function IdlePacket(taskId: U8): QPacket
  {
    Init(IDLE_BYTES, OPS_PREAMBLE, 1, 0, 0, taskId, 0)
  }

  /** DCC_SIGNAL_IDLE: with nothing on the track, the list's head goes on it, or an idle packet when the list is empty. */
  function Idle(q: Queue, taskId: U8): (r: Queue)
    ensures r.current.Some? && r.signalled == q.signalled
    ensures q.current.Some? ==> r == q
    ensures q.current.None? && q.list != [] ==> [r.current.value] + r.list == q.list
    ensures q.current.None? && q.list == [] ==> r.list == [] && r.current.value.data == IDLE_BYTES && r.current.value.burst == 1
  {
    if q.current.Some? then q
    else if q.list == [] then q.(current := Some(IdlePacket(taskId)))
    else q.(list := q.list[1..], current := Some(q.list[0]))
  }

  /** One pass of DCC_Task's loop with the signals it woke on: completion first, then idle. */
  function TaskStep(q: Queue, complete: bool, idle: bool, taskId: U8): (r: Queue)
    ensures idle ==> r.current.Some?
    ensures complete && !idle ==> r.current.None?
    ensures !complete && !idle ==> r == q
    ensures q.signalled <= r.signalled
  {
    var q1 := if complete then Complete(q) else q;
    if idle then Idle(q1, taskId) else q1
  }

  // ---------------------------------------------------------------------
  // The commands

  /** DCC_SetFunctions: function group one, sent three times. */
  function SetFunctions(q: Queue, address: U8, functions: U8, taskId: U8): (r: Queue)
    requires AllFormed(q.list)
    ensures Init(FunctionBytes(address, functions, FL_F4), OPS_PREAMBLE, 3, 1000, 0, taskId, 0) in r.list
    ensures |q.list| <= |r.list| <= |q.list| + 1 && r.signalled == q.signalled
  {
    Update(q, FunctionBytes(address, functions, FL_F4), 3, 1000, 0, taskId)
  }

  /** DCC_SetLocomotiveSpeed28, as written. */
  function SetSpeed28(q: Queue, address: U8, speed: I8, taskId: U8): (r: Queue)
    requires AllFormed(q.list)
    ensures Init(Speed28BytesAsWritten(address, speed), OPS_PREAMBLE, 3, 500, 0, taskId, 0) in r.list
    ensures |q.list| <= |r.list| <= |q.list| + 1 && r.signalled == q.signalled
  {
    Update(q, Speed28BytesAsWritten(address, speed), 3, 500, 0, taskId)
  }

  /** DCC_SetLocomotiveSpeed128. */
  function SetSpeed128(q: Queue, address: U8, speed: I8, taskId: U8): (r: Queue)
    requires AllFormed(q.list)
    ensures Init(Speed128Bytes(address, speed), OPS_PREAMBLE, 3, 500, 0, taskId, 0) in r.list
    ensures |q.list| <= |r.list| <= |q.list| + 1 && r.signalled == q.signalled
  {
    Update(q, Speed128Bytes(address, speed), 3, 500, 0, taskId)
  }

  /** DCC_Start: an idle packet that is sent for ever. */
  function Start(q: Queue, taskId: U8): (r: Queue)
    requires AllFormed(q.list)
    ensures Init(IDLE_BYTES, OPS_PREAMBLE, FOREVER, 0, 0, taskId, 0) in r.list
    ensures |q.list| <= |r.list| <= |q.list| + 1 && r.signalled == q.signalled
  {
    Update(q, IDLE_BYTES, FOREVER, 0, 0, taskId)
  }

  /**
   * The three service packets DCC_DirectWriteByte and DCC_DirectVerifyByte
   * send one after the other, each waited for: three resets, the CV
   * instruction five times, six resets.
   */
  function DirectPackets(cvId: U16, value: U8, write: bool, taskId: U8): (r: seq<QPacket>)
    ensures |r| == 3
    ensures forall i :: 0 <= i < 3 ==> r[i].preambleBits == SERVICE_PREAMBLE && Urgent(r[i]) && r[i].signal == SERVICE_SIGNAL && r[i].taskId == taskId
    ensures r[0].data == RESET_BYTES && r[0].burst == 3 && r[2].data == RESET_BYTES && r[2].burst == 6
    ensures r[1].data == (if write then DirectWriteBytes(cvId, value) else DirectVerifyBytes(cvId, value)) && r[1].burst == 5
  {
    var cv := if write then DirectWriteBytes(cvId, value) else DirectVerifyBytes(cvId, value);
    [ServicePacket(RESET_BYTES, 3, taskId), ServicePacket(cv, 5, taskId), ServicePacket(RESET_BYTES, 6, taskId)]
  }

  /** DCC_DirectWriteByte's DCC_SendPacket: a service-mode preamble, priority 2, no period, SERVICE_SIGNAL. */
  function ServicePacket(data: seq<Byte>, burst: U8, taskId: U8): (p: QPacket)
    ensures p.data == data && p.burst == burst && p.preambleBits == SERVICE_PREAMBLE
    ensures Urgent(p) && p.signal == SERVICE_SIGNAL && p.taskId == taskId
  {
    Init(data, SERVICE_PREAMBLE, burst, 0, 2, taskId, SERVICE_SIGNAL)
  }

  /** For CVs 1 to 1024 the middle packet is the direct-mode write or verify of that CV with that value. */
  lemma DirectPacketsDecode(cvId: U16, value: U8, write: bool, taskId: U8)
    requires 1 <= cvId <= 1024
    ensures DecodeDirect(DirectPackets(cvId, value, write, taskId)[1].data) ==
      Some(DirectCv(if write then WRITE_BYTE else VERIFY_BYTE, cvId, ByteOf(value)))
  {
    if write {
      DirectWriteDecodes(cvId, value);
    } else {
      DirectVerifyDecodes(cvId, value);
    }
  }

  // ---------------------------------------------------------------------
  // Priority

  /** No urgent packet waits behind a normal one. */
  predicate PriorityFirst(l: seq<QPacket>)
  {
    forall i, j :: 0 <= i < j < |l| && !Urgent(l[i]) ==> !Urgent(l[j])
  }

  /** Adding by priority keeps urgent packets ahead; an urgent packet is the new head, a normal one the new tail. */
  lemma EnqueuePriorityFirst(l: seq<QPacket>, p: QPacket)
    requires PriorityFirst(l)
    ensures var r := Enqueue(l, p);
      PriorityFirst(r) && |r| == |l| + 1 && (if Urgent(p) then r[0] == p && r[1..] == l else r[|l|] == p && r[..|l|] == l)
  {
    var r := Enqueue(l, p);
    if Urgent(p) {
      assert r[1..] == l;
    } else {
      assert r[..|l|] == l;
    }
  }

  /** The task's two halves keep urgent packets ahead. */
  lemma TaskStepPriorityFirst(q: Queue, complete: bool, idle: bool, taskId: U8)
    requires PriorityFirst(q.list)
    ensures PriorityFirst(TaskStep(q, complete, idle, taskId).list)
  {
    if complete && q.current.Some? {
      var c := q.current.value;
      EnqueuePriorityFirst(q.list, c.(burst := Decrement(c.burst)));
    }
  }

  /**
   * An update with priority 0, as every command passes, keeps urgent
   * packets ahead when the packets it may rewrite are normal ones.
   */
  lemma UpdatePriorityFirst(q: Queue, data: seq<Byte>, burst: U8, periodMs: U16, taskId: U8)
    requires AllFormed(q.list) && |data| >= 1 && PriorityFirst(q.list)
    requires forall i :: 0 <= i < |q.list| && Address(q.list[i]) == data[0] ==> !Urgent(q.list[i])
    ensures PriorityFirst(Update(q, data, burst, periodMs, 0, taskId).list)
  {
    var p := Init(data, OPS_PREAMBLE, burst, periodMs, 0, taskId, 0);
    if Find(q.list, data[0]) == |q.list| {
      EnqueuePriorityFirst(q.list, p);
    }
  }

  /** An urgent packet sent while the track is free is the next one on it. */
  lemma UrgentGoesNext(q: Queue, data: seq<Byte>, burst: U8, priority: U8, signal: U16, taskId: U8, me: U8)
    requires q.current.None? && priority % 4 != 0
    ensures Idle(SendService(q, data, burst, priority, signal, taskId), me).current ==
      Some(Init(data, SERVICE_PREAMBLE, burst, 0, priority, taskId, signal))
  {
  }

  // ---------------------------------------------------------------------
  // One packet per address

  /** No two listed packets share an address byte. */
  predicate Unique(l: seq<QPacket>)
    requires AllFormed(l)
  {
    forall i, j :: 0 <= i < j < |l| ==> Address(l[i]) != Address(l[j])
  }

  /**
   * An update leaves exactly one listed packet with its address, the one it
   * built, and keeps the list's addresses unique; the first match is
   * rewritten in place and everything else stays.
   */
  lemma UpdateUnique(q: Queue, data: seq<Byte>, burst: U8, periodMs: U16, priority: U8, taskId: U8)
    requires AllFormed(q.list) && 1 <= |data| <= 6 && Unique(q.list)
    ensures var r := Update(q, data, burst, periodMs, priority, taskId);
      var p := Init(data, OPS_PREAMBLE, burst, periodMs, priority, taskId, 0);
      AllFormed(r.list) && Unique(r.list) && Find(r.list, data[0]) < |r.list| && r.list[Find(r.list, data[0])] == p
  {
    var r := Update(q, data, burst, periodMs, priority, taskId);
    var p := Init(data, OPS_PREAMBLE, burst, periodMs, priority, taskId, 0);
    var k := Find(q.list, data[0]);
    if k < |q.list| {
      assert r.list == q.list[k := p];
      ReplaceUnique(q.list, k, p);
      FindIs(r.list, data[0], k);
    } else {
      assert r.list == Enqueue(q.list, p);
      if Urgent(p) {
        assert r.list[1..] == q.list;
        FindIs(r.list, data[0], 0);
      } else {
        assert r.list[..|q.list|] == q.list;
        FindIs(r.list, data[0], |q.list|);
      }
    }
  }

  /** With a match on the list, the update rewrites it in place and the packet on the track is left alone. */
  lemma UpdateInPlace(q: Queue, data: seq<Byte>, burst: U8, periodMs: U16, priority: U8, taskId: U8)
    requires AllFormed(q.list) && |data| >= 1 && Find(q.list, data[0]) < |q.list|
    ensures var r := Update(q, data, burst, periodMs, priority, taskId);
      var k := Find(q.list, data[0]);
      |r.list| == |q.list| && r.current == q.current && r.signalled == q.signalled &&
      r.list[k].data == data && r.list[k].burst == burst && r.list[k].signal == 0 &&
      forall i :: 0 <= i < |q.list| && i != k ==> r.list[i] == q.list[i]
  {
  }

  /** With no match on the list, a packet on the track with that address gets a burst count of 0 and nothing else changes. */
  lemma UpdateClearsCurrent(q: Queue, data: seq<Byte>, burst: U8, periodMs: U16, priority: U8, taskId: U8)
    requires AllFormed(q.list) && |data| >= 1 && Find(q.list, data[0]) == |q.list|
    requires q.current.Some? && Formed(q.current.value) && Address(q.current.value) == data[0]
    ensures var r := Update(q, data, burst, periodMs, priority, taskId);
      r.current == Some(q.current.value.(burst := 0)) && |r.list| == |q.list| + 1 && r.signalled == q.signalled
  {
  }

  // ---------------------------------------------------------------------
  // Bursts

  /** The burst count after k sends. */
  function AfterSends(b: U8, k: nat): U8
    decreases k
  {
    if k == 0 then b else AfterSends(Decrement(b), k - 1)
  }

  /** A burst count of 1 to 254 reaches 0 after exactly that many sends. */
  lemma {:induction false} BurstCount(b: U8, k: nat)
    requires 1 <= b < FOREVER
    ensures AfterSends(b, k) == 0 <==> k == b
    ensures k <= b ==> AfterSends(b, k) == b - k
    decreases k
  {
    if k > 0 {
      if b == 1 {
        if k > 1 {
          ZeroWraps(k - 2);
        }
      } else {
        BurstCount(b - 1, k - 1);
      }
    }
  }

  /** From 0, the count wraps to 0xFF and then stays there: it is never 0 again. */
  lemma ZeroWraps(k: nat)
    ensures AfterSends(0, k + 1) == FOREVER
  {
    assert AfterSends(0, 1) == AfterSends(FOREVER, 0);
    AfterSendsAdd(0, 1, k);
    ForeverRepeats(k);
  }

  /** Sends compose. */
  lemma {:induction false} AfterSendsAdd(b: U8, n: nat, m: nat)
    ensures AfterSends(b, n + m) == AfterSends(AfterSends(b, n), m)
    decreases n
  {
    if n > 0 {
      AfterSendsAdd(Decrement(b), n - 1, m);
      assert n + m - 1 == n - 1 + m;
    }
  }

  /** A burst count of 0xFF is never decremented: the packet goes back on the list after every send. */
  lemma {:induction false} ForeverRepeats(k: nat)
    ensures AfterSends(FOREVER, k) == FOREVER
    decreases k
  {
    if k > 0 {
      ForeverRepeats(k - 1);
    }
  }

  /** Complete and then Idle: what the task does between two packets. */
  function Pass(q: Queue, taskId: U8): Queue
  {
    Idle(Complete(q), taskId)
  }

  function Passes(q: Queue, taskId: U8, k: nat): Queue
    decreases k
  {
    if k == 0 then q else Passes(Pass(q, taskId), taskId, k - 1)
  }

  /**
   * A packet alone in the queue with a burst count b of 1 to 254 is put
   * back on the track after each of its first b - 1 sends, and after the
   * b-th its signal goes to its task and an idle packet takes its place.
   */
  lemma {:induction false} AloneSentBurstTimes(p: QPacket, taskId: U8, k: nat)
    requires 1 <= p.burst < FOREVER && k <= p.burst
    ensures var r := Passes(Queue([], Some(p), []), taskId, k);
      if k < p.burst then r == Queue([], Some(p.(burst := p.burst - k)), [])
      else r == Queue([], Some(IdlePacket(taskId)), if p.signal != 0 then [(p.taskId, p.signal)] else [])
    decreases k
  {
    if k > 0 {
      var q := Queue([], Some(p), []);
      assert Passes(q, taskId, k) == Passes(Pass(q, taskId), taskId, k - 1);
      PassAlone(p, taskId);
      if p.burst != 1 {
        AloneSentBurstTimes(p.(burst := p.burst - 1), taskId, k - 1);
      }
    }
  }

  /** One pass over a packet alone on the track with a burst count of 1 to 254. */
  lemma PassAlone(p: QPacket, taskId: U8)
    requires 1 <= p.burst < FOREVER
    ensures Pass(Queue([], Some(p), []), taskId) ==
      if p.burst == 1 then Queue([], Some(IdlePacket(taskId)), if p.signal != 0 then [(p.taskId, p.signal)] else [])
      else Queue([], Some(p.(burst := p.burst - 1)), [])
  {
    var c := Complete(Queue([], Some(p), []));
    if p.burst == 1 {
      assert c == Queue([], None, if p.signal != 0 then [(p.taskId, p.signal)] else []);
    } else {
      assert c == Queue([p.(burst := p.burst - 1)], None, []);
    }
  }

  /** A packet alone in the queue with burst count 0xFF stays on the track for ever, with no signal. */
  lemma {:induction false} AloneForever(p: QPacket, taskId: U8, k: nat)
    requires p.burst == FOREVER
    ensures Passes(Queue([], Some(p), []), taskId, k) == Queue([], Some(p), [])
    decreases k
  {
    if k > 0 {
      assert Pass(Queue([], Some(p), []), taskId) == Queue([], Some(p), []);
      AloneForever(p, taskId, k - 1);
    }
  }

  // ---------------------------------------------------------------------
  // The cleared burst count (a finding)

  /**
   * As written: an update while the packet for that address is on the track
   * clears the burst count "so it will be freed", but the completion then
   * decrements 0 to 255, the for-ever count, and the old packet goes back on
   * the list beside its replacement.
   */
  lemma ClearedCurrentRepeatsForever(q: Queue, data: seq<Byte>, burst: U8, periodMs: U16, taskId: U8)
    requires AllFormed(q.list) && 1 <= |data| <= 6 && Find(q.list, data[0]) == |q.list|
    requires q.current.Some? && Formed(q.current.value) && Address(q.current.value) == data[0] && !Urgent(q.current.value)
    ensures var r := Complete(Update(q, data, burst, periodMs, 0, taskId));
      var p := Init(data, OPS_PREAMBLE, burst, periodMs, 0, taskId, 0);
      r.list == q.list + [p, q.current.value.(burst := FOREVER)] && AllFormed(r.list) && !Unique(r.list)
  {
    var p := Init(data, OPS_PREAMBLE, burst, periodMs, 0, taskId, 0);
    var u := Update(q, data, burst, periodMs, 0, taskId);
    assert u == Queue(q.list + [p], Some(q.current.value.(burst := 0)), q.signalled);
    var r := Complete(u);
    assert r.list == u.list + [q.current.value.(burst := FOREVER)];
    assert Address(r.list[|q.list|]) == Address(r.list[|q.list| + 1]);
  }

  /** The evident intent: a cleared count frees the packet when it completes. */
  function DecrementIntended(b: U8): U8
  {
    if b == 0 then 0 else Decrement(b)
  }

  /** DCC_SIGNAL_PKT_COMPLETE with a cleared burst count freeing the packet. */
  function CompleteIntended(q: Queue): Queue
  {
    if q.current.None? then q
    else
      var c := q.current.value;
      var p := c.(burst := DecrementIntended(c.burst));
      if p.burst != 0 then Queue(Enqueue(q.list, p), None, q.signalled)
      else Queue(q.list, None, q.signalled + (if c.signal != 0 then [(c.taskId, c.signal)] else []))
  }

  /** The packets that will still be sent: the list, and the one on the track unless its count is cleared. */
  function Live(q: Queue): seq<QPacket>
  {
    q.list + (if q.current.Some? && q.current.value.burst != 0 then [q.current.value] else [])
  }

  lemma LiveFormed(q: Queue)
    requires QueueFormed(q)
    ensures AllFormed(Live(q))
  {
  }

  /** Unique addresses stay unique when one packet is added at either end whose address is not among them. */
  lemma EnqueueUnique(l: seq<QPacket>, p: QPacket)
    requires AllFormed(l) && Formed(p) && Unique(l)
    requires forall i :: 0 <= i < |l| ==> Address(l[i]) != Address(p)
    ensures AllFormed(Enqueue(l, p)) && Unique(Enqueue(l, p))
  {
    var r := Enqueue(l, p);
    if Urgent(p) {
      assert forall i :: 1 <= i < |r| ==> r[i] == l[i - 1];
    } else {
      assert forall i :: 0 <= i < |l| ==> r[i] == l[i];
    }
  }

  /**
   * With the intended completion, at most one live packet per address: an
   * update, a completion and the idle step each keep the addresses of the
   * live packets unique.
   */
  lemma IntendedKeepsUnique(q: Queue, data: seq<Byte>, burst: U8, periodMs: U16, priority: U8, taskId: U8)
    requires QueueFormed(q) && 1 <= |data| <= 6 && Unique(Live(q))
    ensures var r := Update(q, data, burst, periodMs, priority, taskId); QueueFormed(r) && Unique(Live(r))
    ensures var r := CompleteIntended(q); QueueFormed(r) && Unique(Live(r))
    ensures var r := Idle(q, taskId); QueueFormed(r) && Unique(Live(r))
  {
    UpdateKeepsLive(q, data, burst, periodMs, priority, taskId);
    CompleteKeepsLive(q);
    IdleKeepsLive(q, taskId);
  }

  lemma UpdateKeepsLive(q: Queue, data: seq<Byte>, burst: U8, periodMs: U16, priority: U8, taskId: U8)
    requires QueueFormed(q) && 1 <= |data| <= 6 && Unique(Live(q))
    ensures var r := Update(q, data, burst, periodMs, priority, taskId); QueueFormed(r) && Unique(Live(r))
  {
    var r := Update(q, data, burst, periodMs, priority, taskId);
    var p := Init(data, OPS_PREAMBLE, burst, periodMs, priority, taskId, 0);
    var k := Find(q.list, data[0]);
    var tail := if q.current.Some? && q.current.value.burst != 0 then [q.current.value] else [];
    assert Live(q) == q.list + tail;
    if k < |q.list| {
      UpdateLiveInPlace(q, p, k, tail);
    } else {
      UpdateLiveAppend(q, p);
    }
  }

  lemma UpdateLiveInPlace(q: Queue, p: QPacket, k: nat, tail: seq<QPacket>)
    requires QueueFormed(q) && Formed(p) && Unique(Live(q)) && k < |q.list| && Address(q.list[k]) == Address(p)
    requires tail == (if q.current.Some? && q.current.value.burst != 0 then [q.current.value] else [])
    ensures var r := q.(list := q.list[k := p]); QueueFormed(r) && Unique(Live(r))
  {
    assert Live(q) == q.list + tail;
    assert Live(q.(list := q.list[k := p])) == Live(q)[k := p];
    ReplaceUnique(Live(q), k, p);
  }

  /** Replacing a packet by one with the same address keeps the addresses unique. */
  lemma ReplaceUnique(l: seq<QPacket>, k: nat, p: QPacket)
    requires AllFormed(l) && Unique(l) && k < |l| && Formed(p) && Address(p) == Address(l[k])
    ensures AllFormed(l[k := p]) && Unique(l[k := p])
  {
    var r := l[k := p];
    forall i, j | 0 <= i < j < |r|
      ensures Address(r[i]) != Address(r[j])
    {
      assert Address(r[i]) == Address(l[i]) && Address(r[j]) == Address(l[j]);
    }
  }

  /** An update with no listed match: the new packet joins, and a packet on the track with its address is no longer live. */
  lemma UpdateLiveAppend(q: Queue, p: QPacket)
    requires QueueFormed(q) && Formed(p) && Unique(Live(q)) && Find(q.list, Address(p)) == |q.list|
    ensures var cur := if q.current.Some? && Address(q.current.value) == Address(p) then Some(q.current.value.(burst := 0)) else q.current;
      var r := q.(list := Enqueue(q.list, p), current := cur);
      QueueFormed(r) && Unique(Live(r))
  {
    var cur := if q.current.Some? && Address(q.current.value) == Address(p) then Some(q.current.value.(burst := 0)) else q.current;
    var r := q.(list := Enqueue(q.list, p), current := cur);
    var rest := if cur.Some? && cur.value.burst != 0 then [cur.value] else [];
    assert Live(r) == Enqueue(q.list, p) + rest;
    if rest != [] {
      assert cur == q.current && Live(q) == q.list + rest;
      assert Address(rest[0]) != Address(p);
    } else {
      assert forall i :: 0 <= i < |q.list| ==> q.list[i] == Live(q)[i];
      assert q.list + rest == q.list;
    }
    assert Unique(q.list + rest);
    EnqueueUnique(q.list + rest, p);
    EnqueueShift(q.list, rest, p);
  }

  /** Adding to the list and then appending the packet on the track, or appending it first: the same addresses in the same relative order. */
  lemma EnqueueShift(l: seq<QPacket>, rest: seq<QPacket>, p: QPacket)
    requires AllFormed(l) && AllFormed(rest) && Formed(p) && |rest| <= 1 && Unique(Enqueue(l + rest, p))
    ensures AllFormed(Enqueue(l, p) + rest) && Unique(Enqueue(l, p) + rest)
  {
    var a, b := Enqueue(l + rest, p), Enqueue(l, p) + rest;
    if Urgent(p) {
      assert a == b;
    } else if rest != [] {
      assert b == l + [p] + rest && a == l + rest + [p];
      forall i, j | 0 <= i < j < |b|
        ensures Address(b[i]) != Address(b[j])
      {
        var i', j' := Swap(i, |l|), Swap(j, |l|);
        assert b[i] == a[i'] && b[j] == a[j'];
      }
    } else {
      assert a == b;
    }
  }

  /** The position in l + [x] + [y] of an element of l + [y] + [x]. */
  function Swap(i: nat, n: nat): nat
  {
    if i == n then n + 1 else if i == n + 1 then n else i
  }

  lemma CompleteKeepsLive(q: Queue)
    requires QueueFormed(q) && Unique(Live(q))
    ensures var r := CompleteIntended(q); QueueFormed(r) && Unique(Live(r))
  {
    if q.current.Some? {
      var c := q.current.value;
      var p := c.(burst := DecrementIntended(c.burst));
      if p.burst != 0 {
        assert c.burst != 0 && Live(q) == q.list + [c];
        assert forall i :: 0 <= i < |q.list| ==> Live(q)[i] == q.list[i];
        assert forall i :: 0 <= i < |q.list| ==> Address(q.list[i]) != Address(Live(q)[|q.list|]);
        EnqueueUnique(q.list, p);
        assert Live(CompleteIntended(q)) == Enqueue(q.list, p);
      } else {
        assert forall i :: 0 <= i < |q.list| ==> Live(q)[i] == q.list[i];
        assert Live(CompleteIntended(q)) == q.list;
      }
    }
  }

  lemma IdleKeepsLive(q: Queue, taskId: U8)
    requires QueueFormed(q) && Unique(Live(q))
    ensures var r := Idle(q, taskId); QueueFormed(r) && Unique(Live(r))
  {
    if q.current.None? && q.list != [] {
      var r := Idle(q, taskId);
      var h := q.list[0];
      assert Live(q) == q.list;
      var lr := Live(r);
      if h.burst != 0 {
        assert lr == q.list[1..] + [h];
        forall i, j | 0 <= i < j < |lr|
          ensures Address(lr[i]) != Address(lr[j])
        {
          var i', j' := if i + 1 < |q.list| then i + 1 else 0, if j + 1 < |q.list| then j + 1 else 0;
          assert lr[i] == q.list[i'] && lr[j] == q.list[j'];
          if i' < j' {
            assert Address(q.list[i']) != Address(q.list[j']);
          } else {
            assert Address(q.list[j']) != Address(q.list[i']);
          }
        }
      } else {
        assert lr == q.list[1..];
      }
    }
  }

  // ---------------------------------------------------------------------
  // The interrupt's waveform machine

  /** The states this file's DCC_State_t has: the newer transmitter's without the COMPLETE pair, the gap being PACKET_DELAY. */
  predicate Used(s: DccTx.TxState)
  {
    !(s.Complete1? || s.Complete2?)
  }

  /** A packet's preamble, bytes or end bit is on the track. */
  predicate Sending(s: DccTx.TxState)
  {
    Used(s) && !(s.Idle1? || s.Idle2? || s.Gap?)
  }

  /** One tick: the level output, the registers and DCC_EndDelay left, and the signals sent to the DCC task. */
  datatype Pulse = Pulse(level: DccTx.Level, regs: DccTx.Regs, endDelay: U16, idle: bool, complete: bool)

  /**
   * TCC0_Handler's switch. `bytes` are the packet's on the track and
   * `start` its preamble length when there is one. IDLE_1 tells the task
   * the track is idle, IDLE_2 starts the packet, the end bit's second half
   * tells the task the packet is complete and starts the low gap, and the
   * gap's last tick returns to IDLE_1. The preamble, byte and bit states
   * are the same code as the newer transmitter's.
   */
  function Tick(r: DccTx.Regs, endDelay: U16, bytes: seq<Byte>, start: Option<U8>): (t: Pulse)
    ensures t.level == DccTx.Pattern(r.state)
    ensures t.idle <==> r.state.Idle1?
    ensures t.complete <==> r.state.End2? && r.endCount == 1
    ensures Used(r.state) ==> Used(t.regs.state)
  {
    var level := DccTx.Pattern(r.state);
    if r.state.Idle1? then Pulse(level, r.(state := DccTx.Idle2), endDelay, true, false)
    else if r.state.Idle2? then
      if start.Some? then Pulse(level, DccTx.Begin(r, start.value), endDelay, false, false)
      else Pulse(level, r.(state := DccTx.Idle1), endDelay, false, false)
    else if r.state.End2? then
      var e := ToU8(r.endCount - 1);
      if e == 0 then Pulse(level, r.(endCount := e, state := DccTx.Gap), PACKET_DELAY, false, true)
      else Pulse(level, r.(endCount := e, state := DccTx.End1), endDelay, false, false)
    else if r.state.Gap? then
      var d := ToU16(endDelay - 1);
      Pulse(level, if d == 0 then r.(state := DccTx.Idle1) else r, d, false, false)
    else Pulse(level, DccTx.Step(r, bytes, 0, false, 0).regs, endDelay, false, false)
  }

  /** n ticks with the same packet: the levels, the registers, DCC_EndDelay and how many completions. */
  function Ticks(r: DccTx.Regs, endDelay: U16, bytes: seq<Byte>, n: nat): (o: (seq<DccTx.Level>, DccTx.Regs, U16, nat))
    ensures |o.0| == n
    decreases n
  {
    if n == 0 then ([], r, endDelay, 0)
    else
      var t := Tick(r, endDelay, bytes, None);
      var rest := Ticks(t.regs, t.endDelay, bytes, n - 1);
      ([t.level] + rest.0, rest.1, rest.2, rest.3 + (if t.complete then 1 else 0))
  }

  /** Running n ticks and then m ticks is running n + m ticks. */
  lemma {:induction false} TicksAdd(r: DccTx.Regs, endDelay: U16, bytes: seq<Byte>, n: nat, m: nat)
    ensures var a := Ticks(r, endDelay, bytes, n);
      var b := Ticks(a.1, a.2, bytes, m);
      Ticks(r, endDelay, bytes, n + m) == (a.0 + b.0, b.1, b.2, a.3 + b.3)
    decreases n
  {
    if n == 0 {
      var b := Ticks(r, endDelay, bytes, m);
      assert [] + b.0 == b.0;
    } else {
      var t := Tick(r, endDelay, bytes, None);
      TicksAdd(t.regs, t.endDelay, bytes, n - 1, m);
      TicksAddStep(r, endDelay, bytes, n, m);
    }
  }

  /** TicksAdd's step: the first tick, in front of the rest joined by the induction. */
  lemma TicksAddStep(r: DccTx.Regs, endDelay: U16, bytes: seq<Byte>, n: nat, m: nat)
    requires n >= 1
    requires var t := Tick(r, endDelay, bytes, None);
      var a := Ticks(t.regs, t.endDelay, bytes, n - 1);
      var b := Ticks(a.1, a.2, bytes, m);
      Ticks(t.regs, t.endDelay, bytes, n - 1 + m) == (a.0 + b.0, b.1, b.2, a.3 + b.3)
    ensures var a := Ticks(r, endDelay, bytes, n);
      var b := Ticks(a.1, a.2, bytes, m);
      Ticks(r, endDelay, bytes, n + m) == (a.0 + b.0, b.1, b.2, a.3 + b.3)
  {
    var t := Tick(r, endDelay, bytes, None);
    var a := Ticks(t.regs, t.endDelay, bytes, n - 1);
    var b := Ticks(a.1, a.2, bytes, m);
    assert n - 1 + m == n + m - 1;
    assert [t.level] + (a.0 + b.0) == ([t.level] + a.0) + b.0;
  }

  /**
   * While a packet's preamble, bytes or end bit are on the track, this
   * machine and the newer transmitter put out the same levels and keep the
   * same registers.
   */
  lemma {:induction false} TicksAgree(r: DccTx.Regs, endDelay: U16, bytes: seq<Byte>, n: nat)
    requires Sending(r.state) && Sending(DccTx.Run(r, bytes, 0, n).1.state)
    ensures Ticks(r, endDelay, bytes, n) == (DccTx.Run(r, bytes, 0, n).0, DccTx.Run(r, bytes, 0, n).1, endDelay, 0)
    decreases n
  {
    if n > 0 {
      var s := DccTx.Step(r, bytes, 0, false, 0);
      var t := Tick(r, endDelay, bytes, None);
      if !Sending(s.regs.state) {
        assert s.regs.state.Complete1?;
        DccSched.CompleteStays(s.regs, bytes, n - 1);
        assert false;
      }
      assert t.regs == s.regs && t.level == s.level && t.endDelay == endDelay && !t.complete;
      TicksAgree(s.regs, endDelay, bytes, n - 1);
    }
  }

  /** The preamble and the bytes, as the newer transmitter sends them, up to the end bit. */
  lemma BodyTicks(b: DccTx.Regs, endDelay: U16, bytes: seq<Byte>, m: nat)
    requires b.state == DccTx.Preamble1 && b.preamble >= 1 && b.endCount == 1 && b.index == 0 && |bytes| < 256
    requires m == 2 * b.preamble + |DccTx.Payload(bytes, 0)|
    ensures var o := Ticks(b, endDelay, bytes, m);
      o.0 == DccTx.Ones(b.preamble) + DccTx.Payload(bytes, 0) && o.1.state == DccTx.End1 && o.1.endCount == 1 && o.2 == endDelay && o.3 == 0
  {
    var c := b.(preamble := 0);
    var n1, n2 := 2 * b.preamble, |DccTx.Payload(bytes, 0)|;
    DccTx.PreamblePhase(b, bytes, 0);
    DccTx.PayloadPhase(c, bytes, 0);
    DccTx.RunAdd(b, bytes, 0, n1, n2);
    TicksAgree(b, endDelay, bytes, n1 + n2);
  }

  /** The end bit: a one, the task is told the packet is complete, and the gap begins. */
  lemma EndTicks(d: DccTx.Regs, endDelay: U16, bytes: seq<Byte>, g: U16)
    requires d.state == DccTx.End1 && d.endCount == 1 && g == PACKET_DELAY
    ensures Ticks(d, endDelay, bytes, 2) == (DccTx.ONE, d.(endCount := 0, state := DccTx.Gap), g, 1)
  {
    var e := d.(state := DccTx.End2);
    var f := d.(endCount := 0, state := DccTx.Gap);
    assert Tick(d, endDelay, bytes, None) == Pulse(DccTx.Lo, e, endDelay, false, false);
    assert Tick(e, endDelay, bytes, None) == Pulse(DccTx.Hi, f, g, false, true);
    assert Ticks(f, g, bytes, 0) == ([], f, g, 0);
    assert [DccTx.Hi] + [] == [DccTx.Hi];
    assert Ticks(e, endDelay, bytes, 1) == ([DccTx.Hi], f, g, 1);
    assert [DccTx.Lo] + [DccTx.Hi] == DccTx.ONE;
  }

  /** PACKET_DELAY: DCC_EndDelay low ticks, then IDLE_1. */
  lemma {:induction false} DelayTicks(r: DccTx.Regs, endDelay: U16, bytes: seq<Byte>)
    requires r.state == DccTx.Gap && endDelay >= 1
    ensures Ticks(r, endDelay, bytes, endDelay) == (DccTx.Lows(endDelay), r.(state := DccTx.Idle1), 0, 0)
    decreases endDelay
  {
    var t := Tick(r, endDelay, bytes, None);
    if endDelay == 1 {
      assert t == Pulse(DccTx.Lo, r.(state := DccTx.Idle1), 0, false, false);
      assert [DccTx.Lo] + [] == DccTx.Lows(1);
    } else {
      assert t == Pulse(DccTx.Lo, r, endDelay - 1, false, false);
      DelayTicks(r, endDelay - 1, bytes);
    }
  }

  /**
   * A whole packet: from the registers IDLE_2 sets, the ticks spell the
   * preamble, each byte after its start bit, the end bit and the gap of g =
   * PACKET_DELAY low ticks (5 ms), and the task is told once that the
   * packet is complete.
   */
  lemma PacketTicks(r: DccTx.Regs, endDelay: U16, bytes: seq<Byte>, preambleBits: U8, g: U16)
    requires preambleBits >= 1 && |bytes| < 256 && g == PACKET_DELAY
    ensures var o := Ticks(DccTx.Begin(r, preambleBits), endDelay, bytes, |DccTx.Frame(preambleBits, bytes, g)|);
      o.0 == DccTx.Frame(preambleBits, bytes, g) && o.3 == 1
  {
    var m: nat := 2 * preambleBits + |DccTx.Payload(bytes, 0)|;
    FrameParts(preambleBits, bytes, g, m);
    WholeWave(DccTx.Begin(r, preambleBits), endDelay, bytes, g, m, |DccTx.Frame(preambleBits, bytes, g)|);
  }

  lemma WholeWave(b: DccTx.Regs, endDelay: U16, bytes: seq<Byte>, g: U16, m: nat, total: nat)
    requires b.state == DccTx.Preamble1 && b.preamble >= 1 && b.endCount == 1 && b.index == 0 && |bytes| < 256
    requires m == 2 * b.preamble + |DccTx.Payload(bytes, 0)| && g == PACKET_DELAY && total == m + (2 + g)
    ensures var o := Ticks(b, endDelay, bytes, total);
      o.0 == (DccTx.Ones(b.preamble) + DccTx.Payload(bytes, 0)) + (DccTx.ONE + DccTx.Lows(g)) && o.3 == 1
  {
    BodyTicks(b, endDelay, bytes, m);
    TailWave(b, endDelay, bytes, g, m, total);
  }

  /** After a whole packet the machine is back in IDLE_1 with the end and delay counts run out. */
  lemma PacketEndsIdle(r: DccTx.Regs, endDelay: U16, bytes: seq<Byte>, preambleBits: U8, g: U16)
    requires preambleBits >= 1 && |bytes| < 256 && g == PACKET_DELAY
    ensures var o := Ticks(DccTx.Begin(r, preambleBits), endDelay, bytes, |DccTx.Frame(preambleBits, bytes, g)|);
      o.1.state == DccTx.Idle1 && o.1.endCount == 0 && o.2 == 0
  {
    var m: nat := 2 * preambleBits + |DccTx.Payload(bytes, 0)|;
    FrameParts(preambleBits, bytes, g, m);
    WholeRegs(DccTx.Begin(r, preambleBits), endDelay, bytes, g, m, |DccTx.Frame(preambleBits, bytes, g)|);
  }

  lemma WholeRegs(b: DccTx.Regs, endDelay: U16, bytes: seq<Byte>, g: U16, m: nat, total: nat)
    requires b.state == DccTx.Preamble1 && b.preamble >= 1 && b.endCount == 1 && b.index == 0 && |bytes| < 256
    requires m == 2 * b.preamble + |DccTx.Payload(bytes, 0)| && g == PACKET_DELAY && total == m + (2 + g)
    ensures var o := Ticks(b, endDelay, bytes, total); o.1.state == DccTx.Idle1 && o.1.endCount == 0 && o.2 == 0
  {
    BodyTicks(b, endDelay, bytes, m);
    TailRegs(b, endDelay, bytes, g, m, total);
  }

  /** Whatever ran up to the end bit, the end bit and the gap follow it, with one completion. */
  lemma TailWave(b: DccTx.Regs, endDelay: U16, bytes: seq<Byte>, g: U16, m: nat, total: nat)
    requires g == PACKET_DELAY && total == m + (2 + g)
    requires var a := Ticks(b, endDelay, bytes, m); a.1.state == DccTx.End1 && a.1.endCount == 1
    ensures var a := Ticks(b, endDelay, bytes, m);
      var o := Ticks(b, endDelay, bytes, total);
      o.0 == a.0 + (DccTx.ONE + DccTx.Lows(g)) && o.3 == a.3 + 1
  {
    var a := Ticks(b, endDelay, bytes, m);
    TailTicks(a.1, a.2, bytes, g);
    TailJoin(b, endDelay, bytes, g, m, total);
  }

  lemma TailRegs(b: DccTx.Regs, endDelay: U16, bytes: seq<Byte>, g: U16, m: nat, total: nat)
    requires g == PACKET_DELAY && total == m + (2 + g)
    requires var a := Ticks(b, endDelay, bytes, m); a.1.state == DccTx.End1 && a.1.endCount == 1
    ensures var o := Ticks(b, endDelay, bytes, total); o.1.state == DccTx.Idle1 && o.1.endCount == 0 && o.2 == 0
  {
    var a := Ticks(b, endDelay, bytes, m);
    TailTicks(a.1, a.2, bytes, g);
    TailJoin(b, endDelay, bytes, g, m, total);
  }

  /** A run followed by the end bit and a gap of g ticks, whatever g is. */
  lemma TailJoin(b: DccTx.Regs, endDelay: U16, bytes: seq<Byte>, g: U16, m: nat, total: nat)
    requires total == m + (2 + g)
    requires var a := Ticks(b, endDelay, bytes, m); var t := Ticks(a.1, a.2, bytes, 2 + g);
      t.0 == DccTx.ONE + DccTx.Lows(g) && t.1.state == DccTx.Idle1 && t.1.endCount == 0 && t.2 == 0 && t.3 == 1
    ensures var a := Ticks(b, endDelay, bytes, m); var o := Ticks(b, endDelay, bytes, total);
      o.0 == a.0 + (DccTx.ONE + DccTx.Lows(g)) && o.3 == a.3 + 1 && o.1.state == DccTx.Idle1 && o.1.endCount == 0 && o.2 == 0
  {
    var a := Ticks(b, endDelay, bytes, m);
    TicksThen(b, endDelay, bytes, m, 2 + g, total, a.0, a.1, a.2, a.3);
  }

  /** A frame is the preamble and the bytes, then the end bit and the gap. */
  lemma FrameParts(preambleBits: nat, bytes: seq<Byte>, g: nat, m: nat)
    requires m == 2 * preambleBits + |DccTx.Payload(bytes, 0)|
    ensures DccTx.Frame(preambleBits, bytes, g) == (DccTx.Ones(preambleBits) + DccTx.Payload(bytes, 0)) + (DccTx.ONE + DccTx.Lows(g))
    ensures |DccTx.Frame(preambleBits, bytes, g)| == m + (2 + g)
  {
  }

  /** The end bit and the gap after it. */
  lemma TailTicks(d: DccTx.Regs, endDelay: U16, bytes: seq<Byte>, g: U16)
    requires d.state == DccTx.End1 && d.endCount == 1 && g == PACKET_DELAY
    ensures var o := Ticks(d, endDelay, bytes, 2 + g);
      o.0 == DccTx.ONE + DccTx.Lows(g) && o.1.state == DccTx.Idle1 && o.1.endCount == 0 && o.2 == 0 && o.3 == 1
  {
    EndTicks(d, endDelay, bytes, g);
    GapTicks(d, endDelay, bytes, g);
  }

  /** TailTicks once the end bit is known to leave the gap count g, whatever g is. */
  lemma GapTicks(d: DccTx.Regs, endDelay: U16, bytes: seq<Byte>, g: U16)
    requires g >= 1 && Ticks(d, endDelay, bytes, 2) == (DccTx.ONE, d.(endCount := 0, state := DccTx.Gap), g, 1)
    ensures var o := Ticks(d, endDelay, bytes, 2 + g);
      o.0 == DccTx.ONE + DccTx.Lows(g) && o.1.state == DccTx.Idle1 && o.1.endCount == 0 && o.2 == 0 && o.3 == 1
  {
    var e := d.(endCount := 0, state := DccTx.Gap);
    DelayTicks(e, g, bytes);
    TicksThen(d, endDelay, bytes, 2, g, 2 + g, DccTx.ONE, e, g, 1);
  }

  /** A run that starts with a known stretch: that stretch, then the run from where it ends. */
  lemma TicksThen(r: DccTx.Regs, endDelay: U16, bytes: seq<Byte>, n1: nat, n2: nat, total: nat,
                  w: seq<DccTx.Level>, m: DccTx.Regs, e: U16, c: nat)
    requires Ticks(r, endDelay, bytes, n1) == (w, m, e, c) && total == n1 + n2
    ensures var q := Ticks(m, e, bytes, n2); Ticks(r, endDelay, bytes, total) == (w + q.0, q.1, q.2, c + q.3)
  {
    TicksAdd(r, endDelay, bytes, n1, n2);
  }
}
