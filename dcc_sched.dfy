/**
 * The older packet scheduler of the SAMC21 command station (samc21/dcc.cpp).
 * Packets wait in one list ordered by when they are due; each packet holds
 * its Delta, the microseconds from the packet before it (the list head's is
 * from now). The timer interrupt counts the deltas down by 58 microseconds a
 * tick, the DCC task makes the head ACTIVE once it is due, and the
 * interrupt's waveform machine sends the ACTIVE head and marks it COMPLETE.
 *
 * Packets are values here: the list is a sequence of them, and a packet
 * leaving the list and coming back is a new value with the same fields.
 */
module DccSched {
  import opened Machine
  import opened RTime
  import opened DccBytes
  import opened Wrappers
  import DccTx

  /** DCC_SCHEDULED_END: what Schedule returns for a packet that is not to be sent again. */
  const END := -1
  /** The period of a moving speed packet and of a function packet once their first three sends are over. */
  const SPEED_PERIOD := 500000
  const FUNCTION_PERIOD := 1000000
  /** The least time between the end of one packet and the start of the next for the same address. */
  const HOLD_OFF := 5000
  /** An idle packet is queued when the next packet is further away than this (DCC_MS(10)). */
  const IDLE_LEAD := 10000
  /** The timer interrupt's period in microseconds. */
  const TICK := 58

  /** The concrete class of a packet. */
  datatype Kind = Speed | Function | Idle | Service

  /** DCC_Packet::State. */
  datatype State = Created | Scheduled | Active | Complete

  /** The six bytes of DCC_Packet::Data. */
  type Block = s: seq<Byte> | |s| == 6 witness [0, 0, 0, 0, 0, 0]

  /**
   * DCC_Packet and the fields of its subclasses: `txCount`, `scheduled`
   * (the speed and function packets' time, the idle packet's flag is
   * `sent`), `repeat` and `mask`.
   */
  datatype Pkt = Pkt(
    kind: Kind, data: Block, size: U8, preambleBits: U8, taskId: nat, signal: nat,
    state: State, disableReschedule: bool, delta: int,
    txCount: U8, scheduled: Time, repeat: bool, mask: Byte, sent: bool)

  /** The bytes a packet sends. */
  function Bytes(p: Pkt): seq<Byte>
  {
    if p.size <= 6 then p.data[..p.size] else p.data
  }

  /** DCC_Packet::Init over a fresh object: the first `size` bytes are copied (the rest are zero here). */
  function Fill(body: seq<Byte>): (b: Block)
    requires |body| <= 6
    ensures b[..|body|] == body
  {
    body + seq(6 - |body|, _ => 0)
  }

  function New(kind: Kind, body: seq<Byte>, preambleBits: U8, taskId: nat, signal: nat): (p: Pkt)
    requires |body| <= 6
    ensures Bytes(p) == body && p.state == Created && !p.disableReschedule && p.txCount == 0
  {
    Pkt(kind, Fill(body), |body|, preambleBits, taskId, signal, Created, false, 0, 0, 0, false, 0, false)
  }

  // ---------------------------------------------------------------------
  // The packet classes

  /**
   * DCC_SpeedPacket: the 128-step speed instruction with one added to the
   * speed (the uint8_t test `Speed >= 0` always holds), so stop goes out as
   * an emergency stop; the packet repeats unless the sum wrapped to 0.
   */
  function SpeedPkt(address: U8, speed: U8, forward: bool, taskId: nat): (p: Pkt)
    ensures p.repeat <==> speed != 255
    ensures p.kind == Speed && p.state == Created && p.preambleBits == 14 && |Bytes(p)| == 4
  {
    New(Speed, SpeedPacketBytesAsWritten(address, speed, forward), 14, taskId, 0).(repeat := ToU8(speed + 1) != 0)
  }

  /** The speed goes out one step up: stop (0) as emergency stop (1), speed s as step s + 1. */
  lemma SpeedPktDecodes(address: U8, speed: U8, forward: bool, taskId: nat)
    requires speed < 127
    ensures DecodeSpeed128(Bytes(SpeedPkt(address, speed, forward, taskId))) == Some(Speed128(address, forward, speed + 1))
  {
    SpeedPacketDecodes(address, speed + 1, forward);
  }

  /** DCC_FunctionPacket: a function group instruction; `mask` picks out the group's opcode bits. */
  function FunctionPkt(address: U8, functions: U8, group: Group, taskId: nat): (p: Pkt)
    ensures DecodeFunctions(Bytes(p)) ==
      Some(Functions(address, group, ByteOf(functions) & (if group == FL_F4 then 0x1F else 0x0F)))
    ensures p.mask == GroupMask(group) && p.kind == Function && p.state == Created
  {
    FunctionBytesDecode(address, functions, group);
    New(Function, FunctionBytes(address, functions, group), 14, taskId, 0).(mask := GroupMask(group))
  }

  /** DCC_IdlePacket: FF 00 FF, sent once. */
  function IdlePkt(taskId: nat): (p: Pkt)
    ensures Bytes(p) == IDLE_BYTES && Checked(Bytes(p)) && p.kind == Idle && !p.sent && p.state == Created
  {
    IdleAndResetChecked();
    New(Idle, IDLE_BYTES, 14, taskId, 0)
  }

  /** DCC_ServicePacket: any bytes, a 50-bit preamble, and the signal to raise when done. */
  function ServicePkt(body: seq<Byte>, signal: nat, taskId: nat): (p: Pkt)
    requires |body| <= 6
    ensures Bytes(p) == body && p.kind == Service && p.preambleBits == 50 && p.signal == signal && p.state == Created
  {
    New(Service, body, 50, taskId, signal)
  }

  /** The delay until a periodic packet's next slot, or 0 if the slot has passed. */
  function Delay(slot: Time, time: Time): int
  {
    if Sub(slot, time) >= 0 then Sub(slot, time) else 0
  }

  /**
   * Schedule of every class: the packet with its counters moved on, and the
   * microseconds until it is to go out, or END.
   */
  function Sched(p: Pkt, time: Time): (Pkt, int)
  {
    match p.kind
    case Speed =>
      var n := ToU8(p.txCount + 1);
      if n < 4 then (p.(txCount := n, scheduled := time), 0)
      else if p.repeat then
        var slot := Add(p.scheduled, SPEED_PERIOD);
        (p.(txCount := n, scheduled := slot), Delay(slot, time))
      else (p.(txCount := n), END)
    case Function =>
      var n := ToU8(p.txCount + 1);
      if n < 4 then (p.(txCount := n, scheduled := time), 0)
      else
        var slot := Add(p.scheduled, FUNCTION_PERIOD);
        (p.(txCount := n, scheduled := slot), Delay(slot, time))
    case Idle =>
      if !p.sent then (p.(sent := true), 0) else (p, END)
    case Service =>
      var n := ToU8(p.txCount + 1);
      (p.(txCount := n), if n <= 10 then 0 else END)
  }

  /**
   * What Schedule returns is END or a delay of at least 0, which
   * DCC_InsertPacket demands; a positive delay runs exactly to the packet's
   * slot, so a periodic packet keeps to its grid unless it is late.
   */
  lemma SchedDelay(p: Pkt, time: Time)
    ensures var (q, d) := Sched(p, time);
      (d == END || d >= 0) && (d > 0 ==> Add(time, d) == q.scheduled)
      && q.kind == p.kind && q.data == p.data && q.size == p.size && q.state == p.state && q.delta == p.delta
  {
    var (q, d) := Sched(p, time);
    if d > 0 {
      AddSubInverse(time, q.scheduled);
    }
  }

  /** A function packet is never dropped: after its first three sends it goes out every second for good. */
  lemma FunctionNeverEnds(p: Pkt, time: Time)
    requires p.kind == Function
    ensures Sched(p, time).1 >= 0
    ensures p.txCount < 3 ==> Sched(p, time).1 == 0
  {
  }

  /** The delays Schedule returns over a series of calls, each on the packet the previous one left. */
  function Replay(p: Pkt, times: seq<Time>): (r: seq<int>)
    ensures |r| == |times|
    decreases |times|
  {
    if times == [] then []
    else var (q, d) := Sched(p, times[0]); [d] + Replay(q, times[1..])
  }

  /** Zeroes: what a series of immediate sends returns. */
  function Zeros(n: nat): (r: seq<int>)
    ensures |r| == n && forall i :: 0 <= i < n ==> r[i] == 0
  {
    if n == 0 then [] else [0] + Zeros(n - 1)
  }

  /** A service packet with TxCount c (below 11) goes out 10 - c more times at once, and then ends. */
  lemma {:induction false} ServiceReplay(p: Pkt, times: seq<Time>)
    requires p.kind == Service && p.txCount <= 10 && |times| == 11 - p.txCount
    ensures Replay(p, times) == Zeros(10 - p.txCount) + [END]
    decreases |times|
  {
    var (q, d) := Sched(p, times[0]);
    if p.txCount == 10 {
      assert d == END && times[1..] == [];
    } else {
      ServiceReplay(q, times[1..]);
      assert Zeros(10 - p.txCount) == [0] + Zeros(10 - q.txCount);
    }
  }

  /** A fresh service packet (the reset and CV packets of direct mode) is sent ten times. */
  lemma ServiceSentTenTimes(body: seq<Byte>, signal: nat, taskId: nat, times: seq<Time>)
    requires |body| <= 6 && |times| == 11
    ensures Replay(ServicePkt(body, signal, taskId), times) == Zeros(10) + [END]
  {
    ServiceReplay(ServicePkt(body, signal, taskId), times);
  }

  /** A speed packet that does not repeat (speed 255 wraps to 0) is sent three times. */
  lemma StillSpeedSentThreeTimes(address: U8, forward: bool, taskId: nat, times: seq<Time>)
    requires |times| == 4
    ensures Replay(SpeedPkt(address, 255, forward, taskId), times) == [0, 0, 0, END]
  {
    var p := SpeedPkt(address, 255, forward, taskId);
    var (p1, d1) := Sched(p, times[0]);
    var (p2, d2) := Sched(p1, times[1]);
    var (p3, d3) := Sched(p2, times[2]);
    assert Replay(p3, times[3..]) == [END];
    assert Replay(p2, times[2..]) == [0, END];
    assert Replay(p1, times[1..]) == [0, 0, END];
  }

  /** An idle packet is sent once. */
  lemma IdleSentOnce(taskId: nat, times: seq<Time>)
    requires |times| == 2
    ensures Replay(IdlePkt(taskId), times) == [0, END]
  {
    var p := IdlePkt(taskId);
    assert Replay(Sched(p, times[0]).0, times[1..]) == [END];
  }

  /** The signal DCC_DirectWriteByte and DCC_DirectVerifyByte wait on (1 << 15). */
  const SERVICE_SIGNAL := 0x8000

  /**
   * The packets DCC_DirectWriteByte (write) or DCC_DirectVerifyByte sends,
   * in order, from task taskId: resets, the CV instruction, resets; each is
   * sent in service mode and the caller waits for it to be done.
   */
  function DirectPackets(cvId: U16, value: U8, write: bool, taskId: nat): (r: seq<Pkt>)
    ensures |r| == 3 && forall i :: 0 <= i < 3 ==> r[i].kind == Kind.Service && r[i].signal == SERVICE_SIGNAL && r[i].state == Created
    ensures Bytes(r[0]) == RESET_BYTES && Bytes(r[2]) == RESET_BYTES
    ensures Bytes(r[1]) == if write then DirectWriteBytes(cvId, value) else DirectVerifyBytes(cvId, value)
  {
    var reset := ServicePkt(RESET_BYTES, SERVICE_SIGNAL, taskId);
    var cv := if write then DirectWriteBytes(cvId, value) else DirectVerifyBytes(cvId, value);
    [reset, ServicePkt(cv, SERVICE_SIGNAL, taskId), reset]
  }

  /** For CVs 1 to 1024 the middle packet is the direct-mode write or verify of that CV with that value. */
  lemma DirectPacketsDecode(cvId: U16, value: U8, write: bool, taskId: nat)
    requires 1 <= cvId <= 1024
    ensures DecodeDirect(Bytes(DirectPackets(cvId, value, write, taskId)[1])) ==
      Some(DirectCv(if write then WRITE_BYTE else VERIFY_BYTE, cvId, ByteOf(value)))
  {
    if write {
      DirectWriteDecodes(cvId, value);
    } else {
      DirectVerifyDecodes(cvId, value);
    }
  }

  /** NewPacket->IsSame(Packet): a newer packet `n` that replaces `p`. */
  predicate Same(n: Pkt, p: Pkt)
  {
    match n.kind
    case Speed => p.data[0] == n.data[0] && p.data[1] == SPEED128_INSTRUCTION
    case Function => p.data[0] == n.data[0] && p.data[1] & n.mask == n.data[1] & n.mask
    case _ => false
  }

  /** A function packet replaces exactly the function packets for the same address and group. */
  lemma FunctionSame(a: U8, f: U8, g: Group, b: U8, h: U8, k: Group, t: nat, u: nat)
    ensures Same(FunctionPkt(a, f, g, t), FunctionPkt(b, h, k, u)) <==> a == b && g == k
  {
    var n, p := FunctionPkt(a, f, g, t), FunctionPkt(b, h, k, u);
    FunctionBytesDecode(a, f, g);
    FunctionBytesDecode(b, h, k);
    ByteRoundTrip(a);
    ByteRoundTrip(b);
    assert n.data[..3] == FunctionBytes(a, f, g) && p.data[..3] == FunctionBytes(b, h, k);
    assert n.data[0] == ByteOf(a) && p.data[0] == ByteOf(b);
  }

  /** A speed packet replaces exactly the speed packets for the same address. */
  lemma SpeedSame(a: U8, s: U8, f: bool, b: U8, r: U8, g: bool, t: nat, u: nat)
    ensures Same(SpeedPkt(a, s, f, t), SpeedPkt(b, r, g, u)) <==> a == b
  {
    var n, p := SpeedPkt(a, s, f, t), SpeedPkt(b, r, g, u);
    ByteRoundTrip(a);
    ByteRoundTrip(b);
    assert n.data[..4] == SpeedPacketBytesAsWritten(a, s, f) && p.data[..4] == SpeedPacketBytesAsWritten(b, r, g);
    assert n.data[0] == ByteOf(a) && p.data[0] == ByteOf(b) && p.data[1] == SPEED128_INSTRUCTION;
  }

  // ---------------------------------------------------------------------
  // The delta list

  /** When each packet of a list is due: the running sums of the deltas, starting from `base`. */
  function Dues(l: seq<Pkt>, base: int): (r: seq<int>)
    ensures |r| == |l|
    decreases |l|
  {
    if l == [] then [] else [base + l[0].delta] + Dues(l[1..], base + l[0].delta)
  }

  /** No packet is due before the one ahead of it. */
  predicate Ordered(l: seq<Pkt>)
  {
    forall i :: 0 <= i < |l| ==> l[i].delta >= 0
  }

  /**
   * DCC_InsertPacket's walk: how many packets go ahead of a packet due in
   * d microseconds, and what is left of d after them.
   */
  function Walk(l: seq<Pkt>, d: int): (w: (nat, int))
    ensures w.0 <= |l|
    decreases |l|
  {
    if l == [] || l[0].delta > d then (0, d)
    else var w := Walk(l[1..], d - l[0].delta); (w.0 + 1, w.1)
  }

  /** DCC_InsertPacket as written: the packet goes in with what is left of its delay, and its successor is not adjusted. */
  function InsertAsWritten(l: seq<Pkt>, p: Pkt, d: int): (r: seq<Pkt>)
    ensures |r| == |l| + 1
  {
    var (k, rest) := Walk(l, d);
    l[..k] + [p.(delta := rest)] + l[k..]
  }

  /** DCC_InsertPacket with the successor's delta reduced by the new packet's, as a delta list needs. */
  function Insert(l: seq<Pkt>, p: Pkt, d: int): (r: seq<Pkt>)
    ensures |r| == |l| + 1
  {
    var (k, rest) := Walk(l, d);
    l[..k] + [p.(delta := rest)] + (if k < |l| then [l[k].(delta := l[k].delta - rest)] + l[k + 1..] else [])
  }

  /** Adds r to every due time. */
  function Later(s: seq<int>, r: int): (t: seq<int>)
    ensures |t| == |s| && forall i :: 0 <= i < |s| ==> t[i] == s[i] + r
  {
    seq(|s|, i requires 0 <= i < |s| => s[i] + r)
  }

  /**
   * The walk stops before the first packet due later than d, and d is the
   * due time of the packets passed plus what is left.
   */
  lemma {:induction false} WalkDue(l: seq<Pkt>, d: int, base: int)
    ensures var (k, rest) := Walk(l, d);
      (k == 0 ==> rest == d) && (k > 0 ==> Dues(l, base)[k - 1] + rest == base + d) &&
      (k < |l| ==> l[k].delta > rest) && (d >= 0 ==> rest >= 0)
    decreases |l|
  {
    if l != [] && l[0].delta <= d {
      WalkDue(l[1..], d - l[0].delta, base + l[0].delta);
      var (k, rest) := Walk(l, d);
      if k > 1 {
        assert Dues(l, base)[k - 1] == Dues(l[1..], base + l[0].delta)[k - 2];
      }
    }
  }

  /**
   * Insert: the new packet is due d microseconds after `base` and every
   * other packet keeps its due time.
   */
  lemma {:induction false} InsertDues(l: seq<Pkt>, p: Pkt, d: int, base: int)
    ensures var k := Walk(l, d).0;
      Dues(Insert(l, p, d), base) == Dues(l, base)[..k] + [base + d] + Dues(l, base)[k..]
    decreases |l|, 1
  {
    if l == [] || l[0].delta > d {
      InsertFront(l, p, d, base);
    } else {
      InsertBehind(l, p, d, base);
    }
  }

  /** A packet due before the head goes in front, and the head's delta is reduced by its delay. */
  lemma InsertFront(l: seq<Pkt>, p: Pkt, d: int, base: int)
    requires l == [] || l[0].delta > d
    ensures Walk(l, d).0 == 0 && Dues(Insert(l, p, d), base) == [base + d] + Dues(l, base)
  {
    if l != [] {
      var s := [l[0].(delta := l[0].delta - d)] + l[1..];
      assert Insert(l, p, d) == [p.(delta := d)] + s;
      assert s[1..] == l[1..];
      assert Dues(s, base + d) == [base + l[0].delta] + Dues(l[1..], base + l[0].delta);
    }
  }

  /** A packet due after the head goes in behind it, as it would into the rest of the list. */
  lemma {:induction false} InsertBehind(l: seq<Pkt>, p: Pkt, d: int, base: int)
    requires l != [] && l[0].delta <= d
    ensures var k := Walk(l, d).0;
      Dues(Insert(l, p, d), base) == Dues(l, base)[..k] + [base + d] + Dues(l, base)[k..]
    decreases |l|, 0
  {
    var b := base + l[0].delta;
    var t := Dues(l[1..], b);
    assert Dues(l, base) == [b] + t;
    var w := Walk(l[1..], d - l[0].delta).0;
    assert Walk(l, d).0 == w + 1;
    SpliceCons(b, t, w, base + d);
    InsertCons(l, p, d);
    DuesCons(l[0], Insert(l[1..], p, d - l[0].delta), base);
    InsertDues(l[1..], p, d - l[0].delta, b);
    var r' := Insert(l[1..], p, d - l[0].delta);
    assert Dues(Insert(l, p, d), base) == [b] + Dues(r', b);
    assert Dues(r', b) == t[..w] + [base + d] + t[w..];
  }

  lemma SpliceCons(b: int, t: seq<int>, w: nat, x: int)
    requires w <= |t|
    ensures ([b] + t)[..w + 1] + [x] + ([b] + t)[w + 1..] == [b] + (t[..w] + [x] + t[w..])
  {
    assert ([b] + t)[..w + 1] == [b] + t[..w];
    assert ([b] + t)[w + 1..] == t[w..];
  }

  lemma DuesCons(h: Pkt, t: seq<Pkt>, base: int)
    ensures Dues([h] + t, base) == [base + h.delta] + Dues(t, base + h.delta)
  {
    assert ([h] + t)[1..] == t;
  }

  /** Walking past the head: the insert into the rest, with the head in front. */
  lemma InsertCons(l: seq<Pkt>, p: Pkt, d: int)
    requires l != [] && l[0].delta <= d
    ensures Insert(l, p, d) == [l[0]] + Insert(l[1..], p, d - l[0].delta)
  {
    var t := l[1..];
    var (w, rest) := Walk(t, d - l[0].delta);
    assert Walk(l, d) == (w + 1, rest);
    assert l[..w + 1] == [l[0]] + t[..w];
    if w < |t| {
      assert l[w + 1] == t[w] && l[w + 2..] == t[w + 1..];
    }
  }

  lemma InsertAsWrittenCons(l: seq<Pkt>, p: Pkt, d: int)
    requires l != [] && l[0].delta <= d
    ensures InsertAsWritten(l, p, d) == [l[0]] + InsertAsWritten(l[1..], p, d - l[0].delta)
  {
    var t := l[1..];
    var (w, rest) := Walk(t, d - l[0].delta);
    assert Walk(l, d) == (w + 1, rest);
    assert l[..w + 1] == [l[0]] + t[..w];
    assert l[w + 1..] == t[w..];
  }

  /** Insert keeps a list in order when the new delay is not negative. */
  lemma InsertOrdered(l: seq<Pkt>, p: Pkt, d: int)
    requires Ordered(l) && d >= 0
    ensures Ordered(Insert(l, p, d))
  {
    WalkDue(l, d, 0);
    var (k, rest) := Walk(l, d);
    var r := Insert(l, p, d);
    forall i | 0 <= i < |r|
      ensures r[i].delta >= 0
    {
      if i < k {
        assert r[i] == l[i];
      } else if i > k + 1 {
        assert r[i] == l[i - 1];
      }
    }
  }

  /**
   * InsertAsWritten: the new packet is due at d, but every packet after it
   * is put off by what was left of d.
   */
  lemma {:induction false} InsertAsWrittenDues(l: seq<Pkt>, p: Pkt, d: int, base: int)
    ensures var (k, rest) := Walk(l, d);
      Dues(InsertAsWritten(l, p, d), base) == Dues(l, base)[..k] + [base + d] + Later(Dues(l, base)[k..], rest)
    decreases |l|
  {
    var (k, rest) := Walk(l, d);
    var r := InsertAsWritten(l, p, d);
    if l == [] || l[0].delta > d {
      assert r == [p.(delta := d)] + l;
      DuesShift(l, base, d);
    } else {
      var b := base + l[0].delta;
      InsertAsWrittenDues(l[1..], p, d - l[0].delta, b);
      var w := Walk(l[1..], d - l[0].delta);
      assert r == [l[0]] + InsertAsWritten(l[1..], p, d - l[0].delta);
      assert Dues(l, base)[..k] == [b] + Dues(l[1..], b)[..w.0];
      assert Dues(l, base)[k..] == Dues(l[1..], b)[w.0..];
    }
  }

  /** Moving the base moves every due time. */
  lemma {:induction false} DuesShift(l: seq<Pkt>, base: int, r: int)
    ensures Dues(l, base + r) == Later(Dues(l, base), r)
    decreases |l|
  {
    if l != [] {
      DuesShift(l[1..], base + l[0].delta, r);
      DuesShiftStep(l, base, r);
    }
  }

  /** DuesShift's step: the head's due time moves, and the rest moves by the induction. */
  lemma DuesShiftStep(l: seq<Pkt>, base: int, r: int)
    requires l != [] && Dues(l[1..], base + l[0].delta + r) == Later(Dues(l[1..], base + l[0].delta), r)
    ensures Dues(l, base + r) == Later(Dues(l, base), r)
  {
    var b := base + l[0].delta;
    var t := Dues(l[1..], b);
    assert base + r + l[0].delta == b + r;
    assert Dues(l, base + r) == [b + r] + Later(t, r);
    LaterCons(b, t, r);
  }

  /** Later of a sequence with a head: the head moves, then the rest. */
  lemma LaterCons(b: int, t: seq<int>, r: int)
    ensures Later([b] + t, r) == [b + r] + Later(t, r)
  {
    var u := Later([b] + t, r);
    forall i | 0 <= i < |u|
      ensures u[i] == ([b + r] + Later(t, r))[i]
    {
    }
  }

  /** The as-written insert puts off the packet after the new one: one due in 10 is due in 15 after a packet due in 5 goes in. */
  lemma SuccessorPutOff(a: Pkt, p: Pkt)
    requires a.delta == 10
    ensures Dues(InsertAsWritten([a], p, 5), 0) == [5, 15]
    ensures Dues(Insert([a], p, 5), 0) == [5, 10]
  {
    InsertAsWrittenDues([a], p, 5, 0);
    InsertDues([a], p, 5, 0);
    assert Walk([a], 5) == (0, 5);
  }

  /** A packet the interrupt has taken up (ACTIVE, or COMPLETE and not yet retired). */
  predicate Started(p: Pkt)
  {
    p.state == Active || p.state == Complete
  }

  /** Unlinking the head of `l`: its delta passes to its successor. */
  function Unlink(l: seq<Pkt>): (r: seq<Pkt>)
    requires l != []
    ensures |r| == |l| - 1
  {
    if |l| == 1 then [] else [l[1].(delta := l[1].delta + l[0].delta)] + l[2..]
  }

  /**
   * DCC_SendPacket's loop over the list for a new packet n: a same packet
   * that has started is kept but not rescheduled; the first same packet
   * that has not started is unlinked, and the walk stops there.
   */
  function Purge(l: seq<Pkt>, n: Pkt): (r: seq<Pkt>)
    ensures |l| - 1 <= |r| <= |l|
    decreases |l|
  {
    if l == [] then []
    else if Same(n, l[0]) then
      if Started(l[0]) then [l[0].(disableReschedule := true)] + Purge(l[1..], n)
      else Unlink(l)
    else [l[0]] + Purge(l[1..], n)
  }

  /** Where the first same packet that has not started is, or |l| if there is none. */
  function Victim(l: seq<Pkt>, n: Pkt): (k: nat)
    ensures k <= |l|
    decreases |l|
  {
    if l == [] then 0
    else if Same(n, l[0]) && !Started(l[0]) then 0
    else Victim(l[1..], n) + 1
  }

  /** What Purge leaves of a packet it walks past. */
  function Passed(p: Pkt, n: Pkt): Pkt
  {
    if Same(n, p) then p.(disableReschedule := true) else p
  }

  /** s with element k taken out, if there is one. */
  function Cut<T>(s: seq<T>, k: nat): (r: seq<T>)
    ensures |r| == if k < |s| then |s| - 1 else |s|
  {
    if k < |s| then s[..k] + s[k + 1..] else s
  }

  /**
   * Purge removes exactly the victim, if there is one, and every other
   * packet keeps its due time.
   */
  lemma {:induction false} PurgeDues(l: seq<Pkt>, n: Pkt, base: int)
    ensures Dues(Purge(l, n), base) == Cut(Dues(l, base), Victim(l, n))
    decreases |l|, 1
  {
    if l == [] {
    } else if Same(n, l[0]) && !Started(l[0]) {
      if |l| > 1 {
        var b := base + l[0].delta;
        var r := Purge(l, n);
        assert r == [l[1].(delta := l[1].delta + l[0].delta)] + l[2..];
        assert Dues(r, base) == [b + l[1].delta] + Dues(l[2..], b + l[1].delta);
        assert l[1..][1..] == l[2..];
        assert Dues(l, base)[1..] == Dues(l[1..], b);
      }
    } else {
      PurgeDuesPassed(l, n, base);
    }
  }

  lemma PurgeDuesPassed(l: seq<Pkt>, n: Pkt, base: int)
    requires l != [] && !(Same(n, l[0]) && !Started(l[0]))
    ensures Dues(Purge(l, n), base) == Cut(Dues(l, base), Victim(l, n))
    decreases |l|, 0
  {
    var b := base + l[0].delta;
    PurgeDues(l[1..], n, b);
    PurgePasses(l, n);
    assert Dues(Purge(l, n), base) == [b] + Dues(Purge(l[1..], n), b);
    assert Dues(l, base) == [b] + Dues(l[1..], b);
    CutAfterCons(b, Dues(l[1..], b), Victim(l[1..], n));
  }

  /** Cutting element k + 1 out of [b] + t is cutting element k out of t. */
  lemma CutAfterCons<T>(b: T, t: seq<T>, k: nat)
    ensures Cut([b] + t, k + 1) == [b] + Cut(t, k)
  {
    if k < |t| {
      assert ([b] + t)[..k + 1] == [b] + t[..k];
      assert ([b] + t)[k + 2..] == t[k + 1..];
    }
  }

  /**
   * The packets Purge walks past before the victim are kept, the same
   * ones marked not to be rescheduled; those after the victim's successor
   * are not looked at.
   */
  lemma {:induction false} PurgeKeeps(l: seq<Pkt>, n: Pkt)
    ensures var k := Victim(l, n); var r := Purge(l, n);
      |r| == (if k < |l| then |l| - 1 else |l|) &&
      (forall i :: 0 <= i < k ==> r[i] == Passed(l[i], n)) &&
      (k + 1 < |l| ==> r[k] == l[k + 1].(delta := l[k + 1].delta + l[k].delta) && r[k + 1..] == l[k + 2..])
    decreases |l|
  {
    if l == [] {
    } else if Same(n, l[0]) && !Started(l[0]) {
      assert Victim(l, n) == 0 && Purge(l, n) == Unlink(l);
    } else {
      PurgeKeeps(l[1..], n);
      PurgePasses(l, n);
      PurgePrefix(l, n);
      PurgeAfter(l, n);
    }
  }

  /** PurgeKeeps' step past a packet that is not the victim: the packets before the victim. */
  lemma PurgePrefix(l: seq<Pkt>, n: Pkt)
    requires l != [] && !(Same(n, l[0]) && !Started(l[0]))
    requires var t := l[1..]; var k := Victim(t, n); var r := Purge(t, n);
      |r| == (if k < |t| then |t| - 1 else |t|) && forall i :: 0 <= i < k ==> r[i] == Passed(t[i], n)
    ensures var k := Victim(l, n); var r := Purge(l, n);
      |r| == (if k < |l| then |l| - 1 else |l|) && forall i :: 0 <= i < k ==> r[i] == Passed(l[i], n)
  {
    var t := l[1..];
    var r', k' := Purge(t, n), Victim(t, n);
    PurgePasses(l, n);
    var r := Purge(l, n);
    forall i | 0 <= i < k' + 1
      ensures r[i] == Passed(l[i], n)
    {
      if i > 0 {
        assert r[i] == r'[i - 1] && l[i] == t[i - 1];
      }
    }
  }

  /** PurgeKeeps' step past a packet that is not the victim: the victim's successor and what follows it. */
  lemma PurgeAfter(l: seq<Pkt>, n: Pkt)
    requires l != [] && !(Same(n, l[0]) && !Started(l[0]))
    requires var t := l[1..]; var k := Victim(t, n); var r := Purge(t, n);
      k + 1 < |t| ==> r[k] == t[k + 1].(delta := t[k + 1].delta + t[k].delta) && r[k + 1..] == t[k + 2..]
    ensures var k := Victim(l, n); var r := Purge(l, n);
      k + 1 < |l| ==> r[k] == l[k + 1].(delta := l[k + 1].delta + l[k].delta) && r[k + 1..] == l[k + 2..]
  {
    var t := l[1..];
    var r', k' := Purge(t, n), Victim(t, n);
    PurgePasses(l, n);
    var r := Purge(l, n);
    if k' + 2 < |l| {
      var k := k' + 1;
      assert r[k] == r'[k'];
      assert t[k' + 1] == l[k + 1] && t[k'] == l[k];
      DropCons(Passed(l[0], n), r', k + 1);
      DropCons(l[0], t, k + 2);
      assert [l[0]] + t == l;
    }
  }

  /** Dropping j >= 1 elements of [x] + s is dropping j - 1 of s. */
  lemma DropCons<T>(x: T, s: seq<T>, j: nat)
    requires 1 <= j <= |s| + 1
    ensures ([x] + s)[j..] == s[j - 1..]
  {
    assert |([x] + s)[j..]| == |s[j - 1..]|;
    forall i | 0 <= i < |s[j - 1..]|
      ensures ([x] + s)[j..][i] == s[j - 1..][i]
    {
    }
  }

  /** A packet Purge walks past stays at the head, marked when it is a same packet. */
  lemma PurgePasses(l: seq<Pkt>, n: Pkt)
    requires l != [] && !(Same(n, l[0]) && !Started(l[0]))
    ensures Purge(l, n) == [Passed(l[0], n)] + Purge(l[1..], n)
    ensures Victim(l, n) == Victim(l[1..], n) + 1
  {
  }

  /**
   * The countdown at the end of each tick: d microseconds are taken off the
   * leading deltas; a packet whose delta runs out is set to 0 and signals
   * the task, and the first one that does not run out absorbs the rest.
   * Also gives how many packets signalled.
   */
  function Elapse(l: seq<Pkt>, d: int): (r: (seq<Pkt>, nat))
    ensures |r.0| == |l| && r.1 <= |l|
    decreases |l|
  {
    if l == [] || d == 0 then (l, 0)
    else if l[0].delta <= d then
      var e := Elapse(l[1..], d - l[0].delta);
      ([l[0].(delta := 0)] + e.0, e.1 + 1)
    else ([l[0].(delta := l[0].delta - d)] + l[1..], 0)
  }

  /** The countdown only changes deltas, and none of them becomes negative. */
  lemma {:induction false} ElapseOrdered(l: seq<Pkt>, d: int)
    requires Ordered(l) && d >= 0
    ensures var r := Elapse(l, d).0;
      Ordered(r) && forall i :: 0 <= i < |l| ==> r[i] == l[i].(delta := r[i].delta)
    decreases |l|
  {
    if l != [] && d != 0 && l[0].delta <= d {
      ElapseOrdered(l[1..], d - l[0].delta);
    }
  }

  /**
   * Over an ordered list the countdown brings every due time d closer, but
   * not below 0.
   */
  lemma {:induction false} ElapseDues(l: seq<Pkt>, d: int)
    requires Ordered(l) && d >= 0
    ensures var r := Elapse(l, d).0;
      forall i :: 0 <= i < |l| ==> Dues(r, 0)[i] == if Dues(l, 0)[i] > d then Dues(l, 0)[i] - d else 0
    decreases |l|
  {
    if l == [] {
    } else if d == 0 {
      DuesNonNegative(l);
    } else if l[0].delta <= d {
      var x := l[0].delta;
      ElapseDuesFirst(l, d);
    } else {
      ElapseDuesAbsorb(l, d);
    }
  }

  lemma ElapseDuesFirst(l: seq<Pkt>, d: int)
    requires Ordered(l) && d > 0 && l != [] && l[0].delta <= d
    ensures var r := Elapse(l, d).0;
      forall i :: 0 <= i < |l| ==> Dues(r, 0)[i] == if Dues(l, 0)[i] > d then Dues(l, 0)[i] - d else 0
    decreases |l|, 0
  {
    var x := l[0].delta;
    var t := Elapse(l[1..], d - x).0;
    var r := Elapse(l, d).0;
    ElapseDues(l[1..], d - x);
    DuesShift(l[1..], 0, x);
    var u := Dues(l[1..], 0);
    assert Dues(l, 0) == [x] + Dues(l[1..], x);
    assert r == [l[0].(delta := 0)] + t;
    DuesShift(t, 0, 0);
    assert Dues(r, 0) == [0] + Dues(t, 0);
    forall i | 0 < i < |l|
      ensures Dues(r, 0)[i] == if Dues(l, 0)[i] > d then Dues(l, 0)[i] - d else 0
    {
      assert Dues(l, 0)[i] == u[i - 1] + x;
      assert Dues(r, 0)[i] == Dues(t, 0)[i - 1];
    }
  }

  lemma ElapseDuesAbsorb(l: seq<Pkt>, d: int)
    requires Ordered(l) && d > 0 && l != [] && l[0].delta > d
    ensures var r := Elapse(l, d).0;
      forall i :: 0 <= i < |l| ==> Dues(r, 0)[i] == Dues(l, 0)[i] - d && Dues(l, 0)[i] > d
  {
    var x := l[0].delta;
    var r := Elapse(l, d).0;
    assert r == [l[0].(delta := x - d)] + l[1..];
    DuesShift(l[1..], 0, x);
    DuesShift(l[1..], 0, x - d);
    assert Dues(l, 0) == [x] + Dues(l[1..], x);
    assert Dues(r, 0) == [x - d] + Dues(l[1..], x - d);
    assert Ordered(l[1..]);
    DuesNonNegative(l[1..]);
  }

  /**
   * One step of the countdown loop at position i: the packet there runs out
   * and the walk goes on with what is left of d, or it absorbs d.
   */
  lemma ElapseAt(l: seq<Pkt>, i: nat, d: int)
    requires i < |l| && d != 0
    ensures var p := l[i]; var e := Elapse(l[i..], d);
      if p.delta <= d then
        var m := l[i := p.(delta := 0)];
        var f := Elapse(m[i + 1..], d - p.delta);
        l[..i] + e.0 == m[..i + 1] + f.0 && e.1 == f.1 + 1
      else l[..i] + e.0 == l[i := p.(delta := p.delta - d)] && e.1 == 0
  {
    var p := l[i];
    assert l[i..][0] == p && l[i..][1..] == l[i + 1..];
    if p.delta <= d {
      var m := l[i := p.(delta := 0)];
      assert m[i + 1..] == l[i + 1..];
      assert m[..i + 1] == l[..i] + [p.(delta := 0)];
    } else {
      assert l[i := p.(delta := p.delta - d)] == l[..i] + ([p.(delta := p.delta - d)] + l[i + 1..]);
    }
  }

  /** Where the countdown loop stops, the rest of the list is as it was. */
  lemma ElapseDone(l: seq<Pkt>, i: nat, d: int)
    requires i <= |l| && (i == |l| || d == 0)
    ensures Elapse(l[i..], d) == (l[i..], 0) && l[..i] + l[i..] == l
  {
  }

  /** The countdown keeps the list queued and leaves each packet's state alone. */
  lemma ElapseQueued(l: seq<Pkt>, d: int)
    requires Queued(l) && d >= 0
    ensures var r := Elapse(l, d).0;
      Queued(r) && forall i :: 0 <= i < |l| ==> r[i].state == l[i].state && r[i].data == l[i].data
  {
    ElapseOrdered(l, d);
    var r := Elapse(l, d).0;
    forall i | 0 <= i < |l|
      ensures r[i].state == l[i].state && r[i].data == l[i].data
    {
      assert r[i] == l[i].(delta := r[i].delta);
    }
  }

  /** The due times of an ordered list are not negative. */
  lemma {:induction false} DuesNonNegative(l: seq<Pkt>)
    requires Ordered(l)
    ensures forall i :: 0 <= i < |l| ==> Dues(l, 0)[i] >= 0
    decreases |l|
  {
    if l != [] {
      DuesNonNegative(l[1..]);
      DuesShift(l[1..], 0, l[0].delta);
      assert Dues(l, 0) == [l[0].delta] + Dues(l[1..], l[0].delta);
    }
  }

  /** One step of DCC_SendPacket's loop at position i. */
  lemma PurgeAt(l: seq<Pkt>, i: nat, n: Pkt)
    requires i < |l|
    ensures Same(n, l[i]) && !Started(l[i]) ==> l[..i] + Purge(l[i..], n) == l[..i] + Unlink(l[i..])
    ensures !(Same(n, l[i]) && !Started(l[i])) ==>
      var m := l[i := Passed(l[i], n)];
      l[..i] + Purge(l[i..], n) == m[..i + 1] + Purge(m[i + 1..], n)
  {
    assert l[i..][0] == l[i] && l[i..][1..] == l[i + 1..];
    var m := l[i := Passed(l[i], n)];
    assert m[i + 1..] == l[i + 1..];
    assert m[..i + 1] == l[..i] + [Passed(l[i], n)];
  }

  /** Purge leaves a list alone when nothing in it is the same as n. */
  lemma {:induction false} PurgeNone(l: seq<Pkt>, n: Pkt)
    requires forall i :: 0 <= i < |l| ==> !Same(n, l[i])
    ensures Purge(l, n) == l
    decreases |l|
  {
    if l != [] {
      PurgeNone(l[1..], n);
    }
  }

  // ---------------------------------------------------------------------
  // The list the task and the interrupt share

  /**
   * What the task and the interrupt keep true of the list: it is ordered,
   * only the head can have been taken up by the interrupt, and a head that
   * has been taken up is due now.
   */
  predicate Queued(l: seq<Pkt>)
  {
    Ordered(l) && (forall i :: 1 <= i < |l| ==> l[i].state == Scheduled) &&
    (l != [] ==> l[0].state != Created && (l[0].state != Scheduled ==> l[0].delta == 0))
  }

  /**
   * A scheduled packet inserted with a delay of at least 0 keeps the list
   * queued: a head that is due now is never displaced.
   */
  lemma InsertQueued(l: seq<Pkt>, p: Pkt, d: int)
    requires Queued(l) && p.state == Scheduled && d >= 0
    ensures Queued(InsertAsWritten(l, p, d))
    ensures l != [] && l[0].state != Scheduled ==> InsertAsWritten(l, p, d)[0] == l[0]
  {
    WalkDue(l, d, 0);
    var (k, rest) := Walk(l, d);
    var r := InsertAsWritten(l, p, d);
    assert r[k] == p.(delta := rest);
    forall i | 0 <= i < |r|
      ensures r[i].delta >= 0 && (i >= 1 ==> r[i].state == Scheduled)
    {
      if i < k {
        assert r[i] == l[i];
      } else if i > k {
        assert r[i] == l[i - 1];
      }
    }
  }

  /** Every packet after the head is waiting, so the list without its head is queued. */
  lemma TailQueued(l: seq<Pkt>)
    requires Queued(l) && l != []
    ensures Queued(l[1..])
  {
    forall i | 0 <= i < |l| - 1
      ensures l[1..][i].delta >= 0 && l[1..][i].state == Scheduled
    {
      assert l[1..][i] == l[i + 1];
    }
  }

  /** Marking an ACTIVE head COMPLETE keeps the list queued. */
  lemma CompleteQueued(l: seq<Pkt>)
    requires Queued(l) && l != [] && l[0].state == Active
    ensures Queued(l[0 := l[0].(state := Complete)])
  {
    var r := l[0 := l[0].(state := Complete)];
    forall i | 1 <= i < |r|
      ensures r[i] == l[i]
    {
    }
  }

  /**
   * DCC_SchedulePacket: a packet not barred from rescheduling asks its
   * Schedule for a delay and goes in the list with it; the flag says
   * whether it went in.
   */
  function Enlist(l: seq<Pkt>, p: Pkt, time: Time): (r: (seq<Pkt>, bool))
    ensures p.disableReschedule ==> r == (l, false)
    ensures !r.1 ==> r.0 == l
    ensures r.1 ==> |r.0| == |l| + 1
  {
    if p.disableReschedule then (l, false)
    else
      var (q, d) := Sched(p, time);
      if d == END then (l, false) else (InsertAsWritten(l, q.(state := Scheduled), d), true)
  }

  /** A packet that goes in is the one Schedule moved on, and the list stays queued. */
  lemma EnlistQueued(l: seq<Pkt>, p: Pkt, time: Time)
    requires Queued(l)
    ensures var (r, ok) := Enlist(l, p, time);
      Queued(r) && (ok <==> !p.disableReschedule && Sched(p, time).1 != END) && (!ok ==> r == l) &&
      (ok ==> |r| == |l| + 1) && (l != [] && l[0].state != Scheduled ==> r[0] == l[0])
  {
    SchedDelay(p, time);
    var (q, d) := Sched(p, time);
    if !p.disableReschedule && d != END {
      InsertQueued(l, q.(state := Scheduled), d);
    }
  }

  /** Purge keeps the list queued. */
  lemma PurgeQueued(l: seq<Pkt>, n: Pkt)
    requires Queued(l)
    ensures Queued(Purge(l, n))
    ensures l != [] && Started(l[0]) ==> Purge(l, n)[0] == Passed(l[0], n)
  {
    PurgeKeeps(l, n);
    var k := Victim(l, n);
    var r := Purge(l, n);
    forall i | 0 <= i < |r|
      ensures r[i].delta >= 0 && (i >= 1 ==> r[i].state == Scheduled)
    {
      if i > k {
        assert r[i] == l[i + 1];
      }
    }
  }

  /**
   * DCC_SendPacket: the packets the new one replaces are purged and the new
   * one is scheduled.
   */
  function Send(l: seq<Pkt>, n: Pkt, time: Time): (r: seq<Pkt>)
    ensures |l| - 1 <= |r| <= |l| + 1
  {
    Enlist(Purge(l, n), n, time).0
  }

  /**
   * Over a queued list where at most one waiting packet is the same as n,
   * Purge leaves no waiting packet that is, and a packet the interrupt has
   * taken up that is the same will not be sent again.
   */
  lemma PurgeReplaces(l: seq<Pkt>, n: Pkt)
    requires Queued(l)
    requires forall i, j :: 0 <= i < j < |l| && Same(n, l[i]) && Same(n, l[j]) ==> Started(l[i])
    ensures var r := Purge(l, n);
      forall i :: 0 <= i < |r| && Same(n, r[i]) ==> Started(r[i]) && r[i].disableReschedule
  {
    PurgeKeeps(l, n);
    var k := Victim(l, n);
    var r := Purge(l, n);
    forall i | 0 <= i < |r| && Same(n, r[i])
      ensures Started(r[i]) && r[i].disableReschedule
    {
      PurgeShifts(l, n, i);
      assert i < k;
      assert r[i] == Passed(l[i], n);
      assert Same(n, l[i]);
    }
  }

  /** At and after the victim, Purge's entries are the next packet's. */
  lemma PurgeShifts(l: seq<Pkt>, n: Pkt, i: nat)
    requires i < |Purge(l, n)|
    ensures var k := Victim(l, n); var r := Purge(l, n);
      k <= i && Same(n, r[i]) ==> k < i + 1 < |l| && Same(n, l[k]) && !Started(l[k]) && Same(n, l[i + 1])
  {
    PurgeKeeps(l, n);
    VictimWaits(l, n);
    var k := Victim(l, n);
    var r := Purge(l, n);
    if k == i {
      assert r[k] == l[k + 1].(delta := l[k + 1].delta + l[k].delta);
    } else if k < i {
      assert r[i] == r[k + 1..][i - k - 1] == l[k + 2..][i - k - 1];
    }
    if k <= i {
      assert r[i].data == l[i + 1].data && r[i].kind == l[i + 1].kind;
    }
  }

  /** The victim is a same packet that has not started. */
  lemma {:induction false} VictimWaits(l: seq<Pkt>, n: Pkt)
    ensures Victim(l, n) < |l| ==> Same(n, l[Victim(l, n)]) && !Started(l[Victim(l, n)])
    decreases |l|
  {
    if l != [] && !(Same(n, l[0]) && !Started(l[0])) {
      VictimWaits(l[1..], n);
      assert Victim(l, n) == Victim(l[1..], n) + 1;
    }
  }

  /** The outcome of the first half of a DCC_Task pass. */
  datatype Retired = Retired(list: seq<Pkt>, previousAddress: Byte, previousEndTime: Time, signal: Option<(nat, nat)>)

  /**
   * The first half of a DCC_Task pass: a COMPLETE head leaves the list; if
   * it was not an idle packet its address and the time are recorded; it is
   * scheduled again, and if it is not, the task that queued it is sent its
   * signal (when it has one) and it is dropped.
   */
  function Retire(l: seq<Pkt>, time: Time, previousAddress: Byte, previousEndTime: Time): (t: Retired)
    ensures |t.list| <= |l|
    ensures !(l != [] && l[0].state == Complete) ==> t == Retired(l, previousAddress, previousEndTime, None)
    ensures t.signal.Some? ==> l != [] && l[0].state == Complete && l[0].signal != 0 && t.signal.value == (l[0].taskId, l[0].signal)
    ensures l != [] && l[0].state == Complete && l[0].data[0] != 0xFF ==> t.previousAddress == l[0].data[0] && t.previousEndTime == time
  {
    if l != [] && l[0].state == Complete then
      var p := l[0];
      var (r, ok) := Enlist(l[1..], p.(state := Created), time);
      Retired(r,
        if p.data[0] != 0xFF then p.data[0] else previousAddress,
        if p.data[0] != 0xFF then time else previousEndTime,
        if !ok && p.signal != 0 then Some((p.taskId, p.signal)) else None)
    else Retired(l, previousAddress, previousEndTime, None)
  }

  /**
   * Retiring keeps the list queued. A service packet completing for the
   * tenth time is dropped and wakes the task waiting on it.
   */
  lemma RetireQueued(l: seq<Pkt>, time: Time, previousAddress: Byte, previousEndTime: Time)
    requires Queued(l)
    ensures var t := Retire(l, time, previousAddress, previousEndTime);
      Queued(t.list) &&
      (l != [] && l[0].state == Complete && l[0].kind == Service && l[0].txCount == 10 && l[0].signal != 0 ==>
        t.list == l[1..] && t.signal == Some((l[0].taskId, l[0].signal)))
  {
    if l != [] && l[0].state == Complete {
      TailQueued(l);
      EnlistQueued(l[1..], l[0].(state := Created), time);
    }
  }

  /**
   * The second half of a DCC_Task pass: a scheduled head that is due
   * starts, unless it is for the address of the packet that ended less than
   * HOLD_OFF microseconds ago; then it goes back in the list, due HOLD_OFF
   * after that packet's end.
   */
  function Activate(l: seq<Pkt>, time: Time, previousAddress: Byte, previousEndTime: Time): (r: seq<Pkt>)
    ensures |r| == |l|
    ensures !(l != [] && l[0].state == Scheduled && l[0].delta <= 0) ==> r == l
  {
    if l != [] && l[0].state == Scheduled && l[0].delta <= 0 then
      var gap := Sub(time, previousEndTime);
      if l[0].data[0] == previousAddress && gap < HOLD_OFF then InsertAsWritten(l[1..], l[0], HOLD_OFF - gap)
      else [l[0].(state := Active)] + l[1..]
    else l
  }

  /**
   * Activation keeps the list queued, only starts a head that is due, and
   * never starts a packet for the last address within HOLD_OFF of that
   * packet's end: such a packet is due again exactly HOLD_OFF after it.
   */
  lemma ActivateHoldsOff(l: seq<Pkt>, time: Time, previousAddress: Byte, previousEndTime: Time)
    requires Queued(l)
    ensures var r := Activate(l, time, previousAddress, previousEndTime);
      var gap := Sub(time, previousEndTime);
      Queued(r) && |r| == |l| &&
      (r != [] && r[0].state == Active && l[0].state != Active ==>
        l[0].delta == 0 && r[0] == l[0].(state := Active) && (l[0].data[0] != previousAddress || gap >= HOLD_OFF)) &&
      (l != [] && l[0].state == Scheduled && l[0].delta == 0 && l[0].data[0] == previousAddress && gap < HOLD_OFF ==>
        var k := Walk(l[1..], HOLD_OFF - gap).0;
        r[k] == l[0].(delta := r[k].delta) && Dues(r, 0)[k] + gap == HOLD_OFF)
  {
    var r := Activate(l, time, previousAddress, previousEndTime);
    var gap := Sub(time, previousEndTime);
    if l != [] && l[0].state == Scheduled && l[0].delta <= 0 {
      TailQueued(l);
      if l[0].data[0] == previousAddress && gap < HOLD_OFF {
        InsertQueued(l[1..], l[0], HOLD_OFF - gap);
        InsertAsWrittenDues(l[1..], l[0], HOLD_OFF - gap, 0);
        var k := Walk(l[1..], HOLD_OFF - gap).0;
        assert r[k] == l[0].(delta := Walk(l[1..], HOLD_OFF - gap).1);
      }
    }
  }

  /** DCC_Mode. */
  datatype Mode = Normal | ServiceMode

  /** The last part of a DCC_Task pass: in normal mode an idle packet is sent when nothing is due within IDLE_LEAD. */
  function KeepAlive(l: seq<Pkt>, mode: Mode, time: Time, taskId: nat): (r: seq<Pkt>)
    ensures mode == ServiceMode || (l != [] && l[0].delta <= IDLE_LEAD) ==> r == l
    ensures |l| - 1 <= |r| <= |l| + 1
  {
    if mode == Normal && (l == [] || l[0].delta > IDLE_LEAD) then Send(l, IdlePkt(taskId), time) else l
  }

  /** In normal mode a task pass leaves a packet at the head that is due within IDLE_LEAD, and the list queued. */
  lemma KeepAliveFills(l: seq<Pkt>, mode: Mode, time: Time, taskId: nat)
    requires Queued(l)
    ensures var r := KeepAlive(l, mode, time, taskId);
      Queued(r) && (mode == Normal ==> r != [] && r[0].delta <= IDLE_LEAD)
  {
    var n := IdlePkt(taskId);
    if mode == Normal && (l == [] || l[0].delta > IDLE_LEAD) {
      forall i | 0 <= i < |l|
        ensures !Same(n, l[i])
      {
      }
      PurgeNone(l, n);
      EnlistQueued(l, n, time);
      assert Walk(l, 0).0 == 0;
    }
  }

  // ---------------------------------------------------------------------
  // The interrupt's waveform machine

  /** The states this file's machine uses: DCC_State_t stops at PAYLOAD_END_2. */
  predicate Used(s: DccTx.TxState)
  {
    !(s.Gap? || s.Complete1? || s.Complete2?)
  }

  /** The states in which a packet is on the track. */
  predicate OnTrack(s: DccTx.TxState)
  {
    Used(s) && !s.Idle1? && !s.Idle2?
  }

  /** This file's StatePattern: as the newer transmitter's, except that IDLE_2 is low too. */
  function Level(s: DccTx.TxState): DccTx.Level
  {
    if s.Idle2? then DccTx.Lo else DccTx.Pattern(s)
  }

  /** One tick: the level output, the registers left, and whether the head packet completed. */
  datatype Beat = Beat(level: DccTx.Level, regs: DccTx.Regs, done: bool)

  /**
   * TCC0_Handler's switch. `bytes` are the head packet's; `start` is its
   * preamble length when the head is ACTIVE. The preamble, byte and bit
   * states are the same code as the newer transmitter's, so they are that
   * machine's Step with no acknowledgement gap; the end bit is sent once.
   */
  function OldStep(r: DccTx.Regs, bytes: seq<Byte>, start: Option<U8>): (b: Beat)
    ensures b.level == Level(r.state)
    ensures Used(r.state) ==> Used(b.regs.state)
    ensures b.done <==> r.state.End2? && r.endCount == 1
  {
    var level := Level(r.state);
    match r.state
    case Idle1 =>
      if start.Some? then Beat(level, r.(preamble := start.value, endCount := 1, index := 0, state := DccTx.Preamble1), false)
      else Beat(level, r.(state := DccTx.Idle2), false)
    case Idle2 => Beat(level, r.(state := DccTx.Idle1), false)
    case End2 =>
      var e := ToU8(r.endCount - 1);
      if e == 0 then Beat(level, r.(endCount := e, state := DccTx.Idle1), true)
      else Beat(level, r.(endCount := e, state := DccTx.End1), false)
    case _ =>
      var t := DccTx.Step(r, bytes, 0, false, 0);
      Beat(level, t.regs, false)
  }

  /** n ticks with no new packet to start: the levels, the registers, and how many completions. */
  function OldRun(r: DccTx.Regs, bytes: seq<Byte>, n: nat): (o: (seq<DccTx.Level>, DccTx.Regs, nat))
    ensures |o.0| == n
    decreases n
  {
    if n == 0 then ([], r, 0)
    else
      var b := OldStep(r, bytes, None);
      var rest := OldRun(b.regs, bytes, n - 1);
      ([b.level] + rest.0, rest.1, rest.2 + (if b.done then 1 else 0))
  }

  /** Once complete, the newer machine stays complete. */
  lemma {:induction false} CompleteStays(r: DccTx.Regs, bytes: seq<Byte>, n: nat)
    requires r.state.Complete1? || r.state.Complete2?
    ensures var q := DccTx.Run(r, bytes, 0, n).1; q.state.Complete1? || q.state.Complete2?
    decreases n
  {
    if n > 0 {
      CompleteStays(DccTx.Step(r, bytes, 0, false, 0).regs, bytes, n - 1);
    }
  }

  /**
   * While a packet is on the track and its end bit has not finished, the
   * two machines put out the same levels and keep the same registers.
   */
  lemma {:induction false} OldRunAgrees(r: DccTx.Regs, bytes: seq<Byte>, n: nat)
    requires OnTrack(r.state) && OnTrack(DccTx.Run(r, bytes, 0, n).1.state)
    ensures OldRun(r, bytes, n) == (DccTx.Run(r, bytes, 0, n).0, DccTx.Run(r, bytes, 0, n).1, 0)
    decreases n
  {
    if n > 0 {
      var t := DccTx.Step(r, bytes, 0, false, 0);
      var b := OldStep(r, bytes, None);
      if !OnTrack(t.regs.state) {
        assert t.regs.state.Complete1?;
        CompleteStays(t.regs, bytes, n - 1);
        assert false;
      }
      assert b.regs == t.regs && b.level == t.level && !b.done;
      OldRunAgrees(t.regs, bytes, n - 1);
    }
  }

  /** Running n ticks and then m ticks is running n + m ticks. */
  lemma {:induction false} OldRunAdd(r: DccTx.Regs, bytes: seq<Byte>, n: nat, m: nat)
    ensures var a := OldRun(r, bytes, n);
      var b := OldRun(a.1, bytes, m);
      OldRun(r, bytes, n + m) == (a.0 + b.0, b.1, a.2 + b.2)
    decreases n
  {
    if n == 0 {
      var b := OldRun(r, bytes, m);
      assert [] + b.0 == b.0;
    } else {
      var s := OldStep(r, bytes, None);
      OldRunAdd(s.regs, bytes, n - 1, m);
      var a := OldRun(s.regs, bytes, n - 1);
      var b := OldRun(a.1, bytes, m);
      assert n - 1 + m == n + m - 1;
      assert [s.level] + (a.0 + b.0) == ([s.level] + a.0) + b.0;
    }
  }

  /** The end bit: a one, and the packet is complete. */
  lemma OldEndTicks(d: DccTx.Regs, bytes: seq<Byte>)
    requires d.state == DccTx.End1 && d.endCount == 1
    ensures OldRun(d, bytes, 2) == (DccTx.ONE, d.(endCount := 0, state := DccTx.Idle1), 1)
  {
    var e := d.(state := DccTx.End2);
    var f := e.(endCount := 0, state := DccTx.Idle1);
    assert OldStep(d, bytes, None) == Beat(DccTx.Lo, e, false);
    assert OldStep(e, bytes, None) == Beat(DccTx.Hi, f, true);
    assert OldRun(f, bytes, 0) == ([], f, 0);
    assert [DccTx.Hi] + [] == [DccTx.Hi];
    assert OldRun(e, bytes, 1) == ([DccTx.Hi], f, 1);
    assert [DccTx.Lo] + [DccTx.Hi] == DccTx.ONE;
  }

  /** The preamble and the bytes, as the newer machine sends them, up to the end bit. */
  lemma OldBodyPhase(b: DccTx.Regs, bytes: seq<Byte>)
    requires b.state == DccTx.Preamble1 && b.preamble >= 1 && b.endCount == 1 && b.index == 0 && |bytes| < 256
    ensures var o := OldRun(b, bytes, 2 * b.preamble + |DccTx.Payload(bytes, 0)|);
      o.0 == DccTx.Ones(b.preamble) + DccTx.Payload(bytes, 0) && o.1.state == DccTx.End1 && o.1.endCount == 1 && o.2 == 0
  {
    var c := b.(preamble := 0);
    DccTx.PreamblePhase(b, bytes, 0);
    DccTx.PayloadPhase(c, bytes, 0);
    OldRunJoin(b, bytes, 2 * b.preamble, |DccTx.Payload(bytes, 0)|, 2 * b.preamble + |DccTx.Payload(bytes, 0)|,
      DccTx.Ones(b.preamble), DccTx.NextByte(c, bytes), DccTx.Payload(bytes, 0));
  }

  /**
   * A run of the newer machine from the track to the end bit, in two
   * stretches, is one run of this machine with no completion.
   */
  lemma OldRunJoin(b: DccTx.Regs, bytes: seq<Byte>, n1: nat, n2: nat, total: nat, w1: seq<DccTx.Level>, m: DccTx.Regs, w2: seq<DccTx.Level>)
    requires OnTrack(b.state) && DccTx.Run(b, bytes, 0, n1) == (w1, m) && total == n1 + n2
    requires var q := DccTx.Run(m, bytes, 0, n2); q.0 == w2 && q.1.state == DccTx.End1 && q.1.endCount == 1
    ensures var o := OldRun(b, bytes, total);
      o.0 == w1 + w2 && o.1.state == DccTx.End1 && o.1.endCount == 1 && o.2 == 0
  {
    DccTx.RunAdd(b, bytes, 0, n1, n2);
    OldRunAgrees(b, bytes, n1 + n2);
  }

  /**
   * A whole packet: from the registers IDLE_1 sets for an ACTIVE head, the
   * ticks spell the preamble, each byte after its start bit and the end
   * bit, and the last of them completes the packet and returns to IDLE_1.
   */
  lemma OldPacketWave(r: DccTx.Regs, bytes: seq<Byte>, preambleBits: U8)
    requires preambleBits >= 1 && |bytes| < 256
    ensures var o := OldRun(DccTx.Begin(r, preambleBits), bytes, |DccTx.Frame(preambleBits, bytes, 0)|);
      o.0 == DccTx.Frame(preambleBits, bytes, 0) && o.1.state == DccTx.Idle1 && o.1.endCount == 0 && o.2 == 1
  {
    var b := DccTx.Begin(r, preambleBits);
    var m := 2 * b.preamble + |DccTx.Payload(bytes, 0)|;
    OldBodyPhase(b, bytes);
    FrameWithoutGap(preambleBits, bytes);
    OldEndGlue(b, bytes, m, |DccTx.Frame(preambleBits, bytes, 0)|, DccTx.Ones(b.preamble) + DccTx.Payload(bytes, 0));
  }

  /** A run that reaches the end bit, then the end bit's two ticks. */
  lemma OldEndGlue(b: DccTx.Regs, bytes: seq<Byte>, m: nat, total: nat, body: seq<DccTx.Level>)
    requires var d := OldRun(b, bytes, m); d.0 == body && d.1.state == DccTx.End1 && d.1.endCount == 1 && d.2 == 0
    requires total == m + 2
    ensures var o := OldRun(b, bytes, total);
      o.0 == body + DccTx.ONE && o.1.state == DccTx.Idle1 && o.1.endCount == 0 && o.2 == 1
  {
    var d := OldRun(b, bytes, m);
    OldEndTicks(d.1, bytes);
    OldRunThen(b, bytes, m, 2, total);
  }

  /** OldRunAdd, with the total number of ticks named by the caller. */
  lemma OldRunThen(b: DccTx.Regs, bytes: seq<Byte>, n1: nat, n2: nat, total: nat)
    requires total == n1 + n2
    ensures var a := OldRun(b, bytes, n1); var c := OldRun(a.1, bytes, n2);
      OldRun(b, bytes, total) == (a.0 + c.0, c.1, a.2 + c.2)
  {
    OldRunAdd(b, bytes, n1, n2);
  }

  /** A frame with no acknowledgement gap ends with the end bit. */
  lemma FrameWithoutGap(preambleBits: nat, bytes: seq<Byte>)
    ensures DccTx.Frame(preambleBits, bytes, 0) == DccTx.Ones(preambleBits) + DccTx.Payload(bytes, 0) + DccTx.ONE
  {
    assert DccTx.Lows(0) == [];
    assert DccTx.ONE + [] == DccTx.ONE;
  }
}
