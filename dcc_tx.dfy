/**
 * The track waveform generator of the SAMC21 command station
 * (samc21/dcc_tx.cpp). A timer interrupt fires every 58 microseconds; each
 * time it outputs the level of the state it finds (StatePattern) and then
 * advances the state machine. A one bit is two ticks (low, high), a zero bit
 * four ticks (low, low, high, high): 58 and 116 microsecond halves, as
 * section A of NMRA S-9.1 asks.
 *
 * The pure part is Step over the transmitter's registers; the lemmas run it
 * through a whole packet and show the ticks spell the preamble, a zero start
 * bit and the eight bits of each byte most significant first, the one end
 * bit, and the acknowledgement gap. The class Transmitter holds the statics
 * of the file and its Handler is proved against Step.
 */
module DccTx {
  import opened Machine
  import opened RTime
  import opened DccPacket

  /** DCC_State_t, in declaration order. */
  datatype TxState =
    | Idle1 | Idle2
    | Preamble1 | Preamble2
    | Start1 | Start2 | Start3 | Start4
    | Zero1 | Zero2 | Zero3 | Zero4
    | One1 | One2
    | End1 | End2
    | Gap
    | Complete1 | Complete2

  /** The two track polarities, TCC_PATT_PGV0 and TCC_PATT_PGV1. */
  datatype Level = Lo | Hi

  /** StatePattern: the level output on a tick that finds the machine in state s. */
  function Pattern(s: TxState): Level
  {
    match s
    case Idle1 => Lo
    case Idle2 => Hi
    case Preamble1 => Lo
    case Preamble2 => Hi
    case Start1 => Lo
    case Start2 => Lo
    case Start3 => Hi
    case Start4 => Hi
    case Zero1 => Lo
    case Zero2 => Lo
    case Zero3 => Hi
    case Zero4 => Hi
    case One1 => Lo
    case One2 => Hi
    case End1 => Lo
    case End2 => Hi
    case Gap => Lo
    case Complete1 => Lo
    case Complete2 => Hi
  }

  /** DCC_TxIsComplete: the state is at or after COMPLETE_1. */
  predicate IsComplete(s: TxState)
  {
    s == Complete1 || s == Complete2
  }

  /** DCC_TxIsIdle: the state is at or before IDLE_2. */
  predicate IsIdle(s: TxState)
  {
    s == Idle1 || s == Idle2
  }

  /** DCC_TxIdle: a completed transmitter goes idle, keeping the phase of its square wave. */
  function IdleState(s: TxState): (r: TxState)
    requires IsComplete(s)
    ensures IsIdle(r) && Pattern(r) == Pattern(s)
  {
    if s == Complete1 then Idle1 else Idle2
  }

  /** DCC_PreambleCount, DCC_EndCount, DCC_PayloadIndex, DCC_PayloadByte and DCC_PayloadBitsLeft with the state. */
  datatype Regs = Regs(state: TxState, preamble: U8, endCount: U8, index: U8, byte: U8, bitsLeft: U8)

  /** The bits of a payload byte, which DCC_GetNextByte loads into DCC_BitsLeft. */
  const BYTE_BITS: nat := 8

  /** DCC_GetNextByte over the bytes of the packet being sent. */
  function NextByte(r: Regs, bytes: seq<Byte>): (n: Regs)
    ensures n.preamble == r.preamble && n.endCount == r.endCount
    ensures r.index < |bytes| ==> n.state == Start1 && n.bitsLeft == BYTE_BITS && n.byte == ValueOf(bytes[r.index]) && n.index == (r.index + 1) % 0x100
    ensures r.index >= |bytes| ==> n == r.(state := End1)
  {
    if r.index < |bytes| then r.(byte := ValueOf(bytes[r.index]), index := ToU8(r.index + 1), bitsLeft := BYTE_BITS, state := Start1)
    else r.(state := End1)
  }

  /** The bit DCC_GetNextBit tests: `DCC_PayloadByte & 0x80`, the top bit of the uint8_t. */
  predicate Top(b: U8)
  {
    b >= 0x80
  }

  /** `DCC_PayloadByte << 1` stored back in the uint8_t. */
  function Shl(b: U8): U8
  {
    b * 2 % 0x100
  }

  /** DCC_GetNextBit: the top bit of the byte chooses the next bit's states, and the byte shifts left. */
  function NextBit(r: Regs, bytes: seq<Byte>): (n: Regs)
    ensures r.bitsLeft != 0 ==> n.bitsLeft == r.bitsLeft - 1 && n.index == r.index && n.byte == r.byte * 2 % 0x100
    ensures r.bitsLeft != 0 ==> (n.state == One1 <==> r.byte >= 0x80) && (n.state == Zero1 <==> r.byte < 0x80)
    ensures r.bitsLeft == 0 ==> n == NextByte(r, bytes)
  {
    if r.bitsLeft != 0 then
      r.(bitsLeft := r.bitsLeft - 1, state := if Top(r.byte) then One1 else Zero1, byte := Shl(r.byte))
    else NextByte(r, bytes)
  }

  /** What happened on a tick besides the state change. */
  datatype Event = Nothing | Started | HoldOff | HoldOffEnded | Ended

  /** One tick: the level output and the registers and event it leaves. */
  datatype Tick = Tick(level: Level, regs: Regs, event: Event)

  /**
   * TCC0_Handler's state logic. `bytes` and `dataEnd` are the packet being
   * sent; `ready` says that a packet is scheduled and its time has come, and
   * `preambleBits` is that packet's preamble length.
   */
  function Step(r: Regs, bytes: seq<Byte>, dataEnd: U8, ready: bool, preambleBits: U8): (t: Tick)
    ensures t.level == Pattern(r.state)
  {
    var level := Pattern(r.state);
    match r.state
    case Idle1 => Tick(level, r.(state := Idle2), Nothing)
    case Idle2 =>
      if ready then Tick(level, Begin(r, preambleBits), Started)
      else Tick(level, r.(state := Idle1), Nothing)
    case Preamble1 => Tick(level, r.(state := Preamble2), Nothing)
    case Preamble2 =>
      var p := ToU8(r.preamble - 1);
      if p == 0 then Tick(level, NextByte(r.(preamble := p), bytes), Nothing)
      else Tick(level, r.(preamble := p, state := Preamble1), Nothing)
    case Start1 => Tick(level, r.(state := Start2), Nothing)
    case Start2 => Tick(level, r.(state := Start3), Nothing)
    case Start3 => Tick(level, r.(state := Start4), Nothing)
    case Start4 => Tick(level, NextBit(r, bytes), Nothing)
    case Zero1 => Tick(level, r.(state := Zero2), Nothing)
    case Zero2 => Tick(level, r.(state := Zero3), Nothing)
    case Zero3 => Tick(level, r.(state := Zero4), Nothing)
    case Zero4 => Tick(level, NextBit(r, bytes), Nothing)
    case One1 => Tick(level, r.(state := One2), Nothing)
    case One2 => Tick(level, NextBit(r, bytes), Nothing)
    case End1 => Tick(level, r.(state := End2), Nothing)
    case End2 =>
      var e := ToU8(r.endCount - 1);
      if e == 0 then
        if dataEnd != 0 then Tick(level, r.(endCount := dataEnd, state := Gap), HoldOff)
        else Tick(level, r.(endCount := 0, state := Complete1), HoldOffEnded)
      else Tick(level, r.(endCount := e, state := End1), Nothing)
    case Gap =>
      var e := ToU8(r.endCount - 1);
      if e == 0 then Tick(level, r.(endCount := e, state := Complete1), Ended)
      else Tick(level, r.(endCount := e), Nothing)
    case Complete1 => Tick(level, r.(state := Complete2), Nothing)
    case Complete2 => Tick(level, r.(state := Complete1), Nothing)
  }

  /** Outside IDLE_2 a tick does not look at the scheduled packet, so Run below follows Handler while a packet is sent. */
  lemma StepIgnoresSchedule(r: Regs, bytes: seq<Byte>, dataEnd: U8, ready: bool, preambleBits: U8)
    requires r.state != Idle2
    ensures Step(r, bytes, dataEnd, ready, preambleBits) == Step(r, bytes, dataEnd, false, 0)
  {
  }

  /** The levels of n ticks while a packet is on the track, and the registers they leave. */
  function Run(r: Regs, bytes: seq<Byte>, dataEnd: U8, n: nat): (o: (seq<Level>, Regs))
    ensures |o.0| == n
    decreases n
  {
    if n == 0 then ([], r)
    else
      var t := Step(r, bytes, dataEnd, false, 0);
      var rest := Run(t.regs, bytes, dataEnd, n - 1);
      ([t.level] + rest.0, rest.1)
  }

  /** The first of n ticks. */
  lemma RunFirst(r: Regs, bytes: seq<Byte>, dataEnd: U8, n: nat)
    requires n > 0
    ensures var t := Step(r, bytes, dataEnd, false, 0);
      var rest := Run(t.regs, bytes, dataEnd, n - 1);
      Run(r, bytes, dataEnd, n) == ([t.level] + rest.0, rest.1)
  {
  }

  /** Running n ticks and then m ticks is running n + m ticks. */
  lemma {:induction false} RunAdd(r: Regs, bytes: seq<Byte>, dataEnd: U8, n: nat, m: nat)
    ensures var a := Run(r, bytes, dataEnd, n);
      var b := Run(a.1, bytes, dataEnd, m);
      Run(r, bytes, dataEnd, n + m) == (a.0 + b.0, b.1)
    decreases n
  {
    if n == 0 {
      var b := Run(r, bytes, dataEnd, m);
      assert [] + b.0 == b.0;
    } else {
      var t := Step(r, bytes, dataEnd, false, 0);
      RunFirst(r, bytes, dataEnd, n);
      RunFirst(r, bytes, dataEnd, n + m);
      RunAdd(t.regs, bytes, dataEnd, n - 1, m);
      var a := Run(t.regs, bytes, dataEnd, n - 1);
      var b := Run(a.1, bytes, dataEnd, m);
      assert n - 1 + m == n + m - 1;
      assert Run(t.regs, bytes, dataEnd, n + m - 1) == (a.0 + b.0, b.1);
      assert Run(r, bytes, dataEnd, n) == ([t.level] + a.0, a.1);
      assert [t.level] + (a.0 + b.0) == ([t.level] + a.0) + b.0;
    }
  }

  // ---------------------------------------------------------------------
  // The waveform of a packet

  /** A one bit and a zero bit as ticks (NMRA S-9.1 section A). */
  const ONE: seq<Level> := [Lo, Hi]
  const ZERO: seq<Level> := [Lo, Lo, Hi, Hi]

  function BitWave(b: bool): seq<Level>
  {
    if b then ONE else ZERO
  }

  /** The top k bits of b, most significant first, as ticks. */
  function Wave(b: U8, k: nat): seq<Level>
    requires k <= 8
    decreases k
  {
    if k == 0 then [] else BitWave(Top(b)) + Wave(Shl(b), k - 1)
  }

  /** The preamble: k one bits. */
  function Ones(k: nat): (w: seq<Level>)
    ensures |w| == 2 * k
  {
    if k == 0 then [] else ONE + Ones(k - 1)
  }

  /** The bytes from position i on, each led by a zero start bit. */
  function Payload(bytes: seq<Byte>, i: nat): seq<Level>
    requires i <= |bytes|
    decreases |bytes| - i
  {
    if i == |bytes| then [] else ZERO + Wave(ValueOf(bytes[i]), BYTE_BITS) + Payload(bytes, i + 1)
  }

  /** The gap held low for the decoder's acknowledgement. */
  function Lows(k: nat): (w: seq<Level>)
    ensures |w| == k
  {
    if k == 0 then [] else [Lo] + Lows(k - 1)
  }

  /** A whole packet on the track: preamble, bytes, end bit, acknowledgement gap. */
  function Frame(preambleBits: nat, bytes: seq<Byte>, dataEnd: nat): seq<Level>
  {
    Ones(preambleBits) + (Payload(bytes, 0) + (ONE + Lows(dataEnd)))
  }

  /** The registers DCC_PacketStart sets for a packet with the given preamble length. */
  function Begin(r: Regs, preambleBits: U8): Regs
  {
    r.(state := Preamble1, preamble := preambleBits, endCount := 1, index := 0)
  }

  /** One bit on the track: two ticks for a one, four for a zero, and then GetNextBit. */
  lemma BitTicks(q: Regs, bytes: seq<Byte>, dataEnd: U8)
    requires q.state == One1 || q.state == Zero1
    ensures Run(q, bytes, dataEnd, |BitWave(q.state == One1)|) == (BitWave(q.state == One1), NextBit(q, bytes))
  {
    if q.state == One1 {
      OneTicks(q, bytes, dataEnd);
    } else {
      ZeroTicks(q, bytes, dataEnd);
    }
  }

  lemma OneTicks(q: Regs, bytes: seq<Byte>, dataEnd: U8)
    requires q.state == One1
    ensures Run(q, bytes, dataEnd, 2) == (ONE, NextBit(q, bytes))
  {
    var q2 := q.(state := One2);
    LastTick(q2, bytes, dataEnd);
    RunFirst(q, bytes, dataEnd, 2);
    assert Step(q, bytes, dataEnd, false, 0).regs == q2;
    assert [Lo] + [Hi] == ONE;
  }

  lemma ZeroTicks(q: Regs, bytes: seq<Byte>, dataEnd: U8)
    requires q.state == Zero1
    ensures Run(q, bytes, dataEnd, 4) == (ZERO, NextBit(q, bytes))
  {
    var next := NextBit(q, bytes);
    var q2, q3, q4 := q.(state := Zero2), q.(state := Zero3), q.(state := Zero4);
    LastTick(q4, bytes, dataEnd);
    RunFirst(q3, bytes, dataEnd, 2);
    assert Step(q3, bytes, dataEnd, false, 0).regs == q4;
    assert [Hi] + [Hi] == [Hi, Hi];
    assert Run(q3, bytes, dataEnd, 2) == ([Hi, Hi], next);
    RunFirst(q2, bytes, dataEnd, 3);
    assert Step(q2, bytes, dataEnd, false, 0).regs == q3;
    assert [Lo] + [Hi, Hi] == [Lo, Hi, Hi];
    assert Run(q2, bytes, dataEnd, 3) == ([Lo, Hi, Hi], next);
    RunFirst(q, bytes, dataEnd, 4);
    assert Step(q, bytes, dataEnd, false, 0).regs == q2;
    assert [Lo] + [Lo, Hi, Hi] == ZERO;
  }

  /** The last tick of a bit outputs high and calls GetNextBit. */
  lemma LastTick(q: Regs, bytes: seq<Byte>, dataEnd: U8)
    requires q.state == One2 || q.state == Zero4
    ensures Run(q, bytes, dataEnd, 1) == ([Hi], NextBit(q, bytes))
    ensures forall s :: NextBit(q.(state := s), bytes) == NextBit(q, bytes)
  {
    RunFirst(q, bytes, dataEnd, 1);
    assert [Hi] + [] == [Hi];
  }

  /** The bits phase: after GetNextBit with k bits left, the ticks spell those bits and GetNextByte follows. */
  lemma {:induction false} BitsPhase(r: Regs, bytes: seq<Byte>, dataEnd: U8)
    requires r.bitsLeft <= 8
    ensures var o := Run(NextBit(r, bytes), bytes, dataEnd, |Wave(r.byte, r.bitsLeft)|);
      o.0 == Wave(r.byte, r.bitsLeft) && o.1 == NextByte(r.(bitsLeft := 0, byte := Shifted(r.byte, r.bitsLeft)), bytes)
    decreases r.bitsLeft
  {
    var k := r.bitsLeft;
    if k > 0 {
      var q := NextBit(r, bytes);
      var w := BitWave(q.state == One1);
      assert q.bitsLeft == k - 1 && q.byte == Shl(r.byte) && (q.state == One1 <==> Top(r.byte));
      BitTicks(q, bytes, dataEnd);
      BitsPhase(q, bytes, dataEnd);
      var n1, n2 := |w|, |Wave(q.byte, k - 1)|;
      RunAdd(q, bytes, dataEnd, n1, n2);
      assert Wave(r.byte, k) == w + Wave(q.byte, k - 1);
      var t := r.(bitsLeft := 0, byte := Shifted(r.byte, k));
      assert Shifted(r.byte, k) == Shifted(q.byte, k - 1);
      NextByteIgnoresState(t, q.state, bytes);
      assert q.(bitsLeft := 0, byte := Shifted(q.byte, k - 1)) == t.(state := q.state);
      var a := Run(q, bytes, dataEnd, n1);
      assert a == (w, NextBit(q, bytes));
      var b := Run(NextBit(q, bytes), bytes, dataEnd, n2);
      assert b.0 == Wave(q.byte, k - 1) && b.1 == NextByte(t, bytes);
      var o := Run(NextBit(r, bytes), bytes, dataEnd, |Wave(r.byte, r.bitsLeft)|);
      assert o == Run(q, bytes, dataEnd, n1 + n2) == (w + b.0, b.1);
    }
  }

  /** GetNextByte sets the state whatever it was. */
  lemma NextByteIgnoresState(r: Regs, s: TxState, bytes: seq<Byte>)
    ensures NextByte(r.(state := s), bytes) == NextByte(r, bytes)
  {
  }

  /** The byte left after k shifts of GetNextBit. */
  function Shifted(b: U8, k: nat): U8
    decreases k
  {
    if k == 0 then b else Shifted(Shl(b), k - 1)
  }

  /** The preamble: two ticks per one bit, then GetNextByte once the count reaches zero. */
  lemma {:induction false} PreamblePhase(r: Regs, bytes: seq<Byte>, dataEnd: U8)
    requires r.state == Preamble1 && r.preamble >= 1
    ensures Run(r, bytes, dataEnd, 2 * r.preamble) == (Ones(r.preamble), NextByte(r.(preamble := 0), bytes))
    decreases r.preamble
  {
    var p: nat := r.preamble;
    var r2 := r.(state := Preamble2);
    RunFirst(r, bytes, dataEnd, 2 * p);
    assert Step(r, bytes, dataEnd, false, 0).regs == r2;
    RunFirst(r2, bytes, dataEnd, 2 * p - 1);
    var next := Step(r2, bytes, dataEnd, false, 0).regs;
    var rest := Run(next, bytes, dataEnd, 2 * p - 2);
    assert Run(r, bytes, dataEnd, 2 * p) == ([Lo] + ([Hi] + rest.0), rest.1);
    assert [Lo] + ([Hi] + rest.0) == ONE + rest.0;
    if p == 1 {
      assert next == NextByte(r.(preamble := 0), bytes);
      assert ONE + [] == Ones(1);
    } else {
      assert next == r.(preamble := p - 1);
      PreamblePhase(next, bytes, dataEnd);
      assert 2 * (p - 1) == 2 * p - 2;
      assert next.(preamble := 0) == r.(preamble := 0);
    }
  }

  /** The start bit: four ticks of a zero, and then GetNextBit. */
  lemma StartTicks(q: Regs, bytes: seq<Byte>, dataEnd: U8)
    requires q.state == Start1
    ensures Run(q, bytes, dataEnd, 4) == (ZERO, NextBit(q, bytes))
  {
    var next := NextBit(q, bytes);
    var q2, q3, q4 := q.(state := Start2), q.(state := Start3), q.(state := Start4);
    RunFirst(q4, bytes, dataEnd, 1);
    assert Step(q4, bytes, dataEnd, false, 0).regs == next;
    assert [Hi] + [] == [Hi];
    assert Run(q4, bytes, dataEnd, 1) == ([Hi], next);
    RunFirst(q3, bytes, dataEnd, 2);
    assert Step(q3, bytes, dataEnd, false, 0).regs == q4;
    assert [Hi] + [Hi] == [Hi, Hi];
    assert Run(q3, bytes, dataEnd, 2) == ([Hi, Hi], next);
    RunFirst(q2, bytes, dataEnd, 3);
    assert Step(q2, bytes, dataEnd, false, 0).regs == q3;
    assert [Lo] + [Hi, Hi] == [Lo, Hi, Hi];
    assert Run(q2, bytes, dataEnd, 3) == ([Lo, Hi, Hi], next);
    RunFirst(q, bytes, dataEnd, 4);
    assert Step(q, bytes, dataEnd, false, 0).regs == q2;
    assert [Lo] + [Lo, Hi, Hi] == ZERO;
  }

  /** GetNextByte with a byte left loads it, with eight bits to send. */
  lemma LoadByte(r: Regs, bytes: seq<Byte>)
    requires r.index < |bytes| < 256
    ensures var s := NextByte(r, bytes);
      s.state == Start1 && s.byte == ValueOf(bytes[r.index]) && s.bitsLeft == BYTE_BITS
      && s == r.(state := Start1, byte := s.byte, bitsLeft := BYTE_BITS, index := r.index + 1)
  {
  }

  /**
   * The bytes from position r.index on: each is a zero start bit and its
   * eight bits, and when none is left GetNextByte moves to the end bit with
   * the other registers as they were.
   */
  lemma {:induction false} PayloadPhase(r: Regs, bytes: seq<Byte>, dataEnd: U8)
    requires r.index <= |bytes| < 256
    ensures var o := Run(NextByte(r, bytes), bytes, dataEnd, |Payload(bytes, r.index)|);
      o.0 == Payload(bytes, r.index) && o.1.state == End1 && o.1.endCount == r.endCount && o.1.preamble == r.preamble
    decreases |bytes| - r.index, 1
  {
    if r.index < |bytes| {
      PayloadByte(r, bytes, dataEnd);
    } else {
      assert Payload(bytes, r.index) == [];
      assert Run(NextByte(r, bytes), bytes, dataEnd, 0) == ([], r.(state := End1));
    }
  }

  /** The payload from a byte that is left: that byte's ticks, then the rest of the payload. */
  lemma {:induction false} PayloadByte(r: Regs, bytes: seq<Byte>, dataEnd: U8)
    requires r.index < |bytes| < 256
    ensures var o := Run(NextByte(r, bytes), bytes, dataEnd, |Payload(bytes, r.index)|);
      o.0 == Payload(bytes, r.index) && o.1.state == End1 && o.1.endCount == r.endCount && o.1.preamble == r.preamble
    decreases |bytes| - r.index, 0
  {
    var s := NextByte(r, bytes);
    var t := s.(bitsLeft := 0, byte := Shifted(s.byte, BYTE_BITS));
    PayloadPhase(t, bytes, dataEnd);
    PayloadGlue(r, bytes, dataEnd);
  }

  /** PayloadByte's step: one byte's ticks in front of the rest of the payload's. */
  lemma PayloadGlue(r: Regs, bytes: seq<Byte>, dataEnd: U8)
    requires r.index < |bytes| < 256
    requires var s := NextByte(r, bytes); var t := s.(bitsLeft := 0, byte := Shifted(s.byte, BYTE_BITS));
      var o := Run(NextByte(t, bytes), bytes, dataEnd, |Payload(bytes, t.index)|);
      o.0 == Payload(bytes, t.index) && o.1.state == End1 && o.1.endCount == t.endCount && o.1.preamble == t.preamble
    ensures var o := Run(NextByte(r, bytes), bytes, dataEnd, |Payload(bytes, r.index)|);
      o.0 == Payload(bytes, r.index) && o.1.state == End1 && o.1.endCount == r.endCount && o.1.preamble == r.preamble
  {
    var s := NextByte(r, bytes);
    LoadByte(r, bytes);
    var t := s.(bitsLeft := 0, byte := Shifted(s.byte, BYTE_BITS));
    ByteTicks(s, bytes, dataEnd);
    PayloadCons(r, bytes);
    RunJoin(s, bytes, dataEnd, 4 + |Wave(s.byte, BYTE_BITS)|, |Payload(bytes, t.index)|, |Payload(bytes, r.index)|,
      ZERO + Wave(s.byte, BYTE_BITS), NextByte(t, bytes));
  }

  /** A run that starts with a known stretch: that stretch, then the run from where it ends. */
  lemma RunJoin(s: Regs, bytes: seq<Byte>, dataEnd: U8, n1: nat, n2: nat, total: nat, w: seq<Level>, m: Regs)
    requires Run(s, bytes, dataEnd, n1) == (w, m) && total == n1 + n2
    ensures var q := Run(m, bytes, dataEnd, n2); Run(s, bytes, dataEnd, total) == (w + q.0, q.1)
  {
    RunAdd(s, bytes, dataEnd, n1, n2);
  }

  /** The payload from the byte GetNextByte loads: its start bit and bits, then the rest. */
  lemma PayloadCons(r: Regs, bytes: seq<Byte>)
    requires r.index < |bytes| < 256
    ensures var s := NextByte(r, bytes); var t := s.(bitsLeft := 0, byte := Shifted(s.byte, BYTE_BITS));
      Payload(bytes, r.index) == (ZERO + Wave(s.byte, BYTE_BITS)) + Payload(bytes, t.index) &&
      |Payload(bytes, r.index)| == 4 + |Wave(s.byte, BYTE_BITS)| + |Payload(bytes, t.index)|
  {
    var s := NextByte(r, bytes);
    var i := r.index;
    assert Payload(bytes, i) == ZERO + Wave(ValueOf(bytes[i]), BYTE_BITS) + Payload(bytes, i + 1);
    assert s.index == r.index + 1 && s.byte == ValueOf(bytes[r.index]);
  }

  /** One byte: its start bit, then its eight bits, then GetNextByte. */
  lemma ByteTicks(s: Regs, bytes: seq<Byte>, dataEnd: U8)
    requires s.state == Start1 && s.bitsLeft == BYTE_BITS
    ensures Run(s, bytes, dataEnd, 4 + |Wave(s.byte, BYTE_BITS)|) ==
      (ZERO + Wave(s.byte, BYTE_BITS), NextByte(s.(bitsLeft := 0, byte := Shifted(s.byte, BYTE_BITS)), bytes))
  {
    var w := Wave(s.byte, BYTE_BITS);
    StartTicks(s, bytes, dataEnd);
    BitsPhase(s, bytes, dataEnd);
    RunAdd(s, bytes, dataEnd, 4, |w|);
  }

  /** The end bit: a one, then the acknowledgement gap if the packet has one, else completion. */
  lemma EndTicks(r: Regs, bytes: seq<Byte>, dataEnd: U8)
    requires r.state == End1 && r.endCount == 1
    ensures Run(r, bytes, dataEnd, 2)
      == (ONE, if dataEnd != 0 then r.(endCount := dataEnd, state := Gap) else r.(endCount := 0, state := Complete1))
  {
    var r2 := r.(state := End2);
    var next := Step(r2, bytes, dataEnd, false, 0).regs;
    RunFirst(r2, bytes, dataEnd, 1);
    assert [Hi] + [] == [Hi];
    assert Run(r2, bytes, dataEnd, 1) == ([Hi], next);
    RunFirst(r, bytes, dataEnd, 2);
    assert Step(r, bytes, dataEnd, false, 0).regs == r2;
    assert [Lo] + [Hi] == ONE;
  }

  /** The acknowledgement gap: endCount low ticks, then completion. */
  lemma {:induction false} GapPhase(r: Regs, bytes: seq<Byte>, dataEnd: U8)
    requires r.state == Gap && r.endCount >= 1
    ensures Run(r, bytes, dataEnd, r.endCount) == (Lows(r.endCount), r.(endCount := 0, state := Complete1))
    decreases r.endCount
  {
    var e := r.endCount;
    var next := Step(r, bytes, dataEnd, false, 0).regs;
    RunFirst(r, bytes, dataEnd, e);
    if e == 1 {
      assert next == r.(endCount := 0, state := Complete1);
      assert [Lo] + [] == Lows(1);
    } else {
      assert next == r.(endCount := e - 1);
      GapPhase(next, bytes, dataEnd);
      assert next.(endCount := 0, state := Complete1) == r.(endCount := 0, state := Complete1);
    }
  }

  /** The end bit and the acknowledgement gap, ending in COMPLETE_1. */
  lemma TailPhase(d: Regs, bytes: seq<Byte>, dataEnd: U8)
    requires d.state == End1 && d.endCount == 1
    ensures var o := Run(d, bytes, dataEnd, 2 + dataEnd);
      o.0 == ONE + Lows(dataEnd) && o.1.state == Complete1 && o.1.endCount == 0
  {
    EndTicks(d, bytes, dataEnd);
    var e := Run(d, bytes, dataEnd, 2).1;
    var gap := Run(e, bytes, dataEnd, dataEnd);
    if dataEnd != 0 {
      GapPhase(e, bytes, dataEnd);
    } else {
      assert gap == ([], e);
      assert Lows(0) == [];
    }
    RunAdd(d, bytes, dataEnd, 2, dataEnd);
  }

  /**
   * A whole packet: from the registers DCC_PacketStart sets, the ticks spell
   * the preamble, each byte after its start bit, the end bit and the
   * acknowledgement gap, and leave the machine in COMPLETE_1.
   */
  lemma PacketWave(r: Regs, bytes: seq<Byte>, dataEnd: U8, preambleBits: U8)
    requires preambleBits >= 1 && |bytes| < 256
    ensures var o := Run(Begin(r, preambleBits), bytes, dataEnd, |Frame(preambleBits, bytes, dataEnd)|);
      o.0 == Frame(preambleBits, bytes, dataEnd) && o.1.state == Complete1 && o.1.endCount == 0
  {
    var b := Begin(r, preambleBits);
    var c := b.(preamble := 0);
    var n1, n2, n3 := 2 * preambleBits, |Payload(bytes, 0)|, 2 + dataEnd;
    PreamblePhase(b, bytes, dataEnd);
    PayloadPhase(c, bytes, dataEnd);
    var d := Run(NextByte(c, bytes), bytes, dataEnd, n2).1;
    TailPhase(d, bytes, dataEnd);
    RunAdd(NextByte(c, bytes), bytes, dataEnd, n2, n3);
    var rest := Run(NextByte(c, bytes), bytes, dataEnd, n2 + n3);
    assert rest.0 == Payload(bytes, 0) + (ONE + Lows(dataEnd));
    assert rest.1.state == Complete1 && rest.1.endCount == 0;
    RunAdd(b, bytes, dataEnd, n1, n2 + n3);
    var pre := Run(b, bytes, dataEnd, n1);
    assert pre == (Ones(preambleBits), NextByte(c, bytes));
    var f := Frame(preambleBits, bytes, dataEnd);
    assert f == Ones(preambleBits) + rest.0;
    assert |f| == n1 + (n2 + n3);
    assert Run(b, bytes, dataEnd, n1 + (n2 + n3)) == (f, rest.1);
    var o := Run(Begin(r, preambleBits), bytes, dataEnd, |Frame(preambleBits, bytes, dataEnd)|);
    assert o == (f, rest.1);
  }

  // ---------------------------------------------------------------------
  // The transmitter

  /**
   * The statics of samc21/dcc_tx.cpp with the globals it shares with the
   * scheduler: DCC_TxPacket, DCC_ScheduledPacket, DCC_ScheduledPacketTime and
   * DCC_TimerTime. `track` records the level written to the pattern buffer
   * on each tick and `wakeups` the signals sent to the DCC task.
   */
  class Transmitter {
    var state: TxState
    var preambleCount: U8
    var endCount: U8
    var payloadIndex: U8
    var payloadByte: U8
    var payloadBitsLeft: U8
    var txPacket: Packet?
    var scheduledPacket: Packet?
    var scheduledPacketTime: Time
    var timerTime: Time
    var track: seq<Level>
    var wakeups: nat

    /** The statics start zeroed: IDLE_1, no packet. */
    constructor ()
      ensures state == Idle1 && txPacket == null && scheduledPacket == null && timerTime == 0
      ensures track == [] && wakeups == 0 && Valid()
    {
      state, preambleCount, endCount, payloadIndex, payloadByte, payloadBitsLeft := Idle1, 0, 0, 0, 0, 0;
      txPacket, scheduledPacket, scheduledPacketTime, timerTime := null, null, 0, 0;
      track, wakeups := [], 0;
    }

    /** While a packet is on the track it is DCC_TxPacket, ACTIVE, and has its address entry. */
    ghost predicate Valid()
      reads this, txPacket, if txPacket != null then {txPacket.data} else {}
    {
      !IsIdle(state) && !IsComplete(state) ==>
        txPacket != null && txPacket.Valid() && txPacket.state == PacketState.Active && txPacket.addressInfo != null
    }

    /** What DCC_PacketStart demands of the packet it starts. */
    static ghost predicate Startable(p: Packet?)
      reads p, if p != null then {p.data} else {}
    {
      p != null && p.Valid() && p.state == PacketState.Scheduled && p.addressInfo != null
    }

    function Registers(): Regs
      reads this
    {
      Regs(state, preambleCount, endCount, payloadIndex, payloadByte, payloadBitsLeft)
    }

    /** The IDLE_2 test: a packet is scheduled and its time has come. */
    predicate Ready()
      reads this
    {
      scheduledPacket != null && Le(scheduledPacketTime, timerTime)
    }

    /** The bytes of the packet being sent. */
    function Sending(): seq<Byte>
      reads this, txPacket, if txPacket != null then {txPacket.data} else {}
    {
      if txPacket != null && txPacket.data.Length == 6 && txPacket.size <= 6 then txPacket.Bytes() else []
    }

    /** DataEnd of the packet being sent, as the uint8_t DCC_EndCount holds it. */
    function GapTicks(): U8
      reads this, txPacket
    {
      if txPacket != null then txPacket.DataEnd() as U8 else 0
    }

    /** The preamble length of the scheduled packet. */
    function Pending(): U8
      reads this, scheduledPacket
    {
      if scheduledPacket != null then scheduledPacket.preambleBits else 0
    }

    /** What the next tick does, by Step. */
    function NextTick(): Tick
      reads this, txPacket, scheduledPacket, if txPacket != null then {txPacket.data} else {}
    {
      Step(Registers(), Sending(), GapTicks(), state == Idle2 && Ready(), Pending())
    }

    /** The fields other than the registers and the packet being sent. */
    twostate predicate Same()
      reads this
    {
      scheduledPacket == old(scheduledPacket) && scheduledPacketTime == old(scheduledPacketTime) &&
      timerTime == old(timerTime) && track == old(track) && wakeups == old(wakeups)
    }

    /** DCC_TxIdle: a completed transmitter goes idle in the same phase of the square wave. */
    method TxIdle()
      requires IsComplete(state)
      modifies this
      ensures state == IdleState(old(state)) && Pattern(state) == Pattern(old(state)) && IsIdle(state)
      ensures Registers() == old(Registers()).(state := state) && txPacket == old(txPacket) && Same()
    {
      state := if state == Complete1 then Idle1 else Idle2;
    }

    /** DCC_GetNextByte. */
    method GetNextByte()
      requires txPacket != null && txPacket.data.Length == 6 && txPacket.size <= 6
      modifies this
      ensures Registers() == NextByte(old(Registers()), old(Sending())) && txPacket == old(txPacket) && Same()
    {
      if payloadIndex < txPacket.size {
        payloadByte := ValueOf(txPacket.data[payloadIndex]);
        payloadIndex := ToU8(payloadIndex + 1);
        payloadBitsLeft := 8;
        state := Start1;
      } else {
        state := End1;
      }
    }

    /** DCC_GetNextBit. */
    method GetNextBit()
      requires txPacket != null && txPacket.data.Length == 6 && txPacket.size <= 6
      modifies this
      ensures Registers() == NextBit(old(Registers()), old(Sending())) && txPacket == old(txPacket) && Same()
    {
      if payloadBitsLeft != 0 {
        payloadBitsLeft := payloadBitsLeft - 1;
        if payloadByte >= 0x80 {
          state := One1;
        } else {
          state := Zero1;
        }
        payloadByte := payloadByte * 2 % 0x100;
      } else {
        GetNextByte();
      }
    }

    /** DCC_PacketStart: a SCHEDULED packet becomes ACTIVE and DCC_TxPacket, and its preamble begins. */
    method PacketStart(p: Packet)
      requires Startable(p)
      modifies this, p
      ensures txPacket == p && p.state == PacketState.Active && p.Valid() && p.addressInfo != null
      ensures p.Counters() == old(p.Counters()) && p.preambleBits == old(p.preambleBits)
      ensures Registers() == Begin(old(Registers()), p.preambleBits) && Same()
    {
      p.state := PacketState.Active;
      txPacket := p;
      state := Preamble1;
      preambleCount := p.preambleBits;
      endCount := 1;
      payloadIndex := 0;
    }

    /**
     * DCC_PacketEnd: the ACTIVE packet becomes COMPLETE, its PacketEnd
     * records the acknowledgement, and the DCC task is woken.
     */
    method PacketEnd(pulse: nat)
      requires txPacket != null && txPacket.state == PacketState.Active
      modifies this, txPacket
      ensures txPacket == old(txPacket) && txPacket.state == PacketState.Complete
      ensures txPacket.Counters() == EndPacket(txPacket.kind, old(txPacket.Counters()), pulse)
      ensures txPacket.addressInfo == old(txPacket.addressInfo) && txPacket.size == old(txPacket.size)
      ensures state == Complete1 && old(Registers()).(state := Complete1) == Registers()
      ensures scheduledPacket == old(scheduledPacket) && scheduledPacketTime == old(scheduledPacketTime)
      ensures timerTime == old(timerTime) && track == old(track) && wakeups == old(wakeups) + 1
    {
      txPacket.state := PacketState.Complete;
      txPacket.PacketEnd(pulse);
      state := Complete1;
      wakeups := wakeups + 1;
    }

    /**
     * What one tick does: the level of the old state goes out, the clock
     * moves on by 58 microseconds, the registers become Step's, a packet Step starts becomes DCC_TxPacket and ACTIVE,
     * the end bit stores the address's hold-off time, 5000 microseconds on
     * (no other tick changes it),
     * and a packet Step ends becomes COMPLETE with its PacketEnd applied.
     */
    twostate predicate Stepped(pulse: nat)
      reads this, txPacket, scheduledPacket
      reads if txPacket != null then {txPacket.data} else {}, if txPacket != null then {txPacket.addressInfo} else {}
    {
      var t := old(NextTick());
      Valid() && Registers() == t.regs &&
      scheduledPacket == old(scheduledPacket) && scheduledPacketTime == old(scheduledPacketTime) &&
      track == old(track) + [t.level] && timerTime == Add(old(timerTime), 58) &&
      (old(state) == Idle2 ==> (state == Preamble1 <==> old(Ready()))) &&
      (t.event == Started ==>
        old(scheduledPacket) != null && txPacket == old(scheduledPacket) && txPacket.state == PacketState.Active &&
        txPacket.Counters() == old(scheduledPacket.Counters())) &&
      (t.event != Started ==> txPacket == old(txPacket)) &&
      (t.event in {HoldOff, HoldOffEnded} ==>
        txPacket != null && txPacket.addressInfo != null && txPacket.addressInfo.holdOffTime == Add(old(timerTime), 5000)) &&
      (t.event !in {HoldOff, HoldOffEnded} && old(txPacket) != null && old(txPacket.addressInfo) != null &&
        txPacket == old(txPacket) && txPacket.addressInfo == old(txPacket.addressInfo) ==>
        txPacket.addressInfo.holdOffTime == old(txPacket.addressInfo.holdOffTime)) &&
      (t.event in {HoldOffEnded, Ended} ==>
        txPacket != null && old(txPacket) != null && txPacket.state == PacketState.Complete && wakeups == old(wakeups) + 1 &&
        txPacket.Counters() == EndPacket(txPacket.kind, old(txPacket.Counters()), pulse)) &&
      (t.event !in {HoldOffEnded, Ended} ==> wakeups == old(wakeups)) &&
      (t.event == Nothing && txPacket != null ==>
        old(txPacket) != null && txPacket.state == old(txPacket.state) && txPacket.Counters() == old(txPacket.Counters()))
    }

    /** The IDLE cases of TCC0_Handler's switch. */
    method IdleTick(pulse: nat)
      requires Valid() && IsIdle(state)
      requires state == Idle2 && Ready() ==> Startable(scheduledPacket)
      modifies this, scheduledPacket
      ensures Stepped(pulse)
    {
      var level := Pattern(state);
      if state == Idle1 {
        state := Idle2;
      } else if scheduledPacket != null && Le(scheduledPacketTime, timerTime) {
        PacketStart(scheduledPacket);
      } else {
        state := Idle1;
      }
      track, timerTime := track + [level], Add(timerTime, 58);
    }

    /** The preamble, start bit, data bit and first end bit cases of TCC0_Handler's switch. */
    method BitTick(pulse: nat)
      requires Valid() && !IsIdle(state) && !IsComplete(state) && state !in {End2, Gap}
      modifies this
      ensures Stepped(pulse)
    {
      var level := Pattern(state);
      match state {
        case Preamble1 =>
          state := Preamble2;
        case Preamble2 =>
          preambleCount := ToU8(preambleCount - 1);
          if preambleCount == 0 {
            GetNextByte();
          } else {
            state := Preamble1;
          }
        case Start1 =>
          state := Start2;
        case Start2 =>
          state := Start3;
        case Start3 =>
          state := Start4;
        case Start4 =>
          GetNextBit();
        case Zero1 =>
          state := Zero2;
        case Zero2 =>
          state := Zero3;
        case Zero3 =>
          state := Zero4;
        case Zero4 =>
          GetNextBit();
        case One1 =>
          state := One2;
        case One2 =>
          GetNextBit();
        case End1 =>
          state := End2;
      }
      track, timerTime := track + [level], Add(timerTime, 58);
    }

    /** The second end bit case of TCC0_Handler's switch. */
    method EndTick(pulse: nat)
      requires Valid() && state == End2
      modifies this, txPacket, txPacket.addressInfo
      ensures Stepped(pulse)
    {
      var level := Pattern(state);
      endCount := ToU8(endCount - 1);
      if endCount == 0 {
        txPacket.addressInfo.holdOffTime := Add(timerTime, 5000);
        endCount := txPacket.DataEnd() as U8;
        if endCount != 0 {
          state := Gap;
        } else {
          PacketEnd(pulse);
        }
      } else {
        state := End1;
      }
      track, timerTime := track + [level], Add(timerTime, 58);
    }

    /** The gap case of TCC0_Handler's switch. */
    method GapTick(pulse: nat)
      requires Valid() && state == Gap
      modifies this, txPacket
      ensures Stepped(pulse)
    {
      var level := Pattern(state);
      endCount := ToU8(endCount - 1);
      if endCount == 0 {
        PacketEnd(pulse);
      }
      track, timerTime := track + [level], Add(timerTime, 58);
    }

    /** The completion cases of TCC0_Handler's switch. */
    method CompleteTick(pulse: nat)
      requires Valid() && IsComplete(state)
      modifies this
      ensures Stepped(pulse)
    {
      var level := Pattern(state);
      state := if state == Complete1 then Complete2 else Complete1;
      track, timerTime := track + [level], Add(timerTime, 58);
    }

    /**
     * TCC0_Handler: one tick, as Stepped states it. The cases of its switch
     * are grouped in the five methods above, each of which ends with the
     * output and the clock.
     */
    method Handler(pulse: nat)
      requires Valid()
      requires state == Idle2 && Ready() ==> Startable(scheduledPacket)
      modifies this, txPacket, scheduledPacket, if txPacket != null then {txPacket.addressInfo} else {}
      ensures Stepped(pulse)
    {
      if IsIdle(state) {
        IdleTick(pulse);
      } else if state == End2 {
        EndTick(pulse);
      } else if state == Gap {
        GapTick(pulse);
      } else if IsComplete(state) {
        CompleteTick(pulse);
      } else {
        BitTick(pulse);
      }
    }
  }
}
