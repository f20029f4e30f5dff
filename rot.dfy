/**
 * Quadrature rotary encoder (samd21/rot.c). The two encoder pins form a
 * 2-bit state; an edge interrupt on either pin re-reads it, and a 16-entry
 * table indexed by (last state, new state) says whether the knob moved one
 * step and in which direction. The step count is an int8_t that the
 * application reads and optionally clears.
 */
module Rot {
  import opened Machine

  /** The transition table of ROT_IntHandler, indexed by last state * 4 + new state. */
  const TABLE: seq<int> := [0, -1, 1, 0, 1, 0, 0, -1, -1, 0, 0, 1, 0, 1, -1, 0]

  /** A 2-bit pin state: bit 0 is pin A, bit 1 is pin B. */
  type PinState = x: nat | x < 4

  /** The table entry for a move from `last` to `cur`. */
  function Step(last: PinState, cur: PinState): int
  {
    TABLE[last * 4 + cur]
  }

  /** The position of a pin state on the Gray cycle 0, 1, 3, 2. */
  function GrayPos(s: PinState): (p: nat)
    ensures p < 4
  {
    if s == 0 then 0 else if s == 1 then 1 else if s == 3 then 2 else 3
  }

  /**
   * Reference reading of quadrature: a move one place forward on the Gray
   * cycle counts -1, one place backward +1, and no move or a jump of two
   * places (a missed edge) counts nothing.
   */
  function GrayStep(last: PinState, cur: PinState): int
  {
    var d := (GrayPos(cur) - GrayPos(last)) % 4;
    if d == 1 then -1 else if d == 3 then 1 else 0
  }

  /** The table is exactly the Gray-code decoder. */
  lemma StepIsGrayStep(last: PinState, cur: PinState)
    ensures Step(last, cur) == GrayStep(last, cur)
    ensures -1 <= Step(last, cur) <= 1
  {
  }

  /** Reversing a move reverses its count. */
  lemma StepAntisymmetric(last: PinState, cur: PinState)
    ensures Step(cur, last) == -Step(last, cur)
  {
  }

  /**
   * The counting the handler does over a series of new pin states:
   * the total of the steps, where the remembered state moves on only
   * when a step is counted.
   */
  function Turn(last: PinState, states: seq<PinState>): int
    decreases |states|
  {
    if |states| == 0 then 0
    else
      var d := Step(last, states[0]);
      d + Turn(if d != 0 then states[0] else last, states[1..])
  }

  /** The state one place forward on the Gray cycle. */
  function Forward(s: PinState): (r: PinState)
    ensures GrayPos(r) == (GrayPos(s) + 1) % 4
  {
    if s == 0 then 1 else if s == 1 then 3 else if s == 3 then 2 else 0
  }

  lemma StepForward(s: PinState)
    ensures Step(s, Forward(s)) == -1 && Step(Forward(s), s) == 1
  {
  }

  /** A full detent forward, around the Gray cycle from any state, counts -4. */
  lemma ForwardCycle(s: PinState)
    ensures Forward(Forward(Forward(Forward(s)))) == s
    ensures Turn(s, [Forward(s), Forward(Forward(s)), Forward(Forward(Forward(s))), s]) == -4
  {
    var s1 := Forward(s);
    var s2 := Forward(s1);
    var s3 := Forward(s2);
    StepForward(s);
    StepForward(s1);
    StepForward(s2);
    StepForward(s3);
    var q := [s1, s2, s3, s];
    assert q[1..] == [s2, s3, s] && q[1..][1..] == [s3, s] && q[1..][1..][1..] == [s];
    assert Turn(s3, [s]) == -1 by {
      assert [s][1..] == [];
    }
    assert Turn(s2, [s3, s]) == -2;
    assert Turn(s1, [s2, s3, s]) == -3;
  }

  /** A full detent backward, around the Gray cycle the other way, counts +4. */
  lemma BackwardCycle(s: PinState)
    ensures Turn(s, [Forward(Forward(Forward(s))), Forward(Forward(s)), Forward(s), s]) == 4
  {
    var s1 := Forward(s);
    var s2 := Forward(s1);
    var s3 := Forward(s2);
    StepForward(s);
    StepForward(s1);
    StepForward(s2);
    StepForward(s3);
    var q := [s3, s2, s1, s];
    assert q[1..] == [s2, s1, s] && q[1..][1..] == [s1, s] && q[1..][1..][1..] == [s];
    assert Turn(s1, [s]) == 1 by {
      assert [s][1..] == [];
    }
    assert Turn(s2, [s1, s]) == 2;
    assert Turn(s3, [s2, s1, s]) == 3;
  }

  /** Contact bounce: a move and its return, whatever the move, count nothing in total. */
  lemma BounceCancels(last: PinState, cur: PinState, rest: seq<PinState>)
    ensures Turn(last, [cur, last] + rest) == Turn(last, rest)
  {
    var states := [cur, last] + rest;
    assert states[0] == cur && states[1..] == [last] + rest;
    assert ([last] + rest)[0] == last && ([last] + rest)[1..] == rest;
    StepAntisymmetric(last, cur);
    if Step(last, cur) != 0 {
      assert Turn(last, states) == Step(last, cur) + Turn(cur, [last] + rest);
    } else {
      assert Step(last, last) == 0;
    }
  }

  /** Bit `line` of an interrupt status word, as `Status & (1UL << line)`. */
  function Flagged(status: U32, line: nat): bool
    decreases line
  {
    if line == 0 then status % 2 == 1 else Flagged(status / 2, line - 1)
  }

  /** The new pin state after an interrupt: each flagged pin's bit is re-read, the other kept. */
  function Sampled(pio: PinState, flagA: bool, flagB: bool, readA: bool, readB: bool): (r: PinState)
    ensures r % 2 == (if flagA then (if readA then 1 else 0) else pio % 2)
    ensures r / 2 == (if flagB then (if readB then 1 else 0) else pio / 2)
  {
    var a := if flagA then (if readA then 1 else 0) else pio % 2;
    var b := if flagB then (if readB then 1 else 0) else pio / 2;
    a + 2 * b
  }

  /** ROT_State_t, without the task and signal it notifies (whether it notified is kept). */
  class Encoder {
    var value: I8
    var pioState: PinState
    var lastPioState: PinState
    var pioA: nat
    var pioB: nat
    var extIntA: nat
    var extIntB: nat
    /** Whether a change signal has been sent to the reading task. */
    var signalled: bool

    /**
     * ROT_InitEncoder: both pins read once and taken as the settled state;
     * the count starts at zero, as the static table is zeroed.
     */
    constructor (pioA: nat, extIntA: nat, pioB: nat, extIntB: nat, readA: bool, readB: bool)
      ensures this.pioA == pioA && this.pioB == pioB && this.extIntA == extIntA && this.extIntB == extIntB
      ensures pioState == (if readA then 1 else 0) + (if readB then 2 else 0)
      ensures lastPioState == pioState && value == 0 && !signalled
    {
      this.pioA := pioA;
      this.pioB := pioB;
      this.extIntA := extIntA;
      this.extIntB := extIntB;
      var s := if readA then 1 else 0;
      s := s + (if readB then 2 else 0);
      pioState := s;
      lastPioState := s;
      value := 0;
      signalled := false;
    }

    /**
     * ROT_IntHandler: re-read the flagged pins and, when the table counts a
     * step, add it to the int8_t count (wrapping), signal the task and
     * remember the new state.
     */
    method IntHandler(status: U32, readA: bool, readB: bool)
      modifies this
      ensures pioState == Sampled(old(pioState), Flagged(status, extIntA), Flagged(status, extIntB), readA, readB)
      ensures var d := Step(old(lastPioState), pioState);
        value == ToI8(old(value) + d) &&
        lastPioState == (if d != 0 then pioState else old(lastPioState)) &&
        signalled == (old(signalled) || d != 0)
      ensures pioA == old(pioA) && pioB == old(pioB) && extIntA == old(extIntA) && extIntB == old(extIntB)
    {
      var pio := pioState;
      if Flagged(status, extIntA) {
        pio := (pio / 2) * 2 + (if readA then 1 else 0);
      }
      if Flagged(status, extIntB) {
        pio := pio % 2 + (if readB then 2 else 0);
      }
      assert pio == Sampled(old(pioState), Flagged(status, extIntA), Flagged(status, extIntB), readA, readB);
      pioState := pio;
      var d := Step(lastPioState, pioState);
      if d != 0 {
        value := ToI8(value + d);
        signalled := true;
        lastPioState := pioState;
      }
    }

    /** ROT_Read: the count, cleared when asked to. */
    method Read(reset: bool) returns (v: I8)
      modifies this
      ensures v == old(value)
      ensures value == (if reset then 0 else old(value))
      ensures pioState == old(pioState) && lastPioState == old(lastPioState) && signalled == old(signalled)
    {
      v := value;
      if reset {
        value := 0;
      }
    }
  }

  /**
   * A count that starts at zero and sees only steps from the table stays
   * within int8_t for up to 127 steps, so no wrap-around is seen before then.
   */
  lemma {:induction false} TurnBounded(last: PinState, states: seq<PinState>)
    ensures -|states| <= Turn(last, states) <= |states|
    decreases |states|
  {
    if |states| > 0 {
      StepIsGrayStep(last, states[0]);
      var d := Step(last, states[0]);
      TurnBounded(if d != 0 then states[0] else last, states[1..]);
    }
  }
}
