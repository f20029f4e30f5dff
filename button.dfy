/**
 * Button debouncing (samd21/button.c): each scan shifts the button's
 * active/inactive sample into a 16-bit history; a press is recognised when
 * the history turns all ones, a release when it turns all zeros, and a
 * press that lasts 512 scans is reported as held.
 */
module Button {
  import opened Machine

  const NUM_BUTTONS := 9
  const ALL_ONES: U16 := 0xFFFF
  /** The scans after which a press counts as held. */
  const HOLD_SCANS: U16 := 512

  datatype Event = None | Pressed | Held | Released | HeldReleased

  /** BUT_Button_t, without the pin number (the level read from it is an input of a scan). */
  datatype Button = Button(state: U16, counter: U16, pullDown: bool, event: Event)

  /** The sample a scan takes: the pin reads low on an active pull-up button and high on an active pull-down one. */
  function Active(level: bool, pullDown: bool): (a: bool)
    ensures a <==> (pullDown <==> level)
  {
    var pio := if level then 0 else 1;
    var pio' := if pullDown then 1 - pio else pio;
    pio' == 1
  }

  /** One scan of one button, as the body of BUT_ScanButtons's loop. */
  function Scan(b: Button, level: bool): (r: Button)
    ensures r.state == ((b.state * 2) % 0x1_0000) + (if Active(level, b.pullDown) then 1 else 0)
    ensures r.pullDown == b.pullDown
  {
    var state := ToU16(b.state * 2) + (if Active(level, b.pullDown) then 1 else 0);
    if b.state == 0x7FFF && state == ALL_ONES then
      Button(state, 0, b.pullDown, Pressed)
    else if b.state == 0x8000 && state == 0 then
      Button(state, 0, b.pullDown, if b.counter < HOLD_SCANS then Released else HeldReleased)
    else if state == ALL_ONES && b.counter < HOLD_SCANS then
      var counter := b.counter + 1;
      Button(state, counter, b.pullDown, if counter == HOLD_SCANS then Held else None)
    else
      Button(state, b.counter, b.pullDown, None)
  }

  /** BUT_IsPressed */
  function IsPressed(b: Button): bool
  {
    b.state == ALL_ONES
  }

  /** PRESSED is reported exactly on the scan that turns the history from 0x7FFF into all ones. */
  lemma PressedExactly(b: Button, level: bool)
    ensures Scan(b, level).event == Pressed <==> b.state == 0x7FFF && IsPressed(Scan(b, level))
    ensures Scan(b, level).event == Pressed ==> Scan(b, level).counter == 0
  {
  }

  /**
   * A release is reported exactly on the scan that turns the history from
   * 0x8000 into all zeros: as RELEASED after a short press, HELD_RELEASED
   * after a long one.
   */
  lemma ReleasedExactly(b: Button, level: bool)
    ensures var r := Scan(b, level);
      (r.event == Released || r.event == HeldReleased) <==> b.state == 0x8000 && r.state == 0
    ensures var r := Scan(b, level);
      r.event == Released ==> b.counter < HOLD_SCANS && r.counter == 0
    ensures var r := Scan(b, level);
      r.event == HeldReleased ==> b.counter >= HOLD_SCANS && r.counter == 0
  {
  }

  /**
   * The hold counter never passes 512, and HELD is reported only on the
   * scan that brings it to 512, so once per press.
   */
  lemma HeldOnce(b: Button, level: bool)
    requires b.counter <= HOLD_SCANS
    ensures var r := Scan(b, level); r.counter <= HOLD_SCANS
    ensures var r := Scan(b, level); r.event == Held <==> b.counter == HOLD_SCANS - 1 && IsPressed(r) && b.state != 0x7FFF
    ensures var r := Scan(b, level); r.event == Held ==> r.counter == HOLD_SCANS
  {
  }

  /** k scans with the same pin level. */
  function Scans(b: Button, level: bool, k: nat): Button
    decreases k
  {
    if k == 0 then b else Scans(Scan(b, level), level, k - 1)
  }

  function Pow2(k: nat): nat
  {
    if k == 0 then 1 else 2 * Pow2(k - 1)
  }

  /** From a settled released button, k <= 15 active scans fill the low k bits of the history and report nothing. */
  lemma {:induction false} ActiveScansFill(b: Button, level: bool, k: nat)
    requires b.state == 0 && Active(level, b.pullDown) && 1 <= k <= 15
    ensures Scans(b, level, k).state == Pow2(k) - 1 && Scans(b, level, k).event == None
    ensures Scans(b, level, k).counter == b.counter && Scans(b, level, k).pullDown == b.pullDown
    decreases k
  {
    ScansSnoc(b, level, k - 1);
    var c := Scans(b, level, k - 1);
    if k > 1 {
      ActiveScansFill(b, level, k - 1);
      Pow2Le(k - 1, 14);
      Pow2Values();
    }
    FillStep(c, level);
  }

  /** An active scan of a history below 0x4000 shifts a one in and reports nothing. */
  lemma FillStep(c: Button, level: bool)
    requires c.state < 0x4000 && Active(level, c.pullDown)
    ensures Scan(c, level) == Button(2 * c.state + 1, c.counter, c.pullDown, None)
  {
  }

  /** The active scan that completes the history: PRESSED. */
  lemma CompleteStep(c: Button, level: bool)
    requires c.state == 0x7FFF && Active(level, c.pullDown)
    ensures Scan(c, level).event == Pressed && IsPressed(Scan(c, level))
  {
  }

  lemma {:induction false} ScansSnoc(b: Button, level: bool, k: nat)
    ensures Scans(b, level, k + 1) == Scan(Scans(b, level, k), level)
    decreases k
  {
    if k > 0 {
      ScansSnoc(Scan(b, level), level, k - 1);
    }
  }

  lemma Pow2Values()
    ensures Pow2(14) == 0x4000 && Pow2(15) == 0x8000
  {
    assert Pow2(1) == 2;
    assert Pow2(2) == 4;
    assert Pow2(3) == 8;
    assert Pow2(4) == 16;
    assert Pow2(5) == 32;
    assert Pow2(6) == 64;
    assert Pow2(7) == 128;
    assert Pow2(8) == 256;
    assert Pow2(9) == 512;
    assert Pow2(10) == 1024;
    assert Pow2(11) == 2048;
    assert Pow2(12) == 4096;
    assert Pow2(13) == 8192;
    assert Pow2(14) == 16384;
    assert Pow2(15) == 32768;
  }

  lemma {:induction false} Pow2Le(k: nat, n: nat)
    requires k <= n
    ensures Pow2(k) <= Pow2(n)
    decreases n - k
  {
    if k < n {
      Pow2Le(k + 1, n);
    }
  }

  /**
   * Debouncing: a settled released button held active is reported PRESSED
   * on the sixteenth scan and not before.
   */
  lemma PressedAfterSixteenScans(b: Button, level: bool)
    requires b.state == 0 && Active(level, b.pullDown)
    ensures forall k :: 1 <= k <= 15 ==> Scans(b, level, k).event == None
    ensures Scans(b, level, 16).event == Pressed && IsPressed(Scans(b, level, 16))
  {
    forall k | 1 <= k <= 15
      ensures Scans(b, level, k).event == None
    {
      ActiveScansFill(b, level, k);
    }
    ActiveScansFill(b, level, 15);
    ScansSnoc(b, level, 15);
    Pow2Values();
    CompleteStep(Scans(b, level, 15), level);
  }

  /** The button table (Button[9]). */
  class Buttons {
    var buttons: seq<Button>

    ghost predicate Valid()
      reads this
    {
      |buttons| == NUM_BUTTONS
    }

    /** All buttons settled released, as BUT_InitButton leaves each. */
    constructor (pullDown: seq<bool>)
      requires |pullDown| == NUM_BUTTONS
      ensures Valid() && forall i :: 0 <= i < NUM_BUTTONS ==> buttons[i] == Button(0, 0, pullDown[i], None)
    {
      buttons := seq(NUM_BUTTONS, i requires 0 <= i < NUM_BUTTONS => Button(0, 0, pullDown[i], None));
    }

    /** BUT_InitButton: one button back to settled released, with its pull direction. */
    method InitButton(i: nat, pullDown: bool)
      requires Valid() && i < NUM_BUTTONS
      modifies this
      ensures Valid() && buttons == old(buttons)[i := Button(0, 0, pullDown, None)]
    {
      buttons := buttons[i := Button(0, 0, pullDown, None)];
    }

    /** BUT_ScanButtons: every button scanned once, with the pin levels read. */
    method ScanButtons(levels: seq<bool>)
      requires Valid() && |levels| == NUM_BUTTONS
      modifies this
      ensures Valid() && forall i :: 0 <= i < NUM_BUTTONS ==> buttons[i] == Scan(old(buttons)[i], levels[i])
    {
      var i := 0;
      while i < NUM_BUTTONS
        invariant 0 <= i <= NUM_BUTTONS && |buttons| == NUM_BUTTONS
        invariant forall j :: 0 <= j < i ==> buttons[j] == Scan(old(buttons)[j], levels[j])
        invariant forall j :: i <= j < NUM_BUTTONS ==> buttons[j] == old(buttons)[j]
      {
        var b := buttons[i];
        var state := ToU16(b.state * 2) + (if Active(levels[i], b.pullDown) then 1 else 0);
        var counter := b.counter;
        var event := None;
        if b.state == 0x7FFF && state == ALL_ONES {
          counter := 0;
          event := Pressed;
        } else if b.state == 0x8000 && state == 0 {
          event := if counter < HOLD_SCANS then Released else HeldReleased;
          counter := 0;
        } else if state == ALL_ONES {
          if counter < HOLD_SCANS {
            counter := counter + 1;
            if counter == HOLD_SCANS {
              event := Held;
            }
          }
        }
        buttons := buttons[i := Button(state, counter, b.pullDown, event)];
        i := i + 1;
      }
    }

    /** BUT_GetEvent */
    method GetEvent(i: nat) returns (e: Event)
      requires Valid() && i < NUM_BUTTONS
      ensures e == buttons[i].event
    {
      e := buttons[i].event;
    }
  }
}
