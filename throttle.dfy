/**
 * The hand-held throttle of samd21/main.c: four trains on four buttons, a
 * rotary encoder that changes the active train's speed (or, while
 * programming, the address being chosen), the encoder's click that stops
 * the train or reverses it, and the messages from the command station
 * that keep the trains' state in step. The DCC commands the throttle
 * issues are recorded in order.
 */
module Throttle {
  import opened Machine
  import Wrappers
  import Esp
  import EspFraming
  import EspRxTask

  /** TRCON_TrainState_t: Speed is the raw 0..99 speed the display shows. */
  datatype Train = Train(address: U8, speed: U8, isForward: U8, lights: U8)

  /** DCC_SetLocomotiveSpeed and DCC_SetLocomotiveFunctions as issued. */
  datatype Command =
    | SpeedCommand(address: U8, speed: I8, isForward: U8)
    | FunctionsCommand(address: U8, functions: U8)

  const TRAINS: nat := 4
  /** The top of the raw speed range and of the address range. */
  const MAX_RAW: U8 := 99
  const MAX_ADDRESS: U8 := 99
  /** F0, the headlights, in a function group one command. */
  const LIGHTS_FUNCTION: U8 := 0x10
  const DCC_SET_LOCO_SPEED: Byte := 0x10
  const DCC_SET_LOCO_FUNCTIONS: Byte := 0x11

  // ---------------------------------------------------------------------
  // Speed conversion

  /** TRCON_RawSpeedToSpeed: raw * 126 / 99 in int32, truncated, cast to int8. */
  function RawSpeedToSpeed(raw: I16): I8
  {
    ToI8(CDiv(raw * 126, 99))
  }

  /** TRCON_SpeedToRawSpeed: speed * 99 / 126 rounded away from zero, cast to int8. */
  function SpeedToRawSpeed(speed: I16): I8
  {
    if speed > 0 then ToI8(CDiv(speed * 99 + 125, 126))
    else ToI8(CDiv(speed * 99 - 125, 126))
  }

  /** On the raw range the conversion is the truncated scaling to 0..126, monotone and odd. */
  lemma RawSpeedScales(raw: I16)
    requires -99 <= raw <= 99
    ensures raw >= 0 ==> 0 <= RawSpeedToSpeed(raw) <= 126 && RawSpeedToSpeed(raw) * 99 <= raw * 126 < (RawSpeedToSpeed(raw) + 1) * 99
    ensures RawSpeedToSpeed(-raw) == -RawSpeedToSpeed(raw)
    ensures raw == MAX_RAW ==> RawSpeedToSpeed(raw) == 126
  {
  }

  lemma RawSpeedMonotone(a: I16, b: I16)
    requires -99 <= a <= b <= 99
    ensures RawSpeedToSpeed(a) <= RawSpeedToSpeed(b)
  {
  }

  /** A positive speed becomes the least raw speed at least as fast; the conversion is odd. */
  lemma SpeedToRawRoundsUp(speed: I16)
    requires 0 < speed <= 126
    ensures var r := SpeedToRawSpeed(speed);
      1 <= r <= MAX_RAW && (r - 1) * 126 < speed * 99 <= r * 126
    ensures SpeedToRawSpeed(-speed) == -SpeedToRawSpeed(speed)
  {
  }

  /** A raw speed survives the trip to a DCC speed and back. */
  lemma RawSpeedRoundTrip(raw: I16)
    requires -99 <= raw <= 99
    ensures SpeedToRawSpeed(RawSpeedToSpeed(raw)) == raw
    decreases if raw < 0 then 1 else 0
  {
    if raw < 0 {
      RawSpeedRoundTrip(-raw);
      RawSpeedScales(raw);
      assert RawSpeedToSpeed(raw) == -RawSpeedToSpeed(-raw);
      if RawSpeedToSpeed(-raw) > 0 {
        SpeedToRawRoundsUp(RawSpeedToSpeed(-raw));
      }
    } else if raw > 0 {
      var s := RawSpeedToSpeed(raw);
      RawSpeedScales(raw);
      assert s >= 1;
    }
  }

  // ---------------------------------------------------------------------
  // Encoder steps

  /**
   * Where k steps of the encoder leave a raw speed: up, it stops at 99 and
   * a speed already above that stays; down, it stops at 0.
   */
  function Moved(speed: U8, k: int): (r: U8)
  {
    if k >= 0 then (if speed >= MAX_RAW then speed else if speed + k <= MAX_RAW then speed + k else MAX_RAW)
    else if speed + k >= 0 then speed + k else 0
  }

  /** Within range a step is a step, and the speed stays within range. */
  lemma MovedInRange(speed: U8, k: int)
    requires speed <= MAX_RAW
    ensures Moved(speed, k) <= MAX_RAW
    ensures 0 <= speed + k <= MAX_RAW ==> Moved(speed, k) == speed + k
    ensures speed + k > MAX_RAW ==> Moved(speed, k) == MAX_RAW
    ensures speed + k < 0 ==> Moved(speed, k) == 0
  {
  }

  /** More steps up never give a lower speed. */
  lemma MovedMonotone(speed: U8, j: int, k: int)
    requires j <= k
    ensures Moved(speed, j) <= Moved(speed, k) || (speed > MAX_RAW && j >= 0)
  {
  }

  /** The address one step up or down: 1..99 with wrap-around at both ends, in uint8_t. */
  function AddressStep(a: U8, up: bool): U8
  {
    if up then (var b := ToU8(a + 1); if b > MAX_ADDRESS then 1 else b)
    else (var b := ToU8(a - 1); if b < 1 then MAX_ADDRESS else b)
  }

  /** k steps of the encoder on the address being programmed (down when k < 0). */
  function AddressSteps(a: U8, k: int): U8
    decreases if k >= 0 then k else -k
  {
    if k == 0 then a
    else if k > 0 then AddressSteps(AddressStep(a, true), k - 1)
    else AddressSteps(AddressStep(a, false), k + 1)
  }

  /** The address counted on a ring of 1..99. */
  function Cycled(a: int, k: int): (r: int)
    ensures 1 <= r <= MAX_ADDRESS
  {
    (a - 1 + k) % 99 + 1
  }

  /** From an address in 1..99, k steps go k places round the ring 1..99. */
  lemma AddressStepsCycle(a: U8, k: int)
    requires 1 <= a <= MAX_ADDRESS
    ensures AddressSteps(a, k) == Cycled(a, k)
  {
    if k >= 0 {
      StepsUpCycle(a, k);
    } else {
      StepsDownCycle(a, -k);
    }
  }

  lemma {:induction false} StepsUpCycle(a: U8, k: nat)
    requires 1 <= a <= MAX_ADDRESS
    ensures AddressSteps(a, k) == Cycled(a, k)
    decreases k
  {
    if k > 0 {
      var b := AddressStep(a, true);
      StepOnRing(a);
      StepsUpCycle(b, k - 1);
      ModAdd(a, k - 1, 99);
      assert (b - 1 + (k - 1)) % 99 == (a + (k - 1)) % 99;
    }
  }

  lemma {:induction false} StepsDownCycle(a: U8, k: nat)
    requires 1 <= a <= MAX_ADDRESS
    ensures AddressSteps(a, -(k as int)) == Cycled(a, -(k as int))
    decreases k
  {
    if k > 0 {
      var b := AddressStep(a, false);
      StepOnRing(a);
      StepsDownCycle(b, k - 1);
      ModAdd(a - 2, 1 - k, 99);
      assert AddressSteps(a, -(k as int)) == AddressSteps(b, 1 - k);
      assert (b - 1 + (1 - k)) % 99 == (a - 2 + (1 - k)) % 99;
    }
  }

  lemma StepOnRing(a: U8)
    requires 1 <= a <= MAX_ADDRESS
    ensures AddressStep(a, true) - 1 == a % 99 && 1 <= AddressStep(a, true) <= MAX_ADDRESS
    ensures AddressStep(a, false) - 1 == (a - 2) % 99 && 1 <= AddressStep(a, false) <= MAX_ADDRESS
  {
    if a == 1 {
      assert (a - 2) % 99 == 98;
    } else if a == 99 {
      assert a % 99 == 0;
    }
  }

  /** An address outside 1..99 is not brought into range by stepping down from 0: uint8_t wraps it to 255. */
  lemma ZeroStepsDownOutOfRange()
    ensures AddressSteps(0, -1) == 255
  {
  }

  // ---------------------------------------------------------------------
  // The lights bit

  /** `Lights ^= 0x01`: the low bit flips, the others stay. */
  function Flip(x: U8): (r: U8)
  {
    if x % 2 == 0 then x + 1 else x - 1
  }

  /** The functions DCC_SetLocomotiveFunctions is given for a lights value. */
  function LightsFunctions(lights: U8): U8
  {
    if lights != 0 then LIGHTS_FUNCTION else 0
  }

  // ---------------------------------------------------------------------
  // Messages from the command station

  /**
   * A message long enough for what the callback reads of it: the kind byte
   * always, then the three bytes of DCC_SetLocoSpeed_t or the two bytes of
   * DCC_SetLocoFunctions_t that follow it.
   */
  predicate Sized(msg: seq<Byte>)
  {
    |msg| >= 1 &&
    (msg[0] == DCC_SET_LOCO_SPEED ==> |msg| >= 4) &&
    (msg[0] == DCC_SET_LOCO_FUNCTIONS ==> |msg| >= 3)
  }

  /** What a DCC_SET_LOCO_SPEED or DCC_SET_LOCO_FUNCTIONS message does to one train. */
  function Received(t: Train, msg: seq<Byte>): (r: Train)
    requires Sized(msg)
    ensures r.address == t.address
    ensures msg[0] !in {DCC_SET_LOCO_SPEED, DCC_SET_LOCO_FUNCTIONS} ==> r == t
    ensures msg[0] in {DCC_SET_LOCO_SPEED, DCC_SET_LOCO_FUNCTIONS} && ValueOf(msg[1]) != t.address ==> r == t
    ensures msg[0] == DCC_SET_LOCO_FUNCTIONS ==> r.speed == t.speed && r.isForward == t.isForward && (r.lights <= 1 || r == t)
  {
    if msg[0] == DCC_SET_LOCO_SPEED then
      if ValueOf(msg[1]) != t.address then t
      else t.(speed := ToU8(SpeedToRawSpeed(ValueOf(msg[2]))), isForward := ValueOf(msg[3]))
    else if msg[0] == DCC_SET_LOCO_FUNCTIONS then
      if ValueOf(msg[1]) != t.address then t
      else t.(lights := if msg[2] & 0x10 != 0 then 1 else 0)
    else t
  }

  /** A functions message for a train switches its lights on exactly when the lights function bit is set. */
  lemma ReceivedFunctions(t: Train, msg: seq<Byte>)
    requires |msg| == 3 && msg[0] == DCC_SET_LOCO_FUNCTIONS && ValueOf(msg[1]) == t.address
    ensures var r := Received(t, msg);
      (r.lights == 1 <==> msg[2] & 0x10 != 0) && (r.lights == 0 <==> msg[2] & 0x10 == 0) &&
      r.speed == t.speed && r.isForward == t.isForward
  {
  }

  /** A speed message for a train on a DCC speed within 0..126 sets its raw speed to the one that speed rounds to. */
  lemma ReceivedSpeed(t: Train, msg: seq<Byte>)
    requires |msg| >= 4 && msg[0] == DCC_SET_LOCO_SPEED && ValueOf(msg[1]) == t.address
    requires 0 < ValueOf(msg[2]) <= 126
    ensures var r := Received(t, msg);
      1 <= r.speed <= MAX_RAW && (r.speed - 1) * 126 < ValueOf(msg[2]) * 99 <= r.speed * 126 &&
      r.isForward == ValueOf(msg[3]) && r.lights == t.lights
  {
    SpeedToRawRoundsUp(ValueOf(msg[2]));
  }

  /**
   * The message applied to every train, by position.  A message shorter
   * than its kind needs, the empty one included, changes no train: the
   * corrected callback checks MsgSize before it reads the kind byte.
   */
  function ReceivedAll(trains: seq<Train>, msg: seq<Byte>): (r: seq<Train>)
    ensures |r| == |trains|
    ensures Sized(msg) ==> forall i :: 0 <= i < |r| ==> r[i] == Received(trains[i], msg)
    ensures !Sized(msg) ==> r == trains
  {
    if !Sized(msg) then trains
    else seq(|trains|, i requires 0 <= i < |trains| => Received(trains[i], msg))
  }

  /** The bytes a delivery hands the callback: the data, or none for NULL data. */
  function MessageOf(data: Wrappers.Option<seq<Byte>>): seq<Byte>
  {
    if data.Some? then data.value else []
  }

  /**
   * As written, the callback reads the kind byte Msg[0] of every delivery.
   * A frame whose header announces no payload, such as every
   * acknowledgment-only packet, is delivered as NULL data of size 0: a
   * message with no kind byte to read.
   */
  lemma HeaderOnlyMessageUnsized(p: Esp.Packet, rxSeq: int)
    requires Esp.PayloadSizeOf(p.header1) == 0
    ensures var f := EspFraming.Frame(p.WireBytes());
      f[0] == EspFraming.FRAME && EspRxTask.EndsFrame(f[1..])
      && var frame := EspFraming.Decoded(EspFraming.FRAME, f[1..][..|f| - 2]);
      var d := EspRxTask.Delivered(frame, EspRxTask.ExpectedSize(0, Esp.HEADER_SIZE, rxSeq, frame));
      d == [Esp.PacketReceived(Wrappers.None, 0)] && |MessageOf(d[0].data)| == 0 && !Sized(MessageOf(d[0].data))
  {
    EspRxTask.RefusedFrameDeliveredEmpty(p, rxSeq);
  }

  /** Corrected, the delivery of a frame without payload leaves every train as it was. */
  lemma HeaderOnlyMessageIgnored(p: Esp.Packet, rxSeq: int, trains: seq<Train>)
    requires Esp.PayloadSizeOf(p.header1) == 0
    ensures var f := EspFraming.Frame(p.WireBytes());
      f[0] == EspFraming.FRAME && EspRxTask.EndsFrame(f[1..])
      && var frame := EspFraming.Decoded(EspFraming.FRAME, f[1..][..|f| - 2]);
      var d := EspRxTask.Delivered(frame, EspRxTask.ExpectedSize(0, Esp.HEADER_SIZE, rxSeq, frame));
      |d| == 1 && ReceivedAll(trains, MessageOf(d[0].data)) == trains
  {
    HeaderOnlyMessageUnsized(p, rxSeq);
  }

  /**
   * The two loops of TRCON_ChangeSpeed on the raw speed and DeltaRaw: whole
   * steps of four are taken off, up while above 3 and down while negative.
   * `stepped` says whether any step was taken (DirCounter is then cleared).
   */
  method SpeedLoops(speed0: U8, d0: int) returns (speed: U8, d: int, stepped: bool)
    ensures d == d0 % 4 && speed == Moved(speed0, d0 / 4) && stepped == (d0 / 4 != 0)
  {
    speed, d, stepped := speed0, d0, false;
    ghost var k := 0;
    while d > 3
      invariant d == d0 - 4 * k && k >= 0 && (k > 0 ==> d >= 0)
      invariant speed == Moved(speed0, k)
      invariant stepped == (k != 0)
    {
      if speed < MAX_RAW {
        speed := speed + 1;
      }
      d := d - 4;
      stepped := true;
      k := k + 1;
    }
    ghost var j := 0;
    while d < 0
      invariant d == d0 - 4 * k + 4 * j && j >= 0 && d <= 3 && (j > 0 ==> k == 0 && d0 < 0)
      invariant speed == if j == 0 then Moved(speed0, k) else Moved(speed0, -j)
      invariant stepped == (k != 0 || j != 0)
    {
      if speed > 0 {
        speed := speed - 1;
      }
      d := d + 4;
      stepped := true;
      j := j + 1;
    }
    ModUnique(d0, k - j, 4, d);
    assert d0 / 4 == k - j;
  }

  /** The two loops of TRCON_AdjustAddress on ProgramAddress and DeltaRaw. */
  method AddressLoops(a0: U8, d0: int) returns (a: U8, d: int, stepped: bool)
    ensures d == d0 % 4 && a == AddressSteps(a0, d0 / 4) && stepped == (d0 / 4 != 0)
  {
    a, d, stepped := a0, d0, false;
    ghost var k := 0;
    while d > 3
      invariant d == d0 - 4 * k && k >= 0 && (k > 0 ==> d >= 0)
      invariant AddressSteps(a, d0 / 4 - k) == AddressSteps(a0, d0 / 4) && d / 4 == d0 / 4 - k
      invariant stepped == (k != 0)
    {
      a := AddressStep(a, true);
      d := d - 4;
      stepped := true;
      k := k + 1;
    }
    ghost var j := 0;
    while d < 0
      invariant d == d0 - 4 * k + 4 * j && j >= 0 && d <= 3 && (j > 0 ==> k == 0 && d0 < 0)
      invariant AddressSteps(a, d0 / 4 - k + j) == AddressSteps(a0, d0 / 4) && d / 4 == d0 / 4 - k + j
      invariant stepped == (k != 0 || j != 0)
    {
      a := AddressStep(a, false);
      d := d + 4;
      stepped := true;
      j := j + 1;
    }
    ModUnique(d0, k - j, 4, d);
    assert d0 / 4 == k - j;
  }

  /** The loop of CALLBACK_ESP_PacketReceived over the trains. */
  method ApplyMessage(trains: seq<Train>, msg: seq<Byte>) returns (ts: seq<Train>)
    requires Sized(msg)
    ensures ts == ReceivedAll(trains, msg)
  {
    ts := trains;
    var i := 0;
    while i < |trains|
      invariant 0 <= i <= |trains| && |ts| == |trains|
      invariant forall j :: 0 <= j < i ==> ts[j] == Received(trains[j], msg)
      invariant forall j :: i <= j < |trains| ==> ts[j] == trains[j]
    {
      var t := ReceiveOne(ts[i], msg);
      ts := ts[i := t];
      i := i + 1;
    }
  }

  /** The body of the loop for one train. */
  method ReceiveOne(t: Train, msg: seq<Byte>) returns (r: Train)
    requires Sized(msg)
    ensures r == Received(t, msg)
  {
    r := t;
    if msg[0] == DCC_SET_LOCO_SPEED {
      if ValueOf(msg[1]) == t.address {
        r := t.(speed := ToU8(SpeedToRawSpeed(ValueOf(msg[2]))), isForward := ValueOf(msg[3]));
      }
    } else if msg[0] == DCC_SET_LOCO_FUNCTIONS {
      if ValueOf(msg[1]) == t.address {
        r := t.(lights := if msg[2] & 0x10 != 0 then 1 else 0);
      }
    }
  }

  // ---------------------------------------------------------------------
  // The controller

  /** TRCON_ControllerState_t for the one controller, with the DCC commands it has issued. */
  class Controller {
    var deltaRaw: int
    var activeTrain: nat
    var programAddress: U8
    var dirCounter: U16
    var trains: seq<Train>
    var commands: seq<Command>

    /** Four trains, one of them active, and encoder steps left over below a whole step. */
    ghost predicate Valid()
      reads this
    {
      |trains| == TRAINS && activeTrain < TRAINS && 0 <= deltaRaw <= 3
    }

    function Active(): Train
      reads this
      requires Valid()
    {
      trains[activeTrain]
    }

    /** TRCON_Init: each train stopped, forward and unlit, and told so. */
    constructor (addresses: seq<U8>)
      requires |addresses| == TRAINS
      ensures Valid() && activeTrain == 0 && deltaRaw == 0 && dirCounter == 0
      ensures forall i :: 0 <= i < TRAINS ==> trains[i] == Train(addresses[i], 0, 1, 0)
      ensures |commands| == 3 * TRAINS
      ensures forall i :: 0 <= i < TRAINS ==>
        commands[3 * i] == SpeedCommand(addresses[i], 0, 1) &&
        commands[3 * i + 1] == FunctionsCommand(addresses[i], 0) && commands[3 * i + 2] == FunctionsCommand(addresses[i], 0)
    {
      deltaRaw, activeTrain, programAddress, dirCounter := 0, 0, 0, 0;
      trains := seq(TRAINS, i requires 0 <= i < TRAINS => Train(addresses[i], 0, 1, 0));
      var cs: seq<Command> := [];
      var i := 0;
      while i < TRAINS
        invariant 0 <= i <= TRAINS && |cs| == 3 * i
        invariant forall j :: 0 <= j < i ==>
          cs[3 * j] == SpeedCommand(addresses[j], 0, 1) &&
          cs[3 * j + 1] == FunctionsCommand(addresses[j], 0) && cs[3 * j + 2] == FunctionsCommand(addresses[j], 0)
      {
        cs := cs + [SpeedCommand(addresses[i], 0, 1), FunctionsCommand(addresses[i], 0), FunctionsCommand(addresses[i], 0)];
        i := i + 1;
      }
      commands := cs;
    }

    /**
     * TRCON_ChangeSpeed: the encoder's movement is added to DeltaRaw and
     * taken off in whole steps of four, each moving the raw speed one
     * place up or down within 0..99; a speed command goes out when the
     * DCC speed changes.
     */
    method ChangeSpeed(delta: I8)
      requires Valid()
      modifies this
      ensures Valid() && activeTrain == old(activeTrain) && programAddress == old(programAddress)
      ensures var d := old(deltaRaw) + delta; var t := old(Active());
        var speed := Moved(t.speed, d / 4);
        deltaRaw == d % 4 &&
        trains == old(trains)[activeTrain := t.(speed := speed)] &&
        dirCounter == (if d / 4 == 0 then old(dirCounter) else 0) &&
        commands == old(commands) +
          (if RawSpeedToSpeed(speed) != RawSpeedToSpeed(t.speed) then [SpeedCommand(t.address, RawSpeedToSpeed(speed), t.isForward)] else [])
    {
      var t := trains[activeTrain];
      var before := RawSpeedToSpeed(t.speed);
      var speed, d, stepped := SpeedLoops(t.speed, deltaRaw + delta);
      deltaRaw := d;
      if stepped {
        dirCounter := 0;
      }
      trains := trains[activeTrain := t.(speed := speed)];
      var after := RawSpeedToSpeed(speed);
      if after != before {
        commands := commands + [SpeedCommand(t.address, after, t.isForward)];
      }
    }

    /** TRCON_AdjustAddress: whole steps of four move the address being programmed round 1..99. */
    method AdjustAddress(delta: I8)
      requires Valid()
      modifies this
      ensures Valid() && trains == old(trains) && activeTrain == old(activeTrain) && commands == old(commands)
      ensures var d := old(deltaRaw) + delta;
        deltaRaw == d % 4 && programAddress == AddressSteps(old(programAddress), d / 4) &&
        dirCounter == (if d / 4 == 0 then old(dirCounter) else 0)
    {
      var a, d, stepped := AddressLoops(programAddress, deltaRaw + delta);
      programAddress := a;
      deltaRaw := d;
      if stepped {
        dirCounter := 0;
      }
    }

    /** TRCON_ToggleLights: the active train's lights bit flips and its function group one is sent. */
    method ToggleLights()
      requires Valid()
      modifies this
      ensures Valid() && activeTrain == old(activeTrain) && deltaRaw == old(deltaRaw) && dirCounter == old(dirCounter)
      ensures var t := old(Active()); var lights := Flip(t.lights);
        trains == old(trains)[activeTrain := t.(lights := lights)] &&
        commands == old(commands) + [FunctionsCommand(t.address, LightsFunctions(lights))]
    {
      var t := trains[activeTrain];
      var lights := Flip(t.lights);
      trains := trains[activeTrain := t.(lights := lights)];
      commands := commands + [FunctionsCommand(t.address, if lights != 0 then LIGHTS_FUNCTION else 0)];
    }

    /** TRCON_Stop: the active train's speed goes to 0 and a stop is sent. */
    method Stop()
      requires Valid()
      modifies this
      ensures Valid() && activeTrain == old(activeTrain) && deltaRaw == old(deltaRaw) && dirCounter == old(dirCounter)
      ensures var t := old(Active());
        trains == old(trains)[activeTrain := t.(speed := 0)] &&
        commands == old(commands) + [SpeedCommand(t.address, 0, t.isForward)]
    {
      var t := trains[activeTrain];
      trains := trains[activeTrain := t.(speed := 0)];
      commands := commands + [SpeedCommand(t.address, 0, t.isForward)];
    }

    /** TRCON_ChangeDirection: only a stopped train reverses, and is told so; a moving one is left alone. */
    method ChangeDirection()
      requires Valid()
      modifies this
      ensures Valid() && activeTrain == old(activeTrain) && deltaRaw == old(deltaRaw) && dirCounter == old(dirCounter)
      ensures var t := old(Active());
        if t.speed == 0 then
          trains == old(trains)[activeTrain := t.(isForward := Flip(t.isForward))] &&
          commands == old(commands) + [SpeedCommand(t.address, 0, Flip(t.isForward))]
        else trains == old(trains) && commands == old(commands)
    {
      var t := trains[activeTrain];
      if t.speed == 0 {
        var forward := Flip(t.isForward);
        trains := trains[activeTrain := t.(isForward := forward)];
        commands := commands + [SpeedCommand(t.address, 0, forward)];
      }
    }

    /** MAIN_SIGNAL_ROT0_CLICK: a moving train stops; a stopped one reverses and the direction is shown. */
    method Click()
      requires Valid()
      modifies this
      ensures Valid() && activeTrain == old(activeTrain) && deltaRaw == old(deltaRaw)
      ensures var t := old(Active());
        if t.speed > 0 then
          trains == old(trains)[activeTrain := t.(speed := 0)] && dirCounter == old(dirCounter) &&
          commands == old(commands) + [SpeedCommand(t.address, 0, t.isForward)]
        else
          trains == old(trains)[activeTrain := t.(isForward := Flip(t.isForward))] && dirCounter == 1000 &&
          commands == old(commands) + [SpeedCommand(t.address, 0, Flip(t.isForward))]
    {
      if trains[activeTrain].speed > 0 {
        Stop();
      } else {
        ChangeDirection();
        dirCounter := 1000;
      }
    }

    /**
     * CALLBACK_ESP_PacketReceived, corrected: a speed or functions message
     * from the command station updates every train with that address; a
     * message shorter than its kind needs, such as the empty one delivered
     * for a frame without payload, is only freed.
     */
    method PacketReceived(msg: seq<Byte>)
      requires Valid()
      modifies this
      ensures Valid() && activeTrain == old(activeTrain) && deltaRaw == old(deltaRaw) && dirCounter == old(dirCounter)
      ensures programAddress == old(programAddress) && commands == old(commands)
      ensures trains == ReceivedAll(old(trains), msg)
      ensures !Sized(msg) ==> trains == old(trains)
    {
      if Sized(msg) {
        var ts := ApplyMessage(trains, msg);
        trains := ts;
      }
    }
  }

  /** Only the trains with the message's address change, and each one's address stays. */
  lemma ReceivedOnlyMatching(trains: seq<Train>, msg: seq<Byte>, i: nat)
    requires Sized(msg) && i < |trains|
    ensures ReceivedAll(trains, msg)[i].address == trains[i].address
    ensures msg[0] !in {DCC_SET_LOCO_SPEED, DCC_SET_LOCO_FUNCTIONS} ==> ReceivedAll(trains, msg)[i] == trains[i]
    ensures msg[0] in {DCC_SET_LOCO_SPEED, DCC_SET_LOCO_FUNCTIONS} && trains[i].address != ValueOf(msg[1]) ==> ReceivedAll(trains, msg)[i] == trains[i]
  {
  }
}
