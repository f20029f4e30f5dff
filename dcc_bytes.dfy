/**
 * The byte layouts of the DCC packets both command stations build
 * (samc21/dcc_packet.cpp, samc21/dcc.cpp, samd21/dcc.c), and a decoder for
 * them written from NMRA S-9.2 and S-9.2.1: every packet ends with an
 * error-detection byte that is the XOR of the bytes before it.
 */
module DccBytes {
  import opened Machine
  import opened Wrappers

  /** XOR of all the bytes. */
  function XorAll(s: seq<Byte>): Byte
    decreases |s|
  {
    if |s| == 0 then 0 else XorAll(s[..|s| - 1]) ^ s[|s| - 1]
  }

  /** A well-formed packet: at least an address and a check byte, and the XOR of all bytes is zero. */
  predicate Checked(p: seq<Byte>)
  {
    |p| >= 2 && XorAll(p) == 0
  }

  /** The instruction bytes followed by their error-detection byte. */
  function WithCheck(body: seq<Byte>): (p: seq<Byte>)
    requires |body| >= 1
    ensures |p| == |body| + 1 && p[..|body|] == body && Checked(p)
  {
    var p := body + [XorAll(body)];
    assert p[..|p| - 1] == body;
    p
  }

  /** What a decoder does first: strip the check byte of a well-formed packet. */
  function Body(p: seq<Byte>): (r: Option<seq<Byte>>)
    ensures r.Some? <==> Checked(p)
    ensures r.Some? ==> p == r.value + [p[|p| - 1]]
  {
    if Checked(p) then Some(p[..|p| - 1]) else None
  }

  lemma BodyWithCheck(body: seq<Byte>)
    requires |body| >= 1
    ensures Body(WithCheck(body)) == Some(body)
  {
  }

  /** Replacing one byte changes the XOR by the old byte and the new one. */
  lemma {:induction false} XorReplace(p: seq<Byte>, i: nat, v: Byte)
    requires i < |p|
    ensures XorAll(p[i := v]) == (XorAll(p) ^ p[i]) ^ v
    decreases |p|
  {
    var r, c := p[..|p| - 1], p[|p| - 1];
    if i == |r| {
      ReplaceLast(r, c, v);
    } else {
      XorReplace(r, i, v);
      ReplaceInner(r, c, i, v);
    }
    assert p == r + [c];
  }

  lemma ReplaceLast(r: seq<Byte>, c: Byte, v: Byte)
    ensures XorAll((r + [c])[|r| := v]) == (XorAll(r + [c]) ^ c) ^ v
  {
    assert (r + [c])[|r| := v] == r + [v];
    XorSnoc(r, c);
    XorSnoc(r, v);
    XorCancel(XorAll(r), c, v);
  }

  lemma ReplaceInner(r: seq<Byte>, c: Byte, i: nat, v: Byte)
    requires i < |r|
    requires XorAll(r[i := v]) == (XorAll(r) ^ r[i]) ^ v
    ensures XorAll((r + [c])[i := v]) == (XorAll(r + [c]) ^ r[i]) ^ v
  {
    assert (r + [c])[i := v] == r[i := v] + [c];
    XorSnoc(r, c);
    XorSnoc(r[i := v], c);
    XorSwap3(XorAll(r), r[i], v, c);
  }

  lemma XorSnoc(s: seq<Byte>, b: Byte)
    ensures XorAll(s + [b]) == XorAll(s) ^ b
  {
    assert (s + [b])[..|s|] == s;
  }

  lemma XorCancel(a: Byte, c: Byte, v: Byte)
    ensures a ^ v == ((a ^ c) ^ c) ^ v
  {
  }

  lemma XorSwap3(a: Byte, b: Byte, v: Byte, c: Byte)
    ensures ((a ^ b) ^ v) ^ c == ((a ^ c) ^ b) ^ v
  {
  }

  /** The check byte of a three-byte body, as the sources compute it. */
  lemma XorAll3(a: Byte, b: Byte, c: Byte)
    ensures XorAll([a, b, c]) == (a ^ b) ^ c
  {
    XorAll2(a, b);
    assert [a, b, c][..2] == [a, b];
  }

  /** The check byte of a two-byte body. */
  lemma XorAll2(a: Byte, b: Byte)
    ensures XorAll([a, b]) == a ^ b
  {
    assert [a][..0] == [];
    assert XorAll([a]) == a;
    assert [a, b][..1] == [a];
  }

  /** The check byte catches every error confined to one byte, in particular every single-bit error. */
  lemma SingleByteErrorDetected(p: seq<Byte>, i: nat, m: Byte)
    requires Checked(p) && i < |p| && m != 0
    ensures !Checked(p[i := p[i] ^ m])
  {
    XorReplace(p, i, p[i] ^ m);
    XorCancel(0, p[i], m);
  }

  // ---------------------------------------------------------------------
  // 128 speed step control (advanced operations, NMRA S-9.2.1 section 2.3.2.1)

  const SPEED128_INSTRUCTION: Byte := 0x3F

  /** A decoded 128-step speed instruction: `step` is the 7-bit speed field (0 stop, 1 emergency stop, n >= 2 step n - 1). */
  datatype Speed128 = Speed128(address: U8, forward: bool, step: nat)

  function DecodeSpeed128(p: seq<Byte>): (r: Option<Speed128>)
    ensures r.Some? ==> r.value.step < 128
  {
    if |p| == 4 && Checked(p) && p[1] == SPEED128_INSTRUCTION then
      Some(Speed128(ValueOf(p[0]), p[2] & 0x80 != 0, ValueOf(p[2] & 0x7F)))
    else None
  }

  /** DCC_SpeedPacket_t's bytes (samc21/dcc_packet.cpp): the speed byte is used as given. */
  function SpeedPacketBytes(address: U8, speed: U8, forward: bool): Byte4
  {
    var b2 := (if forward then 0x80 else 0x00) | ByteOf(speed);
    W4([ByteOf(address), SPEED128_INSTRUCTION, b2])
  }

  type Byte4 = p: seq<Byte> | |p| == 4 witness [0, 0, 0, 0]
  type Byte3 = p: seq<Byte> | |p| == 3 witness [0, 0, 0]

  function W4(body: seq<Byte>): (p: Byte4)
    requires |body| == 3
    ensures p[..3] == body && Checked(p)
  {
    WithCheck(body)
  }

  function W3(body: seq<Byte>): (p: Byte3)
    requires |body| == 2
    ensures p[..2] == body && Checked(p)
  {
    WithCheck(body)
  }

  lemma Bits7(s: U8, fwd: bool)
    requires s < 128
    ensures var b := (if fwd then 0x80 else 0x00) | ByteOf(s);
      (b & 0x80 != 0) == fwd && ValueOf(b & 0x7F) == s
  {
    var x := ByteOf(s);
    assert x & 0x80 == 0 && x & 0x7F == x by {
      assert x < 0x80;
    }
    ByteRoundTrip(s);
  }

  /** A speed below 128 is carried exactly; the direction is bit 7. */
  lemma SpeedPacketDecodes(address: U8, speed: U8, forward: bool)
    requires speed < 128
    ensures DecodeSpeed128(SpeedPacketBytes(address, speed, forward)) == Some(Speed128(address, forward, speed))
  {
    var p := SpeedPacketBytes(address, speed, forward);
    Bits7(speed, forward);
    ByteRoundTrip(address);
  }

  /** The speed bytes of DCC_SpeedPacket's constructor (samc21/dcc.cpp) as written: one is added to every speed. */
  function SpeedPacketBytesAsWritten(address: U8, speed: U8, forward: bool): Byte4
  {
    SpeedPacketBytes(address, ToU8(speed + 1), forward)
  }

  /** A stop request (speed 0) goes out as an emergency stop. */
  lemma StopSentAsEmergencyStop(address: U8, forward: bool)
    ensures DecodeSpeed128(SpeedPacketBytesAsWritten(address, 0, forward)) == Some(Speed128(address, forward, 1))
  {
    SpeedPacketDecodes(address, 1, forward);
  }

  /** The speed bytes with the emergency-stop code skipped only for non-zero speeds, as the comment intends. */
  function SpeedPacketBytesSkipEStop(address: U8, speed: U8, forward: bool): Byte4
  {
    SpeedPacketBytes(address, if speed > 0 then ToU8(speed + 1) else 0, forward)
  }

  /** Speed 0 is a stop, 1..126 are steps 2..127, and the emergency stop is never produced. */
  lemma SkipEStopDecodes(address: U8, speed: U8, forward: bool)
    requires speed <= 126
    ensures var r := DecodeSpeed128(SpeedPacketBytesSkipEStop(address, speed, forward));
      r.Some? && r.value.address == address && r.value.forward == forward &&
      r.value.step == (if speed == 0 then 0 else speed + 1) && r.value.step != 1
  {
    SpeedPacketDecodes(address, if speed > 0 then speed + 1 else 0, forward);
  }

  /**
   * DCC_SetLocomotiveSpeed128 (samd21/dcc.c): a signed int8_t speed, negative
   * for reverse; the magnitude is negated and incremented in int8_t.
   */
  function Speed128Bytes(address: U8, speed: I8): (r: Byte4)
    ensures Checked(r) && r[0] == ByteOf(address) && r[1] == SPEED128_INSTRUCTION
    ensures -126 <= speed ==> (r[2] & 0x80 == 0x80 <==> speed >= 0)
    ensures speed == 127 ==> r[2] == 0x80
  {
    var fwd := speed >= 0;
    var mag := if speed < 0 then ToI8(-(speed as int)) else speed;
    var mag' := if mag > 0 then ToI8(mag + 1) else mag;
    var b2 := (if fwd then 0x80 else 0x00) | ByteOf(ToU8(mag'));
    assert -126 <= speed ==> (b2 & 0x80 == 0x80 <==> fwd) by {
      if speed == 127 {
        assert ToU8(mag') == 0x80;
      } else if -126 <= speed {
        assert 0 <= mag <= 126;
        assert 0 <= mag' <= 127;
        Bits7(ToU8(mag'), fwd);
      }
    }
    assert speed == 127 ==> b2 == 0x80 by {
      if speed == 127 {
        assert ToU8(mag') == 0x80;
      }
    }
    W4([ByteOf(address), SPEED128_INSTRUCTION, b2])
  }

  /** For speeds -126..126 the sign is the direction and the magnitude skips the emergency-stop code. */
  lemma Speed128Decodes(address: U8, speed: I8)
    requires -126 <= speed <= 126
    ensures var m := if speed < 0 then -speed else speed;
      DecodeSpeed128(Speed128Bytes(address, speed)) == Some(Speed128(address, speed >= 0, if m > 0 then m + 1 else 0))
  {
    var m := if speed < 0 then -speed else speed;
    SpeedPacketDecodes(address, if m > 0 then m + 1 else 0, speed >= 0);
  }

  // ---------------------------------------------------------------------
  // 28 speed step control (baseline speed and direction, NMRA S-9.2)

  /** A decoded baseline speed and direction instruction: 01DCSSSS, where the 5-bit code is SSSS then C. */
  datatype Speed28 = Speed28(address: U8, forward: bool, code: nat)

  function DecodeSpeed28(p: seq<Byte>): (r: Option<Speed28>)
    ensures r.Some? ==> r.value.code < 32
  {
    if |p| == 3 && Checked(p) && p[1] & 0xC0 == 0x40 then
      Some(Speed28(ValueOf(p[0]), p[1] & 0x20 != 0, ValueOf(p[1] & 0x0F) * 2 + ValueOf((p[1] >> 4) & 1)))
    else None
  }

  /** The step a 5-bit code means: 0 and 1 stop, 2 and 3 emergency stop, 4..31 steps 1..28. */
  function Step28(code: nat): int
  {
    if code < 2 then 0 else if code < 4 then -1 else code - 3
  }

  /** The code bits of a speed value: `(s >> 1) | ((s & 1) << 4)`. */
  function CodeBits(s: U8): Byte
  {
    (ByteOf(s) >> 1) | ((ByteOf(s) & 1) << 4)
  }

  lemma CodeBitsDecode(s: U8, b: Byte)
    requires s < 32 && (b == 0x40 || b == 0x60)
    ensures (b | CodeBits(s)) & 0xC0 == 0x40
    ensures ((b | CodeBits(s)) & 0x20 != 0) == (b == 0x60)
    ensures ValueOf((b | CodeBits(s)) & 0x0F) * 2 + ValueOf(((b | CodeBits(s)) >> 4) & 1) == s
  {
    var x := ByteOf(s);
    assert x < 32;
    ByteRoundTrip(s);
    assert ValueOf(x >> 1) * 2 + ValueOf(x & 1) == s;
    if b == 0x40 {
      assert (b | CodeBits(s)) & 0x0F == x >> 1 && ((b | CodeBits(s)) >> 4) & 1 == x & 1 && (b | CodeBits(s)) & 0x20 == 0;
    } else {
      assert (b | CodeBits(s)) & 0x0F == x >> 1 && ((b | CodeBits(s)) >> 4) & 1 == x & 1 && (b | CodeBits(s)) & 0x20 != 0;
    }
  }

  /**
   * DCC_SetLocomotiveSpeed28 (samd21/dcc.c) as written: byte 1 starts as
   * 0x40 and the forward branch ORs 0x40 in again, and a non-zero magnitude
   * is incremented once.
   */
  function Speed28BytesAsWritten(address: U8, speed: I8): (r: Byte3)
    ensures Checked(r) && r[0] == ByteOf(address) && r[1] & 0x40 == 0x40
  {
    var mag := if speed < 0 then ToI8(-(speed as int)) else speed;
    var mag' := if mag > 0 then ToI8(mag + 1) else mag;
    W3([ByteOf(address), 0x40 | SignedCodeBits(mag')])
  }

  /**
   * `(Speed >> 1) | ((Speed & 0x01) << 4)` on an int8_t, truncated to a byte:
   * the shift is arithmetic, so a negative speed (only -128 reaches here)
   * keeps its sign bits.
   */
  function SignedCodeBits(s: I8): (r: Byte)
    ensures s >= 0 ==> r == CodeBits(s)
  {
    if s >= 0 then CodeBits(s)
    else ByteOf(ToU8(s / 2)) | ((ByteOf(ToU8(s)) & 1) << 4)
  }

  /**
   * Speeds 127, -127 and -128 become -128 once the magnitude is taken and
   * stepped past 1, and the arithmetic shift sets both top bits of byte 1:
   * the byte is 0xC0, an instruction of kind 110 rather than a speed.
   */
  lemma Speed28AsWrittenTopSpeeds(address: U8)
    ensures Speed28BytesAsWritten(address, 127)[1] == 0xC0
    ensures Speed28BytesAsWritten(address, -127)[1] == 0xC0
    ensures Speed28BytesAsWritten(address, -128)[1] == 0xC0
    ensures DecodeSpeed28(Speed28BytesAsWritten(address, 127)).None?
  {
    assert ToU8(-128 / 2) == 0xC0;
    assert ByteOf(0xC0) == 0xC0;
  }

  /** Forward speed 5 decodes as reverse. */
  lemma Speed28AsWrittenLosesDirection(address: U8)
    ensures var r := DecodeSpeed28(Speed28BytesAsWritten(address, 5)); r.Some? && !r.value.forward
  {
    CodeBitsDecode(6, 0x40);
  }

  /** Step 1 (forward or reverse) decodes as an emergency stop. */
  lemma Speed28AsWrittenStepOneIsEStop(address: U8)
    ensures var r := DecodeSpeed28(Speed28BytesAsWritten(address, 1)); r.Some? && Step28(r.value.code) == -1
    ensures var r := DecodeSpeed28(Speed28BytesAsWritten(address, -1)); r.Some? && Step28(r.value.code) == -1
  {
    CodeBitsDecode(2, 0x40);
  }

  /** The baseline instruction as the comments describe it: 011 for forward, 010 for reverse, steps 1..28 as codes 4..31. */
  function Speed28Bytes(address: U8, speed: I8): Byte3
    requires -28 <= speed <= 28
  {
    var mag := if speed < 0 then -speed else speed;
    var code := if mag > 0 then mag + 3 else 0;
    W3([ByteOf(address), (if speed >= 0 then 0x60 else 0x40) | CodeBits(code)])
  }

  lemma Speed28Decodes(address: U8, speed: I8)
    requires -28 <= speed <= 28
    ensures var r := DecodeSpeed28(Speed28Bytes(address, speed));
      r.Some? && r.value.address == address && r.value.forward == (speed >= 0) &&
      Step28(r.value.code) == (if speed < 0 then -speed else speed)
  {
    var mag := if speed < 0 then -speed else speed;
    CodeBitsDecode(if mag > 0 then mag + 3 else 0, if speed >= 0 then 0x60 else 0x40);
    ByteRoundTrip(address);
  }

  // ---------------------------------------------------------------------
  // Function group instructions (NMRA S-9.2.1 sections 2.3.4 and 2.3.6.5)

  /** Which functions a function packet carries. */
  datatype Group = FL_F4 | F5_F8 | F9_F12

  /** Function group one/two: 100DDDDD for FL and F1-F4, 1011DDDD for F5-F8, 1010DDDD for F9-F12. */
  function FunctionBytes(address: U8, functions: U8, group: Group): (r: Byte3)
    ensures Checked(r) && r[0] == ByteOf(address) && r[1] & 0x80 == 0x80
    ensures group == FL_F4 ==> r[1] & 0x1F == ByteOf(functions) & 0x1F
    ensures group != FL_F4 ==> r[1] & 0x0F == ByteOf(functions) & 0x0F
  {
    var f := ByteOf(functions);
    var b1 := match group
      case FL_F4 => 0x80 | (f & 0x1F)
      case F5_F8 => 0xB0 | (f & 0x0F)
      case F9_F12 => 0xA0 | (f & 0x0F);
    W3([ByteOf(address), b1])
  }

  /** The mask of byte 1 that identifies the group (DCC_FunctionPacket's Mask). */
  function GroupMask(group: Group): Byte
  {
    if group == FL_F4 then 0xE0 else 0xF0
  }

  /** A decoded function group instruction. */
  datatype Functions = Functions(address: U8, group: Group, bits: Byte)

  function DecodeFunctions(p: seq<Byte>): Option<Functions>
  {
    if |p| == 3 && Checked(p) then
      if p[1] & 0xE0 == 0x80 then Some(Functions(ValueOf(p[0]), FL_F4, p[1] & 0x1F))
      else if p[1] & 0xF0 == 0xB0 then Some(Functions(ValueOf(p[0]), F5_F8, p[1] & 0x0F))
      else if p[1] & 0xF0 == 0xA0 then Some(Functions(ValueOf(p[0]), F9_F12, p[1] & 0x0F))
      else None
    else None
  }

  /** The group and the function bits it carries come back out; the other bits of the argument are dropped. */
  lemma FunctionBytesDecode(address: U8, functions: U8, group: Group)
    ensures DecodeFunctions(FunctionBytes(address, functions, group)) ==
      Some(Functions(address, group, ByteOf(functions) & (if group == FL_F4 then 0x1F else 0x0F)))
    ensures FunctionBytes(address, functions, group)[1] & GroupMask(group) == (match group case FL_F4 => 0x80 case F5_F8 => 0xB0 case F9_F12 => 0xA0)
  {
    ByteRoundTrip(address);
  }

  /** Feature expansion opcodes: 0xDE for F13-F20, 0xDF for F21-F28, 0xD8 for F29-F36. */
  datatype ExpansionGroup = F13_F20 | F21_F28 | F29_F36

  function ExpansionOpcode(g: ExpansionGroup): Byte
  {
    match g
    case F13_F20 => 0xDE
    case F21_F28 => 0xDF
    case F29_F36 => 0xD8
  }

  /** DCC_FunctionExpansionPacket_t's bytes: the eight function bits follow the opcode unchanged. */
  function ExpansionBytes(address: U8, functions: U8, g: ExpansionGroup): (p: Byte4)
    ensures Checked(p) && p[1] == ExpansionOpcode(g) && ValueOf(p[2]) == functions && ValueOf(p[0]) == address
  {
    ByteRoundTrip(address);
    ByteRoundTrip(functions);
    W4([ByteOf(address), ExpansionOpcode(g), ByteOf(functions)])
  }

  lemma ExpansionOpcodesDistinct(g: ExpansionGroup, h: ExpansionGroup)
    ensures ExpansionOpcode(g) == ExpansionOpcode(h) <==> g == h
  {
  }

  /** The idle packet {FF 00 FF} and the reset packet {00 00 00}. */
  const IDLE_BYTES: seq<Byte> := [0xFF, 0x00, 0xFF]
  const RESET_BYTES: seq<Byte> := [0x00, 0x00, 0x00]

  lemma IdleAndResetChecked()
    ensures Checked(IDLE_BYTES) && Checked(RESET_BYTES)
    ensures Body(IDLE_BYTES) == Some([0xFF, 0x00]) && Body(RESET_BYTES) == Some([0x00, 0x00])
  {
    assert IDLE_BYTES[..2] == [0xFF, 0x00] && IDLE_BYTES[..2][..1] == [0xFF] && [0xFF][..0] == [];
    assert XorAll([0xFF]) == 0xFF && XorAll([0xFF, 0x00]) == 0xFF;
    assert RESET_BYTES[..2] == [0x00, 0x00] && RESET_BYTES[..2][..1] == [0x00] && [0x00][..0] == [];
    assert XorAll([0x00]) == 0x00 && XorAll([0x00, 0x00]) == 0x00;
  }

  // ---------------------------------------------------------------------
  // Service mode direct CV addressing (NMRA S-9.2.3 section E)

  /** The 10-bit CV address of CV number `cvId` (CV #1 is address 0), computed in uint16_t. */
  function CvAddress(cvId: U16): U16
  {
    ToU16(cvId - 1)
  }

  /** A decoded direct-mode instruction: 0111CCAA AAAAAAAA DDDDDDDD. */
  datatype DirectCv = DirectCv(kind: nat, cv: nat, data: Byte)

  function DecodeDirect(p: seq<Byte>): Option<DirectCv>
  {
    if |p| == 4 && Checked(p) && p[0] & 0xF0 == 0x70 then
      Some(DirectCv(ValueOf((p[0] >> 2) & 3), ValueOf(p[0] & 3) * 256 + ValueOf(p[1]) + 1, p[2]))
    else None
  }

  const WRITE_BYTE := 3
  const VERIFY_BYTE := 1
  const BIT_MANIPULATION := 2

  /** DCC_CvWritePacket_t's bytes (samc21/dcc_packet.cpp): the high address bits are masked to two. */
  function CvWriteBytes(cvId: U16, value: U8): Byte4
  {
    var a := CvAddress(cvId);
    W4([0x7C | (ByteOf(a / 256) & 0x03), ByteOf(a % 256), ByteOf(value)])
  }

  lemma AddressBytes(a: U16)
    requires a < 1024
    ensures ValueOf(ByteOf(a / 256) & 3) == a / 256 && ValueOf(ByteOf(a % 256)) == a % 256
  {
    ByteRoundTrip(a / 256);
    ByteRoundTrip(a % 256);
    var hi := ByteOf(a / 256);
    assert hi < 4;
    assert hi & 3 == hi;
  }

  /** Every CV from 1 to 1024 is addressed exactly, with the write-byte instruction and the value. */
  lemma CvWriteDecodes(cvId: U16, value: U8)
    requires 1 <= cvId <= 1024
    ensures DecodeDirect(CvWriteBytes(cvId, value)) == Some(DirectCv(WRITE_BYTE, cvId, ByteOf(value)))
  {
    var a := CvAddress(cvId);
    var hi := ByteOf(a / 256) & 0x03;
    var p := CvWriteBytes(cvId, value);
    assert p[0] == 0x7C | hi && p[1] == ByteOf(a % 256) && p[2] == ByteOf(value);
    AddressBytes(a);
    AddressSum(a, cvId);
    DecodesTo(p, 0x7C, hi, ByteOf(a % 256), cvId);
    assert ValueOf((0x7C >> 2) & 3) == WRITE_BYTE;
  }


  /** The ten address bits put back together give the CV number. */
  lemma AddressSum(a: U16, cvId: U16)
    requires 1 <= cvId <= 1024 && a == CvAddress(cvId)
    ensures a / 256 * 256 + a % 256 + 1 == cvId
  {
  }

  /** The CV write bytes of DCC_DirectWriteByte (samd21/dcc.c, samc21/dcc.cpp): the high address bits are not masked. */
  function DirectWriteBytes(cvId: U16, value: U8): (r: Byte4)
    ensures Checked(r) && r[0] & 0x7C == 0x7C && r[1] == ByteOf(CvAddress(cvId) % 256) && r[2] == ByteOf(value)
  {
    var a := CvAddress(cvId);
    W4([0x7C | ByteOf(ToU8(a / 256)), ByteOf(a % 256), ByteOf(value)])
  }

  /** DCC_DirectVerifyByte's bytes: the verify-byte instruction 0111 01AA. */
  function DirectVerifyBytes(cvId: U16, value: U8): (r: Byte4)
    ensures Checked(r) && r[0] & 0x74 == 0x74 && r[1] == ByteOf(CvAddress(cvId) % 256) && r[2] == ByteOf(value)
  {
    var a := CvAddress(cvId);
    W4([0x74 | ByteOf(ToU8(a / 256)), ByteOf(a % 256), ByteOf(value)])
  }

  /** The unmasked high address byte of a CV address below 1024 is the two bits the masked one keeps. */
  lemma HighBits(a: U16)
    requires a < 1024
    ensures ByteOf(ToU8(a / 256)) == ByteOf(a / 256) & 3 && ByteOf(a / 256) < 4
  {
    var hi := ByteOf(a / 256);
    assert hi < 4;
  }

  /** An instruction byte 0111CC00 ORed with two address bits. */
  lemma InstructionBits(op: Byte, hi: Byte)
    requires op & 0xF3 == 0x70 && hi < 4
    ensures (op | hi) & 0xF0 == 0x70 && ((op | hi) >> 2) & 3 == (op >> 2) & 3 && (op | hi) & 3 == hi
  {
  }

  /** Direct-mode bytes 0111CCAA AAAAAAAA DDDDDDDD with their check byte decode to CC, the ten address bits plus one, and DD. */
  lemma DecodesTo(p: seq<Byte>, op: Byte, hi: Byte, lo: Byte, cvId: nat)
    requires |p| == 4 && Checked(p) && p[0] == op | hi && p[1] == lo
    requires op & 0xF3 == 0x70 && hi < 4 && ValueOf(hi) * 256 + ValueOf(lo) + 1 == cvId
    ensures DecodeDirect(p) == Some(DirectCv(ValueOf((op >> 2) & 3), cvId, p[2]))
  {
    InstructionBits(op, hi);
  }

  lemma DirectWriteDecodes(cvId: U16, value: U8)
    requires 1 <= cvId <= 1024
    ensures DecodeDirect(DirectWriteBytes(cvId, value)) == Some(DirectCv(WRITE_BYTE, cvId, ByteOf(value)))
  {
    var a := CvAddress(cvId);
    var hi := ByteOf(a / 256) & 0x03;
    var p := DirectWriteBytes(cvId, value);
    HighBits(a);
    assert p[0] == 0x7C | hi && p[1] == ByteOf(a % 256) && p[2] == ByteOf(value);
    AddressBytes(a);
    AddressSum(a, cvId);
    DecodesTo(p, 0x7C, hi, ByteOf(a % 256), cvId);
    assert ValueOf((0x7C >> 2) & 3) == WRITE_BYTE;
  }


  lemma DirectVerifyDecodes(cvId: U16, value: U8)
    requires 1 <= cvId <= 1024
    ensures DecodeDirect(DirectVerifyBytes(cvId, value)) == Some(DirectCv(VERIFY_BYTE, cvId, ByteOf(value)))
  {
    var a := CvAddress(cvId);
    var hi := ByteOf(a / 256) & 0x03;
    var p := DirectVerifyBytes(cvId, value);
    HighBits(a);
    assert p[0] == 0x74 | hi && p[1] == ByteOf(a % 256) && p[2] == ByteOf(value);
    AddressBytes(a);
    AddressSum(a, cvId);
    DecodesTo(p, 0x74, hi, ByteOf(a % 256), cvId);
    assert ValueOf((0x74 >> 2) & 3) == VERIFY_BYTE;
  }


  /** CV 0 is not guarded: its address wraps to 0xFFFF and the unmasked high byte overwrites the instruction bits. */
  lemma DirectWriteCvZero(value: U8)
    ensures DirectWriteBytes(0, value)[0] == 0xFF && CvWriteBytes(0, value)[0] == 0x7F
  {
    assert CvAddress(0) == 0xFFFF;
    assert ToU8(0xFFFF / 256) == 0xFF;
  }

  /**
   * DCC_CvReadPacket_t's bytes for testing bit `bit`: a bit-manipulation
   * verify (111KDBBB with K = 0, D = 1) of that bit position.
   */
  function CvReadBytes(cvId: U16, bit: nat): (r: Byte4)
    requires bit < 8
    ensures Checked(r) && r[..2] == CvReadHead(cvId) && r[2] & 0xF8 == 0xE8 && r[2] & 0x07 == ByteOf(bit)
  {
    W4(CvReadHead(cvId) + [0xE8 | ByteOf(bit)])
  }

  /** The two address bytes every CV read packet starts with: 0111 10AA AAAAAAAA, the high byte not masked. */
  function CvReadHead(cvId: U16): (h: seq<Byte>)
    ensures |h| == 2
  {
    var a := CvAddress(cvId);
    [0x78 | ByteOf(ToU8(a / 256)), ByteOf(a % 256)]
  }

  lemma CvReadDecodes(cvId: U16, bit: nat)
    requires 1 <= cvId <= 1024 && bit < 8
    ensures var r := DecodeDirect(CvReadBytes(cvId, bit));
      r.Some? && r.value.kind == BIT_MANIPULATION && r.value.cv == cvId &&
      r.value.data & 0xF0 == 0xE0 && r.value.data & 0x08 != 0 && ValueOf(r.value.data & 0x07) == bit
  {
    var a := CvAddress(cvId);
    var hi := ByteOf(a / 256) & 0x03;
    var p := CvReadBytes(cvId, bit);
    HighBits(a);
    assert p[0] == 0x78 | hi && p[1] == ByteOf(a % 256) && p[2] == 0xE8 | ByteOf(bit);
    AddressBytes(a);
    AddressSum(a, cvId);
    DecodesTo(p, 0x78, hi, ByteOf(a % 256), cvId);
    assert ValueOf((0x78 >> 2) & 3) == BIT_MANIPULATION;
    BitOperand(bit);
  }

  /** The operand 111KDBBB of a verify-bit read: K = 0 (verify), D = 1, and the bit position in its low three bits. */
  lemma BitOperand(bit: nat)
    requires bit < 8
    ensures var d := 0xE8 | ByteOf(bit); d & 0xF0 == 0xE0 && d & 0x08 != 0 && ValueOf(d & 0x07) == bit
  {
    ByteRoundTrip(bit);
    var b := ByteOf(bit);
    assert b < 8;
    assert (0xE8 | b) & 0x07 == b && (0xE8 | b) & 0xF0 == 0xE0 && (0xE8 | b) & 0x08 != 0;
  }
}
