/**
 * SLIP framing of the ESP serial link (common/esp.h, common/esp_tx.c,
 * common/esp_rx.c): a frame is FRAME, the escaped packet bytes, FRAME.  FRAME
 * and ESC inside a packet are sent as ESC ESC_FRAME and ESC ESC_ESC.
 *
 * This module is the reference definition the incremental encoder
 * (EspTx.EncodeBytes) and the byte-at-a-time decoder (EspRxTask.RxByte) are
 * proved against.
 */
module EspFraming {
  import opened Machine

  const FRAME: Byte := 0xC0
  const ESC: Byte := 0xDB
  const ESC_FRAME: Byte := 0xDC
  const ESC_ESC: Byte := 0xDD

  /** The bytes sent for one packet byte. */
  function Escaped(b: Byte): seq<Byte>
  {
    if b == FRAME then [ESC, ESC_FRAME]
    else if b == ESC then [ESC, ESC_ESC]
    else [b]
  }

  /** The escaped body of a frame. */
  function Stuff(s: seq<Byte>): seq<Byte>
  {
    if s == [] then [] else Escaped(s[0]) + Stuff(s[1..])
  }

  /** A whole frame on the wire. */
  function Frame(s: seq<Byte>): seq<Byte>
  {
    [FRAME] + Stuff(s) + [FRAME]
  }

  /** The byte the receiver stores for a non-FRAME, non-ESC byte b that follows prev. */
  function Unescape(prev: Byte, b: Byte): (r: Byte)
    ensures prev != ESC ==> r == b
    ensures prev == ESC && b == ESC_FRAME ==> r == FRAME
    ensures prev == ESC && b == ESC_ESC ==> r == ESC
  {
    if prev != ESC then b
    else if b == ESC_FRAME then FRAME
    else if b == ESC_ESC then ESC
    else b
  }

  /** What the receiver decodes from one byte that is not FRAME. */
  function DecodeStep(prev: Byte, b: Byte): seq<Byte>
  {
    if b == ESC then [] else [Unescape(prev, b)]
  }

  /**
   * The bytes the receiver decodes from a run of wire bytes containing no
   * FRAME, starting with `prev` as the last byte seen (the receiver's RxByte).
   */
  function Decoded(prev: Byte, s: seq<Byte>): seq<Byte>
    decreases |s|
  {
    if s == [] then [] else DecodeStep(prev, s[0]) + Decoded(s[0], s[1..])
  }

  /** The receiver's RxByte after a run of wire bytes. */
  function LastByte(prev: Byte, s: seq<Byte>): Byte
  {
    if s == [] then prev else s[|s| - 1]
  }

  /** Decoding one more wire byte continues from the last byte seen. */
  lemma {:induction false} DecodedSnoc(prev: Byte, s: seq<Byte>, b: Byte)
    ensures Decoded(prev, s + [b]) == Decoded(prev, s) + DecodeStep(LastByte(prev, s), b)
    decreases |s|
  {
    if s != [] {
      assert (s + [b])[1..] == s[1..] + [b];
      DecodedSnoc(s[0], s[1..], b);
      assert LastByte(s[0], s[1..]) == LastByte(prev, s);
    } else {
      assert Decoded(b, []) == [];
    }
  }

  /** No FRAME byte appears inside an escaped body, so FRAME marks frame boundaries. */
  lemma {:induction false} NoFrameInStuff(s: seq<Byte>)
    ensures FRAME !in Stuff(s)
  {
    if s != [] {
      NoFrameInStuff(s[1..]);
      assert Stuff(s) == Escaped(s[0]) + Stuff(s[1..]);
    }
  }

  /** Decoding distributes over concatenation. */
  lemma {:induction false} DecodedAppend(prev: Byte, a: seq<Byte>, b: seq<Byte>)
    ensures Decoded(prev, a + b) == Decoded(prev, a) + Decoded(LastByte(prev, a), b)
    decreases |a|
  {
    if a == [] {
      assert a + b == b;
    } else {
      assert (a + b)[0] == a[0];
      assert (a + b)[1..] == a[1..] + b;
      DecodedAppend(a[0], a[1..], b);
      assert LastByte(a[0], a[1..]) == LastByte(prev, a);
    }
  }

  /** One escaped byte decodes back to itself and leaves the receiver out of the escaped state. */
  lemma DecodeEscaped(p: Byte, x: Byte)
    requires p != ESC
    ensures Decoded(p, Escaped(x)) == [x]
    ensures LastByte(p, Escaped(x)) != ESC
  {
    var e := Escaped(x);
    if x == FRAME || x == ESC {
      assert e[1..] == [e[1]];
      assert Decoded(e[1], []) == [];
      assert Decoded(ESC, e[1..]) == [x];
    } else {
      assert e[1..] == [];
    }
  }

  /** The decoder undoes the encoder: the bytes of a frame body decode to the packet. */
  lemma {:induction false} DecodeStuff(prev: Byte, s: seq<Byte>)
    requires prev != ESC
    ensures Decoded(prev, Stuff(s)) == s
    ensures LastByte(prev, Stuff(s)) != ESC
    decreases |s|
  {
    if s != [] {
      var e, rest := Escaped(s[0]), Stuff(s[1..]);
      assert Stuff(s) == e + rest;
      DecodeEscaped(prev, s[0]);
      var p := LastByte(prev, e);
      DecodeStuff(p, s[1..]);
      DecodedAppend(prev, e, rest);
      assert s == [s[0]] + s[1..];
      assert LastByte(prev, e + rest) == if rest == [] then p else LastByte(p, rest);
    }
  }

  /** The body grows by one escaped byte per packet byte. */
  lemma {:induction false} StuffSnoc(s: seq<Byte>, x: Byte)
    ensures Stuff(s + [x]) == Stuff(s) + Escaped(x)
    decreases |s|
  {
    if s == [] {
      assert [] + [x] == [x];
      assert [x][1..] == [];
    } else {
      assert (s + [x])[0] == s[0];
      assert (s + [x])[1..] == s[1..] + [x];
      StuffSnoc(s[1..], x);
    }
  }

  /** Round trip over a whole frame: strip the two FRAME bytes and decode. */
  lemma FrameRoundTrip(s: seq<Byte>)
    ensures var f := Frame(s);
      |f| >= 2 && f[0] == FRAME && f[|f| - 1] == FRAME
      && FRAME !in f[1..|f| - 1] && Decoded(FRAME, f[1..|f| - 1]) == s
  {
    var f := Frame(s);
    assert f[1..|f| - 1] == Stuff(s);
    NoFrameInStuff(s);
    DecodeStuff(FRAME, s);
  }
}
