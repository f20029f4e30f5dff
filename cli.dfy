/**
 * The serial command line of samc21/cli.c. Characters arrive one at a
 * time (CLI_InputChar): printable ones are echoed and kept in a 64-byte
 * ring buffer, DEL takes the last one back, and carriage return ends the
 * line, which is split on spaces (CLI_ParseLine) and dispatched by its
 * first word, ignoring case, to one of the commands of CLI_CommandTable.
 *
 * Debug_PutChar's characters, the calls the commands make into the DCC
 * layer and the messages Debug_PrintF prints are recorded in order.
 */
module Cli {
  import opened Machine
  import opened Wrappers
  import Buffer
  import DccBytes

  const CR: Byte := 0x0D
  const LF: Byte := 0x0A
  const DEL: Byte := 0x7F
  const BELL: Byte := 0x07
  const SPACE: Byte := 0x20
  const MINUS: Byte := 0x2D
  const PLUS: Byte := 0x2B
  const ZERO: Byte := 0x30

  /** sizeof(CLI_Buffer.Buffer); one slot is kept free, so a line holds 63 characters. */
  const LINE_SIZE: nat := 64
  /** The slots of argv in CLI_ParseLine. */
  const ARGV_SLOTS: nat := 10

  /** isprint in the C locale. */
  predicate Printable(c: Byte)
  {
    0x20 <= c <= 0x7E
  }

  predicate AllPrintable(s: seq<Byte>)
  {
    forall i :: 0 <= i < |s| ==> Printable(s[i])
  }

  // ---------------------------------------------------------------------
  // The C string in the buffer

  /** The characters of a NUL-terminated buffer before its first NUL. */
  function CString(s: seq<Byte>): (t: seq<Byte>)
    ensures |t| <= |s| && t == s[..|t|]
    ensures |t| < |s| ==> s[|t|] == 0
    ensures forall i :: 0 <= i < |t| ==> t[i] != 0
  {
    if s == [] || s[0] == 0 then [] else [s[0]] + CString(s[1..])
  }

  /** A line of printable characters followed by its NUL reads back as that line. */
  lemma CStringOfLine(s: seq<Byte>, k: nat)
    requires k < |s| && s[k] == 0 && AllPrintable(s[..k])
    ensures CString(s) == s[..k]
  {
    forall i | 0 <= i < k
      ensures s[i] != 0
    {
      assert s[..k][i] == s[i];
    }
  }

  // ---------------------------------------------------------------------
  // Words: strtok_r with the delimiter " "

  /** A token: at least one character and no space. */
  predicate Word(w: seq<Byte>)
  {
    |w| > 0 && forall i :: 0 <= i < |w| ==> w[i] != SPACE
  }

  /** The length of the run of non-spaces at the front of s. */
  function WordEnd(s: seq<Byte>): (k: nat)
    ensures k <= |s| && (k < |s| ==> s[k] == SPACE)
    ensures forall i :: 0 <= i < k ==> s[i] != SPACE
  {
    if s == [] || s[0] == SPACE then 0 else 1 + WordEnd(s[1..])
  }

  /** The tokens successive strtok_r calls return: the maximal runs of non-spaces, in order. */
  function Tokens(s: seq<Byte>): (ws: seq<seq<Byte>>)
    ensures forall w | w in ws :: Word(w)
    decreases |s|
  {
    if s == [] then []
    else if s[0] == SPACE then Tokens(s[1..])
    else
      var k := WordEnd(s);
      [s[..k]] + Tokens(s[k..])
  }

  /** Words written out with one space between each pair. */
  function Unwords(ws: seq<seq<Byte>>): seq<Byte>
  {
    if |ws| == 0 then []
    else if |ws| == 1 then ws[0]
    else ws[0] + [SPACE] + Unwords(ws[1..])
  }

  lemma {:induction false} WordEndOf(w: seq<Byte>, rest: seq<Byte>)
    requires forall i :: 0 <= i < |w| ==> w[i] != SPACE
    requires rest == [] || rest[0] == SPACE
    ensures WordEnd(w + rest) == |w|
  {
    if w != [] {
      assert (w + rest)[1..] == w[1..] + rest;
      WordEndOf(w[1..], rest);
    }
  }

  /** Splitting words joined by single spaces gives the words back. */
  lemma {:induction false} TokensUnwords(ws: seq<seq<Byte>>)
    requires forall i :: 0 <= i < |ws| ==> Word(ws[i])
    ensures Tokens(Unwords(ws)) == ws
  {
    if |ws| > 1 {
      assert forall i :: 0 <= i < |ws| - 1 ==> ws[1..][i] == ws[i + 1];
      TokensUnwords(ws[1..]);
      TokensUnwordsStep(ws);
    } else if |ws| == 1 {
      TokensWordThen(ws[0], []);
      assert ws[0] + [] == ws[0];
    }
  }

  lemma TokensUnwordsStep(ws: seq<seq<Byte>>)
    requires |ws| > 1 && Word(ws[0])
    requires Tokens(Unwords(ws[1..])) == ws[1..]
    ensures Tokens(Unwords(ws)) == ws
  {
    var u := Unwords(ws[1..]);
    assert Unwords(ws) == ws[0] + ([SPACE] + u);
    TokensWordSpace(ws[0], u, ws[1..]);
    assert [ws[0]] + ws[1..] == ws;
  }

  lemma TokensWordSpace(w: seq<Byte>, u: seq<Byte>, us: seq<seq<Byte>>)
    requires Word(w) && Tokens(u) == us
    ensures Tokens(w + ([SPACE] + u)) == [w] + us
  {
    var rest := [SPACE] + u;
    TokensWordThen(w, rest);
    assert rest[1..] == u;
  }

  /** A word followed by a space or by nothing is the first token. */
  lemma TokensWordThen(w: seq<Byte>, rest: seq<Byte>)
    requires Word(w) && (rest == [] || rest[0] == SPACE)
    ensures Tokens(w + rest) == [w] + Tokens(rest)
  {
    var s := w + rest;
    WordEndOf(w, rest);
    assert s[0] == w[0];
    assert s[..|w|] == w && s[|w|..] == rest;
  }

  lemma TokensSkip(s: seq<Byte>, i: nat)
    requires i < |s| && s[i] == SPACE
    ensures Tokens(s[i..]) == Tokens(s[i + 1..])
  {
    assert s[i..][1..] == s[i + 1..];
  }

  lemma TokensTake(s: seq<Byte>, i: nat, j: nat)
    requires i < j <= |s| && (j < |s| ==> s[j] == SPACE)
    requires forall k :: i <= k < j ==> s[k] != SPACE
    ensures Tokens(s[i..]) == [s[i..j]] + Tokens(s[j..])
  {
    var u := s[i..];
    assert u == s[i..j] + s[j..];
    WordEndOf(s[i..j], s[j..]);
    assert u[..j - i] == s[i..j] && u[j - i..] == s[j..];
  }

  /** What CLI_ParseLine keeps of a line: its first ARGV_SLOTS tokens. */
  function Argv(text: seq<Byte>): (argv: seq<seq<Byte>>)
    ensures |argv| <= ARGV_SLOTS
    ensures argv <= Tokens(text)
    ensures |Tokens(text)| <= ARGV_SLOTS ==> argv == Tokens(text)
  {
    var ws := Tokens(text);
    if |ws| <= ARGV_SLOTS then ws else ws[..ARGV_SLOTS]
  }

  /**
   * The strtok_r loop of CLI_ParseLine over the NUL-terminated buffer,
   * stopping once argv is full.
   */
  method Tokenise(s: seq<Byte>) returns (argv: seq<seq<Byte>>)
    ensures argv == Argv(CString(s))
  {
    var text := CString(s);
    argv := [];
    var i := 0;
    while i < |text| && |argv| < ARGV_SLOTS
      invariant i <= |text| && |argv| <= ARGV_SLOTS
      invariant argv + Tokens(text[i..]) == Tokens(text)
      decreases |text| - i
    {
      if text[i] == SPACE {
        TokensSkip(text, i);
        i := i + 1;
      } else {
        var j := WordAt(text, i);
        TokensTake(text, i, j);
        argv := argv + [text[i..j]];
        i := j;
      }
    }
    TokensStop(text, argv, i);
  }

  /** The end of the token that starts at i: the next space or the end of the string. */
  method WordAt(text: seq<Byte>, i: nat) returns (j: nat)
    requires i < |text| && text[i] != SPACE
    ensures i < j <= |text| && (j < |text| ==> text[j] == SPACE)
    ensures forall k :: i <= k < j ==> text[k] != SPACE
  {
    j := i + 1;
    while j < |text| && text[j] != SPACE
      invariant i < j <= |text|
      invariant forall k :: i <= k < j ==> text[k] != SPACE
    {
      j := j + 1;
    }
  }

  /** Where the loop of Tokenise stops, argv holds the first tokens, as many as fit. */
  lemma TokensStop(text: seq<Byte>, argv: seq<seq<Byte>>, i: nat)
    requires i <= |text| && |argv| <= ARGV_SLOTS
    requires argv + Tokens(text[i..]) == Tokens(text)
    requires i == |text| || |argv| == ARGV_SLOTS
    ensures argv == Argv(text)
  {
    if i == |text| {
      assert text[i..] == [];
    } else {
      assert Tokens(text)[..ARGV_SLOTS] == argv;
    }
  }

  // ---------------------------------------------------------------------
  // The command table and strcasecmp

  /** The commands of CLI_CommandTable. */
  datatype Command = Cv | Speed | Lights | ControlLoco

  /** CLI_CommandTable, in order, up to its terminating entry. */
  const TABLE: seq<Command> := [Cv, Speed, Lights, ControlLoco]

  /** The names in the table: "CV", "SP", "LI" and "SCL". */
  function Name(c: Command): (n: seq<Byte>)
    ensures forall i :: 0 <= i < |n| ==> 0x41 <= n[i] <= 0x5A
  {
    match c
    case Cv => [0x43, 0x56]
    case Speed => [0x53, 0x50]
    case Lights => [0x4C, 0x49]
    case ControlLoco => [0x53, 0x43, 0x4C]
  }

  /** tolower on an ASCII character. */
  function Lower(b: Byte): Byte
  {
    if 0x41 <= b <= 0x5A then b + 0x20 else b
  }

  /** toupper on an ASCII character. */
  function UpperChar(b: Byte): Byte
  {
    if 0x61 <= b <= 0x7A then b - 0x20 else b
  }

  function Upper(w: seq<Byte>): (u: seq<Byte>)
    ensures |u| == |w|
  {
    seq(|w|, i requires 0 <= i < |w| => UpperChar(w[i]))
  }

  /** strcasecmp(a, b) == 0 */
  predicate SameIgnoringCase(a: seq<Byte>, b: seq<Byte>)
  {
    |a| == |b| && forall i :: 0 <= i < |a| ==> Lower(a[i]) == Lower(b[i])
  }

  /** The first command in the table whose name matches. */
  function FindIn(t: seq<Command>, name: seq<Byte>): (r: Option<Command>)
    ensures r.Some? ==> r.value in t && SameIgnoringCase(Name(r.value), name)
    ensures r.None? ==> forall c :: c in t ==> !SameIgnoringCase(Name(c), name)
  {
    if t == [] then None
    else if SameIgnoringCase(Name(t[0]), name) then Some(t[0])
    else FindIn(t[1..], name)
  }

  function Find(name: seq<Byte>): (r: Option<Command>)
    ensures r.Some? ==> SameIgnoringCase(Name(r.value), name)
    ensures r.None? ==> forall c: Command :: !SameIgnoringCase(Name(c), name)
  {
    FindIn(TABLE, name)
  }

  lemma CharMatch(n: Byte, x: Byte)
    requires 0x41 <= n <= 0x5A
    ensures Lower(n) == Lower(x) <==> UpperChar(x) == n
  {
  }

  /** A table name matches a word, ignoring case, exactly when it is the word in upper case. */
  lemma NameMatch(c: Command, w: seq<Byte>)
    ensures SameIgnoringCase(Name(c), w) <==> Upper(w) == Name(c)
  {
    var n := Name(c);
    if |n| == |w| {
      forall i | 0 <= i < |n|
        ensures Lower(n[i]) == Lower(w[i]) <==> Upper(w)[i] == n[i]
      {
        CharMatch(n[i], w[i]);
      }
      if Upper(w) != n {
        var i :| 0 <= i < |n| && Upper(w)[i] != n[i];
        assert Lower(n[i]) != Lower(w[i]);
      }
    }
  }

  /** The command found for a word is the one whose name is the word in upper case. */
  lemma FindUpper(name: seq<Byte>, c: Command)
    ensures Find(name) == Some(c) <==> Upper(name) == Name(c)
  {
    forall d {
      NameMatch(d, name);
    }
    NamesDistinct(c);
    FindCases(name);
  }

  /** The table walk, entry by entry. */
  lemma FindCases(name: seq<Byte>)
    ensures Find(name) ==
      if SameIgnoringCase(Name(Cv), name) then Some(Cv)
      else if SameIgnoringCase(Name(Speed), name) then Some(Speed)
      else if SameIgnoringCase(Name(Lights), name) then Some(Lights)
      else if SameIgnoringCase(Name(ControlLoco), name) then Some(ControlLoco)
      else None
  {
    var t1, t2, t3 := TABLE[1..], TABLE[2..], TABLE[3..];
    assert t3 == [ControlLoco] && t3[1..] == [];
    assert FindIn(t3, name) == if SameIgnoringCase(Name(ControlLoco), name) then Some(ControlLoco) else None;
    assert t2 == [Lights, ControlLoco] && t2[1..] == t3;
    assert FindIn(t2, name) == if SameIgnoringCase(Name(Lights), name) then Some(Lights) else FindIn(t3, name);
    assert t1 == [Speed, Lights, ControlLoco] && t1[1..] == t2;
    assert FindIn(t1, name) == if SameIgnoringCase(Name(Speed), name) then Some(Speed) else FindIn(t2, name);
    assert TABLE[0] == Cv && TABLE[1..] == t1;
    assert Find(name) == if SameIgnoringCase(Name(Cv), name) then Some(Cv) else FindIn(t1, name);
  }

  /** No two commands share a name. */
  lemma NamesDistinct(c: Command)
    ensures forall d :: Name(d) == Name(c) ==> d == c
  {
    assert Name(Cv)[0] == 0x43 && Name(Speed)[0] == 0x53 && Name(Lights)[0] == 0x4C;
    assert Name(Speed)[1] == 0x50 && Name(ControlLoco)[1] == 0x43;
  }

  /** The table walk of CLI_ParseLine. */
  method Lookup(name: seq<Byte>) returns (r: Option<Command>)
    ensures r == Find(name)
    ensures forall c :: r == Some(c) <==> Upper(name) == Name(c)
  {
    forall c
      ensures Find(name) == Some(c) <==> Upper(name) == Name(c)
    {
      FindUpper(name, c);
    }
    var k := 0;
    while k < |TABLE|
      invariant k <= |TABLE|
      invariant Find(name) == FindIn(TABLE[k..], name)
    {
      assert TABLE[k..][1..] == TABLE[k + 1..];
      if SameIgnoringCase(Name(TABLE[k]), name) {
        return Some(TABLE[k]);
      }
      k := k + 1;
    }
    return None;
  }

  // ---------------------------------------------------------------------
  // strtol(Arg, &end, 0) in CLI_ArgToInt

  /** The value of an ASCII digit or letter as a digit, 36 for anything else. */
  function DigitValue(b: Byte): (d: nat)
    ensures d <= 36
  {
    var v := b as int;
    if 0x30 <= v <= 0x39 then v - 0x30
    else if 0x41 <= v <= 0x5A then v - 0x37
    else if 0x61 <= v <= 0x7A then v - 0x57
    else 36
  }

  /** How many characters at the front of s are digits in the base. */
  function DigitRun(s: seq<Byte>, base: nat): (k: nat)
    ensures k <= |s|
    ensures forall i :: 0 <= i < k ==> DigitValue(s[i]) < base
  {
    if s == [] || DigitValue(s[0]) >= base then 0 else 1 + DigitRun(s[1..], base)
  }

  /** The value of a run of digits, most significant first. */
  function Accumulate(ds: seq<Byte>, base: nat): nat
  {
    if ds == [] then 0 else Accumulate(ds[..|ds| - 1], base) * base + DigitValue(ds[|ds| - 1])
  }

  /** LONG_MIN and LONG_MAX of the 32-bit target: strtol saturates at them. */
  function Clamp(x: int): (r: I32)
    ensures -0x8000_0000 <= x < 0x8000_0000 ==> r == x
    ensures x >= 0x8000_0000 ==> r == 0x7FFF_FFFF
    ensures x < -0x8000_0000 ==> r == -0x8000_0000
  {
    if x >= 0x8000_0000 then 0x7FFF_FFFF else if x < -0x8000_0000 then -0x8000_0000 else x
  }

  /**
   * strtol with base 0: an optional sign, then "0x" or "0X" for hexadecimal,
   * a leading "0" for octal, decimal otherwise, read up to the first
   * character that is not a digit of the base. A token holds no white
   * space, so strtol's skipping of it never applies.
   */
  function StrToL(s: seq<Byte>): (r: I32)
    ensures |s| > 0 && s[0] == MINUS ==> r <= 0
    ensures !(|s| > 0 && s[0] == MINUS) ==> r >= 0
    ensures s == [] ==> r == 0
  {
    if |s| > 0 && s[0] == MINUS then Clamp(-(Magnitude(s[1..]) as int))
    else if |s| > 0 && s[0] == PLUS then Clamp(Magnitude(s[1..]))
    else Clamp(Magnitude(s))
  }

  /** The number strtol reads after the sign, before saturation. */
  function Magnitude(u: seq<Byte>): nat
  {
    var hex := |u| >= 2 && u[0] == ZERO && (u[1] == 0x78 || u[1] == 0x58);
    var base := if hex then 16 else if |u| >= 1 && u[0] == ZERO then 8 else 10;
    var body := if hex then u[2..] else u;
    Accumulate(body[..DigitRun(body, base)], base)
  }

  function DigitChar(d: nat): Byte
    requires d < 10
  {
    (0x30 + d) as Byte
  }

  /** A number in decimal, without leading zeros. */
  function Decimal(n: nat): (s: seq<Byte>)
    ensures |s| >= 1
  {
    if n < 10 then [DigitChar(n)] else Decimal(n / 10) + [DigitChar(n % 10)]
  }

  /** An integer in decimal, with a minus sign when it is negative. */
  function Signed(n: int): seq<Byte>
  {
    if n < 0 then [MINUS] + Decimal(-n) else Decimal(n)
  }

  lemma DigitCharValue(d: nat)
    requires d < 10
    ensures DigitValue(DigitChar(d)) == d && DigitChar(d) != MINUS && DigitChar(d) != PLUS
    ensures DigitChar(d) == ZERO <==> d == 0
  {
    ByteRoundTrip(0x30 + d);
  }

  /** Every character of Decimal(n) is a decimal digit, the first one not 0 unless n is. */
  lemma {:induction false} DecimalDigits(n: nat)
    ensures forall i :: 0 <= i < |Decimal(n)| ==> DigitValue(Decimal(n)[i]) < 10
    ensures Decimal(n)[0] != MINUS && Decimal(n)[0] != PLUS
    ensures Decimal(n)[0] == ZERO <==> n == 0
    ensures Accumulate(Decimal(n), 10) == n
  {
    if n < 10 {
      DigitCharValue(n);
    } else {
      DecimalDigits(n / 10);
      DigitCharValue(n % 10);
      var s := Decimal(n);
      assert s[..|s| - 1] == Decimal(n / 10);
      assert s[0] == Decimal(n / 10)[0];
    }
  }

  lemma {:induction false} DigitRunAll(s: seq<Byte>, base: nat)
    requires forall i :: 0 <= i < |s| ==> DigitValue(s[i]) < base
    ensures DigitRun(s, base) == |s|
  {
    if s != [] {
      DigitRunAll(s[1..], base);
    }
  }

  /** CLI_ArgToInt reads back any int written in decimal. */
  lemma StrToLDecimal(n: I32)
    ensures StrToL(Signed(n)) == n
  {
    var m: nat := if n < 0 then -(n as int) else n;
    MagnitudeDecimal(m);
    var s := Signed(n);
    if n < 0 {
      assert s[0] == MINUS && s[1..] == Decimal(m);
    }
  }

  /** The digits of Decimal(m) read back as m. */
  lemma MagnitudeDecimal(m: nat)
    ensures Magnitude(Decimal(m)) == m
    ensures Decimal(m)[0] != MINUS && Decimal(m)[0] != PLUS
  {
    DecimalDigits(m);
    var d := Decimal(m);
    if m == 0 {
      DigitCharValue(0);
      assert d == [ZERO] && d[1..] == [];
      assert DigitRun(d, 8) == 1;
      assert d[..1] == d;
      assert Accumulate(d, 8) == Accumulate([], 8) * 8 + 0;
    } else {
      DigitRunAll(d, 10);
      assert d[..|d|] == d;
    }
  }

  // ---------------------------------------------------------------------
  // The commands

  /** A call a command makes into the DCC layer. */
  datatype Call =
    | DirectWriteByte(cvId: U16, value: U8)
    | SetLocomotiveSpeed(loco: U8, speed: U8, forward: bool)
    | SetLocomotiveFunctions(loco: U8, functions: U8, group: DccBytes.Group)

  /**
   * A command run with argv (argv[0] its name, argc = |argv| - 1): its
   * result and its calls. Every command wants exactly two arguments;
   * CLI_ArgToInt never fails, so a command given two returns 0.
   */
  function Execute(c: Command, argv: seq<seq<Byte>>): (r: (int, seq<Call>))
    requires |argv| >= 1
    ensures r.0 == 0 <==> |argv| == 3
    ensures r.0 != 0 ==> r.0 == -1 && r.1 == []
  {
    if |argv| != 3 then (-1, []) else (0, Calls(c, StrToL(argv[1]), StrToL(argv[2])))
  }

  /** The calls a command makes with its two arguments read as integers. */
  function Calls(c: Command, a: I32, b: I32): seq<Call>
  {
    match c
    case Cv => [DirectWriteByte(ToU16(a), ToU8(b))]
    case Speed =>
      [SetLocomotiveSpeed(ToU8(a), ToU8(if b < 0 then -(b as int) else b), b >= 0)]
    case Lights =>
      [SetLocomotiveFunctions(ToU8(a), b % 32, DccBytes.FL_F4),
       SetLocomotiveFunctions(ToU8(a), (b / 32) % 16, DccBytes.F5_F8)]
    case ControlLoco => []
  }

  /** A message CLI_ParseLine prints with Debug_PrintF. */
  datatype Report = Returned(name: seq<Byte>, result: int) | Unknown(name: seq<Byte>)

  /** What a parsed line does: the calls made and the messages printed. */
  function Respond(argv: seq<seq<Byte>>): (r: (seq<Call>, seq<Report>))
    ensures argv == [] ==> r == ([], [])
    ensures argv != [] && Find(argv[0]).None? ==> r == ([], [Unknown(argv[0])])
  {
    if argv == [] then ([], [])
    else match Find(argv[0])
      case None => ([], [Unknown(argv[0])])
      case Some(c) =>
        var e := Execute(c, argv);
        (e.1, if e.0 != 0 then [Returned(argv[0], e.0)] else [])
  }

  /** "SP loco speed", in any case: one speed call, the direction from the sign. */
  lemma SpeedCommand(w: seq<Byte>, loco: I32, speed: I32)
    requires Upper(w) == Name(Speed)
    ensures Respond([w, Signed(loco), Signed(speed)])
      == ([SetLocomotiveSpeed(ToU8(loco), ToU8(if speed < 0 then -(speed as int) else speed), speed >= 0)], [])
  {
    FindUpper(w, Speed);
    StrToLDecimal(loco);
    StrToLDecimal(speed);
    SpeedWords(w, Signed(loco), Signed(speed), loco, speed);
  }

  lemma SpeedWords(w: seq<Byte>, x: seq<Byte>, y: seq<Byte>, a: I32, b: I32)
    requires Find(w) == Some(Speed) && StrToL(x) == a && StrToL(y) == b
    ensures Respond([w, x, y]) == ([SetLocomotiveSpeed(ToU8(a), ToU8(if b < 0 then -(b as int) else b), b >= 0)], [])
  {
    var argv := [w, x, y];
    assert argv[0] == w && argv[1] == x && argv[2] == y;
    assert Respond(argv) == (Execute(Speed, argv).1, []);
  }

  /** "CV id value", in any case: one direct write of the value to the CV. */
  lemma CvCommand(w: seq<Byte>, id: U16, value: U8)
    requires Upper(w) == Name(Cv)
    ensures Respond([w, Signed(id), Signed(value)]) == ([DirectWriteByte(id, value)], [])
  {
    FindUpper(w, Cv);
    StrToLDecimal(id);
    StrToLDecimal(value);
    CvWords(w, Signed(id), Signed(value), id, value);
  }

  lemma CvWords(w: seq<Byte>, x: seq<Byte>, y: seq<Byte>, a: I32, b: I32)
    requires Find(w) == Some(Cv) && StrToL(x) == a && StrToL(y) == b
    ensures Respond([w, x, y]) == ([DirectWriteByte(ToU16(a), ToU8(b))], [])
  {
    var argv := [w, x, y];
    assert argv[0] == w && argv[1] == x && argv[2] == y;
    assert Respond(argv) == (Execute(Cv, argv).1, []);
  }

  /** A known command with other than two arguments reports that it returned -1 and calls nothing. */
  lemma WrongArgumentCount(argv: seq<seq<Byte>>, c: Command)
    requires |argv| >= 1 && |argv| != 3 && Upper(argv[0]) == Name(c)
    ensures Respond(argv) == ([], [Returned(argv[0], -1)])
  {
    FindUpper(argv[0], c);
  }

  /** The two function groups LI sends carry F0..F8: the low nine bits of the argument. */
  lemma LightsSplit(lights: I32)
    ensures lights % 32 + 32 * ((lights / 32) % 16) == lights % 512
  {
  }

  // ---------------------------------------------------------------------
  // Line editing

  /**
   * What one character does to the line: the line after it, what is
   * echoed, and the line handed to CLI_ParseLine when it ends one.
   */
  datatype Edit = Edit(line: seq<Byte>, echo: seq<Byte>, entered: Option<seq<Byte>>)

  /**
   * CLI_InputChar on the line typed so far. Carriage return ends the line
   * and empties it; DEL takes back a character or rings the bell; a
   * printable character is echoed and kept while there is room, anything
   * else rings the bell.
   */
  function Key(line: seq<Byte>, c: Byte): (e: Edit)
    requires |line| < LINE_SIZE
    ensures |e.line| < LINE_SIZE
    ensures AllPrintable(line) ==> AllPrintable(e.line)
    ensures e.entered.Some? <==> c == CR
    ensures c == CR ==> e == Edit([], [LF], Some(line))
  {
    if c == CR then
      Edit([], [LF], Some(line))
    else if c == DEL then
      if |line| > 0 then Edit(line[..|line| - 1], [DEL], None) else Edit(line, [BELL], None)
    else if Printable(c) && |line| < LINE_SIZE - 1 then
      Edit(line + [c], [c], None)
    else
      Edit(line, [BELL], None)
  }

  /** CLI_InputChar applied to each character in turn: the line, the echo and the lines entered. */
  function Keys(line: seq<Byte>, cs: seq<Byte>): (r: (seq<Byte>, seq<Byte>, seq<seq<Byte>>))
    requires |line| < LINE_SIZE
    ensures |r.0| < LINE_SIZE
    decreases |cs|
  {
    if cs == [] then (line, [], [])
    else
      var k := Key(line, cs[0]);
      var q := Keys(k.line, cs[1..]);
      (q.0, k.echo + q.1, (if k.entered.Some? then [k.entered.value] else []) + q.2)
  }

  /** Printable characters that fit are kept and echoed, and no line is entered. */
  lemma {:induction false} TypingEchoes(line: seq<Byte>, cs: seq<Byte>)
    requires |line| + |cs| < LINE_SIZE && AllPrintable(cs)
    ensures Keys(line, cs) == (line + cs, cs, [])
    decreases |cs|
  {
    if cs != [] {
      var c := cs[0];
      assert AllPrintable(cs[1..]) by {
        forall i | 0 <= i < |cs| - 1
          ensures Printable(cs[1..][i])
        {
          assert cs[1..][i] == cs[i + 1];
        }
      }
      TypingEchoes(line + [c], cs[1..]);
      assert line + [c] + cs[1..] == line + cs;
      TypingStep(line, cs);
    } else {
      assert line + cs == line;
    }
  }

  lemma TypingStep(line: seq<Byte>, cs: seq<Byte>)
    requires |line| + |cs| < LINE_SIZE && cs != [] && Printable(cs[0])
    requires Keys(line + [cs[0]], cs[1..]) == (line + cs, cs[1..], [])
    ensures Keys(line, cs) == (line + cs, cs, [])
  {
    var c := cs[0];
    var k := Key(line, c);
    assert k == Edit(line + [c], [c], None);
    var q := Keys(k.line, cs[1..]);
    var r := Keys(line, cs);
    assert r == (q.0, k.echo + q.1, [] + q.2);
    assert r.1 == cs by {
      assert [c] + cs[1..] == cs;
    }
    assert r.2 == [];
  }

  /** DEL undoes the character typed before it. */
  lemma DeleteUndoes(line: seq<Byte>, c: Byte)
    requires |line| < LINE_SIZE - 1 && Printable(c)
    ensures Key(Key(line, c).line, DEL) == Edit(line, [DEL], None)
  {
    assert (line + [c])[..|line|] == line;
  }

  /** With 63 characters waiting, a printable character only rings the bell. */
  lemma FullLineRings(line: seq<Byte>, c: Byte)
    requires |line| == LINE_SIZE - 1 && c != CR && c != DEL
    ensures Key(line, c) == Edit(line, [BELL], None)
  {
  }

  /** A line typed and ended with carriage return is echoed, entered whole, and cleared. */
  lemma EnterRuns(cs: seq<Byte>)
    requires |cs| < LINE_SIZE && AllPrintable(cs)
    ensures Keys([], cs + [CR]) == ([], cs + [LF], [cs])
  {
    var empty: seq<Byte> := [];
    TypingEchoes(empty, cs);
    assert empty + cs == cs;
    var p := Keys(empty, cs);
    assert p == (cs, cs, []);
    EnterKey(cs);
    KeysAppend(empty, cs, [CR]);
    var q := Keys(p.0, [CR]);
    assert q == ([], [LF], [cs]);
    assert p.2 + q.2 == [cs];
  }

  lemma EnterKey(line: seq<Byte>)
    requires |line| < LINE_SIZE
    ensures Keys(line, [CR]) == ([], [LF], [line])
  {
    var cr := [CR];
    assert cr[0] == CR && cr[1..] == [];
    var k := Key(line, CR);
    var q := Keys([], cr[1..]);
    assert q == ([], [], []);
    assert Keys(line, cr) == (q.0, k.echo + q.1, [line] + q.2);
    assert k.echo + q.1 == [LF] && [line] + q.2 == [line];
  }

  lemma {:induction false} KeysAppend(line: seq<Byte>, a: seq<Byte>, b: seq<Byte>)
    requires |line| < LINE_SIZE
    ensures var p := Keys(line, a); var q := Keys(p.0, b);
      Keys(line, a + b) == (q.0, p.1 + q.1, p.2 + q.2)
    decreases |a|
  {
    if a != [] {
      var k := Key(line, a[0]);
      var e: seq<seq<Byte>> := if k.entered.Some? then [k.entered.value] else [];
      assert (a + b)[0] == a[0] && (a + b)[1..] == a[1..] + b;
      KeysAppend(k.line, a[1..], b);
      var p := Keys(k.line, a[1..]);
      var q := Keys(p.0, b);
      assert Keys(line, a) == (p.0, k.echo + p.1, e + p.2);
      assert Keys(line, a + b) == (q.0, k.echo + (p.1 + q.1), e + (p.2 + q.2));
      assert k.echo + (p.1 + q.1) == (k.echo + p.1) + q.1;
      assert e + (p.2 + q.2) == (e + p.2) + q.2;
    } else {
      assert a + b == b;
      var q := Keys(line, b);
      assert [] + q.1 == q.1 && [] + q.2 == q.2;
    }
  }

  // ---------------------------------------------------------------------
  // CLI_Buffer and CLI_InputChar

  /** CLI_Buffer with the output of the command line so far. */
  class CommandLine {
    const line: Buffer.Ring
    /** The characters passed to Debug_PutChar. */
    var echo: seq<Byte>
    var calls: seq<Call>
    var reports: seq<Report>

    /**
     * The buffer is only ever written and reset, never read, so Outdex
     * stays 0 and the line is the front of the array, all printable.
     */
    ghost predicate Valid()
      reads this, line, line.buf
    {
      line.Valid() && line.size == LINE_SIZE && line.outdex == 0
      && forall i :: 0 <= i < line.index ==> Printable(line.buf[i])
    }

    /** The characters typed since the last carriage return. */
    function Text(): (t: seq<Byte>)
      reads this, line, line.buf
      requires Valid()
      ensures |t| < LINE_SIZE && AllPrintable(t)
    {
      line.buf[..line.index]
    }

    /** CLI_Init */
    constructor Init()
      ensures Valid() && Text() == [] && echo == [] && calls == [] && reports == []
      ensures fresh(line) && fresh(line.buf)
    {
      line := new Buffer.Ring.Init(LINE_SIZE);
      echo, calls, reports := [], [], [];
    }

    /** CLI_ParseLine on the NUL-terminated buffer, then BufferInit. */
    method ParseLine()
      requires line.Valid() && line.size == LINE_SIZE
      modifies this, line
      ensures Valid() && Text() == [] && echo == old(echo)
      ensures var p := Respond(Argv(CString(old(line.buf[..]))));
        calls == old(calls) + p.0 && reports == old(reports) + p.1
    {
      var argv := Tokenise(line.buf[..]);
      if |argv| > 0 {
        var cmd := Lookup(argv[0]);
        match cmd
        case Some(c) =>
          var e := Execute(c, argv);
          calls := calls + e.1;
          if e.0 != 0 {
            reports := reports + [Returned(argv[0], e.0)];
          }
        case None =>
          reports := reports + [Unknown(argv[0])];
      }
      line.Reset();
    }

    /** CLI_InputChar */
    method InputChar(c: Byte)
      requires Valid()
      modifies this, line, line.buf
      ensures Valid()
      ensures var k := Key(old(Text()), c);
        Text() == k.line && echo == old(echo) + k.echo
        && (k.entered.None? ==> calls == old(calls) && reports == old(reports))
        && (k.entered.Some? ==> var p := Respond(Argv(k.entered.value));
              calls == old(calls) + p.0 && reports == old(reports) + p.1)
    {
      if c == CR {
        EndLine();
      } else if c == DEL {
        DeleteChar();
      } else {
        TypeChar(c);
      }
    }

    /** Carriage return: the NUL, the newline echoed, CLI_ParseLine. */
    method EndLine()
      requires Valid()
      modifies this, line, line.buf
      ensures Valid() && Text() == [] && echo == old(echo) + [LF]
      ensures var p := Respond(Argv(old(Text())));
        calls == old(calls) + p.0 && reports == old(reports) + p.1
    {
      ghost var t := Text();
      var n := line.index;
      line.Write(0);
      echo := echo + [LF];
      assert line.buf[..n] == t && line.buf[n] == 0;
      CStringOfLine(line.buf[..], n);
      ParseLine();
    }

    /** DEL: the last character taken back, or the bell. */
    method DeleteChar()
      requires Valid()
      modifies this, line
      ensures Valid() && calls == old(calls) && reports == old(reports)
      ensures var k := Key(old(Text()), DEL); Text() == k.line && echo == old(echo) + k.echo
    {
      ghost var t := Text();
      if line.Amount() > 0 {
        line.UnWrite();
        echo := echo + [DEL];
        assert Text() == t[..|t| - 1];
      } else {
        echo := echo + [BELL];
      }
    }

    /** Any other character: kept and echoed if printable and there is room, else the bell. */
    method TypeChar(c: Byte)
      requires Valid() && c != CR && c != DEL
      modifies this, line, line.buf
      ensures Valid() && calls == old(calls) && reports == old(reports)
      ensures var k := Key(old(Text()), c); Text() == k.line && echo == old(echo) + k.echo
    {
      ghost var t := Text();
      if Printable(c) && line.Space() >= 1 {
        echo := echo + [c];
        line.Write(c);
        assert Text() == t + [c];
      } else {
        echo := echo + [BELL];
      }
    }
  }

  // ---------------------------------------------------------------------
  // More words than argv has slots

  /** n one-letter words: "a a ... a". */
  function Letters(n: nat): seq<seq<Byte>>
  {
    seq(n, _ => [0x61])
  }

  lemma {:induction false} LettersLine(n: nat)
    requires n >= 1
    ensures var line := Unwords(Letters(n));
      |line| == 2 * n - 1 && AllPrintable(line)
      && forall i :: 0 <= i < n ==> Word(Letters(n)[i])
  {
    if n > 1 {
      LettersLine(n - 1);
      assert Letters(n)[1..] == Letters(n - 1);
    }
  }

  /**
   * As written, CLI_ParseLine stores every token with `argv[++argc] =
   * token` into its ten-slot argv. A line that fits the buffer can hold
   * eleven tokens, so the eleventh is stored past the end of argv.
   * Tokenise stops at ARGV_SLOTS.
   */
  lemma ArgvOverrun()
    ensures var line := Unwords(Letters(11));
      |line| < LINE_SIZE && AllPrintable(line)
      && Keys([], line).0 == line && |Tokens(line)| == 11 > ARGV_SLOTS
  {
    var line := Unwords(Letters(11));
    LettersLine(11);
    TokensUnwords(Letters(11));
    TypingEchoes([], line);
  }
}
