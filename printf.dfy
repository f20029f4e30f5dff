/**
 * xvprintf of samc21/debug_printf.c, the small formatter behind
 * Debug_PrintF: `%[0|-][width][l|L]conv` with conversions s, c, b, o, d,
 * u and x in either case; anything else after `%` is echoed. The output
 * characters handed to PutCharFunc are collected in order.
 *
 * Format and its helpers say what the output is; XvPrintf is the
 * character-by-character loop of the C code, proved to produce it.
 */
module Printf {
  import opened Machine
  import opened Wrappers

  /**
   * A variadic argument: a 32-bit word (int, unsigned int and long are all
   * 32 bits here) or a string, whose characters up to its first NUL (or
   * its end) are printed.
   */
  datatype Arg = Num(bits: U32) | Text(s: seq<char>)

  /** A parsed `%` sequence; `used` counts the characters after `%` it takes, the conversion last. */
  datatype Directive = Directive(zero: bool, left: bool, width: U32, conv: char, used: nat)

  /** `if (Digit >= 'a') Digit -= 0x20`: the conversion letter in upper case. */
  function UpperCode(c: char): int
  {
    if c >= 'a' then c as int - 0x20 else c as int
  }

  /** The radix of a numeric conversion, 0 for any other character. */
  function Radix(c: char): (r: nat)
    ensures r == 0 || r == 2 || r == 8 || r == 10 || r == 16
  {
    var u := UpperCode(c);
    if u == 'B' as int then 2
    else if u == 'O' as int then 8
    else if u == 'D' as int || u == 'U' as int then 10
    else if u == 'X' as int then 16
    else 0
  }

  lemma RadixTable()
    ensures Radix('b') == Radix('B') == 2 && Radix('o') == Radix('O') == 8
    ensures Radix('d') == Radix('D') == Radix('u') == Radix('U') == 10
    ensures Radix('x') == Radix('X') == 16
    ensures Radix('s') == Radix('c') == Radix('f') == Radix('%') == 0
  {
  }

  // ---------------------------------------------------------------------
  // Digits

  /** `sizeof(StringBuffer)`: at most this many digits are converted. */
  const BUFFER_SIZE: nat := 16

  function Pow(r: nat, k: nat): (p: nat)
    ensures r >= 1 ==> p >= 1
  {
    if k == 0 then 1 else r * Pow(r, k - 1)
  }

  /** One digit: 0-9, then a-f for a lower-case `x` and A-F otherwise. */
  function Digit(d: nat, lower: bool): char
    requires d < 16
  {
    if d > 9 then (if lower then (d + 0x57) as char else (d + 0x37) as char)
    else (d + 0x30) as char
  }

  /** What a digit character stands for. */
  function DigitValue(c: char): nat
  {
    if '0' <= c <= '9' then c as int - '0' as int
    else if 'a' <= c <= 'f' then c as int - 'a' as int + 10
    else if 'A' <= c <= 'F' then c as int - 'A' as int + 10
    else 0
  }

  /** A digit string read in radix r. */
  function DigitsValue(s: seq<char>, r: nat): nat
  {
    if s == [] then 0 else DigitsValue(s[..|s| - 1], r) * r + DigitValue(s[|s| - 1])
  }

  /**
   * The digits of v, most significant first, as the do-while loop makes
   * them: at least one, and no more than k (the size of StringBuffer).
   */
  function Numeral(v: nat, r: nat, lower: bool, k: nat): (s: seq<char>)
    requires 2 <= r <= 16 && k >= 1
    ensures 1 <= |s| <= k
    decreases k
  {
    var d := Digit(v % r, lower);
    if v / r == 0 || k == 1 then [d] else Numeral(v / r, r, lower, k - 1) + [d]
  }

  lemma DigitRoundTrip(d: nat, lower: bool)
    requires d < 16
    ensures DigitValue(Digit(d, lower)) == d
    ensures lower ==> !('A' <= Digit(d, lower) <= 'F')
    ensures !lower ==> !('a' <= Digit(d, lower) <= 'f')
  {
  }

  lemma ModOfProduct(v: nat, r: nat, p: nat)
    requires r > 0 && p > 0
    ensures v % (r * p) == (v / r) % p * r + v % r
  {
    var q, m := v / r, v % r;
    var t, n := q / p, q % p;
    SplitProduct(v, r, p, q, m, t, n);
    ModUnique(v, t, r * p, r * n + m);
  }

  /** v = (r p) t + (r n + m), and r n + m < r p, when v = r q + m and q = p t + n. */
  lemma SplitProduct(v: int, r: nat, p: nat, q: int, m: nat, t: int, n: nat)
    requires r > 0 && p > 0 && m < r && n < p
    requires v == r * q + m && q == p * t + n
    ensures v == t * (r * p) + (r * n + m) && r * n + m < r * p && n * r == r * n
  {
    assert r * q == r * (p * t) + r * n;
    assert r * (p * t) == t * (r * p);
    MulLe(n, p - 1, r);
    assert (p - 1) * r == r * p - r;
  }

  lemma DigitsValueSnoc(s: seq<char>, c: char, r: nat)
    ensures DigitsValue(s + [c], r) == DigitsValue(s, r) * r + DigitValue(c)
  {
    assert (s + [c])[..|s|] == s;
  }

  /** The digits read back are v modulo r^k: v itself when v has at most k digits. */
  lemma {:induction false} NumeralValue(v: nat, r: nat, lower: bool, k: nat)
    requires 2 <= r <= 16 && k >= 1
    ensures DigitsValue(Numeral(v, r, lower, k), r) == v % Pow(r, k)
    decreases k
  {
    if v / r == 0 || k == 1 {
      OneDigitValue(v, r, lower, k);
    } else {
      NumeralValue(v / r, r, lower, k - 1);
      MoreDigitsValue(v, v / r, r, lower, k);
    }
  }

  lemma OneDigitValue(v: nat, r: nat, lower: bool, k: nat)
    requires 2 <= r <= 16 && k >= 1 && (v / r == 0 || k == 1)
    ensures DigitsValue(Numeral(v, r, lower, k), r) == v % Pow(r, k)
  {
    var d := Digit(v % r, lower);
    DigitRoundTrip(v % r, lower);
    var p := Pow(r, k - 1);
    assert Pow(r, k) == r * p;
    assert Numeral(v, r, lower, k) == [d];
    assert DigitsValue([d], r) == v % r by {
      assert [d][..0] == [];
    }
    LastDigit(v, r, p, k == 1);
  }

  lemma MoreDigitsValue(v: nat, q: nat, r: nat, lower: bool, k: nat)
    requires 2 <= r <= 16 && k >= 2 && q == v / r && q != 0
    requires DigitsValue(Numeral(q, r, lower, k - 1), r) == q % Pow(r, k - 1)
    ensures DigitsValue(Numeral(v, r, lower, k), r) == v % Pow(r, k)
  {
    var d := Digit(v % r, lower);
    var t := Numeral(q, r, lower, k - 1);
    assert Numeral(v, r, lower, k) == t + [d];
    DigitRoundTrip(v % r, lower);
    DigitsValueSnoc(t, d, r);
    var p := Pow(r, k - 1);
    assert Pow(r, k) == r * p;
    ValueStep(v, r, p, DigitsValue(t, r));
  }

  /** One more digit on the right: the value modulo r^k from the value of v / r modulo r^(k-1). */
  lemma ValueStep(v: nat, r: nat, p: nat, x: nat)
    requires r >= 2 && p >= 1 && x == (v / r) % p
    ensures x * r + v % r == v % (r * p)
  {
    ModOfProduct(v, r, p);
  }

  /** A numeral of one digit: v < r, or only one place (p == 1). */
  lemma LastDigit(v: nat, r: nat, p: nat, single: bool)
    requires r >= 2 && p >= 1 && (single ==> p == 1) && (!single ==> v / r == 0)
    ensures v % (r * p) == v % r
  {
    if single {
      assert r * p == r;
    } else {
      assert v == r * (v / r) + v % r;
      assert v < r;
      MulGe(p, r);
      ModUnique(v, 0, r * p, v);
      ModUnique(v, 0, r, v);
    }
  }

  lemma {:induction false} PowPositive(r: nat, k: nat)
    requires r >= 1
    ensures Pow(r, k) >= 1
  {
    if k > 0 {
      PowPositive(r, k - 1);
      MulGe(r, Pow(r, k - 1));
    }
  }

  lemma {:induction false} PowAtLeast(r: nat, k: nat)
    requires r >= 2 && k >= 1
    ensures Pow(r, k) >= r
  {
    PowPositive(r, k - 1);
    MulGe(Pow(r, k - 1), r);
  }

  lemma {:induction false} PowAdd(r: nat, a: nat, b: nat)
    ensures Pow(r, a + b) == Pow(r, a) * Pow(r, b)
    decreases a
  {
    if a > 0 {
      PowAdd(r, a - 1, b);
      assert Pow(r, a + b) == r * Pow(r, (a - 1) + b);
      assert r * (Pow(r, a - 1) * Pow(r, b)) == (r * Pow(r, a - 1)) * Pow(r, b);
    }
  }

  /** Every character is a digit below the radix, in the case the conversion asked for. */
  lemma {:induction false} NumeralDigits(v: nat, r: nat, lower: bool, k: nat)
    requires 2 <= r <= 16 && k >= 1
    ensures forall i :: 0 <= i < |Numeral(v, r, lower, k)| ==>
      var c := Numeral(v, r, lower, k)[i];
      DigitValue(c) < r && ('0' <= c <= '9' || (lower && 'a' <= c <= 'f') || (!lower && 'A' <= c <= 'F'))
    decreases k
  {
    DigitRoundTrip(v % r, lower);
    if !(v / r == 0 || k == 1) {
      NumeralDigits(v / r, r, lower, k - 1);
    }
  }

  /** A value with more than k digits shows exactly its k lowest. */
  lemma {:induction false} NumeralTruncates(v: nat, r: nat, lower: bool, k: nat)
    requires 2 <= r <= 16 && k >= 1 && v >= Pow(r, k)
    ensures |Numeral(v, r, lower, k)| == k
    decreases k
  {
    PowAtLeast(r, k);
    if k > 1 {
      assert v / r >= Pow(r, k - 1) by {
        DivAtLeast(v, r, Pow(r, k - 1));
      }
      NumeralTruncates(v / r, r, lower, k - 1);
    }
  }

  lemma DivAtLeast(v: nat, r: nat, p: nat)
    requires r > 0 && v >= r * p
    ensures v / r >= p
  {
    var q := v / r;
    assert v < r * (q + 1);
    MulLtCancel(p, q + 1, r);
  }

  lemma {:induction false} PowMono(a: nat, b: nat, k: nat)
    requires a <= b
    ensures Pow(a, k) <= Pow(b, k)
  {
    if k > 0 {
      PowMono(a, b, k - 1);
      var x, y := Pow(a, k - 1), Pow(b, k - 1);
      MulLe(a, b, x);
      MulLe(x, y, b);
      assert Pow(a, k) == a * x && Pow(b, k) == b * y;
    }
  }

  /** In octal, decimal and hexadecimal every 32-bit value fits StringBuffer, so its digits read back as the value. */
  lemma WideRadixExact(v: U32, r: nat, lower: bool)
    requires 8 <= r <= 16
    ensures DigitsValue(Numeral(v, r, lower, BUFFER_SIZE), r) == v
  {
    NumeralValue(v, r, lower, BUFFER_SIZE);
    PowMono(8, r, 16);
    assert Pow(8, 4) == 0x1000;
    PowAdd(8, 4, 4);
    PowAdd(8, 8, 8);
    assert Pow(8, 16) == 0x1_0000_0000_0000;
    ModUnique(v, 0, Pow(r, 16), v);
  }

  /** In binary only the low sixteen bits fit: a larger value shows sixteen digits of v mod 2^16. */
  lemma BinaryTruncates(v: U32, lower: bool)
    requires v >= 0x1_0000
    ensures |Numeral(v, 2, lower, BUFFER_SIZE)| == 16
    ensures DigitsValue(Numeral(v, 2, lower, BUFFER_SIZE), 2) == v % 0x1_0000
  {
    assert Pow(2, 4) == 0x10;
    PowAdd(2, 4, 4);
    PowAdd(2, 8, 8);
    assert Pow(2, 16) == 0x1_0000;
    NumeralTruncates(v, 2, lower, BUFFER_SIZE);
    NumeralValue(v, 2, lower, BUFFER_SIZE);
  }

  // ---------------------------------------------------------------------
  // Fields

  function Rep(c: char, n: nat): (s: seq<char>)
    ensures |s| == n && forall i :: 0 <= i < n ==> s[i] == c
  {
    seq(n, _ => c)
  }

  /** How many pad characters a field of `width` needs around n characters. */
  function Gap(width: nat, n: nat): nat
  {
    if width > n then width - n else 0
  }

  /** A body padded to the minimum width: on the right with spaces when left-justified, else on the left with `pad`. */
  function Field(body: seq<char>, width: nat, pad: char, left: bool): seq<char>
  {
    if left then body + Rep(' ', Gap(width, |body|)) else Rep(pad, Gap(width, |body|)) + body
  }

  /** A field is as wide as the width or the body, holds the body at the justified end, and pads with one character. */
  lemma FieldShape(body: seq<char>, width: nat, pad: char, left: bool)
    ensures var f := Field(body, width, pad, left);
      |f| == (if width > |body| then width else |body|) &&
      (left ==> f[..|body|] == body && forall i :: |body| <= i < |f| ==> f[i] == ' ') &&
      (!left ==> f[|f| - |body|..] == body && forall i :: 0 <= i < |f| - |body| ==> f[i] == pad)
  {
    var f := Field(body, width, pad, left);
    if left {
      assert f[..|body|] == body;
    } else {
      assert f[|f| - |body|..] == body;
    }
  }

  /** The characters of a C string: up to its first NUL. */
  function CStr(s: seq<char>): (t: seq<char>)
    ensures |t| <= |s| && t == s[..|t|] && '\0' !in t
    ensures |t| < |s| ==> s[|t|] == '\0'
  {
    if s == [] || s[0] == '\0' then [] else [s[0]] + CStr(s[1..])
  }

  /**
   * A numeric conversion's characters before padding: for %d a word with
   * the top bit set is negated in unsigned long and gets a '-'.
   */
  function Body(bits: U32, conv: char): seq<char>
    requires Radix(conv) != 0
  {
    var neg := UpperCode(conv) == 'D' as int && bits >= 0x8000_0000;
    var mag := if neg then 0x1_0000_0000 - bits else bits;
    (if neg then ['-'] else []) + Numeral(mag, Radix(conv), conv == 'x', BUFFER_SIZE)
  }

  /** %d of a negative int: a '-' and then the decimal digits of its magnitude. */
  lemma NegativeDecimal(bits: U32, conv: char)
    requires UpperCode(conv) == 'D' as int && bits >= 0x8000_0000
    ensures var b := Body(bits, conv);
      b[0] == '-' && DigitsValue(b[1..], 10) == 0x1_0000_0000 - bits
  {
    var b := Body(bits, conv);
    assert b[1..] == Numeral(0x1_0000_0000 - bits, 10, conv == 'x', BUFFER_SIZE);
    WideRadixExact(0x1_0000_0000 - bits, 10, conv == 'x');
  }

  // ---------------------------------------------------------------------
  // The format

  /** The minimum width's digits from position j on: the width (in unsigned int) and where they end. */
  function Width(s: seq<char>, j: nat, w: U32): (r: (U32, nat))
    requires j <= |s|
    ensures j <= r.1 <= |s|
    ensures r.1 < |s| ==> !('0' <= s[r.1] <= '9')
    decreases |s| - j
  {
    if j < |s| && '0' <= s[j] <= '9' then Width(s, j + 1, ToU32(w * 10 + (s[j] as int - '0' as int)))
    else (w, j)
  }

  /** The characters after a `%`: a flag, the width, a size prefix and the conversion; None when the format ends first. */
  function Parse(s: seq<char>): (d: Option<Directive>)
    ensures d.Some? ==> 1 <= d.value.used <= |s| && d.value.conv == s[d.value.used - 1] && d.value.conv != '\0'
    ensures d.Some? ==> !(d.value.zero && d.value.left)
  {
    var zero := |s| > 0 && s[0] == '0';
    var left := !zero && |s| > 0 && s[0] == '-';
    var j := if zero || left then 1 else 0;
    var wk := Width(s, j, 0);
    var k := if wk.1 < |s| && (s[wk.1] == 'l' || s[wk.1] == 'L') then wk.1 + 1 else wk.1;
    if k < |s| && s[k] != '\0' then Some(Directive(zero, left, wk.0, s[k], k + 1)) else None
  }

  /** What one directive prints and how many arguments it takes; None when its argument is missing or of the other kind. */
  function Emit(d: Directive, args: seq<Arg>): (r: Option<(seq<char>, nat)>)
    ensures r.Some? ==> r.value.1 <= |args|
  {
    var u := UpperCode(d.conv);
    if u == 'S' as int then
      if |args| > 0 && args[0].Text? then Some((Field(CStr(args[0].s), d.width, ' ', d.left), 1)) else None
    else if u == 'C' as int then
      if |args| > 0 && args[0].Num? then Some(([(args[0].bits % 0x100) as char], 1)) else None
    else if Radix(d.conv) != 0 then
      if |args| > 0 && args[0].Num? then Some((Field(Body(args[0].bits, d.conv), d.width, if d.zero then '0' else ' ', d.left), 1)) else None
    else Some(([d.conv], 0))
  }

  /**
   * One pass of xvprintf's loop over what is left of the format: the
   * characters it prints, and how many format characters and arguments it
   * takes; None where the function returns (a NUL, the format ending inside
   * a `%` sequence, a missing argument).
   */
  function Next(fmt: seq<char>, args: seq<Arg>): (r: Option<(seq<char>, nat, nat)>)
    ensures r.Some? ==> 1 <= r.value.1 <= |fmt| && r.value.2 <= |args|
  {
    if fmt == [] || fmt[0] == '\0' then None
    else if fmt[0] != '%' then Some(([fmt[0]], 1, 0))
    else
      var d := Parse(fmt[1..]);
      if d.None? then None
      else
        var e := Emit(d.value, args);
        if e.None? then None else Some((e.value.0, 1 + d.value.used, e.value.1))
  }

  /** The output of xvprintf for a format and its arguments: pass after pass until it returns. */
  function Format(fmt: seq<char>, args: seq<Arg>): seq<char>
    decreases |fmt|
  {
    var n := Next(fmt, args);
    if n.None? then [] else n.value.0 + Format(fmt[n.value.1..], args[n.value.2..])
  }

  // ---------------------------------------------------------------------
  // What the format promises

  /** A character other than `%` and NUL is printed as it is. */
  lemma FormatPlain(c: char, rest: seq<char>, args: seq<Arg>)
    requires c != '%' && c != '\0'
    ensures Format([c] + rest, args) == [c] + Format(rest, args)
  {
    assert ([c] + rest)[1..] == rest;
  }

  /** Text without `%` passes through unchanged and takes no arguments. */
  lemma {:induction false} FormatVerbatim(p: seq<char>, rest: seq<char>, args: seq<Arg>)
    requires '%' !in p && '\0' !in p
    ensures Format(p + rest, args) == p + Format(rest, args)
    decreases |p|
  {
    if p != [] {
      var c, t := p[0], p[1..];
      assert p + rest == [c] + (t + rest);
      FormatPlain(c, t + rest, args);
      FormatVerbatim(t, rest, args);
      assert [c] + t == p;
    } else {
      assert p + rest == rest;
    }
  }

  /** A character after `%` that is no flag, digit, size prefix or conversion is printed as it is: `%%` prints `%`. */
  lemma FormatEchoes(c: char, rest: seq<char>, args: seq<Arg>)
    requires c != '\0' && !('0' <= c <= '9') && c !in {'-', 'l', 'L'}
    requires Radix(c) == 0 && UpperCode(c) != 'S' as int && UpperCode(c) != 'C' as int
    ensures Format(['%', c] + rest, args) == [c] + Format(rest, args)
  {
    var s := ['%', c] + rest;
    assert s[1..] == [c] + rest;
    assert Width(s[1..], 0, 0) == (0, 0);
    assert s[2..] == rest;
  }

  /** One directive: what Emit makes of it, then the rest of the format with the arguments it did not take. */
  lemma FormatDirective(fmt: seq<char>, args: seq<Arg>, d: Directive, e: (seq<char>, nat))
    requires |fmt| > 0 && fmt[0] == '%' && Parse(fmt[1..]) == Some(d) && Emit(d, args) == Some(e)
    ensures Format(fmt, args) == e.0 + Format(fmt[1 + d.used..], args[e.1..])
  {
    assert Next(fmt, args) == Some((e.0, 1 + d.used, e.1));
  }

  /** The output ends at a NUL, at a `%` the format ends inside, and at a directive whose argument is missing. */
  lemma FormatHalts(fmt: seq<char>, args: seq<Arg>)
    requires |fmt| > 0
    requires fmt[0] == '\0' || (fmt[0] == '%' && (Parse(fmt[1..]).None? || Emit(Parse(fmt[1..]).value, args).None?))
    ensures Format(fmt, args) == []
  {
  }

  /** A conversion letter straight after `%`: no flag, no width, no size prefix. */
  lemma ParseBare(c: char, rest: seq<char>)
    requires Radix(c) != 0 || UpperCode(c) == 'S' as int || UpperCode(c) == 'C' as int
    ensures Parse([c] + rest) == Some(Directive(false, false, 0, c, 1))
  {
    assert Width([c] + rest, 0, 0) == (0, 0);
  }

  /** `%` and a numeric conversion print the argument's digits in that conversion's radix and case. */
  lemma FormatNumber(c: char, bits: U32, rest: seq<char>, args: seq<Arg>)
    requires Radix(c) != 0
    ensures Format(['%', c] + rest, [Num(bits)] + args) == Body(bits, c) + Format(rest, args)
  {
    var s := ['%', c] + rest;
    var d := Directive(false, false, 0, c, 1);
    assert s[1..] == [c] + rest;
    ParseBare(c, rest);
    var b := Body(bits, c);
    assert Field(b, 0, ' ', false) == b;
    assert Emit(d, [Num(bits)] + args) == Some((b, 1));
    FormatDirective(s, [Num(bits)] + args, d, (b, 1));
    assert s[2..] == rest;
    assert ([Num(bits)] + args)[1..] == args;
  }

  /**
   * `%0Nd` of a negative int: the zeros come first, then the '-', then the
   * digits, N characters in all when they fit.
   */
  lemma FormatZeroPadSign(n: char, bits: U32, rest: seq<char>, args: seq<Arg>)
    requires '1' <= n <= '9' && bits >= 0x8000_0000
    ensures var b := Body(bits, 'd'); var w := n as int - '0' as int;
      Format(['%', '0', n, 'd'] + rest, [Num(bits)] + args) == Rep('0', Gap(w, |b|)) + b + Format(rest, args) &&
      b[0] == '-'
  {
    var s := ['%', '0', n, 'd'] + rest;
    var w := n as int - '0' as int;
    var d := Directive(true, false, w, 'd', 3);
    assert s[1..] == ['0', n, 'd'] + rest;
    assert Width(s[1..], 1, 0) == (w, 2);
    assert Parse(s[1..]) == Some(d);
    var b := Body(bits, 'd');
    assert Emit(d, [Num(bits)] + args) == Some((Rep('0', Gap(w, |b|)) + b, 1));
    FormatDirective(s, [Num(bits)] + args, d, (Rep('0', Gap(w, |b|)) + b, 1));
    assert s[4..] == rest;
    assert ([Num(bits)] + args)[1..] == args;
  }

  /** `%-Ns` and `%Ns`: the string up to its NUL, padded with spaces on the right or the left. */
  lemma FormatString(n: char, left: bool, t: seq<char>, rest: seq<char>, args: seq<Arg>)
    requires '1' <= n <= '9'
    ensures var w := n as int - '0' as int; var body := CStr(t);
      Format((if left then ['%', '-', n, 's'] else ['%', n, 's']) + rest, [Text(t)] + args) ==
      (if left then body + Rep(' ', Gap(w, |body|)) else Rep(' ', Gap(w, |body|)) + body) + Format(rest, args)
  {
    var s := (if left then ['%', '-', n, 's'] else ['%', n, 's']) + rest;
    var w := n as int - '0' as int;
    var used := if left then 3 else 2;
    var d := Directive(false, left, w, 's', used);
    assert s[1..] == (if left then ['-', n, 's'] else [n, 's']) + rest;
    assert Width(s[1..], used - 2, 0) == (w, used - 1);
    assert Parse(s[1..]) == Some(d);
    var f := Field(CStr(t), w, ' ', left);
    assert Emit(d, [Text(t)] + args) == Some((f, 1));
    FormatDirective(s, [Text(t)] + args, d, (f, 1));
    assert s[1 + used..] == rest;
    assert ([Text(t)] + args)[1..] == args;
  }

  /** An example in the C file's header comment: zero padding of a hexadecimal number. */
  lemma FormatHexExample()
    ensures Format("%04x", [Num(0xA3)]) == "00a3"
  {
    var d1 := Directive(true, false, 4, 'x', 3);
    assert Width("04x", 1, 0) == (4, 2);
    assert Parse("04x") == Some(d1);
    assert Numeral(0xA3, 16, true, 16) == "a3";
    assert Body(0xA3, 'x') == "a3";
    assert Rep('0', 2) == "00";
    assert Field("a3", 4, '0', false) == "00a3";
    assert Emit(d1, [Num(0xA3)]) == Some(("00a3", 1));
    FormatDirective("%04x", [Num(0xA3)], d1, ("00a3", 1));
  }

  /** An example in the C file's header comment: a left-justified string. */
  lemma FormatStringExample()
    ensures Format("%-4s|", [Text("abc")]) == "abc |"
  {
    var d2 := Directive(false, true, 4, 's', 3);
    assert Width("-4s|", 1, 0) == (4, 2);
    assert Parse("-4s|") == Some(d2);
    assert CStr("abc") == "abc";
    assert Rep(' ', 1) == " ";
    assert Field("abc", 4, ' ', true) == "abc ";
    assert Emit(d2, [Text("abc")]) == Some(("abc ", 1));
    FormatDirective("%-4s|", [Text("abc")], d2, ("abc ", 1));
    assert Format("|", []) == "|";
  }

  // ---------------------------------------------------------------------
  // The C loops

  function Reversed(s: seq<char>): (r: seq<char>)
    ensures |r| == |s|
  {
    if s == [] then [] else Reversed(s[1..]) + [s[0]]
  }

  lemma {:induction false} ReversedSnoc(s: seq<char>, c: char)
    ensures Reversed(s + [c]) == [c] + Reversed(s)
    decreases |s|
  {
    if s == [] {
      assert Reversed([c]) == Reversed([]) + [c];
    } else {
      assert (s + [c])[1..] == s[1..] + [c];
      ReversedSnoc(s[1..], c);
    }
  }

  /** The do-while loop: StringBuffer holds the digits least significant first. */
  method ToDigits(value: U32, radix: nat, lower: bool) returns (buf: seq<char>)
    requires 2 <= radix <= 16
    ensures Reversed(buf) == Numeral(value, radix, lower, BUFFER_SIZE)
  {
    var v: nat := value;
    buf := [];
    while true
      invariant |buf| < BUFFER_SIZE
      invariant Numeral(value, radix, lower, BUFFER_SIZE) == Numeral(v, radix, lower, BUFFER_SIZE - |buf|) + Reversed(buf)
      decreases BUFFER_SIZE - |buf|
    {
      var q, m := DivideByRadix(v, radix);
      var d := Digit(m, lower);
      if !(q != 0 && |buf| + 1 < BUFFER_SIZE) {
        DigitsDone(value, v, q, m, radix, lower, buf, BUFFER_SIZE);
        buf := buf + [d];
        return;
      }
      DigitsStep(value, v, q, m, radix, lower, buf, BUFFER_SIZE);
      buf := buf + [d];
      v := q;
    }
  }

  /** One pass of the do-while loop keeps the digits still to come in front of the buffer reversed. */
  lemma DigitsStep(value: nat, v: nat, q: nat, m: nat, r: nat, lower: bool, buf: seq<char>, size: nat)
    requires 2 <= r <= 16 && |buf| + 1 < size && q == v / r && m == v % r && m < r && q != 0
    requires Numeral(value, r, lower, size) == Numeral(v, r, lower, size - |buf|) + Reversed(buf)
    ensures Numeral(value, r, lower, size) == Numeral(q, r, lower, size - |buf + [Digit(m, lower)]|) + Reversed(buf + [Digit(m, lower)])
  {
    var d := Digit(m, lower);
    var k := size - |buf|;
    assert size - |buf + [d]| == k - 1;
    NumeralStep(v, q, m, r, lower, k);
    ReversedSnoc(buf, d);
    var head := Numeral(q, r, lower, k - 1);
    assert (head + [d]) + Reversed(buf) == head + ([d] + Reversed(buf));
  }

  /** The last pass of the do-while loop: the buffer reversed is the whole numeral. */
  lemma DigitsDone(value: nat, v: nat, q: nat, m: nat, r: nat, lower: bool, buf: seq<char>, size: nat)
    requires 2 <= r <= 16 && |buf| < size && q == v / r && m == v % r && m < r && (q == 0 || |buf| + 1 == size)
    requires Numeral(value, r, lower, size) == Numeral(v, r, lower, size - |buf|) + Reversed(buf)
    ensures Numeral(value, r, lower, size) == Reversed(buf + [Digit(m, lower)])
  {
    NumeralStep(v, q, m, r, lower, size - |buf|);
    ReversedSnoc(buf, Digit(m, lower));
  }

  /** `Digit = Value % Radix; Value /= Radix`. */
  method DivideByRadix(v: nat, radix: nat) returns (q: nat, m: nat)
    requires radix > 0
    ensures q == v / radix && m == v % radix && m < radix
  {
    q, m := v / radix, v % radix;
  }

  lemma NumeralStep(v: nat, q: nat, m: nat, r: nat, lower: bool, k: nat)
    requires 2 <= r <= 16 && k >= 1 && q == v / r && m == v % r && m < r
    ensures Numeral(v, r, lower, k) ==
      if q == 0 || k == 1 then [Digit(m, lower)] else Numeral(q, r, lower, k - 1) + [Digit(m, lower)]
  {
  }

  /** `while (StringLen++ < MinimumWidth) PutCharFunc(c)`: the pad characters and where the counter ends. */
  method PadTo(out0: seq<char>, c: char, len0: nat, width: nat) returns (out: seq<char>, len: nat)
    ensures out == out0 + Rep(c, Gap(width, len0))
    ensures len == (if width > len0 then width else len0) + 1
  {
    out, len := out0, len0;
    while len < width
      invariant len0 <= len && (len > len0 ==> len <= width)
      invariant out == out0 + Rep(c, len - len0)
    {
      out := out + [c];
      len := len + 1;
    }
    len := len + 1;
  }

  /** `for (StringLen = 0; StringPtr[StringLen]; StringLen++);` */
  method StrLen(t: seq<char>) returns (n: nat)
    ensures n == |CStr(t)|
  {
    n := 0;
    while n < |t| && t[n] != '\0'
      invariant n <= |CStr(t)|
    {
      n := n + 1;
    }
  }

  /** `while (*StringPtr) PutCharFunc(*StringPtr++)`. */
  method PutChars(out0: seq<char>, t: seq<char>) returns (out: seq<char>)
    ensures out == out0 + CStr(t)
  {
    out := out0;
    var k := 0;
    while k < |t| && t[k] != '\0'
      invariant k <= |CStr(t)| && out == out0 + CStr(t)[..k]
    {
      out := out + [t[k]];
      k := k + 1;
    }
    assert CStr(t)[..k] == CStr(t);
  }

  /** The `%s` case: strlen, left padding, the copy and right padding. */
  method PutText(out0: seq<char>, t: seq<char>, width: U32, left: bool) returns (out: seq<char>)
    ensures out == out0 + Field(CStr(t), width, ' ', left)
  {
    out := out0;
    var len := StrLen(t);
    if !left {
      out, len := PadTo(out, ' ', len, width);
    }
    out := PutChars(out, t);
    out, len := PadTo(out, ' ', len, width);
  }

  /** `do PutCharFunc(StringBuffer[--Index]); while (Index)`. */
  method PutReversed(out0: seq<char>, buf: seq<char>) returns (out: seq<char>)
    ensures out == out0 + Reversed(buf)
  {
    out := out0;
    var index := |buf|;
    while index > 0
      invariant 0 <= index <= |buf|
      invariant out == out0 + Reversed(buf[index..])
    {
      index := index - 1;
      assert buf[index..][1..] == buf[index + 1..];
      out := out + [buf[index]];
    }
    assert buf[0..] == buf;
  }

  /** The numeric cases: sign, digits, padding and the buffer written out backwards. */
  method PutNumber(out0: seq<char>, bits: U32, conv: char, radix: nat, zero: bool, left: bool, width: U32) returns (out: seq<char>)
    requires radix == Radix(conv) && radix != 0
    ensures out == out0 + Field(Body(bits, conv), width, if zero then '0' else ' ', left)
  {
    out := out0;
    var value := bits;
    var neg := false;
    if UpperCode(conv) == 'D' as int && value >= 0x8000_0000 {
      Negate(value);
      value := ToU32(0 - value as int);
      neg := true;
    }
    var buf := ToDigits(value, radix, conv == 'x');
    if neg {
      ReversedSnoc(buf, '-');
      buf := buf + ['-'];
    }
    SignedDigits(bits, conv, value, neg, buf);
    out := PutField(out, buf, if zero then '0' else ' ', left, width);
  }

  /** `StringLen = Index`, the left padding, StringBuffer backwards and the right padding. */
  method PutField(out0: seq<char>, buf: seq<char>, pad: char, left: bool, width: U32) returns (out: seq<char>)
    ensures out == out0 + Field(Reversed(buf), width, pad, left)
  {
    out := out0;
    var len := |buf|;
    if !left {
      out, len := PadTo(out, pad, len, width);
    }
    out := PutReversed(out, buf);
    out, len := PadTo(out, ' ', len, width);
  }

  /** `Value = 0 - Value` in unsigned long. */
  lemma Negate(v: U32)
    requires v >= 0x8000_0000
    ensures ToU32(0 - v) == 0x1_0000_0000 - v
  {
    ModUnique(0 - v, -1, 0x1_0000_0000, 0x1_0000_0000 - v);
  }

  /** StringBuffer, read backwards, is the conversion's body: the digits of the magnitude after any '-'. */
  lemma SignedDigits(bits: U32, conv: char, value: nat, neg: bool, buf: seq<char>)
    requires Radix(conv) != 0
    requires neg == (UpperCode(conv) == 'D' as int && bits >= 0x8000_0000)
    requires value == if neg then 0x1_0000_0000 - bits else bits
    requires neg ==> Reversed(buf) == ['-'] + Numeral(value, Radix(conv), conv == 'x', BUFFER_SIZE)
    requires !neg ==> Reversed(buf) == Numeral(value, Radix(conv), conv == 'x', BUFFER_SIZE)
    ensures Reversed(buf) == Body(bits, conv)
  {
  }

  /** Flags, width and size prefix after a `%`. */
  method ParseDirective(s: seq<char>) returns (d: Option<Directive>)
    ensures d == Parse(s)
  {
    var zero, left := false, false;
    var j := 0;
    if |s| > 0 && s[0] == '0' {
      zero := true;
      j := 1;
    } else if |s| > 0 && s[0] == '-' {
      left := true;
      j := 1;
    }
    ghost var j0 := j;
    var width: U32 := 0;
    while j < |s| && '0' <= s[j] <= '9'
      invariant j0 <= j <= |s| && Width(s, j, width) == Width(s, j0, 0)
      decreases |s| - j
    {
      width := ToU32(width * 10 + (s[j] as int - '0' as int));
      j := j + 1;
    }
    if j < |s| && (s[j] == 'l' || s[j] == 'L') {
      j := j + 1;
    }
    if j < |s| && s[j] != '\0' {
      d := Some(Directive(zero, left, width, s[j], j + 1));
    } else {
      d := None;
    }
  }

  /** The switch on the conversion: the output it appends and the arguments it takes, or `ok` false when its argument is missing. */
  method Convert(out0: seq<char>, d: Directive, args: seq<Arg>) returns (out: seq<char>, used: nat, ok: bool)
    ensures var e := Emit(d, args);
      ok == e.Some? && (ok ==> out == out0 + e.value.0 && used == e.value.1) && (!ok ==> out == out0)
  {
    out, used, ok := out0, 0, true;
    var u := UpperCode(d.conv);
    var radix := 0;
    if u == 'S' as int {
      if |args| > 0 && args[0].Text? {
        out := PutText(out, args[0].s, d.width, d.left);
        used := 1;
      } else {
        ok := false;
      }
      return;
    } else if u == 'C' as int {
      if |args| > 0 && args[0].Num? {
        out := out + [(args[0].bits % 0x100) as char];
        used := 1;
      } else {
        ok := false;
      }
      return;
    } else if u == 'B' as int {
      radix := 2;
    } else if u == 'O' as int {
      radix := 8;
    } else if u == 'D' as int || u == 'U' as int {
      radix := 10;
    } else if u == 'X' as int {
      radix := 16;
    } else {
      out := out + [d.conv];
      return;
    }
    if |args| > 0 && args[0].Num? {
      out := PutNumber(out, args[0].bits, d.conv, radix, d.zero, d.left, d.width);
      used := 1;
    } else {
      ok := false;
    }
  }

  /** xvprintf: every character handed to PutCharFunc, in order. */
  method XvPrintf(fmt: seq<char>, args: seq<Arg>) returns (out: seq<char>)
    ensures out == Format(fmt, args)
  {
    out := [];
    var i: nat, a: nat := 0, 0;
    while i < |fmt|
      invariant i <= |fmt| && a <= |args|
      invariant out + Format(fmt[i..], args[a..]) == Format(fmt, args)
      decreases |fmt| - i
    {
      var out', i', a', stop := PutNext(out, fmt, i, args, a);
      if stop {
        FormatStops(fmt[i..], args[a..], out, Format(fmt, args));
        return;
      }
      FormatPass(fmt, i, args, a, out, out', i', a', Format(fmt, args));
      out, i, a := out', i', a';
    }
    FormatStops(fmt[i..], args[a..], out, Format(fmt, args));
  }

  /** Where there is no next pass, what is printed so far is the whole output. */
  lemma FormatStops(f: seq<char>, g: seq<Arg>, out: seq<char>, total: seq<char>)
    requires f == [] || Next(f, g).None?
    requires out + Format(f, g) == total
    ensures out == total
  {
    assert Format(f, g) == [];
    assert out + [] == out;
  }

  /** Format, one pass at a time: what is printed so far plus what remains is the whole output. */
  lemma FormatPass(fmt: seq<char>, i: nat, args: seq<Arg>, a: nat, out: seq<char>,
                   out': seq<char>, i': nat, a': nat, total: seq<char>)
    requires i <= |fmt| && a <= |args| && out + Format(fmt[i..], args[a..]) == total
    requires var n := Next(fmt[i..], args[a..]);
      n.Some? && out' == out + n.value.0 && i' == i + n.value.1 && a' == a + n.value.2
    ensures i' <= |fmt| && a' <= |args| && out' + Format(fmt[i'..], args[a'..]) == total
  {
    var n := Next(fmt[i..], args[a..]).value;
    FormatSteps(fmt[i..], args[a..], fmt[i'..], args[a'..]);
    PassJoin(out, n.0, Format(fmt[i'..], args[a'..]), out', total);
  }

  /** Format unfolded once, with the remaining format and arguments named by the caller. */
  lemma FormatSteps(f: seq<char>, g: seq<Arg>, f': seq<char>, g': seq<Arg>)
    requires var n := Next(f, g); n.Some? && f' == f[n.value.1..] && g' == g[n.value.2..]
    ensures Format(f, g) == Next(f, g).value.0 + Format(f', g')
  {
  }

  /** The output so far, the pass's characters and the rest, however they are grouped. */
  lemma PassJoin(out: seq<char>, piece: seq<char>, rest: seq<char>, out': seq<char>, total: seq<char>)
    requires out + (piece + rest) == total && out' == out + piece
    ensures out' + rest == total
  {
  }

  /**
   * One pass of the loop in xvprintf: a plain character, or a `%` sequence
   * with its argument; `stop` where the C function returns.
   */
  method PutNext(out0: seq<char>, fmt: seq<char>, i0: nat, args: seq<Arg>, a0: nat) returns (out: seq<char>, i: nat, a: nat, stop: bool)
    requires i0 < |fmt| && a0 <= |args|
    ensures var n := Next(fmt[i0..], args[a0..]);
      stop == n.None? && (stop ==> out == out0) &&
      (!stop ==> out == out0 + n.value.0 && i == i0 + n.value.1 && a == a0 + n.value.2)
  {
    var c := fmt[i0];
    assert fmt[i0..][1..] == fmt[i0 + 1..];
    if c == '\0' {
      out, i, a, stop := out0, i0 + 1, a0, true;
    } else if c != '%' {
      out, i, a, stop := out0 + [c], i0 + 1, a0, false;
    } else {
      out, i, a, stop := PutDirective(out0, fmt, i0, args, a0);
    }
  }

  /** A `%` sequence: its flags and width, then the conversion with its argument. */
  method PutDirective(out0: seq<char>, fmt: seq<char>, i0: nat, args: seq<Arg>, a0: nat) returns (out: seq<char>, i: nat, a: nat, stop: bool)
    requires i0 < |fmt| && a0 <= |args|
    ensures var d := Parse(fmt[i0 + 1..]);
      stop == (d.None? || Emit(d.value, args[a0..]).None?) && (stop ==> out == out0) &&
      (!stop ==> var e := Emit(d.value, args[a0..]).value;
        out == out0 + e.0 && i == i0 + 1 + d.value.used && a == a0 + e.1)
  {
    out, i, a, stop := out0, i0 + 1, a0, true;
    var d := ParseDirective(fmt[i..]);
    if d.None? {
      return;
    }
    var used, ok;
    out, used, ok := Convert(out, d.value, args[a..]);
    if ok {
      i, a, stop := i + d.value.used, a + used, false;
    }
  }
}
