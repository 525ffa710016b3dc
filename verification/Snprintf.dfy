/** The portable formatter: a state machine over the format, and a buffer that
    takes what fits. */
module Snprintf {
  import opened Prelude
  import opened Numbers
  import opened Format

  const INT_MAX: nat := 0x7fff_ffff

  /** The buffer holds as much of `out` as fits into `maxlen` characters. */
  ghost predicate Holds(buffer: array<char>, currlen: nat, maxlen: nat, out: string)
    reads buffer
  {
    && maxlen <= buffer.Length && currlen == Min(maxlen, |out|)
    && forall i :: 0 <= i < currlen ==> buffer[i] == out[i]
  }

  /** dopr_outch */
  method OutCh(buffer: array<char>, currlen: nat, maxlen: nat, c: char, ghost out: string) returns (len: nat)
    requires Holds(buffer, currlen, maxlen, out)
    modifies buffer
    ensures Holds(buffer, len, maxlen, out + [c])
    ensures forall i :: maxlen <= i < buffer.Length ==> buffer[i] == old(buffer[i])
  {
    len := currlen;
    if currlen < maxlen {
      buffer[currlen] := c;
      len := currlen + 1;
    }
  }

  lemma RepeatAppend(out: string, c: char, n: nat)
    ensures out + Repeat(c, n) + [c] == out + Repeat(c, n + 1)
  {
  }

  /** The padding loops: `n` times the same character. */
  method OutPad(buffer: array<char>, currlen: nat, maxlen: nat, c: char, n: int, ghost out: string) returns (len: nat)
    requires Holds(buffer, currlen, maxlen, out)
    modifies buffer
    ensures Holds(buffer, len, maxlen, out + Repeat(c, n))
    ensures forall i :: maxlen <= i < buffer.Length ==> buffer[i] == old(buffer[i])
  {
    len := currlen;
    var left := n;
    assert out + Repeat(c, 0) == out;
    while left > 0
      invariant left <= Max(n, 0) && (n > 0 ==> 0 <= left)
      invariant Holds(buffer, len, maxlen, out + Repeat(c, Max(n, 0) - Max(left, 0)))
      invariant forall i :: maxlen <= i < buffer.Length ==> buffer[i] == old(buffer[i])
    {
      RepeatAppend(out, c, n - left);
      len := OutCh(buffer, len, maxlen, c, out + Repeat(c, n - left));
      left := left - 1;
    }
  }

  /** The digit that step `i` of the conversion loop stores. */
  function DigitAt(u: nat, b: Base, upper: bool, i: nat): (r: char) {
    DigitChar(Rem(Shift(u, b, i), b), upper)
  }

  /** The conversion loop of fmtint: the digits, least significant first, in a
      scratch buffer of 20 characters. */
  method ConvertDigits(u: nat, b: Base, upper: bool) returns (convert: array<char>, place: nat)
    ensures fresh(convert) && convert.Length == 20
    ensures place == Places(u, b)
    ensures forall i :: 0 <= i < place ==> convert[i] == Numeral(u, b, place, upper)[place - 1 - i]
  {
    hide Numeral, Quot, DigitChar, Rem;
    convert := new char[20];
    place := 0;
    var uvalue := u;
    var more := true;
    ghost var low := seq(20, i requires 0 <= i => DigitAt(u, b, upper, i));
    while more
      invariant 0 <= place <= 20 && uvalue == Shift(u, b, place)
      invariant place == 0 ==> more
      invariant place > 0 ==> more == (uvalue != 0 && place < 20)
      invariant NumDigits(u, b) == if place > 0 && uvalue == 0 then place else place + NumDigits(uvalue, b)
      invariant forall i :: 0 <= i < place ==> convert[i] == low[i]
      decreases more, 20 - place
    {
      convert[place] := DigitChar(Rem(uvalue, b), upper);
      place := place + 1;
      uvalue := Quot(uvalue, b);
      more := uvalue != 0 && place < 20;
    }
    if place == 20 {
      place := place - 1;
    }
    convert[place] := '\0';
    forall i | 0 <= i < place ensures convert[i] == Numeral(u, b, place, upper)[place - 1 - i] {
      NumeralAt(u, b, place, upper, i);
    }
  }

  /** The digits, most significant first. */
  method OutDigits(buffer: array<char>, currlen: nat, maxlen: nat, convert: array<char>, place: nat,
                   ghost digits: string, ghost out: string) returns (len: nat)
    requires Holds(buffer, currlen, maxlen, out) && buffer != convert
    requires place == |digits| <= convert.Length
    requires forall i :: 0 <= i < place ==> convert[i] == digits[place - 1 - i]
    modifies buffer
    ensures Holds(buffer, len, maxlen, out + digits)
    ensures forall i :: maxlen <= i < buffer.Length ==> buffer[i] == old(buffer[i])
  {
    len := currlen;
    var left := place;
    assert out + digits[..0] == out;
    while left > 0
      invariant 0 <= left <= place
      invariant Holds(buffer, len, maxlen, out + digits[..place - left])
      invariant forall i :: maxlen <= i < buffer.Length ==> buffer[i] == old(buffer[i])
    {
      left := left - 1;
      ghost var done := digits[..place - left - 1];
      assert out + done + [digits[place - left - 1]] == out + digits[..place - left];
      len := OutCh(buffer, len, maxlen, convert[left], out + done);
    }
    assert digits[..place] == digits;
  }

  /** The widths of the padding: spaces (negative: behind) and zeros. */
  method Padding(place: nat, sign: nat, min: int, max: nat, flags: Flags) returns (spadlen: int, zpadlen: int)
    ensures var pad := if flags.zero then 0 else SpacePad(place, sign, min, max);
            spadlen == (if flags.minus then -pad else pad) && zpadlen == ZeroPad(place, sign, min, max, flags)
  {
    zpadlen := max - place;
    spadlen := min - (if max > place then max else place) - sign;
    if zpadlen < 0 {
      zpadlen := 0;
    }
    if spadlen < 0 {
      spadlen := 0;
    }
    if flags.zero {
      zpadlen := if zpadlen > spadlen then zpadlen else spadlen;
      spadlen := 0;
    }
    if flags.minus {
      spadlen := -spadlen;
    }
  }

  method SignAndMagnitude(value: int, unsigned: bool, flags: Flags) returns (sign: string, uvalue: nat)
    ensures sign == Sign(value, unsigned, flags) && uvalue == Magnitude(value, unsigned)
  {
    uvalue := ToUnsignedLong(value);
    sign := "";
    if !unsigned {
      if value < 0 {
        sign := "-";
        uvalue := ToUnsignedLong(-value);
      } else if flags.plus {
        sign := "+";
      } else if flags.space {
        sign := " ";
      }
    }
  }

  /** fmtint */
  method FmtInt(buffer: array<char>, currlen: nat, maxlen: nat, value: int, unsigned: bool, upper: bool,
                b: Base, min: int, prec: int, flags: Flags, ghost out: string) returns (len: nat)
    requires Holds(buffer, currlen, maxlen, out)
    modifies buffer
    ensures Holds(buffer, len, maxlen, out + FormatInt(value, unsigned, upper, b, min, prec, flags))
    ensures forall i :: maxlen <= i < buffer.Length ==> buffer[i] == old(buffer[i])
  {
    hide FormatInt, Repeat, Numeral, Magnitude, Holds;
    var max := if prec < 0 then 0 else prec;
    var sign, uvalue := SignAndMagnitude(value, unsigned, flags);
    var convert, place := ConvertDigits(uvalue, b, upper);
    var spadlen, zpadlen := Padding(place, if sign != "" then 1 else 0, min, max, flags);
    ghost var digits := Numeral(uvalue, b, place, upper);
    len := OutPad(buffer, currlen, maxlen, ' ', spadlen, out);
    ghost var out1 := out + Repeat(' ', spadlen);
    ghost var out2 := out1 + sign;
    if sign != "" {
      len := OutCh(buffer, len, maxlen, sign[0], out1);
    }
    assert out2 == if sign == "" then out1 else out1 + [sign[0]];
    len := OutPad(buffer, len, maxlen, '0', zpadlen, out2);
    ghost var out3 := out2 + Repeat('0', zpadlen);
    len := OutDigits(buffer, len, maxlen, convert, place, digits, out3);
    ghost var out4 := out3 + digits;
    len := OutPad(buffer, len, maxlen, ' ', -spadlen, out4);
    FormatIntParts(value, unsigned, upper, b, min, prec, flags, spadlen, zpadlen);
    Associate5(out, Repeat(' ', spadlen), sign, Repeat('0', zpadlen), digits, Repeat(' ', -spadlen));
  }

  lemma Associate5(out: string, a: string, b: string, c: string, d: string, e: string)
    ensures out + (a + b + c + d + e) == out + a + b + c + d + e
  {
  }

  /** A signed space padding: positive in front, negative behind. */
  lemma FormatIntParts(value: int, unsigned: bool, upper: bool, b: Base, min: int, prec: int, flags: Flags,
                       spadlen: int, zpadlen: int)
    requires var u, sign := Magnitude(value, unsigned), Sign(value, unsigned, flags);
      var place := Places(u, b);
      var pad := if flags.zero then 0 else SpacePad(place, |sign|, min, Max(prec, 0));
      && spadlen == (if flags.minus then -pad else pad)
      && zpadlen == ZeroPad(place, |sign|, min, Max(prec, 0), flags)
    ensures var u, sign := Magnitude(value, unsigned), Sign(value, unsigned, flags);
      FormatInt(value, unsigned, upper, b, min, prec, flags) ==
        Repeat(' ', spadlen) + sign + Repeat('0', zpadlen) + Numeral(u, b, Places(u, b), upper) + Repeat(' ', -spadlen)
  {
    var u, sign := Magnitude(value, unsigned), Sign(value, unsigned, flags);
    var middle := sign + Repeat('0', zpadlen) + Numeral(u, b, Places(u, b), upper);
    if spadlen <= 0 {
      assert Repeat(' ', spadlen) == "";
    }
    if spadlen >= 0 {
      assert Repeat(' ', -spadlen) == "";
    }
  }

  // ---- Strings ----

  /** `p` is the text `s` with `pad` blanks in front of it or behind. */
  ghost predicate IsPadded(p: string, s: string, pad: nat, minus: bool) {
    && |p| == pad + |s|
    && var lead := if minus then 0 else pad;
       forall i :: 0 <= i < |p| ==> p[i] == if lead <= i < lead + |s| then s[i - lead] else ' '
  }

  /** The three loops of fmtstr: blanks, text, blanks, until `max` characters
      are written.  A negative `padlen` stands for blanks behind the text. */
  method OutPadded(buffer: array<char>, currlen: nat, maxlen: nat, s: string, padlen: int, max: nat,
                   ghost p: string, ghost out: string) returns (len: nat)
    requires Holds(buffer, currlen, maxlen, out)
    requires IsPadded(p, s, if padlen < 0 then -padlen else padlen, padlen < 0)
    modifies buffer
    ensures Holds(buffer, len, maxlen, out + p[..Min(max, |p|)])
    ensures forall i :: maxlen <= i < buffer.Length ==> buffer[i] == old(buffer[i])
  {
    len := currlen;
    var left, cnt, i := padlen, 0, 0;
    ghost var lead := Max(padlen, 0);
    assert out + p[..0] == out;
    while left > 0 && cnt < max
      invariant cnt <= max && cnt <= lead && left == padlen - cnt
      invariant Holds(buffer, len, maxlen, out + p[..cnt])
      invariant forall i :: maxlen <= i < buffer.Length ==> buffer[i] == old(buffer[i])
    {
      len := OutNext(buffer, len, maxlen, p, cnt, out, ' ');
      left := left - 1;
      cnt := cnt + 1;
    }
    while i < |s| && cnt < max
      invariant 0 <= i <= |s| && cnt <= max && (cnt == lead + i || (cnt == max && i == 0 && cnt <= lead))
      invariant Holds(buffer, len, maxlen, out + p[..cnt])
      invariant forall i :: maxlen <= i < buffer.Length ==> buffer[i] == old(buffer[i])
    {
      len := OutNext(buffer, len, maxlen, p, cnt, out, s[i]);
      i := i + 1;
      cnt := cnt + 1;
    }
    while left < 0 && cnt < max
      invariant cnt <= max && cnt <= |p| && (left < 0 ==> padlen < 0)
      invariant cnt == max || cnt == if padlen < 0 then |p| + left else |p|
      invariant padlen < 0 ==> left <= 0
      invariant Holds(buffer, len, maxlen, out + p[..cnt])
      invariant forall i :: maxlen <= i < buffer.Length ==> buffer[i] == old(buffer[i])
    {
      len := OutNext(buffer, len, maxlen, p, cnt, out, ' ');
      left := left + 1;
      cnt := cnt + 1;
    }
  }

  /** fmtstr */
  method FmtStr(buffer: array<char>, currlen: nat, maxlen: nat, value: Option<string>, flags: Flags,
                min: int, max: nat, ghost out: string) returns (len: nat)
    requires Holds(buffer, currlen, maxlen, out)
    modifies buffer
    ensures var p := Padded(Text(value), min, flags.minus);
            Holds(buffer, len, maxlen, out + p[..Min(max, |p|)])
    ensures forall i :: maxlen <= i < buffer.Length ==> buffer[i] == old(buffer[i])
  {
    var s := if value.None? then "<NULL>" else value.value;
    var padlen := min - |s|;
    if padlen < 0 {
      padlen := 0;
    }
    if flags.minus {
      padlen := -padlen;
    }
    len := OutPadded(buffer, currlen, maxlen, s, padlen, max, Padded(s, min, flags.minus), out);
  }

  /** Writes the next character `c` of `p`. */
  method OutNext(buffer: array<char>, currlen: nat, maxlen: nat, ghost p: string, ghost cnt: nat, ghost out: string,
                 c: char) returns (len: nat)
    requires cnt < |p| && p[cnt] == c && Holds(buffer, currlen, maxlen, out + p[..cnt])
    modifies buffer
    ensures Holds(buffer, len, maxlen, out + p[..cnt + 1])
    ensures forall i :: maxlen <= i < buffer.Length ==> buffer[i] == old(buffer[i])
  {
    assert out + p[..cnt] + [c] == out + p[..cnt + 1];
    len := OutCh(buffer, currlen, maxlen, c, out + p[..cnt]);
  }

  /** Once the buffer is full, what else was to be written does not matter: a
      default precision of `maxlen` is as good as none. */
  lemma HoldsAnyway(buffer: array<char>, currlen: nat, maxlen: nat, out: string, p: string)
    requires Holds(buffer, currlen, maxlen, out + p[..Min(maxlen, |p|)])
    ensures Holds(buffer, currlen, maxlen, out + p)
  {
  }

  method OutText(buffer: array<char>, currlen: nat, maxlen: nat, s: string, ghost out: string) returns (len: nat)
    requires Holds(buffer, currlen, maxlen, out)
    modifies buffer
    ensures Holds(buffer, len, maxlen, out + s)
    ensures forall i :: maxlen <= i < buffer.Length ==> buffer[i] == old(buffer[i])
  {
    len := currlen;
    var i := 0;
    assert out + s[..0] == out;
    while i < |s|
      invariant 0 <= i <= |s| && Holds(buffer, len, maxlen, out + s[..i])
      invariant forall i :: maxlen <= i < buffer.Length ==> buffer[i] == old(buffer[i])
    {
      len := OutNext(buffer, len, maxlen, s, i, out, s[i]);
      i := i + 1;
    }
    assert s[..i] == s;
  }

  // ---- The machine ----

  /** The conversion `c`. */
  method OutConversion(buffer: array<char>, currlen: nat, maxlen: nat, c: char, sp: Spec, a: Arg, fp: FloatFormat,
                       ghost out: string) returns (len: nat)
    requires Holds(buffer, currlen, maxlen, out)
    modifies buffer
    ensures Holds(buffer, len, maxlen, out + Convert(c, sp, a, fp))
    ensures forall i :: maxlen <= i < buffer.Length ==> buffer[i] == old(buffer[i])
  {
    len := currlen;
    assert out + "" == out;
    match c {
      case 'd' | 'i' =>
        len := FmtInt(buffer, len, maxlen, SignedArg(sp.length, a.num), false, false, Decimal,
                      sp.min, sp.max, sp.flags, out);
      case 'o' =>
        len := FmtInt(buffer, len, maxlen, UnsignedArg(sp.length, a.num), true, false, Octal,
                      sp.min, sp.max, sp.flags, out);
      case 'u' =>
        len := FmtInt(buffer, len, maxlen, UnsignedArg(sp.length, a.num), true, false, Decimal,
                      sp.min, sp.max, sp.flags, out);
      case 'X' =>
        len := FmtInt(buffer, len, maxlen, UnsignedArg(sp.length, a.num), true, true, Hex,
                      sp.min, sp.max, sp.flags, out);
      case 'x' =>
        len := FmtInt(buffer, len, maxlen, UnsignedArg(sp.length, a.num), true, false, Hex,
                      sp.min, sp.max, sp.flags, out);
      case 'p' =>
        len := FmtInt(buffer, len, maxlen, ToLong(a.num), false, false, Hex,
                      sp.min, sp.max, sp.flags, out);
      case 'f' =>
        len := OutText(buffer, len, maxlen, fp(a, sp), out);
      case 'c' =>
        len := OutCh(buffer, len, maxlen, (a.num % 256) as char, out);
      case 's' =>
        var max := if sp.max < 0 then maxlen else sp.max;
        len := FmtStr(buffer, len, maxlen, a.str, sp.flags, sp.min, max, out);
        if sp.max < 0 {
          HoldsAnyway(buffer, len, maxlen, out, Padded(Text(a.str), sp.min, sp.flags.minus));
        }
      case '%' =>
        len := OutCh(buffer, len, maxlen, c, out);
      case _ =>
    }
  }

  /** The machine's registers: the character `ch` is the one at index `q` of the
      format, which ends with a NUL. */
  datatype Machine = Machine(st: State, sp: Spec, q: nat, args: seq<Arg>)

  /** What the machine in this configuration would still write. */
  ghost function Remaining(m: Machine, fmt: string, conv: Converter): (r: string)
    requires m.q <= |fmt|
  {
    Expand(m.st, m.sp, fmt[m.q..], m.args, conv)
  }

  /** The NUL is never passed: the format is not over, or nothing was read
      beyond it. */
  ghost predicate Inside(m: Machine, fmt: string) {
    m.q <= |fmt| && Terminated(m.st, fmt[m.q..])
  }

  /** One transition that writes nothing: from the states between `%` and the
      conversion. */
  method ReadSpec(fmt: string, m: Machine, ghost conv: Converter) returns (m': Machine)
    requires m.q < |fmt| && Inside(m, fmt) && m.st != Default && m.st != InConv
    ensures Inside(m', fmt) && Remaining(m', fmt, conv) == Remaining(m, fmt, conv)
    ensures m.q < m'.q || (m.q == m'.q && Rank(m'.st) < Rank(m.st))
  {
    var ch, sp := fmt[m.q], m.sp;
    assert fmt[m.q..][0] == ch && fmt[m.q..][1..] == fmt[m.q + 1..];
    match m.st
    case InFlags =>
      if ch == '-' || ch == '+' || ch == ' ' || ch == '#' || ch == '0' {
        return m.(q := m.q + 1, sp := sp.(flags := AddFlag(sp.flags, ch)));
      }
      return m.(st := InMin);
    case InMin =>
      if IsDigit(ch) {
        return m.(q := m.q + 1, sp := sp.(min := 10 * sp.min + (ch as int - '0' as int)));
      } else if ch == '*' {
        return Machine(InDot, sp.(min := ToInt(First(m.args).num)), m.q + 1, Others(m.args));
      }
      return m.(st := InDot);
    case InDot =>
      if ch == '.' {
        return m.(st := InMax, q := m.q + 1);
      }
      return m.(st := InMod);
    case InMax =>
      if IsDigit(ch) {
        var max := if sp.max < 0 then 0 else sp.max;
        return m.(q := m.q + 1, sp := sp.(max := 10 * max + (ch as int - '0' as int)));
      } else if ch == '*' {
        return Machine(InMod, sp.(max := ToInt(First(m.args).num)), m.q + 1, Others(m.args));
      }
      return m.(st := InMod);
    case InMod =>
      match ch {
        case 'h' => return m.(st := InConv, q := m.q + 1, sp := sp.(length := Short));
        case 'l' =>
          if m.q + 1 < |fmt| && fmt[m.q + 1] == 'l' {
            assert fmt[m.q + 1..][1..] == fmt[m.q + 2..];
            return m.(st := InConv, q := m.q + 2, sp := sp.(length := LongLong));
          }
          return m.(st := InConv, q := m.q + 1, sp := sp.(length := Long));
        case 'q' => return m.(st := InConv, q := m.q + 1, sp := sp.(length := LongLong));
        case 'L' => return m.(st := InConv, q := m.q + 1, sp := sp.(length := LongDouble));
        case _ => return m.(st := InConv);
      }
  }

  function AfterText(m: Machine, ch: char): (r: Machine) {
    if ch == '%' then m.(st := InFlags, q := m.q + 1) else m.(q := m.q + 1)
  }

  lemma TextStep(m: Machine, fmt: string, conv: Converter)
    requires m.q < |fmt| && Inside(m, fmt) && m.st == Default
    ensures var ch, m' := fmt[m.q], AfterText(m, fmt[m.q]);
      && Inside(m', fmt)
      && Remaining(m, fmt, conv) == (if ch == '%' then "" else [ch]) + Remaining(m', fmt, conv)
  {
    assert fmt[m.q..][0] == fmt[m.q] && fmt[m.q..][1..] == fmt[m.q + 1..];
  }

  function AfterConversion(m: Machine, ch: char): (r: Machine) {
    Machine(Default, NO_SPEC, if ch == 'w' then m.q + 2 else m.q + 1, if TakesArg(ch) then Others(m.args) else m.args)
  }

  lemma ConversionStep(m: Machine, fmt: string, conv: Converter)
    requires m.q < |fmt| && Inside(m, fmt) && m.st == InConv
    ensures var ch, m' := fmt[m.q], AfterConversion(m, fmt[m.q]);
      && Inside(m', fmt)
      && Remaining(m, fmt, conv) == conv(ch, m.sp, First(m.args)) + Remaining(m', fmt, conv)
  {
    var rest := fmt[m.q + 1..];
    assert fmt[m.q..][0] == fmt[m.q] && fmt[m.q..][1..] == rest;
    if fmt[m.q] == 'w' {
      assert rest != "" && rest[1..] == fmt[m.q + 2..];
    }
  }

  /** One turn of the machine, and what it wrote. */
  method Turn(buffer: array<char>, currlen: nat, maxlen: nat, fmt: string, m: Machine, fp: FloatFormat,
              ghost conv: Converter, ghost out: string) returns (len: nat, m': Machine, ghost written: string)
    requires conv == Conversions(fp)
    requires m.q < |fmt| && Inside(m, fmt) && Holds(buffer, currlen, maxlen, out)
    modifies buffer
    ensures Inside(m', fmt) && Remaining(m, fmt, conv) == written + Remaining(m', fmt, conv)
    ensures m.q < m'.q || (m.q == m'.q && Rank(m'.st) < Rank(m.st))
    ensures Holds(buffer, len, maxlen, out + written)
    ensures forall i :: maxlen <= i < buffer.Length ==> buffer[i] == old(buffer[i])
  {
    var ch := fmt[m.q];
    len, written := currlen, "";
    assert out + "" == out;
    match m.st {
      case Default =>
        TextStep(m, fmt, conv);
        m' := AfterText(m, ch);
        if ch != '%' {
          len := OutCh(buffer, currlen, maxlen, ch, out);
          written := [ch];
        }
      case InConv =>
        ConversionStep(m, fmt, conv);
        m' := AfterConversion(m, ch);
        written := conv(ch, m.sp, First(m.args));
        len := OutConversion(buffer, currlen, maxlen, ch, m.sp, First(m.args), fp, out);
      case _ =>
        m' := ReadSpec(fmt, m, conv);
    }
  }

  lemma Written(whole: string, emitted: string, before: string, written: string, after: string)
    requires emitted + before == whole && before == written + after
    ensures (emitted + written) + after == whole
  {
  }

  /** Ends the string where the output ends or the buffer does. */
  method Terminate(buffer: array<char>, currlen: nat, maxlen: nat, ghost out: string, ghost whole: string)
    requires 1 <= maxlen && Holds(buffer, currlen, maxlen, out)
    requires out <= whole && (currlen < maxlen ==> out == whole)
    modifies buffer
    ensures var k := Min(maxlen - 1, |whole|); buffer[..k] == whole[..k] && buffer[k] == '\0'
    ensures forall i :: maxlen <= i < buffer.Length ==> buffer[i] == old(buffer[i])
  {
    if currlen < maxlen - 1 {
      buffer[currlen] := '\0';
    } else {
      buffer[maxlen - 1] := '\0';
    }
  }

  /** dopr: for every format and argument list the buffer gets the first
      `maxlen - 1` characters of the unbounded output and a NUL, and nothing
      beyond `maxlen` is touched.  Every index into `fmt` is checked, so nothing
      is read past its NUL; and the loop terminates. */
  method Dopr(buffer: array<char>, maxlen: nat, fmt: string, args: seq<Arg>, fp: FloatFormat)
    requires 1 <= maxlen <= buffer.Length && maxlen <= INT_MAX
    requires '\0' !in fmt && Terminated(Default, fmt)
    modifies buffer
    ensures var out := Output(fmt, args, Conversions(fp)); var k := Min(maxlen - 1, |out|);
            buffer[..k] == out[..k] && buffer[k] == '\0'
    ensures forall i :: maxlen <= i < buffer.Length ==> buffer[i] == old(buffer[i])
  {
    ghost var conv := Conversions(fp);
    ghost var whole, emitted := Output(fmt, args, conv), "";
    var m := Machine(Default, NO_SPEC, 0, args);
    var currlen: nat := 0;
    assert fmt[0..] == fmt;
    ghost var rest := Remaining(m, fmt, conv);
    while m.q < |fmt| && currlen < maxlen
      invariant Inside(m, fmt) && rest == Remaining(m, fmt, conv)
      invariant Holds(buffer, currlen, maxlen, emitted)
      invariant emitted + rest == whole
      invariant forall i :: maxlen <= i < buffer.Length ==> buffer[i] == old(buffer[i])
      decreases |fmt| - m.q, Rank(m.st)
    {
      ghost var written, before := "", rest;
      currlen, m, written := Turn(buffer, currlen, maxlen, fmt, m, fp, conv, emitted);
      rest := Remaining(m, fmt, conv);
      Written(whole, emitted, before, written, rest);
      emitted := emitted + written;
    }
    Terminate(buffer, currlen, maxlen, emitted, whole);
  }

  /** vsnprintf: the string left in `str` is a prefix of the unbounded output,
      and the result is its length: all of it or `count - 1` characters, or
      less if the output itself contains a NUL. */
  method Vsnprintf(str: array<char>, count: nat, fmt: string, args: seq<Arg>, fp: FloatFormat) returns (n: nat)
    requires 1 <= count <= str.Length && count <= INT_MAX
    requires '\0' !in fmt && Terminated(Default, fmt)
    modifies str
    ensures var out := Output(fmt, args, Conversions(fp));
      && n <= Min(count - 1, |out|) && str[..n] == out[..n] && str[n] == '\0' && '\0' !in str[..n]
      && ('\0' !in out[..Min(count - 1, |out|)] ==> n == Min(count - 1, |out|))
      && (n < Min(count - 1, |out|) ==> out[n] == '\0')
    ensures forall i :: count <= i < str.Length ==> str[i] == old(str[i])
  {
    str[0] := '\0';
    Dopr(str, count, fmt, args, fp);
    ghost var out := Output(fmt, args, Conversions(fp));
    ghost var k := Min(count - 1, |out|);
    assert str[k] == '\0';
    n := StrLen(str);
    assert str[..n] == str[..k][..n] == out[..n];
    if n < k {
      assert str[n] == str[..k][n] == out[n];
      assert out[n] == out[..k][n];
    }
  }
}
