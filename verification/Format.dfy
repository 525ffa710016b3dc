/** What the portable formatter writes when nothing limits its output. */
module Format {
  import opened Prelude
  import opened Numbers

  datatype Flags = Flags(minus: bool, plus: bool, space: bool, num: bool, zero: bool)

  datatype Length = NoLength | Short | Long | LongDouble | LongLong

  /** One argument of the list, as an integer, a pointer or a float would be
      read from it (`num`), and as a string would (`str`, None for NULL). */
  datatype Arg = Arg(num: int, str: Option<string>)

  const NO_ARG := Arg(0, None)

  function First(args: seq<Arg>): (r: Arg) { if args == [] then NO_ARG else args[0] }

  function Others(args: seq<Arg>): (r: seq<Arg>) { if args == [] then [] else args[1..] }

  /** What was read of a conversion specification: `max` is negative when no
      precision was given. */
  datatype Spec = Spec(flags: Flags, min: int, max: int, length: Length)

  const NO_FLAGS := Flags(false, false, false, false, false)
  const NO_SPEC := Spec(NO_FLAGS, 0, -1, NoLength)

  /** The conversion of a floating-point argument is left to the caller. */
  type FloatFormat = (Arg, Spec) -> string

  // ---- Integers ----

  const TWO31: int := 0x8000_0000
  const TWO32: int := 0x1_0000_0000
  const TWO63: int := 0x8000_0000_0000_0000
  const TWO64: int := 0x1_0000_0000_0000_0000

  // Conversions wrap around; a number in range is itself.
  function ToInt(n: int): (r: int) { if -TWO31 <= n < TWO31 then n else (n + TWO31) % TWO32 - TWO31 }
  function ToUnsigned(n: int): (r: int) { if 0 <= n < TWO32 then n else n % TWO32 }
  function ToLong(n: int): (r: int) { if -TWO63 <= n < TWO63 then n else (n + TWO63) % TWO64 - TWO63 }
  function ToUnsignedLong(n: int): (u: nat) { if 0 <= n < TWO64 then n else n % TWO64 }

  function SignedArg(length: Length, n: int): (r: int) {
    if length == Long || length == LongLong then ToLong(n) else ToInt(n)
  }

  function UnsignedArg(length: Length, n: int): (r: int) {
    if length == Long || length == LongLong then ToLong(n) else ToUnsigned(n)
  }

  /** The sign character, if one is printed. */
  function Sign(value: int, unsigned: bool, flags: Flags): (r: string) {
    if unsigned then ""
    else if value < 0 then "-"
    else if flags.plus then "+"
    else if flags.space then " "
    else ""
  }

  /** The number whose digits are printed. */
  function Magnitude(value: int, unsigned: bool): (u: nat)
    ensures u < TWO64
  {
    if !unsigned && value < 0 then ToUnsignedLong(-value) else ToUnsignedLong(value)
  }

  /** The scratch buffer holds 19 digits. */
  const MAX_PLACES: nat := 19

  function Places(u: nat, b: Base): (r: nat) { Min(NumDigits(u, b), MAX_PLACES) }

  function ZeroPad(place: nat, sign: nat, min: int, max: nat, flags: Flags): (r: int) {
    var zeros := Max(max - place, 0);
    if flags.zero then Max(zeros, SpacePad(place, sign, min, max)) else zeros
  }

  function SpacePad(place: nat, sign: nat, min: int, max: nat): (r: int) {
    Max(min - Max(max, place) - sign, 0)
  }

  /** fmtint: spaces, sign, zeros and digits, or the spaces at the end. */
  function FormatInt(value: int, unsigned: bool, upper: bool, b: Base, min: int, prec: int, flags: Flags): (r: string) {
    var u := Magnitude(value, unsigned);
    var place := Places(u, b);
    var sign := Sign(value, unsigned, flags);
    var max := Max(prec, 0);
    var spaces := Repeat(' ', if flags.zero then 0 else SpacePad(place, |sign|, min, max));
    (if flags.minus then "" else spaces)
    + sign + Repeat('0', ZeroPad(place, |sign|, min, max, flags))
    + Numeral(u, b, place, upper)
    + (if flags.minus then spaces else "")
  }

  // ---- Strings ----

  function Text(value: Option<string>): (r: string) { if value.None? then "<NULL>" else value.value }

  function Padded(s: string, min: int, minus: bool): (r: string) {
    var pad := Repeat(' ', min - |s|);
    if minus then s + pad else pad + s
  }

  /** fmtstr: a precision cuts the padded string. */
  function FormatStr(value: Option<string>, min: int, prec: int, flags: Flags): (r: string) {
    var s := Padded(Text(value), min, flags.minus);
    if 0 <= prec < |s| then s[..prec] else s
  }

  // ---- The format machine ----

  datatype State = Default | InFlags | InMin | InDot | InMax | InMod | InConv

  function Rank(st: State): (r: nat) {
    match st
    case Default => 0
    case InConv => 1
    case InMod => 2
    case InMax => 3
    case InDot => 4
    case InMin => 5
    case InFlags => 6
  }

  predicate IsFlag(c: char) { c == '-' || c == '+' || c == ' ' || c == '#' || c == '0' }

  function AddFlag(flags: Flags, c: char): (r: Flags) {
    match c
    case '-' => flags.(minus := true)
    case '+' => flags.(plus := true)
    case ' ' => flags.(space := true)
    case '#' => flags.(num := true)
    case _ => flags.(zero := true)
  }

  /** The text of a conversion. */
  function Convert(c: char, sp: Spec, a: Arg, fp: FloatFormat): (r: string) {
    match c
    case 'd' => FormatInt(SignedArg(sp.length, a.num), false, false, Decimal, sp.min, sp.max, sp.flags)
    case 'i' => FormatInt(SignedArg(sp.length, a.num), false, false, Decimal, sp.min, sp.max, sp.flags)
    case 'o' => FormatInt(UnsignedArg(sp.length, a.num), true, false, Octal, sp.min, sp.max, sp.flags)
    case 'u' => FormatInt(UnsignedArg(sp.length, a.num), true, false, Decimal, sp.min, sp.max, sp.flags)
    case 'x' => FormatInt(UnsignedArg(sp.length, a.num), true, false, Hex, sp.min, sp.max, sp.flags)
    case 'X' => FormatInt(UnsignedArg(sp.length, a.num), true, true, Hex, sp.min, sp.max, sp.flags)
    case 'p' => FormatInt(ToLong(a.num), false, false, Hex, sp.min, sp.max, sp.flags)
    case 'f' => fp(a, sp)
    case 'c' => [(a.num % 256) as char]
    case 's' => FormatStr(a.str, sp.min, sp.max, sp.flags)
    case '%' => "%"
    case _ => ""
  }

  predicate TakesArg(c: char) { c in "diouxXpfeEgGcsn" }

  /** What prints a conversion: its character, its specification, its argument. */
  type Converter = (char, Spec, Arg) -> string

  function Conversions(fp: FloatFormat): (r: Converter) {
    (c: char, sp: Spec, a: Arg) => Convert(c, sp, a, fp)
  }

  /** The output that remains in state `st`, before the format `fmt`. */
  function Expand(st: State, sp: Spec, fmt: string, args: seq<Arg>, conv: Converter): (r: string)
    decreases |fmt|, Rank(st)
  {
    if fmt == "" then ""
    else
      var c, rest := fmt[0], fmt[1..];
      match st
      case Default =>
        if c == '%' then Expand(InFlags, sp, rest, args, conv) else [c] + Expand(Default, sp, rest, args, conv)
      case InFlags =>
        if IsFlag(c) then Expand(InFlags, sp.(flags := AddFlag(sp.flags, c)), rest, args, conv)
        else Expand(InMin, sp, fmt, args, conv)
      case InMin =>
        if IsDigit(c) then Expand(InMin, sp.(min := 10 * sp.min + DigitValue(c)), rest, args, conv)
        else if c == '*' then Expand(InDot, sp.(min := ToInt(First(args).num)), rest, Others(args), conv)
        else Expand(InDot, sp, fmt, args, conv)
      case InDot =>
        if c == '.' then Expand(InMax, sp, rest, args, conv) else Expand(InMod, sp, fmt, args, conv)
      case InMax =>
        if IsDigit(c) then Expand(InMax, sp.(max := 10 * Max(sp.max, 0) + DigitValue(c)), rest, args, conv)
        else if c == '*' then Expand(InMod, sp.(max := ToInt(First(args).num)), rest, Others(args), conv)
        else Expand(InMod, sp, fmt, args, conv)
      case InMod =>
        if c == 'h' then Expand(InConv, sp.(length := Short), rest, args, conv)
        else if c == 'l' && At(rest, 0) == 'l' then Expand(InConv, sp.(length := LongLong), rest[1..], args, conv)
        else if c == 'l' then Expand(InConv, sp.(length := Long), rest, args, conv)
        else if c == 'q' then Expand(InConv, sp.(length := LongLong), rest, args, conv)
        else if c == 'L' then Expand(InConv, sp.(length := LongDouble), rest, args, conv)
        else Expand(InConv, sp, fmt, args, conv)
      case InConv =>
        conv(c, sp, First(args))
        + Expand(Default, NO_SPEC, if c == 'w' && rest != "" then rest[1..] else rest,
                 if TakesArg(c) then Others(args) else args, conv)
  }

  /** No conversion `w`, which swallows the next character, ends the format. */
  predicate Terminated(st: State, fmt: string)
    decreases |fmt|, Rank(st)
  {
    if fmt == "" then true
    else
      var c, rest := fmt[0], fmt[1..];
      match st
      case Default => Terminated(if c == '%' then InFlags else Default, rest)
      case InFlags => if IsFlag(c) then Terminated(InFlags, rest) else Terminated(InMin, fmt)
      case InMin =>
        if IsDigit(c) then Terminated(InMin, rest)
        else if c == '*' then Terminated(InDot, rest) else Terminated(InDot, fmt)
      case InDot => if c == '.' then Terminated(InMax, rest) else Terminated(InMod, fmt)
      case InMax =>
        if IsDigit(c) then Terminated(InMax, rest)
        else if c == '*' then Terminated(InMod, rest) else Terminated(InMod, fmt)
      case InMod =>
        if c == 'l' && At(rest, 0) == 'l' then Terminated(InConv, rest[1..])
        else if c in "hlqL" then Terminated(InConv, rest) else Terminated(InConv, fmt)
      case InConv => if c == 'w' then rest != "" && Terminated(Default, rest[1..]) else Terminated(Default, rest)
  }

  /** The unbounded output. */
  function Output(fmt: string, args: seq<Arg>, conv: Converter): (r: string) {
    Expand(Default, NO_SPEC, fmt, args, conv)
  }
}
