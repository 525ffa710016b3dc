/** What each conversion of the formatter prints for its argument. */
module ConversionTheory {
  import opened Prelude
  import opened Numbers
  import opened Format
  import opened FormatTheory

  // ---- The parts of a conversion and its arguments ----

  /** How many arguments the width and the precision take. */
  function Stars(p: Piece): (k: nat)
    requires p.Conversion?
  {
    (if p.width.WidthArg? then 1 else 0) + (if p.prec.PrecisionArg? then 1 else 0)
  }

  predicate IsInt(n: int) { -0x8000_0000 <= n < 0x8000_0000 }

  /** A conversion whose `*`s find ints, with its own argument behind them. */
  predicate Supplied(p: Piece, args: seq<Arg>) {
    && p.Conversion? && Valid(p) && |args| > Stars(p)
    && forall i :: 0 <= i < Stars(p) ==> IsInt(args[i].num)
  }

  function MinWidth(p: Piece, args: seq<Arg>): (r: int)
    requires Supplied(p, args)
  {
    match p.width case NoWidth => 0 case Width(n) => n case WidthArg => args[0].num
  }

  /** Negative if there is none; a lone `.` is none. */
  function MinDigits(p: Piece, args: seq<Arg>): (r: int)
    requires Supplied(p, args)
  {
    match p.prec
    case NoPrecision => -1
    case Dot => -1
    case Precision(n) => n
    case PrecisionArg => args[Stars(p) - 1].num
  }

  function Joined(flags: Flags, fs: string): (r: Flags) {
    Flags(flags.minus || '-' in fs, flags.plus || '+' in fs, flags.space || ' ' in fs,
          flags.num || '#' in fs, flags.zero || '0' in fs)
  }

  lemma JoinedStep(flags: Flags, fs: string)
    requires fs != "" && IsFlag(fs[0])
    ensures Joined(AddFlag(flags, fs[0]), fs[1..]) == Joined(flags, fs)
  {
    forall c: char
      ensures c in fs <==> c == fs[0] || c in fs[1..]
    {
      assert fs == [fs[0]] + fs[1..];
    }
  }

  lemma {:induction false} FlagsAdded(flags: Flags, fs: string)
    requires forall i :: 0 <= i < |fs| ==> IsFlag(fs[i])
    ensures AddFlags(flags, fs) == Joined(flags, fs)
    decreases |fs|
  {
    if fs != "" {
      FlagsAdded(AddFlag(flags, fs[0]), fs[1..]);
      JoinedStep(flags, fs);
    }
  }

  function FlagsOf(fs: string): (r: Flags) { Flags('-' in fs, '+' in fs, ' ' in fs, '#' in fs, '0' in fs) }

  /** A conversion prints one argument, with what the specification says, and
      leaves the arguments behind it to what follows. */
  lemma Converts(p: Piece, rest: string, args: seq<Arg>, conv: Converter)
    requires Supplied(p, args) && p.conv in "diouxXpfeEgGcsn"
    ensures Output(Show(p) + rest, args, conv)
         == conv(p.conv, Spec(FlagsOf(p.flags), MinWidth(p, args), MinDigits(p, args), p.length), args[Stars(p)])
            + Output(rest, args[Stars(p) + 1..], conv)
  {
    hide Expand, Show, AddFlags;
    ReadPiece(p, rest, args, conv);
    FlagsAdded(NO_FLAGS, p.flags);
    TakenInOrder(p, args);
  }

  lemma TakenInOrder(p: Piece, args: seq<Arg>)
    requires Supplied(p, args)
    ensures var (min, args1) := WidthOf(p.width, args);
            var (max, args2) := PrecisionOf(p.prec, args1);
            && min == MinWidth(p, args) && max == MinDigits(p, args)
            && First(args2) == args[Stars(p)] && Others(args2) == args[Stars(p) + 1..]
  {
  }

  // ---- Integers ----

  predicate IsSigned(c: char) { c == 'd' || c == 'i' || c == 'p' }

  /** `n` is of the C type that the conversion and its length name; a pointer is
      printed as a long. */
  predicate InType(c: char, length: Length, n: int) {
    var long := length == Long || length == LongLong || c == 'p';
    if IsSigned(c) then if long then -0x8000_0000_0000_0000 <= n < 0x8000_0000_0000_0000 else IsInt(n)
    else 0 <= n < if long then 0x1_0000_0000_0000_0000 else 0x1_0000_0000
  }

  function Notation(c: char): (b: Base) {
    match c case 'o' => Octal case 'x' => Hex case 'X' => Hex case 'p' => Hex case _ => Decimal
  }

  function Abs(n: int): (r: nat) { if n < 0 then -n else n }

  /** The argument reaches the printing of digits undamaged. */
  lemma ReachesDigits(c: char, sp: Spec, a: Arg, fp: FloatFormat) returns (value: int, unsigned: bool)
    requires c in "diouxXp" && InType(c, sp.length, a.num)
    ensures Conversions(fp)(c, sp, a) == FormatInt(value, unsigned, c == 'X', Notation(c), sp.min, sp.max, sp.flags)
    ensures Magnitude(value, unsigned) == Abs(a.num)
    ensures unsigned <==> c in "ouxX"
    ensures !unsigned ==> value == a.num
  {
    hide FormatInt, Magnitude, UnsignedArg;
    unsigned := !IsSigned(c);
    if c == 'p' {
      value := ToLong(a.num);
      SignedIsSame(Long, a.num);
    } else if unsigned {
      value := UnsignedArg(sp.length, a.num);
      UnsignedIsExact(sp.length, a.num);
    } else {
      value := SignedArg(sp.length, a.num);
      SignedIsSame(sp.length, a.num);
    }
  }

  lemma UnsignedIsExact(length: Length, n: int)
    requires InType('u', length, n)
    ensures Magnitude(UnsignedArg(length, n), true) == n
  {
  }

  lemma SignedIsSame(length: Length, n: int)
    requires InType('d', length, n)
    ensures SignedArg(length, n) == n && Magnitude(n, false) == Abs(n)
  {
  }

  const LOWER := "0123456789abcdef"
  const UPPER := "0123456789ABCDEF"

  lemma {:induction false} NumeralLetters(u: nat, b: Base, n: nat, upper: bool)
    ensures forall i :: 0 <= i < n ==> Numeral(u, b, n, upper)[i] in (if upper then UPPER else LOWER)
  {
    if n > 0 {
      assert DigitChar(Rem(u, b), upper) in (if upper then UPPER else LOWER);
      NumeralLetters(Quot(u, b), b, n - 1, upper);
    }
  }

  /** The digits of a number: no more than 19, and none in front that is not
      needed. */
  ghost predicate AreDigitsOf(ds: string, u: nat, b: Base, upper: bool) {
    && AllDigits(ds, b) && |ds| <= 19 && Value(ds, b) == u % Pow(b, 19)
    && (|ds| > 1 ==> Pow(b, |ds| - 1) <= u)
    && forall i :: 0 <= i < |ds| ==> ds[i] in (if upper then UPPER else LOWER)
  }

  lemma ManyDigits(u: nat, b: Base)
    ensures NumDigits(u, b) > 1 ==> u >= Radix(b)
  {
  }

  lemma DigitsPrinted(u: nat, b: Base, upper: bool)
    ensures AreDigitsOf(Numeral(u, b, Places(u, b), upper), u, b, upper)
  {
    hide Numeral, Pow, Value, NumDigits, IsDigitOf, Radix;
    var n := Places(u, b);
    ManyDigits(u, b);
    DigitsDenote(u, b, upper);
    NumeralIsDigits(u, b, n, upper);
    NumeralLetters(u, b, n, upper);
    if n > 1 {
      NumDigitsNeeded(u, b);
      PowMonotone(b, n - 1, NumDigits(u, b) - 1);
    }
  }

  /** The sign that is printed for `n`. */
  function SignOf(c: char, n: int, fs: string): (r: string) {
    if !IsSigned(c) then ""
    else if n < 0 then "-" else if '+' in fs then "+" else if ' ' in fs then " " else ""
  }

  /** The zeros make up for digits that the precision asks for; up to the width
      it is zeros for the flag `0`, else spaces behind for the flag `-`, else
      spaces in front. */
  ghost predicate Fills(p: Piece, args: seq<Arg>, sign: nat, digits: nat, left: nat, zeros: nat, right: nat)
    requires Supplied(p, args)
  {
    var fill := Max(MinWidth(p, args) - sign - Max(MinDigits(p, args), digits), 0);
    && zeros == Max(MinDigits(p, args) - digits, if '0' in p.flags then fill else 0)
    && left == (if '0' !in p.flags && '-' !in p.flags then fill else 0)
    && right == (if '0' !in p.flags && '-' in p.flags then fill else 0)
  }

  /** What %d, %i, %o, %u, %x, %X and %p print: spaces, a sign, zeros, the digits of
      the argument, spaces. */
  lemma IntegerText(p: Piece, rest: string, args: seq<Arg>, fp: FloatFormat)
    returns (left: nat, zeros: nat, digits: string, right: nat)
    requires Supplied(p, args) && p.conv in "diouxXp" && InType(p.conv, p.length, args[Stars(p)].num)
    ensures var n := args[Stars(p)].num;
      var sign := SignOf(p.conv, n, p.flags);
      && Output(Show(p) + rest, args, Conversions(fp))
         == Repeat(' ', left) + (sign + (Repeat('0', zeros) + digits + Repeat(' ', right)))
            + Output(rest, args[Stars(p) + 1..], Conversions(fp))
      && AreDigitsOf(digits, Abs(n), Notation(p.conv), p.conv == 'X')
      && Fills(p, args, |sign|, |digits|, left, zeros, right)
  {
    hide Output, FormatInt, Numeral, Places, AreDigitsOf, Sign, SignOf, Show, Repeat, MinWidth, MinDigits, Conversions,
         Valid;
    var n, b, upper := args[Stars(p)].num, Notation(p.conv), p.conv == 'X';
    var value, unsigned := PrintsField(p, rest, args, fp);
    digits := Numeral(Abs(n), b, Places(Abs(n), b), upper);
    DigitsPrinted(Abs(n), b, upper);
    left, zeros, right :=
      FieldShape(value, unsigned, upper, b, MinWidth(p, args), MinDigits(p, args), FlagsOf(p.flags), digits);
  }

  lemma PrintsField(p: Piece, rest: string, args: seq<Arg>, fp: FloatFormat) returns (value: int, unsigned: bool)
    requires Supplied(p, args) && p.conv in "diouxXp" && InType(p.conv, p.length, args[Stars(p)].num)
    ensures Output(Show(p) + rest, args, Conversions(fp))
         == FormatInt(value, unsigned, p.conv == 'X', Notation(p.conv), MinWidth(p, args), MinDigits(p, args),
                      FlagsOf(p.flags)) + Output(rest, args[Stars(p) + 1..], Conversions(fp))
    ensures Magnitude(value, unsigned) == Abs(args[Stars(p)].num)
    ensures Sign(value, unsigned, FlagsOf(p.flags)) == SignOf(p.conv, args[Stars(p)].num, p.flags)
  {
    hide Output, Show, Conversions, FormatInt, MinWidth, MinDigits, Magnitude, Valid;
    var sp := Spec(FlagsOf(p.flags), MinWidth(p, args), MinDigits(p, args), p.length);
    Converts(p, rest, args, Conversions(fp));
    value, unsigned := ReachesDigits(p.conv, sp, args[Stars(p)], fp);
  }

  lemma PowOf19()
    ensures Pow(Decimal, 19) == 10_000_000_000_000_000_000
    ensures Pow(Octal, 19) == 0x200_0000_0000_0000
    ensures Pow(Hex, 19) >= 0x1_0000_0000_0000_0000
  {
    PowValues();
    PowMonotone(Hex, 16, 19);
    OctalPow();
    hide Pow;
  }

  lemma OctalPow()
    ensures Pow(Octal, 19) == 0x200_0000_0000_0000
  {
    assert Pow(Octal, 3) == 0x200;
    assert Pow(Octal, 6) == 0x4_0000;
    assert Pow(Octal, 9) == 0x800_0000;
    assert Pow(Octal, 12) == 0x10_0000_0000;
    assert Pow(Octal, 15) == 0x2000_0000_0000;
    assert Pow(Octal, 18) == 0x40_0000_0000_0000;
  }

  /** So whatever the flags, the width, the precision and the length, the text
      reads back as the argument; but the scratch buffer keeps only 19 digits,
      which is too few for an unsigned long in decimal or in octal. */
  lemma IntegerReadsBack(p: Piece, args: seq<Arg>, fp: FloatFormat)
    requires Supplied(p, args) && p.conv in "diouxXp" && InType(p.conv, p.length, args[Stars(p)].num)
    requires |args| == Stars(p) + 1
    ensures var n, b := args[Stars(p)].num, Notation(p.conv);
      var text := Output(Show(p), args, Conversions(fp));
      && ReadInt(text, b) == (if n < 0 then -(Abs(n) % Pow(b, 19)) else Abs(n) % Pow(b, 19))
      && (ReadInt(text, b) == n <==>
            !(p.conv == 'u' && n >= 10_000_000_000_000_000_000) && !(p.conv == 'o' && n >= 0x200_0000_0000_0000))
  {
    hide Output, AreDigitsOf, Show, Repeat, SignOf, ReadInt, Value, Fills, Pow, Conversions, Valid;
    var n, b := args[Stars(p)].num, Notation(p.conv);
    var left, zeros, digits, right := IntegerText(p, "", args, fp);
    var sign := SignOf(p.conv, n, p.flags);
    SignIs(p.conv, p.length, n, p.flags);
    assert Show(p) + "" == Show(p);
    NothingLeft(Repeat(' ', left) + (sign + (Repeat('0', zeros) + digits + Repeat(' ', right))),
                args[Stars(p) + 1..], Conversions(fp));
    SignedDigitsRead(left, sign, zeros, digits, right, n, b, p.conv == 'X');
    WithinDigits(p.conv, p.length, n);
  }

  lemma SignedDigitsRead(left: nat, sign: string, zeros: nat, ds: string, right: nat, n: int, b: Base, upper: bool)
    requires AreDigitsOf(ds, Abs(n), b, upper) && sign in ["", " ", "+", "-"] && (sign == "-" <==> n < 0)
    ensures ReadInt(Repeat(' ', left) + (sign + (Repeat('0', zeros) + ds + Repeat(' ', right))), b)
         == (if n < 0 then -(Abs(n) % Pow(b, 19)) else Abs(n) % Pow(b, 19))
  {
    hide Pow, Value, ReadInt, Repeat;
    ShapeReads(left, sign, zeros, ds, right, b);
  }

  /** The twentieth digit is lost: %lu does not print the largest unsigned long. */
  lemma LargestUnsignedIsCut(fmt: string, args: seq<Arg>, fp: FloatFormat)
    requires fmt == "%lu" && |args| == 1 && args[0].num == 0xffff_ffff_ffff_ffff
    ensures ReadInt(Output(fmt, args, Conversions(fp)), Decimal) == 8_446_744_073_709_551_615
  {
    hide Output, Show, Pow, ReadInt;
    var p := Conversion("", NoWidth, NoPrecision, Long, 'u');
    LongShows(p);
    PowOf19();
    IntegerReadsBack(p, args, fp);
  }

  lemma LongShows(p: Piece)
    requires p == Conversion("", NoWidth, NoPrecision, Long, 'u')
    ensures Show(p) == "%lu"
  {
  }

  lemma SignIs(c: char, length: Length, n: int, fs: string)
    requires InType(c, length, n)
    ensures var sign := SignOf(c, n, fs); sign in ["", " ", "+", "-"] && (sign == "-" <==> n < 0)
  {
  }

  lemma NothingLeft(text: string, args: seq<Arg>, conv: Converter)
    ensures text + Output("", args, conv) == text
  {
  }

  lemma WithinDigits(c: char, length: Length, n: int)
    requires c in "diouxXp" && InType(c, length, n)
    ensures var m: int := Abs(n) % Pow(Notation(c), 19);
      (if n < 0 then -m else m) == n <==>
        !(c == 'u' && n >= 10_000_000_000_000_000_000) && !(c == 'o' && n >= 0x200_0000_0000_0000)
  {
    PowOf19();
    hide Pow;
    ModIsSame(Abs(n), Pow(Notation(c), 19));
  }

  lemma ModIsSame(u: nat, m: nat)
    requires m > 0
    ensures u % m == u <==> u < m
  {
  }

  // ---- The other conversions ----

  /** What %s prints: the string, filled up to the width with spaces, behind it
      for the flag `-` and else in front; a precision cuts all of that. */
  lemma StringText(p: Piece, rest: string, args: seq<Arg>, fp: FloatFormat)
    requires Supplied(p, args) && p.conv == 's'
    ensures var text := match args[Stars(p)].str case None => "<NULL>" case Some(s) => s;
      var pad := Repeat(' ', MinWidth(p, args) - |text|);
      var full := if '-' in p.flags then text + pad else pad + text;
      Output(Show(p) + rest, args, Conversions(fp))
      == (if 0 <= MinDigits(p, args) < |full| then full[..MinDigits(p, args)] else full)
         + Output(rest, args[Stars(p) + 1..], Conversions(fp))
  {
    hide Output, Show, MinWidth, MinDigits, Valid;
    Converts(p, rest, args, Conversions(fp));
  }

  /** %c prints one character, and %f what the conversion of floats makes of its
      argument; %e, %E, %g, %G and %n take their argument and print nothing. */
  lemma SmallText(p: Piece, rest: string, args: seq<Arg>, fp: FloatFormat)
    requires Supplied(p, args) && p.conv in "cfeEgGn" && (p.conv == 'c' ==> 0 <= args[Stars(p)].num < 256)
    ensures var a := args[Stars(p)];
      Output(Show(p) + rest, args, Conversions(fp))
      == (if p.conv == 'c' then [a.num as char]
          else if p.conv == 'f' then fp(a, Spec(FlagsOf(p.flags), MinWidth(p, args), MinDigits(p, args), p.length))
          else "")
         + Output(rest, args[Stars(p) + 1..], Conversions(fp))
  {
    hide Output, Show, MinWidth, MinDigits, Valid;
    Converts(p, rest, args, Conversions(fp));
  }

  /** The length `q` is another name of `ll`. */
  lemma QuadIsLongLong(sp: Spec, t: string, args: seq<Arg>, conv: Converter)
    ensures Expand(InMod, sp, "q" + t, args, conv) == Expand(InMod, sp, "ll" + t, args, conv)
  {
    assert ("q" + t)[1..] == t && ("ll" + t)[1..] == "l" + t && ("l" + t)[1..] == t;
  }

  /** %% prints a percent sign; %w swallows the character behind it; any other
      character behind a percent sign is dropped with it. */
  lemma NoArgumentText(c: char, rest: string, args: seq<Arg>, fp: FloatFormat)
    requires c !in "-+ #0123456789*.hlqL" && c !in "diouxXpfeEgGcsn"
    ensures Output("%" + ([c] + rest), args, Conversions(fp))
         == if c == 'w' then Output(if rest == "" then "" else rest[1..], args, Conversions(fp))
            else (if c == '%' then "%" else "") + Output(rest, args, Conversions(fp))
  {
    var conv, t := Conversions(fp), [c] + rest;
    assert t[1..] == rest;
    PlainConversion(t, args, conv);
    var behind := if c == 'w' && rest != "" then rest[1..] else rest;
    assert Expand(InConv, NO_SPEC, t, args, conv)
        == conv(c, NO_SPEC, First(args)) + Expand(Default, NO_SPEC, behind, args, conv);
    assert "" + Output(behind, args, conv) == Output(behind, args, conv);
  }

  lemma PlainConversion(t: string, args: seq<Arg>, conv: Converter)
    requires t != "" && t[0] !in "-+ #0123456789*.hlqL"
    ensures Output("%" + t, args, conv) == Expand(InConv, NO_SPEC, t, args, conv)
  {
    ReadPercent(t, args, conv);
    assert Expand(InMod, NO_SPEC, t, args, conv) == Expand(InConv, NO_SPEC, t, args, conv);
    assert Expand(InMin, NO_SPEC, t, args, conv) == Expand(InDot, NO_SPEC, t, args, conv);
  }
}
