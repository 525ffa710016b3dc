/** What the formatter's output means. */
module FormatTheory {
  import opened Prelude
  import opened Numbers
  import opened Format

  // ---- Digits ----

  lemma PlacesEnough(u: nat, b: Base)
    ensures u < Pow(b, MAX_PLACES) ==> u < Pow(b, Places(u, b))
    ensures u >= Pow(b, MAX_PLACES) ==> Places(u, b) == MAX_PLACES
  {
    hide Pow;
    var n := NumDigits(u, b);
    assert n > 1 ==> u >= Radix(b);
    hide NumDigits, Radix;
    NumDigitsEnough(u, b);
    if n <= MAX_PLACES {
      PowMonotone(b, n, MAX_PLACES);
    } else {
      NumDigitsNeeded(u, b);
      PowMonotone(b, MAX_PLACES, n - 1);
    }
  }

  /** The printed digits denote the number modulo base^19; so they are exact for
      precisely the numbers below base^19. */
  lemma DigitsDenote(u: nat, b: Base, upper: bool)
    ensures Value(Numeral(u, b, Places(u, b), upper), b) == u % Pow(b, MAX_PLACES)
    ensures Value(Numeral(u, b, Places(u, b), upper), b) == u <==> u < Pow(b, MAX_PLACES)
  {
    NumeralValue(u, b, Places(u, b), upper);
    PlacesEnough(u, b);
    if u < Pow(b, MAX_PLACES) {
      SmallMod(u, Pow(b, Places(u, b)));
      SmallMod(u, Pow(b, MAX_PLACES));
    } else {
      assert u % Pow(b, MAX_PLACES) < Pow(b, MAX_PLACES) <= u;
    }
  }

  lemma PowValues()
    ensures Pow(Decimal, 19) == 10_000_000_000_000_000_000
    ensures Pow(Hex, 16) == TWO64
  {
    assert Pow(Decimal, 4) == 10_000 && Pow(Decimal, 8) == 1_0000_0000;
    assert Pow(Decimal, 12) == 1_0000_0000_0000 && Pow(Decimal, 16) == 1_0000_0000_0000_0000;
    assert Pow(Hex, 4) == 0x1_0000 && Pow(Hex, 8) == 0x1_0000_0000 && Pow(Hex, 12) == 0x1_0000_0000_0000;
  }

  /** A field is as long as the wider of its minimum width and its sign and
      digits, with the precision as a minimum number of digits - unless zero
      padding meets a precision that asks for more digits than there are. */
  lemma FieldLength(value: int, unsigned: bool, upper: bool, b: Base, min: int, prec: int, flags: Flags)
    ensures var place := Places(Magnitude(value, unsigned), b);
            var sign := |Sign(value, unsigned, flags)|;
            var max := Max(prec, 0);
            |FormatInt(value, unsigned, upper, b, min, prec, flags)| == Max(min, sign + Max(max, place))
            <==> !(flags.zero && max > place && min > sign + max)
  {
  }

  // ---- Reading a field back ----

  function DropSpaces(s: string): (r: string) { if s != "" && s[0] == ' ' then DropSpaces(s[1..]) else s }

  function Unsigned(t: string): (r: string) { if At(t, 0) == '-' || At(t, 0) == '+' then t[1..] else t }

  /** Blanks, a sign, digits: the number they denote. */
  function ReadInt(s: string, b: Base): (r: int) {
    var t := DropSpaces(s);
    var u: int := Value(LeadingDigits(Unsigned(t), b), b);
    if At(t, 0) == '-' then -u else u
  }

  lemma {:induction false} DropsSpaces(n: nat, t: string)
    ensures DropSpaces(Repeat(' ', n) + t) == DropSpaces(t)
  {
    if n == 0 {
      assert Repeat(' ', n) + t == t;
    } else {
      assert (Repeat(' ', n) + t)[1..] == Repeat(' ', n - 1) + t;
      DropsSpaces(n - 1, t);
    }
  }

  lemma {:induction false} ZerosInFront(n: nat, ds: string, b: Base)
    ensures Value(Repeat('0', n) + ds, b) == Value(ds, b)
    decreases n, |ds|
  {
    if ds != "" {
      var m := |ds| - 1;
      assert (Repeat('0', n) + ds)[..n + m] == Repeat('0', n) + ds[..m];
      ZerosInFront(n, ds[..m], b);
    } else if n > 0 {
      assert Repeat('0', n) + ds == Repeat('0', n);
      assert Repeat('0', n)[..n - 1] == Repeat('0', n - 1) + "";
      ZerosInFront(n - 1, "", b);
    }
  }

  lemma SkipsSign(sign: string, rest: string, b: Base)
    requires sign == "" || sign == " " || sign == "+" || sign == "-"
    requires rest != "" && IsDigitOf(rest[0], b)
    ensures var t := DropSpaces(sign + rest); Unsigned(t) == rest && (At(t, 0) == '-' <==> sign == "-")
  {
    assert DropSpaces(rest) == rest;
    if sign == "" {
      assert sign + rest == rest;
    } else {
      assert (sign + rest)[0] == sign[0] && (sign + rest)[1..] == rest;
    }
  }

  lemma ReadsBehindSpaces(m: nat, t: string, b: Base)
    ensures ReadInt(Repeat(' ', m) + t, b) == ReadInt(t, b)
  {
    DropsSpaces(m, t);
  }

  lemma ZerosAreDigits(n: nat, ds: string, b: Base)
    requires AllDigits(ds, b)
    ensures AllDigits(Repeat('0', n) + ds, b)
  {
  }

  /** Spaces, a sign, zeros, digits, spaces: the signed number of the digits. */
  lemma ShapeReads(m: nat, sign: string, zeros: nat, ds: string, k: nat, b: Base)
    requires sign == "" || sign == " " || sign == "+" || sign == "-"
    requires AllDigits(ds, b)
    ensures ReadInt(Repeat(' ', m) + (sign + (Repeat('0', zeros) + ds + Repeat(' ', k))), b)
         == if sign == "-" then -(Value(ds, b) as int) else Value(ds, b)
  {
    hide Value, LeadingDigits;
    var body, tail := Repeat('0', zeros) + ds, Repeat(' ', k);
    ZerosAreDigits(zeros, ds, b);
    ZerosInFront(zeros, ds, b);
    ReadsDigits(body, tail, b);
    SkipsSign(sign, body + tail, b);
    ReadsBehindSpaces(m, sign + (body + tail), b);
  }

  lemma FieldParts(a: string, b: string, c: string, d: string, e: string)
    ensures a + b + c + d + e == a + (b + (c + d + e))
  {
  }

  /** The parts of a field: whatever is missing to its width is filled with
      zeros if they are asked for, and otherwise with spaces on either side. */
  lemma FieldShape(value: int, unsigned: bool, upper: bool, b: Base, min: int, prec: int, flags: Flags, ds: string)
    returns (m: nat, zeros: nat, k: nat)
    requires var u := Magnitude(value, unsigned); ds == Numeral(u, b, Places(u, b), upper)
    ensures FormatInt(value, unsigned, upper, b, min, prec, flags)
         == Repeat(' ', m) + (Sign(value, unsigned, flags) + (Repeat('0', zeros) + ds + Repeat(' ', k)))
    ensures var fill := Max(min - |Sign(value, unsigned, flags)| - Max(prec, |ds|), 0);
      && zeros == Max(prec - |ds|, if flags.zero then fill else 0)
      && m == (if flags.zero || flags.minus then 0 else fill)
      && k == (if flags.minus && !flags.zero then fill else 0)
  {
    var sign := Sign(value, unsigned, flags);
    var spaces := if flags.zero then 0 else SpacePad(|ds|, |sign|, min, Max(prec, 0));
    zeros := ZeroPad(|ds|, |sign|, min, Max(prec, 0), flags);
    m, k := if flags.minus then 0 else spaces, if flags.minus then spaces else 0;
    FieldParts(Repeat(' ', m), sign, Repeat('0', zeros), ds, Repeat(' ', k));
  }

  /** Whatever the width, the precision and the flags: what is printed reads
      back as the number, up to the digits that are kept. */
  lemma FieldReadsBack(value: int, unsigned: bool, upper: bool, b: Base, min: int, prec: int, flags: Flags)
    ensures var u: int := Magnitude(value, unsigned) % Pow(b, MAX_PLACES);
      ReadInt(FormatInt(value, unsigned, upper, b, min, prec, flags), b) == if !unsigned && value < 0 then -u else u
  {
    hide Numeral, Pow, Value, ReadInt, Repeat, FormatInt, Magnitude;
    var u := Magnitude(value, unsigned);
    var ds := Numeral(u, b, Places(u, b), upper);
    var m, zeros, k := FieldShape(value, unsigned, upper, b, min, prec, flags, ds);
    DigitsDenote(u, b, upper);
    NumeralIsDigits(u, b, Places(u, b), upper);
    ShapeReads(m, Sign(value, unsigned, flags), zeros, ds, k, b);
  }

  // ---- Writing formats down and reading them ----

  datatype Width = NoWidth | Width(n: nat) | WidthArg

  datatype Precision = NoPrecision | Dot | Precision(n: nat) | PrecisionArg

  datatype Piece =
    | Literal(c: char)
    | Conversion(flags: string, width: Width, prec: Precision, length: Length, conv: char)

  predicate Valid(p: Piece) {
    match p
    case Literal(c) => c != '%'
    case Conversion(fs, w, _, _, c) =>
      && (forall i :: 0 <= i < |fs| ==> IsFlag(fs[i]))
      && (w.Width? ==> w.n > 0)
      && c in "diouxXpfeEgGcsn%"
  }

  function ShowWidth(w: Width): (r: string) {
    match w case NoWidth => "" case Width(n) => InDecimal(n) case WidthArg => "*"
  }

  function ShowPrecision(p: Precision): (r: string) {
    match p case NoPrecision => "" case Dot => "." case Precision(n) => "." + InDecimal(n) case PrecisionArg => ".*"
  }

  function ShowLength(l: Length): (r: string) {
    match l case NoLength => "" case Short => "h" case Long => "l" case LongDouble => "L" case LongLong => "ll"
  }

  function Show(p: Piece): (r: string) {
    match p
    case Literal(c) => [c]
    case Conversion(fs, w, pr, l, c) => "%" + (fs + (ShowWidth(w) + (ShowPrecision(pr) + (ShowLength(l) + [c]))))
  }

  function AddFlags(flags: Flags, fs: string): (r: Flags)
    decreases |fs|
  {
    if fs == "" then flags else AddFlags(AddFlag(flags, fs[0]), fs[1..])
  }

  function WidthOf(w: Width, args: seq<Arg>): (r: (int, seq<Arg>)) {
    match w
    case NoWidth => (0, args)
    case Width(n) => (n, args)
    case WidthArg => (ToInt(First(args).num), Others(args))
  }

  function PrecisionOf(p: Precision, args: seq<Arg>): (r: (int, seq<Arg>)) {
    match p
    case NoPrecision => (-1, args)
    case Dot => (-1, args)
    case Precision(n) => (n, args)
    case PrecisionArg => (ToInt(First(args).num), Others(args))
  }

  /** What a piece prints, and the arguments it leaves. */
  function Meaning(p: Piece, args: seq<Arg>, conv: Converter): (r: (string, seq<Arg>)) {
    match p
    case Literal(c) => ([c], args)
    case Conversion(fs, w, pr, l, c) =>
      var (min, args1) := WidthOf(w, args);
      var (max, args2) := PrecisionOf(pr, args1);
      (conv(c, Spec(AddFlags(NO_FLAGS, fs), min, max, l), First(args2)),
       if TakesArg(c) then Others(args2) else args2)
  }

  function ShowAll(ps: seq<Piece>): (r: string) {
    if ps == [] then "" else Show(ps[0]) + ShowAll(ps[1..])
  }

  function MeaningAll(ps: seq<Piece>, args: seq<Arg>, conv: Converter): (r: string) {
    if ps == [] then ""
    else
      var (out, args') := Meaning(ps[0], args, conv);
      out + MeaningAll(ps[1..], args', conv)
  }

  // Reading digits left to right, as the machine does.
  function Eval(m: int, ds: string): (r: int)
    decreases |ds|
  {
    if ds == "" then m else Eval(10 * m + DigitValue(ds[0]), ds[1..])
  }

  lemma {:induction false} EvalAppend(m: int, ds: string, d: char)
    ensures Eval(m, ds + [d]) == 10 * Eval(m, ds) + DigitValue(d)
    decreases |ds|
  {
    if ds == "" {
      assert ds + [d] == [d];
      assert Eval(m, [d]) == Eval(10 * m + DigitValue(d), "");
    } else {
      assert (ds + [d])[1..] == ds[1..] + [d];
      EvalAppend(10 * m + DigitValue(ds[0]), ds[1..], d);
    }
  }

  lemma {:induction false} EvalIsValue(ds: string)
    ensures Eval(0, ds) == Value(ds, Decimal)
  {
    if ds != "" {
      var init := ds[..|ds| - 1];
      assert ds == init + [ds[|ds| - 1]];
      EvalIsValue(init);
      EvalAppend(0, init, ds[|ds| - 1]);
    }
  }

  lemma {:induction false} LeadingDigit(u: nat)
    ensures InDecimal(u) != "" && (u > 0 ==> InDecimal(u)[0] != '0')
    ensures forall j :: 0 <= j < |InDecimal(u)| ==> IsDigit(InDecimal(u)[j])
    decreases u
  {
    var n := NumDigits(u, Decimal);
    forall j | 0 <= j < n ensures IsDigit(InDecimal(u)[j]) {
      NumeralDigits(u, n, j);
    }
    if u >= 10 {
      LeadingDigit(Quot(u, Decimal));
      assert InDecimal(u)[0] == InDecimal(Quot(u, Decimal))[0];
    } else {
      DigitRoundTrip(u, false);
      assert Numeral(u, Decimal, 1, false) == Numeral(0, Decimal, 0, false) + [DigitChar(u, false)];
    }
  }

  lemma {:induction false} ReadFlags(sp: Spec, fs: string, t: string, args: seq<Arg>, conv: Converter)
    requires (forall i :: 0 <= i < |fs| ==> IsFlag(fs[i])) && t != "" && !IsFlag(t[0])
    ensures Expand(InFlags, sp, fs + t, args, conv)
         == Expand(InMin, sp.(flags := AddFlags(sp.flags, fs)), t, args, conv)
    decreases |fs|
  {
    if fs == "" {
      assert fs + t == t;
    } else {
      assert (fs + t)[1..] == fs[1..] + t;
      ReadFlags(sp.(flags := AddFlag(sp.flags, fs[0])), fs[1..], t, args, conv);
    }
  }

  lemma {:induction false} ReadMinDigits(sp: Spec, ds: string, t: string, args: seq<Arg>, conv: Converter)
    requires (forall i :: 0 <= i < |ds| ==> IsDigit(ds[i])) && t != "" && !IsDigit(t[0]) && t[0] != '*'
    ensures Expand(InMin, sp, ds + t, args, conv) == Expand(InDot, sp.(min := Eval(sp.min, ds)), t, args, conv)
    decreases |ds|
  {
    if ds == "" {
      assert ds + t == t;
    } else {
      assert (ds + t)[1..] == ds[1..] + t;
      ReadMinDigits(sp.(min := 10 * sp.min + DigitValue(ds[0])), ds[1..], t, args, conv);
    }
  }

  lemma ReadMaxDigit(sp: Spec, d: char, x: string, args: seq<Arg>, conv: Converter)
    requires IsDigit(d)
    ensures Expand(InMax, sp, [d] + x, args, conv)
         == Expand(InMax, sp.(max := 10 * Max(sp.max, 0) + DigitValue(d)), x, args, conv)
  {
    assert ([d] + x)[1..] == x;
  }

  lemma ReadMaxEnd(sp: Spec, t: string, args: seq<Arg>, conv: Converter)
    requires t != "" && !IsDigit(t[0]) && t[0] != '*'
    ensures Expand(InMax, sp, t, args, conv) == Expand(InMod, sp, t, args, conv)
  {
  }

  lemma {:induction false} ReadMaxDigits(sp: Spec, ds: string, t: string, args: seq<Arg>, conv: Converter)
    requires (forall i :: 0 <= i < |ds| ==> IsDigit(ds[i])) && t != "" && !IsDigit(t[0]) && t[0] != '*'
    ensures Expand(InMax, sp, ds + t, args, conv)
         == Expand(InMod, sp.(max := if ds == "" then sp.max else Eval(Max(sp.max, 0), ds)), t, args, conv)
    decreases |ds|
  {
    if ds == "" {
      assert ds + t == t;
      ReadMaxEnd(sp, t, args, conv);
    } else {
      assert ds + t == [ds[0]] + (ds[1..] + t);
      ReadMaxDigit(sp, ds[0], ds[1..] + t, args, conv);
      ReadMaxDigits(sp.(max := 10 * Max(sp.max, 0) + DigitValue(ds[0])), ds[1..], t, args, conv);
    }
  }

  lemma ReadWidth(sp: Spec, w: Width, t: string, args: seq<Arg>, conv: Converter)
    requires t != "" && !IsDigit(t[0]) && t[0] != '*' && sp.min == 0
    ensures Expand(InMin, sp, ShowWidth(w) + t, args, conv)
         == Expand(InDot, sp.(min := WidthOf(w, args).0), t, WidthOf(w, args).1, conv)
  {
    match w
    case NoWidth => assert ShowWidth(w) + t == t;
    case Width(n) =>
      LeadingDigit(n);
      ReadMinDigits(sp, InDecimal(n), t, args, conv);
      EvalIsValue(InDecimal(n));
      DecimalValue(n);
    case WidthArg => assert (ShowWidth(w) + t)[1..] == t;
  }

  lemma ReadDigitPrecision(sp: Spec, n: nat, t: string, args: seq<Arg>, conv: Converter)
    requires t != "" && !IsDigit(t[0]) && t[0] != '*' && sp.max == -1
    ensures Expand(InMax, sp, InDecimal(n) + t, args, conv) == Expand(InMod, sp.(max := n), t, args, conv)
  {
    LeadingDigit(n);
    ReadMaxDigits(sp, InDecimal(n), t, args, conv);
    EvalIsValue(InDecimal(n));
    DecimalValue(n);
  }

  lemma ReadDot(sp: Spec, t: string, args: seq<Arg>, conv: Converter)
    ensures Expand(InDot, sp, "." + t, args, conv) == Expand(InMax, sp, t, args, conv)
  {
    assert ("." + t)[1..] == t;
  }

  lemma ReadNoDot(sp: Spec, t: string, args: seq<Arg>, conv: Converter)
    requires t != "" && t[0] != '.'
    ensures Expand(InDot, sp, t, args, conv) == Expand(InMod, sp, t, args, conv)
  {
  }

  lemma ReadPrecision(sp: Spec, p: Precision, t: string, args: seq<Arg>, conv: Converter)
    requires t != "" && !IsDigit(t[0]) && t[0] != '*' && t[0] != '.' && sp.max == -1
    ensures Expand(InDot, sp, ShowPrecision(p) + t, args, conv)
         == Expand(InMod, sp.(max := PrecisionOf(p, args).0), t, PrecisionOf(p, args).1, conv)
  {
    hide Expand, InDecimal;
    match p
    case NoPrecision =>
      assert ShowPrecision(p) + t == t;
      ReadNoDot(sp, t, args, conv);
    case Dot =>
      ReadMaxEnd(sp, t, args, conv);
      ReadDot(sp, t, args, conv);
    case Precision(n) =>
      assert ShowPrecision(p) + t == "." + (InDecimal(n) + t);
      ReadDot(sp, InDecimal(n) + t, args, conv);
      ReadDigitPrecision(sp, n, t, args, conv);
    case PrecisionArg =>
      assert ShowPrecision(p) + t == "." + ("*" + t);
      ReadDot(sp, "*" + t, args, conv);
      ReadStarPrecision(sp, t, args, conv);
  }

  lemma ReadStarPrecision(sp: Spec, t: string, args: seq<Arg>, conv: Converter)
    ensures Expand(InMax, sp, "*" + t, args, conv)
         == Expand(InMod, sp.(max := ToInt(First(args).num)), t, Others(args), conv)
  {
    assert ("*" + t)[1..] == t;
  }

  lemma ReadLength(sp: Spec, l: Length, t: string, args: seq<Arg>, conv: Converter)
    requires t != "" && t[0] !in "hlqL" && sp.length == NoLength
    ensures Expand(InMod, sp, ShowLength(l) + t, args, conv) == Expand(InConv, sp.(length := l), t, args, conv)
  {
    match l
    case NoLength => assert ShowLength(l) + t == t;
    case LongLong => assert (ShowLength(l) + t)[1..] == "l" + t && ("l" + t)[1..] == t;
    case _ => assert (ShowLength(l) + t)[1..] == t;
  }

  lemma ReadPercent(x: string, args: seq<Arg>, conv: Converter)
    ensures Expand(Default, NO_SPEC, "%" + x, args, conv) == Expand(InFlags, NO_SPEC, x, args, conv)
  {
    assert ("%" + x)[1..] == x;
  }

  lemma ReadConv(sp: Spec, c: char, rest: string, args: seq<Arg>, conv: Converter)
    requires c != 'w'
    ensures Expand(InConv, sp, [c] + rest, args, conv)
         == conv(c, sp, First(args))
            + Expand(Default, NO_SPEC, rest, if TakesArg(c) then Others(args) else args, conv)
  {
    assert ([c] + rest)[1..] == rest;
  }

  lemma PairShows(p: Piece, c: char, ps: seq<Piece>)
    ensures ShowAll([p, Literal(c)] + ps) == Show(p) + ([c] + ShowAll(ps))
  {
    assert ([p, Literal(c)] + ps)[1..] == [Literal(c)] + ps;
    assert ([Literal(c)] + ps)[1..] == ps;
  }

  /** From the width on. */
  lemma ReadFields(p: Piece, rest: string, args: seq<Arg>, conv: Converter, sp: Spec)
    requires p.Conversion? && Valid(p) && sp == NO_SPEC.(flags := sp.flags)
    ensures var (min, args1) := WidthOf(p.width, args);
            var (max, args2) := PrecisionOf(p.prec, args1);
            Expand(InMin, sp, ShowWidth(p.width) + (ShowPrecision(p.prec) + (ShowLength(p.length) + ([p.conv] + rest))),
                   args, conv)
            == Expand(InConv, Spec(sp.flags, min, max, p.length), [p.conv] + rest, args2, conv)
  {
    var t4 := [p.conv] + rest;
    var t3 := ShowLength(p.length) + t4;
    var (min, args1) := WidthOf(p.width, args);
    var (max, args2) := PrecisionOf(p.prec, args1);
    ReadWidth(sp, p.width, ShowPrecision(p.prec) + t3, args, conv);
    ReadPrecisionAndLength(sp.(min := min), p, t4, args1, conv);
  }

  lemma ReadPrecisionAndLength(sp: Spec, p: Piece, t: string, args: seq<Arg>, conv: Converter)
    requires p.Conversion? && Valid(p) && t != "" && t[0] == p.conv && sp.max == -1 && sp.length == NoLength
    ensures var (max, args') := PrecisionOf(p.prec, args);
            Expand(InDot, sp, ShowPrecision(p.prec) + (ShowLength(p.length) + t), args, conv)
            == Expand(InConv, sp.(max := max, length := p.length), t, args', conv)
  {
    LengthStarts(p, t);
    var (max, args') := PrecisionOf(p.prec, args);
    hide *;
    ReadPrecision(sp, p.prec, ShowLength(p.length) + t, args, conv);
    ReadLength(sp.(max := max), p.length, t, args', conv);
  }

  lemma LengthStarts(p: Piece, t: string)
    requires p.Conversion? && Valid(p) && t != "" && t[0] == p.conv
    ensures t[0] !in "hlqL"
    ensures var u := ShowLength(p.length) + t; u != "" && !IsDigit(u[0]) && u[0] != '*' && u[0] != '.'
  {
    assert ShowLength(p.length) == "" ==> ShowLength(p.length) + t == t;
  }

  lemma ShowAgain(p: Piece, rest: string)
    requires p.Conversion? && Valid(p)
    ensures var t := ShowWidth(p.width) + (ShowPrecision(p.prec) + (ShowLength(p.length) + ([p.conv] + rest)));
      Show(p) + rest == "%" + (p.flags + t) && t != "" && !IsFlag(t[0])
  {
    var w, pr, l := ShowWidth(p.width), ShowPrecision(p.prec), ShowLength(p.length);
    FieldsStart(p, w, pr, l, rest);
    SixParts(p.flags, w, pr, l, [p.conv], rest);
  }

  lemma SixParts(a: string, b: string, c: string, d: string, e: string, f: string)
    ensures ("%" + (a + (b + (c + (d + e))))) + f == "%" + (a + (b + (c + (d + (e + f)))))
  {
  }

  lemma FieldsStart(p: Piece, w: string, pr: string, l: string, rest: string)
    requires p.Conversion? && Valid(p)
    requires w == ShowWidth(p.width) && pr == ShowPrecision(p.prec) && l == ShowLength(p.length)
    ensures var t := w + (pr + (l + ([p.conv] + rest))); t != "" && !IsFlag(t[0])
  {
    hide InDecimal;
    if p.width.Width? {
      LeadingDigit(p.width.n);
    }
    var t3 := l + ([p.conv] + rest);
    assert t3[0] == if l == "" then p.conv else l[0];
    var t2 := pr + t3;
    assert t2[0] == if pr == "" then t3[0] else pr[0];
  }

  /** A piece is read as itself, whatever follows. */
  lemma ReadPiece(p: Piece, rest: string, args: seq<Arg>, conv: Converter)
    requires Valid(p)
    ensures var (out, args') := Meaning(p, args, conv);
            Expand(Default, NO_SPEC, Show(p) + rest, args, conv) == out + Expand(Default, NO_SPEC, rest, args', conv)
  {
    match p
    case Literal(c) => assert (Show(p) + rest)[1..] == rest;
    case Conversion(fs, w, pr, l, c) =>
      var t := ShowWidth(w) + (ShowPrecision(pr) + (ShowLength(l) + ([c] + rest)));
      var sp := NO_SPEC.(flags := AddFlags(NO_FLAGS, fs));
      ShowAgain(p, rest);
      ReadPercent(fs + t, args, conv);
      ReadFlags(NO_SPEC, fs, t, args, conv);
      ReadFields(p, rest, args, conv, sp);
      var (min, args1) := WidthOf(w, args);
      var (max, args2) := PrecisionOf(pr, args1);
      ReadConv(Spec(sp.flags, min, max, l), c, rest, args2, conv);
  }

  /** A format composed of literal text and conversions prints what its pieces mean. */
  lemma {:induction false} OutputIsMeaning(ps: seq<Piece>, args: seq<Arg>, conv: Converter)
    requires forall p :: p in ps ==> Valid(p)
    ensures Output(ShowAll(ps), args, conv) == MeaningAll(ps, args, conv)
    decreases |ps|
  {
    if ps != [] {
      ReadPiece(ps[0], ShowAll(ps[1..]), args, conv);
      OutputIsMeaning(ps[1..], Meaning(ps[0], args, conv).1, conv);
    }
  }
}
