/** Printing an uptime in weeks, days, hours, minutes and seconds, and reading
    it back. */
module Uptime {
  import opened Prelude
  import opened Numbers
  import opened Format
  import opened FormatTheory
  import opened Snprintf

  const WEEK: nat := 604800
  const DAY: nat := 86400
  const HOUR: nat := 3600
  const MINUTE: nat := 60

  const UPTIME_FORMAT := "%dw%dd%02dh%02dm%02ds"

  /** Two digits, or more if it takes more. */
  function TwoDigits(v: nat): (r: string) { Repeat('0', 2 - NumDigits(v, Decimal)) + InDecimal(v) }

  /** Hours, minutes and seconds take two characters each. */
  lemma TwoDigitsAre(v: nat)
    requires v < 100
    ensures TwoDigits(v) == ['0' + (v / 10) as char, '0' + (v % 10) as char]
  {
    var tens := v / 10;
    DigitRoundTrip(v % 10, false);
    DigitRoundTrip(tens, false);
    if v < 10 {
      assert Repeat('0', 1) == "0";
      assert Numeral(v, Decimal, 1, false) == Numeral(0, Decimal, 0, false) + [DigitChar(v, false)];
    } else {
      assert Numeral(tens, Decimal, 1, false) == Numeral(0, Decimal, 0, false) + [DigitChar(tens, false)];
      assert NumDigits(v, Decimal) == 1 + NumDigits(tens, Decimal) == 2;
      assert Numeral(v, Decimal, 2, false) == Numeral(tens, Decimal, 1, false) + [DigitChar(v % 10, false)];
    }
  }

  function UptimeText(w: nat, d: nat, h: nat, m: nat, s: nat): (r: string) {
    InDecimal(w) + ("w" + (InDecimal(d) + ("d" +
      (TwoDigits(h) + ("h" + (TwoDigits(m) + ("m" + (TwoDigits(s) + "s"))))))))
  }

  function Unit(c: char): (r: nat) {
    match c
    case 'w' => 7 * 24 * 60 * 60
    case 'd' => 24 * 60 * 60
    case 'h' => 60 * 60
    case 'm' => 60
    case 's' => 1
    case _ => 0
  }

  /** The number of seconds that a text of numbers and units denotes. */
  function Seconds(t: string, current: int): (r: int)
    decreases |t|
  {
    if t == "" then 0
    else if IsDigit(t[0]) then Seconds(t[1..], 10 * current + DigitValue(t[0]))
    else current * Unit(t[0]) + Seconds(t[1..], 0)
  }

  lemma {:induction false} SecondsDigits(ds: string, t: string, current: int)
    requires forall i :: 0 <= i < |ds| ==> IsDigit(ds[i])
    ensures Seconds(ds + t, current) == Seconds(t, Eval(current, ds))
    decreases |ds|
  {
    if ds == "" {
      assert ds + t == t;
    } else {
      assert (ds + t)[0] == ds[0] && (ds + t)[1..] == ds[1..] + t;
      SecondsDigits(ds[1..], t, 10 * current + DigitValue(ds[0]));
    }
  }

  lemma SecondsNumber(v: nat, c: char, t: string)
    requires !IsDigit(c)
    ensures Seconds(InDecimal(v) + ([c] + t), 0) == v * Unit(c) + Seconds(t, 0)
  {
    LeadingDigit(v);
    SecondsDigits(InDecimal(v), [c] + t, 0);
    EvalIsValue(InDecimal(v));
    DecimalValue(v);
    assert ([c] + t)[1..] == t;
  }

  lemma ZeroInFront(x: string)
    ensures Seconds("0" + x, 0) == Seconds(x, 0)
  {
    assert ("0" + x)[1..] == x;
  }

  lemma SecondsTwoDigits(v: nat, c: char, t: string)
    requires !IsDigit(c)
    ensures Seconds(TwoDigits(v) + ([c] + t), 0) == v * Unit(c) + Seconds(t, 0)
  {
    SecondsNumber(v, c, t);
    LeadingZero(v, [c] + t);
    ZeroInFront(InDecimal(v) + ([c] + t));
  }

  lemma LeadingZero(v: nat, t: string)
    ensures TwoDigits(v) + t == (if NumDigits(v, Decimal) == 1 then "0" + (InDecimal(v) + t) else InDecimal(v) + t)
  {
    hide NumDigits, InDecimal;
    assert Repeat('0', 2 - NumDigits(v, Decimal)) == if NumDigits(v, Decimal) == 1 then "0" else "";
  }

  lemma ClockDenotes(h: nat, m: nat, s: nat)
    ensures Seconds(TwoDigits(h) + ("h" + (TwoDigits(m) + ("m" + (TwoDigits(s) + "s")))), 0)
         == h * HOUR + m * MINUTE + s
  {
    hide TwoDigits;
    var t4 := TwoDigits(s) + "s";
    SecondsTwoDigits(s, 's', "");
    SecondsTwoDigits(m, 'm', t4);
    SecondsTwoDigits(h, 'h', TwoDigits(m) + ("m" + t4));
    assert ['s'] + "" == "s";
  }

  lemma UptimeDenotes(w: nat, d: nat, h: nat, m: nat, s: nat)
    ensures Seconds(UptimeText(w, d, h, m, s), 0) == w * WEEK + d * DAY + h * HOUR + m * MINUTE + s
  {
    var clock := TwoDigits(h) + ("h" + (TwoDigits(m) + ("m" + (TwoDigits(s) + "s"))));
    ClockDenotes(h, m, s);
    SecondsNumber(d, 'd', clock);
    SecondsNumber(w, 'w', InDecimal(d) + ("d" + clock));
  }

  // ---- The printed text ----

  const NUMBER := Conversion("", NoWidth, NoPrecision, NoLength, 'd')
  const TWO_DIGITS := Conversion("0", Width(2), NoPrecision, NoLength, 'd')

  function Pieces(): (r: seq<Piece>) {
    [NUMBER, Literal('w'), NUMBER, Literal('d'), TWO_DIGITS, Literal('h'), TWO_DIGITS, Literal('m'), TWO_DIGITS,
     Literal('s')]
  }

  lemma SmallNumber(v: nat)
    requires v < 10000
    ensures NumDigits(v, Decimal) <= 4 && (v < 100 ==> NumDigits(v, Decimal) <= 2)
  {
    if v >= 10 {
      var v1 := v / 10;
      assert NumDigits(v, Decimal) == 1 + NumDigits(v1, Decimal);
      if v1 >= 10 {
        var v2 := v1 / 10;
        assert NumDigits(v1, Decimal) == 1 + NumDigits(v2, Decimal);
        if v2 >= 10 {
          assert NumDigits(v2, Decimal) == 1 + NumDigits(v2 / 10, Decimal);
        }
      }
    }
  }

  lemma SmallArg(v: nat)
    requires v < 10000
    ensures SignedArg(NoLength, v) == v && Magnitude(v, false) == v
  {
  }

  lemma SmallPlaces(v: nat)
    requires v < 10000
    ensures Places(v, Decimal) == NumDigits(v, Decimal)
  {
    SmallNumber(v);
  }

  lemma SmallPads(place: nat, min: nat, flags: Flags)
    requires min == 0 || flags.zero
    ensures Repeat(' ', if flags.zero then 0 else SpacePad(place, 0, min, 0)) == ""
    ensures Repeat('0', ZeroPad(place, 0, min, 0, flags)) == Repeat('0', min - place)
  {
  }

  lemma JustMiddle(zeros: string, digits: string)
    ensures "" + "" + zeros + digits + "" == zeros + digits
  {
  }

  /** A small number in decimal, with the zero flag or without a width. */
  lemma SmallInt(v: nat, min: nat, flags: Flags)
    requires v < 10000 && flags == NO_FLAGS.(zero := flags.zero) && (min == 0 || flags.zero)
    ensures FormatInt(v, false, false, Decimal, min, -1, flags)
         == Repeat('0', min - NumDigits(v, Decimal)) + InDecimal(v)
  {
    SmallArg(v);
    SmallPlaces(v);
    assert InDecimal(v) == Numeral(v, Decimal, NumDigits(v, Decimal), false);
    hide NumDigits, Numeral, InDecimal, Places, Magnitude, SpacePad, ZeroPad, Repeat;
    SmallPads(NumDigits(v, Decimal), min, flags);
    JustMiddle(Repeat('0', min - NumDigits(v, Decimal)), InDecimal(v));
    assert Sign(v, false, flags) == "";
  }

  lemma SmallConversion(v: nat, sp: Spec, a: Arg, text: string, fp: FloatFormat)
    requires v < 10000 && a.num == v && sp == Spec(NO_FLAGS.(zero := sp.flags.zero), sp.min, -1, NoLength)
    requires sp.min == 0 || (sp.flags.zero && sp.min > 0)
    requires text == FormatInt(v, false, false, Decimal, sp.min, -1, sp.flags)
    ensures Convert('d', sp, a, fp) == text
  {
    SmallArg(v);
  }

  lemma NoZeros(n: nat, digits: string)
    ensures Repeat('0', 0 - n) + digits == digits
  {
  }

  const PADDED := Spec(NO_FLAGS.(zero := true), 2, -1, NoLength)

  /** The two conversions of the uptime format print `v` in decimal. */
  ghost predicate PrintsNumber(conv: Converter, v: nat) { conv('d', NO_SPEC, Arg(v, None)) == InDecimal(v) }

  ghost predicate PrintsTwoDigits(conv: Converter, v: nat) { conv('d', PADDED, Arg(v, None)) == TwoDigits(v) }

  lemma NumberPrinted(v: nat, fp: FloatFormat)
    requires v < 10000
    ensures PrintsNumber(Conversions(fp), v)
  {
    SmallInt(v, 0, NO_FLAGS);
    NoZeros(NumDigits(v, Decimal), InDecimal(v));
    SmallConversion(v, NO_SPEC, Arg(v, None), InDecimal(v), fp);
  }

  lemma TwoDigitsPrinted(v: nat, fp: FloatFormat)
    requires v < 100
    ensures PrintsTwoDigits(Conversions(fp), v)
  {
    SmallInt(v, 2, NO_FLAGS.(zero := true));
    SmallConversion(v, PADDED, Arg(v, None), TwoDigits(v), fp);
  }

  lemma NumberMeans(v: nat, args: seq<Arg>, conv: Converter)
    requires PrintsNumber(conv, v) && args != [] && args[0] == Arg(v, None)
    ensures Meaning(NUMBER, args, conv) == (InDecimal(v), args[1..])
  {
    assert AddFlags(NO_FLAGS, "") == NO_FLAGS;
  }

  lemma TwoDigitsMeans(v: nat, args: seq<Arg>, conv: Converter)
    requires PrintsTwoDigits(conv, v) && args != [] && args[0] == Arg(v, None)
    ensures Meaning(TWO_DIGITS, args, conv) == (TwoDigits(v), args[1..])
  {
    assert AddFlags(NO_FLAGS, "0") == NO_FLAGS.(zero := true);
  }

  lemma PiecesAreValid()
    ensures forall p :: p in Pieces() ==> Valid(p)
  {
  }

  lemma ConversionsShow()
    ensures Show(NUMBER) == "%d" && Show(TWO_DIGITS) == "%02d"
  {
    assert InDecimal(2) == "2";
  }

  /** The pieces come in pairs of a number and its unit. */
  lemma PiecesArePairs()
    ensures Pieces() == [NUMBER, Literal('w')] + ([NUMBER, Literal('d')] + ([TWO_DIGITS, Literal('h')]
      + ([TWO_DIGITS, Literal('m')] + ([TWO_DIGITS, Literal('s')] + []))))
  {
  }

  lemma FormatText()
    ensures "%d" + (['w'] + ("%d" + (['d'] + ("%02d" + (['h'] + ("%02d" + (['m'] + ("%02d" + (['s'] + "")))))))))
         == UPTIME_FORMAT
  {
    ClockText();
    var clock := "%02d" + (['h'] + ("%02d" + (['m'] + ("%02d" + (['s'] + "")))));
    DateText(clock);
  }

  lemma ClockText()
    ensures "%02d" + (['h'] + ("%02d" + (['m'] + ("%02d" + (['s'] + ""))))) == "%02dh%02dm%02ds"
  {
  }

  lemma DateText(clock: string)
    requires clock == "%02dh%02dm%02ds"
    ensures "%d" + (['w'] + ("%d" + (['d'] + clock))) == UPTIME_FORMAT
  {
  }

  lemma FormatIsPieces()
    ensures ShowAll(Pieces()) == UPTIME_FORMAT
  {
    var ps5: seq<Piece> := [];
    assert ShowAll(ps5) == "";
    ConversionsShow();
    PiecesArePairs();
    FormatText();
    hide ShowAll, Show, Pieces;
    var ps4 := [TWO_DIGITS, Literal('s')] + ps5;
    var ps3 := [TWO_DIGITS, Literal('m')] + ps4;
    var ps2 := [TWO_DIGITS, Literal('h')] + ps3;
    var ps1 := [NUMBER, Literal('d')] + ps2;
    PairShows(TWO_DIGITS, 's', ps5);
    PairShows(TWO_DIGITS, 'm', ps4);
    PairShows(TWO_DIGITS, 'h', ps3);
    PairShows(NUMBER, 'd', ps2);
    PairShows(NUMBER, 'w', ps1);
  }

  lemma PairMeans(p: Piece, c: char, ps: seq<Piece>, a: Arg, args: seq<Arg>, conv: Converter, text: string)
    requires Meaning(p, [a] + args, conv) == (text, args)
    ensures MeaningAll([p, Literal(c)] + ps, [a] + args, conv) == text + ([c] + MeaningAll(ps, args, conv))
  {
    assert ([p, Literal(c)] + ps)[1..] == [Literal(c)] + ps;
    assert ([Literal(c)] + ps)[1..] == ps;
  }

  lemma NumberPairMeans(v: nat, c: char, ps: seq<Piece>, args: seq<Arg>, conv: Converter)
    requires PrintsNumber(conv, v)
    ensures MeaningAll([NUMBER, Literal(c)] + ps, [Arg(v, None)] + args, conv)
         == InDecimal(v) + ([c] + MeaningAll(ps, args, conv))
  {
    assert ([Arg(v, None)] + args)[1..] == args;
    NumberMeans(v, [Arg(v, None)] + args, conv);
    hide Meaning, MeaningAll, InDecimal;
    PairMeans(NUMBER, c, ps, Arg(v, None), args, conv, InDecimal(v));
  }

  lemma TwoDigitsPairMeans(v: nat, c: char, ps: seq<Piece>, args: seq<Arg>, conv: Converter)
    requires PrintsTwoDigits(conv, v)
    ensures MeaningAll([TWO_DIGITS, Literal(c)] + ps, [Arg(v, None)] + args, conv)
         == TwoDigits(v) + ([c] + MeaningAll(ps, args, conv))
  {
    assert ([Arg(v, None)] + args)[1..] == args;
    TwoDigitsMeans(v, [Arg(v, None)] + args, conv);
    hide Meaning, MeaningAll, TwoDigits;
    PairMeans(TWO_DIGITS, c, ps, Arg(v, None), args, conv, TwoDigits(v));
  }

  lemma ClockMeans(h: nat, m: nat, s: nat, conv: Converter)
    requires PrintsTwoDigits(conv, h) && PrintsTwoDigits(conv, m) && PrintsTwoDigits(conv, s)
    ensures MeaningAll([TWO_DIGITS, Literal('h')] + ([TWO_DIGITS, Literal('m')] + ([TWO_DIGITS, Literal('s')] + [])),
                       [Arg(h, None)] + ([Arg(m, None)] + ([Arg(s, None)] + [])), conv)
         == TwoDigits(h) + ("h" + (TwoDigits(m) + ("m" + (TwoDigits(s) + "s"))))
  {
    assert MeaningAll([], [], conv) == "" && ['s'] + "" == "s";
    hide MeaningAll, TwoDigits, PrintsTwoDigits;
    TwoDigitsPairMeans(s, 's', [], [], conv);
    TwoDigitsPairMeans(m, 'm', [TWO_DIGITS, Literal('s')] + [], [Arg(s, None)] + [], conv);
    TwoDigitsPairMeans(h, 'h', [TWO_DIGITS, Literal('m')] + ([TWO_DIGITS, Literal('s')] + []),
                       [Arg(m, None)] + ([Arg(s, None)] + []), conv);
  }

  lemma PiecesMean(w: nat, d: nat, h: nat, m: nat, s: nat, conv: Converter)
    requires PrintsNumber(conv, w) && PrintsNumber(conv, d)
    requires PrintsTwoDigits(conv, h) && PrintsTwoDigits(conv, m) && PrintsTwoDigits(conv, s)
    ensures MeaningAll(Pieces(), [Arg(w, None), Arg(d, None), Arg(h, None), Arg(m, None), Arg(s, None)], conv)
         == UptimeText(w, d, h, m, s)
  {
    var clock := [TWO_DIGITS, Literal('h')] + ([TWO_DIGITS, Literal('m')] + ([TWO_DIGITS, Literal('s')] + []));
    var times := [Arg(h, None)] + ([Arg(m, None)] + ([Arg(s, None)] + []));
    var args := [Arg(w, None), Arg(d, None), Arg(h, None), Arg(m, None), Arg(s, None)];
    assert [Arg(w, None)] + ([Arg(d, None)] + times) == args;
    PiecesArePairs();
    hide MeaningAll, TwoDigits, InDecimal, PrintsNumber, PrintsTwoDigits, Pieces;
    ClockMeans(h, m, s, conv);
    NumberPairMeans(d, 'd', clock, times, conv);
    NumberPairMeans(w, 'w', [NUMBER, Literal('d')] + clock, [Arg(d, None)] + times, conv);
  }

  /** The mixed-radix parts of a number of seconds. */
  method Split(secs: nat) returns (w: nat, d: nat, h: nat, m: nat, s: nat)
    requires secs < TWO32
    ensures w < 10000 && d < 7 && h < 24 && m < 60 && s < 60
    ensures w * WEEK + d * DAY + h * HOUR + m * MINUTE + s == secs
  {
    s := secs;
    w := s / WEEK;
    s := s - w * WEEK;
    d := s / DAY;
    s := s - d * DAY;
    h := s / HOUR;
    s := s - h * HOUR;
    m := s / MINUTE;
    s := s - m * MINUTE;
  }

  /** fmt_secs: the text that is printed denotes the number of seconds. */
  method FmtSecs(secs: nat, fp: FloatFormat) returns (text: string)
    requires secs < TWO32
    ensures exists w: nat, d: nat, h: nat, m: nat, s: nat ::
              text == UptimeText(w, d, h, m, s) && d < 7 && h < 24 && m < 60 && s < 60
    ensures Seconds(text, 0) == secs
  {
    var w, d, h, m, s := Split(secs);
    UptimeDenotes(w, d, h, m, s);
    text := Print(w, d, h, m, s, fp);
  }

  /** The call of snprintf: nothing is cut off. */
  method Print(w: nat, d: nat, h: nat, m: nat, s: nat, fp: FloatFormat) returns (text: string)
    requires w < 10000 && d < 7 && h < 24 && m < 60 && s < 60
    ensures text == UptimeText(w, d, h, m, s)
  {
    var buf := new char[128];
    var args := [Arg(w, None), Arg(d, None), Arg(h, None), Arg(m, None), Arg(s, None)];
    FormatIsTerminated();
    var n := Vsnprintf(buf, 127, UPTIME_FORMAT, args, fp);
    UptimeOutput(w, d, h, m, s, fp);
    text := buf[..n];
  }

  lemma UptimeOutput(w: nat, d: nat, h: nat, m: nat, s: nat, fp: FloatFormat)
    requires w < 10000 && d < 7 && h < 24 && m < 60 && s < 60
    ensures var out := Output(UPTIME_FORMAT, [Arg(w, None), Arg(d, None), Arg(h, None), Arg(m, None), Arg(s, None)],
                           Conversions(fp));
            out == UptimeText(w, d, h, m, s) && |out| <= 126 && '\0' !in out[..Min(126, |out|)]
  {
    var args := [Arg(w, None), Arg(d, None), Arg(h, None), Arg(m, None), Arg(s, None)];
    FormatIsPieces();
    PiecesAreValid();
    NumberPrinted(w, fp);
    NumberPrinted(d, fp);
    TwoDigitsPrinted(h, fp);
    TwoDigitsPrinted(m, fp);
    TwoDigitsPrinted(s, fp);
    OutputIsMeaning(Pieces(), args, Conversions(fp));
    PiecesMean(w, d, h, m, s, Conversions(fp));
    TextFits(w, d, h, m, s);
  }

  lemma {:induction false} PiecesTerminate(ps: seq<Piece>)
    requires forall p :: p in ps ==> p in [NUMBER, TWO_DIGITS] || (p.Literal? && p.c != '%')
    ensures Terminated(Default, ShowAll(ps))
    decreases |ps|
  {
    if ps != [] {
      PiecesTerminate(ps[1..]);
      assert ps[0] in ps;
      ConversionsShow();
      PieceTerminates(ps[0], Show(ps[0]), ShowAll(ps[1..]));
    }
  }

  lemma PieceTerminates(p: Piece, text: string, rest: string)
    requires text == "%d" || text == "%02d" || (p.Literal? && p.c != '%' && text == [p.c])
    requires Terminated(Default, rest)
    ensures Terminated(Default, text + rest)
  {
    if text == "%d" || text == "%02d" {
      var w := if text == "%d" then "" else "02";
      ConversionGlue(w, rest);
      hide Terminated;
      ConversionTerminates(w, rest);
    } else {
      assert (text + rest)[0] == p.c && (text + rest)[1..] == rest;
    }
  }

  lemma ConversionGlue(w: string, rest: string)
    requires w in ["", "02"]
    ensures "%" + (w + ("d" + rest)) == (if w == "" then "%d" else "%02d") + rest
  {
  }

  lemma ConversionTerminates(w: string, rest: string)
    requires w in ["", "02"] && Terminated(Default, rest)
    ensures Terminated(Default, "%" + (w + ("d" + rest)))
  {
    var t := "d" + rest;
    assert t[1..] == rest;
    assert Terminated(InConv, t);
    assert Terminated(InMod, t);
    assert Terminated(InDot, t);
    assert Terminated(InMin, t);
    assert !IsFlag(t[0]);
    assert Terminated(InFlags, t);
    assert ("%" + (w + t))[1..] == w + t;
    if w == "" {
      assert w + t == t;
    } else {
      assert (w + t)[1..] == "2" + t && ("2" + t)[1..] == t;
      assert Terminated(InMin, "2" + t);
      assert Terminated(InFlags, "2" + t);
    }
  }

  lemma FormatIsTerminated()
    ensures Terminated(Default, UPTIME_FORMAT)
  {
    FormatIsPieces();
    PiecesAreKnown();
    PiecesTerminate(Pieces());
  }

  lemma PiecesAreKnown()
    ensures forall p :: p in Pieces() ==> p in [NUMBER, TWO_DIGITS] || (p.Literal? && p.c != '%')
  {
  }

  lemma ShortText(v: nat)
    requires v < 10000
    ensures |InDecimal(v)| <= 4 && '\0' !in InDecimal(v)
    ensures |TwoDigits(v)| <= 6 && '\0' !in TwoDigits(v)
  {
    SmallNumber(v);
    LeadingDigit(v);
  }

  lemma ShortTexts(a: string, b: string, c: string, d: string, e: string)
    requires |a| <= 6 && |b| <= 6 && |c| <= 6 && |d| <= 6 && |e| <= 6
    requires '\0' !in a && '\0' !in b && '\0' !in c && '\0' !in d && '\0' !in e
    ensures var t := a + ("w" + (b + ("d" + (c + ("h" + (d + ("m" + (e + "s")))))))); |t| <= 126 && '\0' !in t
  {
  }

  /** The text fits into the buffer and contains no NUL. */
  lemma TextFits(w: nat, d: nat, h: nat, m: nat, s: nat)
    requires w < 10000 && d < 7 && h < 24 && m < 60 && s < 60
    ensures |UptimeText(w, d, h, m, s)| <= 126 && '\0' !in UptimeText(w, d, h, m, s)
  {
    hide InDecimal, TwoDigits;
    ShortText(w);
    ShortText(d);
    ShortText(h);
    ShortText(m);
    ShortText(s);
    ShortTexts(InDecimal(w), InDecimal(d), TwoDigits(h), TwoDigits(m), TwoDigits(s));
  }
}
