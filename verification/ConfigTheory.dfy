/** What a configuration file means, and when the printed list reads back. */
module ConfigTheory {
  import opened Prelude
  import opened Numbers
  import opened Verdict
  import opened Format
  import opened FormatTheory
  import opened Config
  import opened ConfigLines

  // ---- Files ----

  lemma {:induction false} LineLengthIs(file: string, n: nat, k: nat)
    requires k <= |file| && k <= n
    requires forall j :: 0 <= j < k - 1 ==> file[j] != '\n'
    requires k == n || k == |file| || (k > 0 && file[k - 1] == '\n')
    ensures LineLength(file, n) == k
  {
    if k > 1 {
      LineLengthIs(file[1..], n - 1, k - 1);
    }
  }

  /** What is loaded, if the file is not rejected. */
  function Read(o: Outcome): (r: Option<seq<Rbl>>) { if o.Loaded? then Some(o.rbls) else None }

  function With(line: Line, rest: Option<seq<Rbl>>): (r: Option<seq<Rbl>>) {
    match line
    case Blank => rest
    case Bad(_) => None
    case Entry(rbl) => if rest.Some? then Some([rbl] + rest.value) else None
  }

  /** The line numbers count, but change nothing. */
  lemma {:induction false} SameFromAnyLine(file: string, m: nat, n: nat)
    ensures Read(Parse(file, m)) == Read(Parse(file, n))
    decreases |file|
  {
    if file != "" {
      SameFromAnyLine(file[LineLength(file, ROOM)..], m + 1, n + 1);
    }
  }

  /** A line in front of what follows it; `done` is its number. */
  function Then(line: Line, done: nat, rest: Outcome): (r: Outcome) {
    match line
    case Blank => rest
    case Bad(problem) => Rejected(problem, done)
    case Entry(rbl) => if rest.Loaded? then Loaded([rbl] + rest.rbls) else rest
  }

  lemma ChunkStep(file: string, k: nat, done: nat)
    requires 0 < k <= |file| && LineLength(file, ROOM) == k && '\0' !in file[..k]
    ensures Parse(file, done) == Then(ParseLine(file[..k]), done + 1, Parse(file[k..], done + 1))
  {
    UpToIs(file[..k], '\0', k);
    assert file[..k][..k] == file[..k];
  }

  lemma {:induction false} TrimsTwice(s: string, c: char)
    requires IsSpace(c)
    ensures RTrim(s + [c]) == RTrim(s)
  {
    assert (s + [c])[..|s|] == s;
  }

  lemma NewlineChangesNothing(text: string)
    ensures ParseLine(text + "\n") == ParseLine(text)
  {
    UpToEnds(text, '#');
    var t := UpTo(text, '#');
    if |t| < |text| {
      assert (text + "\n")[..|t|] == t;
      UpToIs(text + "\n", '#', |t|);
    } else {
      assert (text + "\n")[..|text| + 1] == text + "\n" && t == text && "\n" == ['\n'];
      UpToIs(text + "\n", '#', |text| + 1);
      TrimsTwice(text, '\n');
    }
  }

  /** How many calls of fgets a line takes: it may fit but for its newline. */
  function Calls(text: string): (n: nat) { if |text| == 1022 then 2 else 1 }

  /** A line that fits the buffer is one line. */
  lemma LineStep(text: string, rest: string, done: nat)
    requires '\n' !in text && '\0' !in text && |text| <= 1022
    ensures Parse(text + "\n" + rest, done) == Then(ParseLine(text), done + 1, Parse(rest, done + Calls(text)))
  {
    hide Parse, ParseLine, LineLength;
    var file := text + "\n" + rest;
    NewlineChangesNothing(text);
    if |text| < ROOM {
      LineLengthIs(file, ROOM, |text| + 1);
      assert file[..|text| + 1] == text + "\n" && file[|text| + 1..] == rest;
      ChunkStep(file, |text| + 1, done);
    } else {
      LineLengthIs(file, ROOM, |text|);
      assert file[..|text|] == text && file[|text|..] == "\n" + rest;
      ChunkStep(file, |text|, done);
      LoneNewline(rest, done + 1);
    }
  }

  lemma LoneNewline(rest: string, done: nat)
    ensures Parse("\n" + rest, done) == Parse(rest, done + 1)
  {
    hide Parse, ParseLine, LineLength;
    LineLengthIs("\n" + rest, ROOM, 1);
    assert ("\n" + rest)[..1] == "\n" && ("\n" + rest)[1..] == rest;
    ChunkStep("\n" + rest, 1, done);
    BlankLine("\n", "");
    assert "\n" + "" == "\n";
  }

  lemma StepFromAnyLine(text: string, rest: string, done: nat)
    requires '\n' !in text && '\0' !in text && |text| <= 1022
    ensures Read(Parse(text + "\n" + rest, done)) == With(ParseLine(text), Read(Parse(rest, 0)))
  {
    hide Parse, ParseLine;
    LineStep(text, rest, done);
    SameFromAnyLine(rest, done + Calls(text), 0);
  }

  // ---- Files as people write them ----

  ghost predicate Fits(p: Written) {
    IsLine(p) && '\n' !in TextOf(p) && '\0' !in TextOf(p) && |TextOf(p)| <= 1022
  }

  function FileOf(ps: seq<Written>): (r: string) {
    if ps == [] then "" else TextOf(ps[0]) + "\n" + FileOf(ps[1..])
  }

  /** The entries of the lines, in order. */
  function Items(ps: seq<Written>): (r: seq<Rbl>) {
    if ps == [] then []
    else (if LineOf(ps[0]).Entry? then [LineOf(ps[0]).rbl] else []) + Items(ps[1..])
  }

  function AllCalls(ps: seq<Written>): (n: nat) { if ps == [] then 0 else Calls(TextOf(ps[0])) + AllCalls(ps[1..]) }

  lemma {:induction false} FilesAppend(ps: seq<Written>, rest: string)
    requires ps != []
    ensures FileOf(ps) + rest == TextOf(ps[0]) + "\n" + (FileOf(ps[1..]) + rest)
  {
  }

  /** Good lines in front of anything. */
  lemma {:induction false} GoodLines(ps: seq<Written>, rest: string, done: nat)
    requires forall p :: p in ps ==> Fits(p) && !LineOf(p).Bad?
    ensures Parse(FileOf(ps) + rest, done) == Behind(Items(ps), Parse(rest, done + AllCalls(ps)))
  {
    hide Parse, ParseLine, LineOf, TextOf, IsLine, Behind, Then;
    if ps == [] {
      assert FileOf(ps) + rest == rest;
      BehindBehind([], [], Parse(rest, done));
    } else {
      FilesAppend(ps, rest);
      var text := TextOf(ps[0]);
      assert Fits(ps[0]);
      LineMeaning(ps[0]);
      LineStep(text, FileOf(ps[1..]) + rest, done);
      GoodLines(ps[1..], rest, done + Calls(text));
      GoodLine(LineOf(ps[0]), done + 1, Items(ps[1..]), Parse(rest, done + AllCalls(ps)));
    }
  }

  lemma GoodLine(line: Line, done: nat, items: seq<Rbl>, o: Outcome)
    requires !line.Bad?
    ensures Then(line, done, Behind(items, o)) == Behind((if line.Entry? then [line.rbl] else []) + items, o)
  {
    assert [] + items == items;
    if line.Entry? && o.Loaded? {
      assert [line.rbl] + (items + o.rbls) == ([line.rbl] + items) + o.rbls;
    }
  }

  /** Comments, blank lines and white space do not change what is loaded. */
  lemma FileReadsAsWritten(ps: seq<Written>)
    requires forall p :: p in ps ==> Fits(p) && !LineOf(p).Bad?
    ensures Parse(FileOf(ps), 0) == Loaded(Items(ps))
  {
    hide Parse, ParseLine, LineOf, IsLine, TextOf, Fits, Items, FileOf;
    GoodLines(ps, "", 0);
    assert FileOf(ps) + "" == FileOf(ps);
    NothingMore(AllCalls(ps));
    assert Items(ps) + [] == Items(ps);
  }

  lemma NothingMore(done: nat)
    ensures Parse("", done) == Loaded([])
  {
  }

  /** The first line that is wrong is reported, by the number of lines read, and
      nothing is loaded. */
  lemma FirstErrorIsReported(ps: seq<Written>, p: Written, rest: string)
    requires (forall q :: q in ps ==> Fits(q) && !LineOf(q).Bad?) && Fits(p) && LineOf(p).Bad?
    ensures Parse(FileOf(ps) + (TextOf(p) + "\n" + rest), 0) == Rejected(LineOf(p).problem, AllCalls(ps) + 1)
  {
    hide Parse, ParseLine, LineOf, IsLine, TextOf, Items, FileOf, AllCalls, Calls;
    GoodLines(ps, TextOf(p) + "\n" + rest, 0);
    LineMeaning(p);
    LineStep(TextOf(p), rest, AllCalls(ps));
  }

  /** The first part of a file that it is enough to look at. */
  predicate Decided(file: string, k: nat) {
    0 < k <= |file| && (k < |file| || k == ROOM || file[k - 1] == '\n')
  }

  lemma SameFirstChunk(file: string, k: nat)
    requires k == LineLength(file, ROOM) && Decided(file, k)
    ensures LineLength(file + "\n", ROOM) == k
    ensures (file + "\n")[..k] == file[..k] && (file + "\n")[k..] == file[k..] + "\n"
  {
    hide LineLength;
    ChunkBounds(file, ROOM);
    LineLengthIs(file + "\n", ROOM, k);
  }

  lemma LastChunkGrows(file: string, k: nat)
    requires file != "" && k == LineLength(file, ROOM) && !Decided(file, k)
    ensures k == |file| && LineLength(file + "\n", ROOM) == k + 1
    ensures (file + "\n")[..k + 1] == file + "\n" && (file + "\n")[k + 1..] == "" == file[k..] && file[..k] == file
  {
    hide LineLength;
    ChunkBounds(file, ROOM);
    LineLengthIs(file + "\n", ROOM, k + 1);
  }

  lemma ParseUnfolds(file: string, k: nat, done: nat)
    requires file != "" && k == LineLength(file, ROOM)
    ensures Parse(file, done) == Then(ParseLine(UpTo(file[..k], '\0')), done + 1, Parse(file[k..], done + 1))
  {
  }

  /** Whether the last line ends in a newline does not matter. */
  lemma {:induction false} LastNewline(file: string, done: nat)
    ensures Parse(file + "\n", done) == Parse(file, done)
    decreases |file|
  {
    hide Parse, ParseLine, UpTo, Then, Decided;
    if file == "" {
      assert file + "\n" == "\n" + "";
      LoneNewline("", done);
      NothingMore(done);
      NothingMore(done + 1);
    } else {
      var k := LineLength(file, ROOM);
      ParseUnfolds(file, k, done);
      if Decided(file, k) {
        SameFirstChunk(file, k);
        ParseUnfolds(file + "\n", k, done);
        LastNewline(file[k..], done + 1);
      } else {
        LastChunkGrows(file, k);
        ParseUnfolds(file + "\n", k + 1, done);
        LastChunk(file);
      }
    }
  }

  lemma {:induction false} ChunkBounds(file: string, n: nat)
    ensures var k := LineLength(file, n);
      && (forall j :: 0 <= j < k - 1 ==> file[j] != '\n')
      && (k == n || k == |file| || (k > 0 && file[k - 1] == '\n'))
  {
    if file != "" && n > 0 && file[0] != '\n' {
      ChunkBounds(file[1..], n - 1);
    }
  }

  lemma LastChunk(text: string)
    ensures ParseLine(UpTo(text + "\n", '\0')) == ParseLine(UpTo(text, '\0'))
  {
    UpToEnds(text, '\0');
    var t := UpTo(text, '\0');
    if |t| < |text| {
      assert (text + "\n")[..|t|] == t;
      UpToIs(text + "\n", '\0', |t|);
    } else {
      assert (text + "\n")[..|text| + 1] == text + "\n" && t == text;
      UpToIs(text + "\n", '\0', |text| + 1);
      NewlineChangesNothing(text);
    }
  }

  // ---- The printed list ----

  ghost predicate Printable(rbl: Rbl) { IsToken(rbl.domain) && 1 <= rbl.weight <= 32767 }

  lemma FewDigits(w: nat)
    requires w <= SHRT_MAX
    ensures 1 <= |InDecimal(w)| <= 5
  {
    var n := NumDigits(w, Decimal);
    assert Pow(Decimal, 1) == 10 && Pow(Decimal, 2) == 100;
    assert Pow(Decimal, 3) == 1000 && Pow(Decimal, 4) == 10000 && Pow(Decimal, 5) == 100000;
    if n > 5 {
      NumDigitsNeeded(w, Decimal);
      PowMonotone(Decimal, 5, n - 1);
    }
  }

  lemma NameFieldText(domain: string)
    ensures NameField(domain) == domain + Repeat(' ', 40 - |domain|)
  {
  }

  lemma WeightFieldText(w: nat)
    requires 0 < w <= SHRT_MAX
    ensures WeightField(w) == Repeat(' ', 3 - |InDecimal(w)|) + InDecimal(w)
  {
    FewDigits(w);
    var n := NumDigits(w, Decimal);
    assert SignedArg(Short, w) == w && Magnitude(w, false) == w && Places(w, Decimal) == n;
    var fill := 3 - n as int;
    assert ZeroPad(n, 0, 3, 0, NO_FLAGS) == 0 && SpacePad(n, 0, 3, 0) == Max(fill, 0);
    SpacesAndDigits(Repeat(' ', Max(fill, 0)), Numeral(w, Decimal, n, false));
  }

  lemma SpacesAndDigits(spaces: string, ds: string)
    ensures spaces + "" + Repeat('0', 0) + ds + "" == spaces + ds
  {
  }

  /** The parts of a printed line. */
  lemma EntryParts(rbl: Rbl) returns (mid: string)
    requires Printable(rbl)
    ensures EntryText(rbl) == rbl.domain + mid + InDecimal(rbl.weight)
    ensures Spaces(mid) && mid != "" && '\n' !in mid && '\0' !in mid
    ensures |rbl.domain| >= 40 ==> |mid| + |InDecimal(rbl.weight)| <= 6
    ensures |EntryText(rbl)| == PrintedLength(rbl)
  {
    hide NameField, WeightField, InDecimal;
    NameFieldText(rbl.domain);
    WeightFieldText(rbl.weight);
    FewDigits(rbl.weight);
    mid := PartsJoin(rbl.domain, 40 - |rbl.domain|, 3 - |InDecimal(rbl.weight)|, InDecimal(rbl.weight));
  }

  lemma PartsJoin(d: string, m: int, n: int, ds: string) returns (mid: string)
    ensures d + Repeat(' ', m) + " " + (Repeat(' ', n) + ds) == d + mid + ds
    ensures Spaces(mid) && |mid| == Max(m, 0) + 1 + Max(n, 0) && '\n' !in mid && '\0' !in mid
  {
    mid := Repeat(' ', m) + " " + Repeat(' ', n);
  }

  /** The length of the printed line, without its newline. */
  function PrintedLength(rbl: Rbl): (r: nat) {
    Max(40, |rbl.domain|) + 1 + Max(3, |InDecimal(Max(rbl.weight, 0))|)
  }

  /** A weight in decimal, as cfg_dump prints it. */
  function Printed(w: nat): (r: Weight) { Number("", Decimal, "", InDecimal(w), "") }

  lemma DecimalToken(w: nat)
    requires 0 < w <= SHRT_MAX
    ensures IsToken(InDecimal(w)) && '\n' !in InDecimal(w) && '\0' !in InDecimal(w)
    ensures WellFormed(Printed(w)) && WeightText(Printed(w)) == InDecimal(w) && SignedValue(Printed(w)) == w
    ensures IsInner(InDecimal(w))
  {
    hide InDecimal, Value;
    LeadingDigit(w);
    DecimalValue(w);
    assert "" + ("" + (InDecimal(w) + "")) == InDecimal(w);
  }

  lemma PartsAreOneLine(d: string, mid: string, ds: string, text: string)
    requires IsToken(d) && IsToken(ds) && Spaces(mid) && '\n' !in mid && '\0' !in mid && text == d + mid + ds
    ensures '\n' !in text && '\0' !in text
  {
    assert '\n' !in d && '\0' !in d && '\n' !in ds && '\0' !in ds;
  }

  lemma PartsParse(d: string, mid: string, w: nat, text: string)
    requires IsToken(d) && Spaces(mid) && mid != "" && text == d + mid + InDecimal(w) && 0 < w <= SHRT_MAX
    ensures ParseLine(text) == Entry(Rbl(d, w))
  {
    hide InDecimal, ParseLine, WellFormed, IsInner, WeightText, SignedValue, IsToken;
    DecimalToken(w);
    WeightLine("", d, mid, Printed(w), "", "");
    NothingAround(d, mid, InDecimal(w));
  }

  lemma NothingAround(a: string, b: string, c: string)
    ensures "" + a + b + c + "" + "" == a + b + c
  {
  }

  /** A piece without white space at the start of a line of its own. */
  lemma LoneWordStep(word: string, spaces: string, rest: string, done: nat)
    requires IsToken(word) && Spaces(spaces) && '\n' !in spaces && '\0' !in spaces && |word + spaces| <= ROOM
    ensures Read(Parse(word + spaces + "\n" + rest, done)) == None
  {
    LoneWord("", word, spaces, "");
    assert "" + word + spaces + "" == word + spaces;
    StepFromAnyLine(word + spaces, rest, done);
  }

  lemma CutToken(word: string, i: nat, j: nat)
    requires IsToken(word) && i < j <= |word|
    ensures IsToken(word[i..j])
  {
  }

  /** A line that is too long for the buffer spoils the file: the cut leaves a
      line with one word only. */
  lemma LongLine(d: string, mid: string, ds: string, text: string, rest: string, done: nat)
    requires IsToken(d) && IsToken(ds) && Spaces(mid) && '\n' !in mid && '\0' !in mid
    requires text == d + mid + ds && |text| > ROOM && |mid| + |ds| <= 6
    ensures Read(Parse(text + "\n" + rest, done)) == None
  {
    var file := text + "\n" + rest;
    hide Parse, ParseLine, LineLength;
    PartsAreOneLine(d, mid, ds, text);
    LineLengthIs(file, ROOM, ROOM);
    assert file[..ROOM] == text[..ROOM] && file[ROOM..] == text[ROOM..] + "\n" + rest;
    ChunkStep(file, ROOM, done);
    SameFromAnyLine(file[ROOM..], done + 1, 0);
    if ROOM <= |d| + |mid| {
      CutBefore(d, mid, text[..ROOM]);
    } else {
      var j := ROOM - |d| - |mid|;
      CutToken(ds, j, |ds|);
      assert text[ROOM..] == ds[j..] == ds[j..] + "";
      LoneWordStep(ds[j..], "", rest, 0);
    }
  }

  lemma CutBefore(d: string, mid: string, line: string)
    requires IsToken(d) && Spaces(mid) && 0 < |line| <= |d| + |mid| && line == (d + mid)[..|line|]
    ensures ParseLine(line) == Bad(Premature)
  {
    var word := d[..Min(|line|, |d|)];
    assert word == d[0..|word|];
    CutToken(d, 0, |word|);
    var spaces := mid[..|line| - |word|];
    LoneWord("", word, spaces, "");
    assert "" + word + spaces + "" == line;
  }

  lemma PrintedStep(rbl: Rbl, text: string, rest: string, done: nat)
    requires Printable(rbl) && text == EntryText(rbl)
    ensures Read(Parse(text + "\n" + rest, done))
         == if PrintedLength(rbl) <= ROOM then With(Entry(rbl), Read(Parse(rest, 0))) else None
  {
    var mid := EntryParts(rbl);
    var ds := InDecimal(rbl.weight);
    DecimalToken(rbl.weight);
    if PrintedLength(rbl) <= ROOM {
      PartsParse(rbl.domain, mid, rbl.weight, text);
      PartsAreOneLine(rbl.domain, mid, ds, text);
      StepFromAnyLine(text, rest, done);
    } else {
      LongLine(rbl.domain, mid, ds, text, rest, done);
    }
  }

  /** The entry lines that cfg_dump prints load as the same list, in the same
      order, if and only if every line fits the reader's buffer; otherwise the
      file is rejected. */
  lemma {:induction false} PrintedListReadsBack(rbls: seq<Rbl>, done: nat)
    requires forall r :: r in rbls ==> Printable(r)
    ensures Read(Parse(Entries(rbls), done))
         == if forall r :: r in rbls ==> PrintedLength(r) <= 1022 then Some(rbls) else None
  {
    if rbls != [] {
      var r := rbls[0];
      assert rbls == [r] + rbls[1..];
      PrintedListReadsBack(rbls[1..], 0);
      PrintedStep(r, EntryText(r), Entries(rbls[1..]), done);
    }
  }

  /** With its tags, what cfg_dump prints is no configuration file. */
  lemma WholeDumpIsRejected(rbls: seq<Rbl>)
    ensures Parse("<rblservers>\n" + Entries(rbls) + "</rblservers>\n", 0) == Rejected(Premature, 1)
  {
    var line, rest := "<rblservers>\n", Entries(rbls) + "</rblservers>\n";
    assert line + Entries(rbls) + "</rblservers>\n" == line + rest;
    RejectsTag(line, rest);
  }

  lemma RejectsTag(line: string, rest: string)
    requires line == "<rblservers>\n"
    ensures Parse(line + rest, 0) == Rejected(Premature, 1)
  {
    hide ParseLine, UpTo;
    var tag := "<rblservers>";
    LineLengthIs(line + rest, ROOM, 13);
    assert (line + rest)[..13] == line == line[..13];
    UpToIs(line, '\0', 13);
    LoneWord("", tag, "\n", "");
    assert "" + tag + "\n" + "" == line;
  }

  // ---- What was read ----

  lemma EntryIsPrintable(s: string)
    requires '\0' !in s
    ensures ParseLine(s).Entry? ==> Printable(ParseLine(s).rbl)
  {
    hide ParseLine;
    var p := EveryLine(s);
    LineMeaning(p);
  }

  /** Whatever a file says, what is loaded from it is a list the lookup can work
      with: positive weights that fit a short, and domains that are words. */
  lemma {:induction false} LoadedIsPrintable(file: string, done: nat)
    ensures Parse(file, done).Loaded? ==>
      && Positive(Parse(file, done).rbls) && Words(Parse(file, done).rbls)
      && forall r :: r in Parse(file, done).rbls ==> Printable(r)
    decreases |file|
  {
    if file != "" {
      var k := LineLength(file, ROOM);
      LoadedIsPrintable(file[k..], done + 1);
      UpToEnds(file[..k], '\0');
      EntryIsPrintable(UpTo(file[..k], '\0'));
    }
  }

  /** So a list that was loaded and printed loads again, but for lines that
      padding has made too long. */
  lemma LoadedListReadsBack(file: string)
    ensures Parse(file, 0).Loaded? && (forall r :: r in Parse(file, 0).rbls ==> PrintedLength(r) <= 1022) ==>
      Parse(Entries(Parse(file, 0).rbls), 0) == Parse(file, 0)
  {
    LoadedIsPrintable(file, 0);
    if Parse(file, 0).Loaded? {
      PrintedListReadsBack(Parse(file, 0).rbls, 0);
    }
  }

  const NAME_SPEC := Spec(NO_FLAGS.(minus := true), 40, -1, NoLength)
  const WEIGHT_SPEC := Spec(NO_FLAGS, 3, -1, Short)

  lemma NameFieldIs(domain: string, fp: FloatFormat)
    ensures Conversions(fp)('s', NAME_SPEC, Arg(0, Some(domain))) == NameField(domain)
  {
  }

  lemma WeightFieldIs(weight: int, fp: FloatFormat)
    ensures Conversions(fp)('d', WEIGHT_SPEC, Arg(weight, None)) == WeightField(weight)
  {
  }

  /** The printed line is what the portable formatter makes of the format. */
  lemma EntryIsFormatted(rbl: Rbl, fp: FloatFormat)
    ensures Output("%-40s %3hd\n", [Arg(0, Some(rbl.domain)), Arg(rbl.weight, None)], Conversions(fp))
         == EntryText(rbl) + "\n"
  {
    NameFieldIs(rbl.domain, fp);
    WeightFieldIs(rbl.weight, fp);
    FormatPrints(Arg(0, Some(rbl.domain)), Arg(rbl.weight, None), Conversions(fp),
                 NameField(rbl.domain), WeightField(rbl.weight));
  }

  lemma FormatPrints(a: Arg, b: Arg, conv: Converter, s: string, d: string)
    requires s == conv('s', NAME_SPEC, a) && d == conv('d', WEIGHT_SPEC, b)
    ensures Output("%-40s %3hd\n", [a, b], conv) == s + " " + d + "\n"
  {
    var name := Conversion("-", Width(40), NoPrecision, NoLength, 's');
    var weight := Conversion("", Width(3), NoPrecision, Short, 'd');
    var ps := [name, Literal(' '), weight, Literal('\n')];
    assert forall p :: p in ps ==> Valid(p);
    OutputIsMeaning(ps, [a, b], conv);
    ShowsFormat(name, weight);
    MeansFormat(name, weight, a, b, conv, s, d);
  }

  lemma MeansFormat(name: Piece, weight: Piece, a: Arg, b: Arg, conv: Converter, s: string, d: string)
    requires name == Conversion("-", Width(40), NoPrecision, NoLength, 's')
    requires weight == Conversion("", Width(3), NoPrecision, Short, 'd')
    requires s == conv('s', NAME_SPEC, a) && d == conv('d', WEIGHT_SPEC, b)
    ensures MeaningAll([name, Literal(' '), weight, Literal('\n')], [a, b], conv) == s + " " + d + "\n"
  {
    MeansFields(name, weight, a, b, conv);
    var end := [Literal('\n')];
    MeaningCons(Literal('\n'), [], [], conv);
    MeaningCons(weight, end, [b], conv);
    MeaningCons(Literal(' '), [weight] + end, [b], conv);
    MeaningCons(name, [Literal(' ')] + ([weight] + end), [a, b], conv);
    assert [name] + ([Literal(' ')] + ([weight] + end)) == [name, Literal(' '), weight, Literal('\n')];
  }

  lemma MeansFields(name: Piece, weight: Piece, a: Arg, b: Arg, conv: Converter)
    requires name == Conversion("-", Width(40), NoPrecision, NoLength, 's')
    requires weight == Conversion("", Width(3), NoPrecision, Short, 'd')
    ensures Meaning(name, [a, b], conv) == (conv('s', NAME_SPEC, a), [b])
    ensures Meaning(weight, [b], conv) == (conv('d', WEIGHT_SPEC, b), [])
  {
    assert AddFlags(NO_FLAGS, "") == NO_FLAGS;
    assert AddFlags(NO_FLAGS, "-") == AddFlags(AddFlag(NO_FLAGS, '-'), "") == NO_FLAGS.(minus := true);
    assert [a, b][1..] == [b] && [b][1..] == [];
  }

  lemma MeaningCons(p: Piece, ps: seq<Piece>, args: seq<Arg>, conv: Converter)
    ensures var (out, args') := Meaning(p, args, conv);
      MeaningAll([p] + ps, args, conv) == out + MeaningAll(ps, args', conv)
  {
    assert ([p] + ps)[1..] == ps;
  }

  lemma ShowsConversions(name: Piece, weight: Piece)
    requires name == Conversion("-", Width(40), NoPrecision, NoLength, 's')
    requires weight == Conversion("", Width(3), NoPrecision, Short, 'd')
    ensures Show(name) == "%-40s" && Show(weight) == "%3hd"
  {
    assert InDecimal(40) == "40" && InDecimal(3) == "3";
  }

  lemma ShowsFormat(name: Piece, weight: Piece)
    requires name == Conversion("-", Width(40), NoPrecision, NoLength, 's')
    requires weight == Conversion("", Width(3), NoPrecision, Short, 'd')
    ensures ShowAll([name, Literal(' '), weight, Literal('\n')]) == "%-40s %3hd\n"
  {
    ShowsConversions(name, weight);
    assert ShowAll([]) == "";
    PairShows(weight, '\n', []);
    PairShows(name, ' ', [weight, Literal('\n')] + []);
    hide ShowAll, Show;
    assert [name, Literal(' '), weight, Literal('\n')] == [name, Literal(' ')] + ([weight, Literal('\n')] + []);
    EntryFormat();
  }

  lemma EntryFormat()
    ensures "%-40s" + ([' '] + ("%3hd" + (['\n'] + ""))) == "%-40s %3hd\n"
  {
  }
}
