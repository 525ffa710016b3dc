/** The configuration file: reading its lines into a linked list, and printing
    that list. */
module Config {
  import opened Prelude
  import opened Numbers
  import opened Verdict
  import opened Format

  const MAXLINE: nat := 1024
  const SHRT_MAX: int := 32767
  const LONG_MAX: int := TWO63 - 1
  const LONG_MIN: int := -TWO63

  /** isspace in the C locale. */
  predicate IsSpace(c: char) { c == ' ' || '\t' <= c <= '\r' }

  // ---- What a line says ----

  function UpTo(s: string, c: char): (r: string) {
    if s == "" || s[0] == c then "" else [s[0]] + UpTo(s[1..], c)
  }

  function LTrim(s: string): (r: string) { if s != "" && IsSpace(s[0]) then LTrim(s[1..]) else s }

  function RTrim(s: string): (r: string) {
    if s != "" && IsSpace(s[|s| - 1]) then RTrim(s[..|s| - 1]) else s
  }

  function Word(s: string): (r: string) {
    if s == "" || IsSpace(s[0]) then "" else [s[0]] + Word(s[1..])
  }

  /** Neither comment nor trailing whitespace. */
  function Clean(s: string): (r: string) { RTrim(UpTo(s, '#')) }

  // ---- strtol with base 0 ----

  function BaseOf(s: string): (r: Base) {
    if At(s, 0) != '0' then Decimal
    else if (At(s, 1) == 'x' || At(s, 1) == 'X') && IsDigitOf(At(s, 2), Hex) then Hex
    else Octal
  }

  predicate HasSign(s: string) { At(s, 0) == '-' || At(s, 0) == '+' }

  function Clamp(n: int): (r: int) { Max(LONG_MIN, Min(LONG_MAX, n)) }

  /** The value, and what follows the number; all of `s` if there is none. */
  function Strtol(s: string): (r: (int, string)) {
    var t := LTrim(s);
    var u := if HasSign(t) then t[1..] else t;
    var b := BaseOf(u);
    var v := if b == Hex then u[2..] else u;
    var ds := LeadingDigits(v, b);
    if ds == "" then (0, s)
    else
      var n: int := Value(ds, b);
      (Clamp(if At(t, 0) == '-' then -n else n), v[|ds|..])
  }

  // ---- Lines ----

  datatype Problem = Premature | NotNumeric | OutOfRange

  datatype Line = Blank | Entry(rbl: Rbl) | Bad(problem: Problem)

  function ParseClean(t: string): (r: Line) {
    var u := LTrim(t);
    var d := Word(u);
    if |d| >= |u| then Bad(Premature)
    else
      var (n, rest) := Strtol(LTrim(u[|d|..]));
      if rest != "" then Bad(NotNumeric)
      else if n <= 0 || n > SHRT_MAX then Bad(OutOfRange)
      else Entry(Rbl(d, n))
  }

  function ParseLine(s: string): (r: Line) { if Clean(s) == "" then Blank else ParseClean(Clean(s)) }

  // ---- Files ----

  /** How much of the file a call of fgets with room for `n` characters takes. */
  function LineLength(file: string, n: nat): (k: nat)
    ensures k <= n && k <= |file| && (file != "" && n > 0 ==> k > 0)
  {
    if file == "" || n == 0 then 0
    else if file[0] == '\n' then 1
    else 1 + LineLength(file[1..], n - 1)
  }

  const ROOM: nat := MAXLINE - 2

  datatype Outcome = Loaded(rbls: seq<Rbl>) | Rejected(problem: Problem, line: nat)

  /** Reading `file` behind `done` lines. */
  function Parse(file: string, done: nat): (r: Outcome)
    decreases |file|
  {
    if file == "" then Loaded([])
    else
      var k := LineLength(file, ROOM);
      match ParseLine(UpTo(file[..k], '\0'))
      case Blank => Parse(file[k..], done + 1)
      case Bad(problem) => Rejected(problem, done + 1)
      case Entry(rbl) =>
        var rest := Parse(file[k..], done + 1);
        if rest.Loaded? then Loaded([rbl] + rest.rbls) else rest
  }

  // ---- In place ----

  /** The buffer carries `s` as a C string. */
  ghost predicate IsText(buf: array<char>, s: string)
    reads buf
  {
    |s| < buf.Length && buf[..|s|] == s && buf[|s|] == '\0' && '\0' !in s
  }

  lemma LineLengthStep(file: string, i: nat, n: nat)
    requires i < |file| && n > 0
    ensures LineLength(file[i..], n) == if file[i] == '\n' then 1 else 1 + LineLength(file[i + 1..], n - 1)
  {
    assert file[i..][1..] == file[i + 1..];
  }

  lemma TakeMore(file: string, i: nat, j: nat)
    requires i <= j < |file|
    ensures file[i..j + 1] == file[i..j] + [file[j]]
  {
  }

  method Fgets(file: string, pos: nat, buf: array<char>, size: nat) returns (next: nat)
    requires pos <= |file| && 0 < size <= buf.Length
    modifies buf
    ensures next == pos + LineLength(file[pos..], size - 1)
    ensures IsText(buf, UpTo(file[pos..next], '\0'))
  {
    hide UpTo, LineLength;
    next := pos;
    ghost var k := LineLength(file[pos..], size - 1);
    while next < |file| && next - pos < size - 1
      invariant pos <= next <= pos + k
      invariant pos + k == next + LineLength(file[next..], size - 1 - (next - pos))
      invariant buf[..next - pos] == file[pos..next]
    {
      LineLengthStep(file, next, size - 1 - (next - pos));
      TakeMore(file, pos, next);
      buf[next - pos] := file[next];
      next := next + 1;
      if file[next - 1] == '\n' {
        break;
      }
    }
    buf[next - pos] := '\0';
    TextEndsAtNul(buf, file[pos..next]);
  }

  lemma TextEndsAtNul(buf: array<char>, s: string)
    requires |s| < buf.Length && buf[..|s|] == s && buf[|s|] == '\0'
    ensures IsText(buf, UpTo(s, '\0'))
  {
    var t := UpTo(s, '\0');
    UpToEnds(s, '\0');
    assert buf[..|t|] == buf[..|s|][..|t|];
    assert |t| < |s| ==> buf[|t|] == buf[..|s|][|t|];
  }

  lemma {:induction false} UpToEnds(s: string, c: char)
    ensures var t := UpTo(s, c); t <= s && c !in t && (|t| < |s| ==> s[|t|] == c)
  {
    if s != "" && s[0] != c {
      UpToEnds(s[1..], c);
    }
  }

  lemma {:induction false} UpToIs(s: string, c: char, k: nat)
    requires k <= |s| && c !in s[..k] && (k < |s| ==> s[k] == c)
    ensures UpTo(s, c) == s[..k]
  {
    if k > 0 {
      assert s[0] in s[..k];
      assert s[1..][..k - 1] == s[..k][1..];
      UpToIs(s[1..], c, k - 1);
    }
  }

  /** cfg_cleanline. */
  method CleanLine(buf: array<char>, ghost s: string)
    requires IsText(buf, s)
    modifies buf
    ensures IsText(buf, Clean(s))
  {
    var x := 0;
    while buf[x] != '\0' && buf[x] != '#'
      invariant 0 <= x <= |s| && '#' !in s[..x]
      decreases |s| - x
    {
      x := x + 1;
    }
    UpToIs(s, '#', x);
    ghost var t := s[..x];
    buf[x] := '\0';
    TakeAll(t);
    assert buf[..|t|] == t;
    while x >= 0 && (buf[x] == '\0' || IsSpace(buf[x]))
      invariant -1 <= x <= |t|
      invariant var m := Min(x + 1, |t|); RTrim(t[..m]) == RTrim(t) && IsText(buf, t[..m])
      decreases x
    {
      if x < |t| {
        assert buf[x] == buf[..x + 1][x] == t[x];
        RTrimStep(t, x);
        ShorterText(buf, t, x);
      }
      buf[x] := '\0';
      x := x - 1;
    }
  }

  lemma TakeAll(s: string)
    ensures s[..|s|] == s
  {
  }

  lemma RTrimStep(s: string, x: nat)
    requires x < |s| && IsSpace(s[x])
    ensures RTrim(s[..x + 1]) == RTrim(s[..x])
  {
    assert s[..x + 1][..x] == s[..x];
  }

  lemma ShorterText(buf: array<char>, t: string, x: nat)
    requires x < |t| && IsText(buf, t[..x + 1])
    ensures buf[..x] == t[..x] && '\0' !in t[..x] && x < buf.Length
  {
    assert t[..x] == t[..x + 1][..x] == buf[..x + 1][..x];
  }

  lemma {:induction false} LTrimIs(s: string, k: nat)
    requires k <= |s| && (forall j :: 0 <= j < k ==> IsSpace(s[j])) && (k < |s| ==> !IsSpace(s[k]))
    ensures LTrim(s) == s[k..]
  {
    if k > 0 {
      LTrimIs(s[1..], k - 1);
    }
  }

  lemma {:induction false} WordIs(s: string, k: nat)
    requires k <= |s| && (forall j :: 0 <= j < k ==> !IsSpace(s[j])) && (k < |s| ==> IsSpace(s[k]))
    ensures Word(s) == s[..k]
  {
    if k > 0 {
      WordIs(s[1..], k - 1);
    }
  }

  /** The loop that copies the first word to `temp`; `x` is where it stops. */
  method ReadWord(buf: array<char>, ghost t: string) returns (domain: string, x: nat)
    requires IsText(buf, t) && buf.Length <= MAXLINE
    ensures domain == Word(LTrim(t)) && x <= |t|
    ensures |domain| <= |LTrim(t)| && LTrim(t)[|domain|..] == t[x..]
  {
    var temp := new char[MAXLINE];
    var y, inWord := 0, true;
    x := 0;
    while buf[x] != '\0' && inWord
      invariant 0 <= y <= x <= |t|
      invariant forall j :: 0 <= j < x - y ==> IsSpace(t[j])
      invariant forall j :: x - y <= j < x ==> !IsSpace(t[j])
      invariant forall j :: 0 <= j < y ==> temp[j] == t[x - y + j]
      decreases |t| - x
    {
      if IsSpace(buf[x]) {
        if y == 0 {
          x := x + 1;
          continue;
        }
        temp[y] := '\0';
        inWord := false;
        break;
      } else {
        temp[y] := buf[x];
        y := y + 1;
      }
      x := x + 1;
    }
    assert x < |t| ==> y > 0 && IsSpace(t[x]);
    LTrimIs(t, x - y);
    WordIs(t[x - y..], y);
    domain := temp[..y];
    assert domain == t[x - y..x] == t[x - y..][..y] && t[x - y..][y..] == t[x..];
  }

  /** One line: the first word, and the number behind it. */
  method ReadEntry(buf: array<char>, ghost t: string) returns (line: Line)
    requires IsText(buf, t) && buf.Length <= MAXLINE
    ensures line == ParseClean(t)
  {
    hide Word, Strtol;
    var domain, x := ReadWord(buf, t);
    if buf[x] == '\0' {
      return Bad(Premature);
    }
    ghost var x0 := x;
    while buf[x] != '\0' && IsSpace(buf[x])
      invariant x0 <= x <= |t|
      invariant forall j :: x0 <= j < x ==> IsSpace(t[j])
      decreases |t| - x
    {
      x := x + 1;
    }
    LTrimIs(t[x0..], x - x0);
    assert t[x0..][x - x0..] == t[x..];
    var weightText := StringAt(buf, x, t);
    var (weight, rest) := Strtol(weightText);
    if rest != "" {
      return Bad(NotNumeric);
    }
    if weight <= 0 || weight > SHRT_MAX {
      return Bad(OutOfRange);
    }
    return Entry(Rbl(domain, weight));
  }

  /** The C string at `buf + x`. */
  method StringAt(buf: array<char>, x: nat, ghost t: string) returns (s: string)
    requires IsText(buf, t) && x <= |t|
    ensures s == t[x..]
  {
    var n := x;
    while buf[n] != '\0'
      invariant x <= n <= |t|
      decreases |t| - n
    {
      n := n + 1;
    }
    return buf[x..n];
  }

  // ---- The list ----

  /** cfgitem_t, without its statistics. */
  class CfgItem {
    var domain: string
    var weight: int
    var next: CfgItem?

    constructor (domain: string, weight: int)
      ensures this.domain == domain && this.weight == weight && next == null
    {
      this.domain, this.weight, next := domain, weight, null;
    }
  }

  ghost function Nth(items: seq<CfgItem>, i: int): (r: CfgItem?) { if 0 <= i < |items| then items[i] else null }

  /** From `first` the links run through `items` and end. */
  ghost predicate Chain(first: CfgItem?, items: seq<CfgItem>)
    reads items
  {
    && first == Nth(items, 0)
    && (forall i {:trigger items[i].next} :: 0 <= i < |items| ==> items[i].next == Nth(items, i + 1))
    && Distinct(items)
  }

  ghost function Rbls(items: seq<CfgItem>): (r: seq<Rbl>)
    reads items
  {
    seq(|items|, i requires 0 <= i < |items| reads items => Rbl(items[i].domain, items[i].weight))
  }

  ghost function Behind(rbls: seq<Rbl>, o: Outcome): (r: Outcome) {
    if o.Loaded? then Loaded(rbls + o.rbls) else o
  }

  /** What the loop of cfg_read has built: the list, its last item, and what it
      says. */
  ghost predicate Built(first: CfgItem?, last: CfgItem?, items: seq<CfgItem>, rbls: seq<Rbl>)
    reads items
  {
    Chain(first, items) && last == Nth(items, |items| - 1) && Rbls(items) == rbls
  }

  /** One more item at the end. */
  method Append(first: CfgItem?, last: CfgItem?, rbl: Rbl, ghost items: seq<CfgItem>, ghost rbls: seq<Rbl>)
    returns (first': CfgItem, item: CfgItem)
    requires Built(first, last, items, rbls)
    modifies last
    ensures fresh(item) && Built(first', item, items + [item], rbls + [rbl])
  {
    item := new CfgItem(rbl.domain, rbl.weight);
    if last != null {
      last.next := item;
    }
    first' := if first == null then item else first;
  }

  lemma BehindBehind(a: seq<Rbl>, b: seq<Rbl>, o: Outcome)
    ensures Behind(a, Behind(b, o)) == Behind(a + b, o) && Behind([], o) == o
  {
    if o.Loaded? {
      assert a + (b + o.rbls) == (a + b) + o.rbls && [] + o.rbls == o.rbls;
    }
  }

  lemma RejectedBehind(rbls: seq<Rbl>, problem: Problem, line: nat)
    ensures Behind(rbls, Rejected(problem, line)) == Rejected(problem, line)
  {
  }

  /** Where the line at `pos` ends, what it says, and what the file says from
      there on. */
  function LineEnd(file: string, pos: nat): (next: nat)
    requires pos < |file|
    ensures pos < next <= |file|
  {
    pos + LineLength(file[pos..], ROOM)
  }

  function LineAt(file: string, pos: nat): (line: Line)
    requires pos < |file|
  {
    ParseLine(UpTo(file[pos..LineEnd(file, pos)], '\0'))
  }

  ghost function ParseFrom(file: string, pos: nat, done: nat): (r: Outcome)
    requires pos <= |file|
  {
    Parse(file[pos..], done)
  }

  lemma ParseStep(file: string, pos: nat, done: nat)
    requires pos < |file|
    ensures ParseFrom(file, pos, done) == match LineAt(file, pos)
      case Blank => ParseFrom(file, LineEnd(file, pos), done + 1)
      case Bad(problem) => Rejected(problem, done + 1)
      case Entry(rbl) => Behind([rbl], ParseFrom(file, LineEnd(file, pos), done + 1))
  {
    var next := LineEnd(file, pos);
    assert file[pos..][..next - pos] == file[pos..next] && file[pos..][next - pos..] == file[next..];
  }

  /** The file says `rbls` and then what it says from `pos` on. */
  ghost predicate Progress(file: string, pos: nat, done: nat, rbls: seq<Rbl>)
    requires pos <= |file|
  {
    Parse(file, 0) == Behind(rbls, ParseFrom(file, pos, done))
  }

  /** What one line adds to what was read before it. */
  lemma LineRead(file: string, pos: nat, done: nat, rbls: seq<Rbl>)
    requires pos < |file| && Progress(file, pos, done, rbls)
    ensures match LineAt(file, pos)
      case Blank => Progress(file, LineEnd(file, pos), done + 1, rbls)
      case Bad(problem) => Parse(file, 0) == Rejected(problem, done + 1)
      case Entry(rbl) => Progress(file, LineEnd(file, pos), done + 1, rbls + [rbl])
  {
    ParseStep(file, pos, done);
    hide Parse, ParseFrom, LineAt, LineEnd, Behind;
    match LineAt(file, pos)
    case Blank =>
    case Bad(problem) => RejectedBehind(rbls, problem, done + 1);
    case Entry(rbl) => BehindBehind(rbls, [rbl], ParseFrom(file, LineEnd(file, pos), done + 1));
  }

  /** The next line of the file. */
  method ReadLine(file: string, pos: nat, buf: array<char>) returns (next: nat, line: Line)
    requires pos < |file| && buf.Length == MAXLINE
    modifies buf
    ensures next == LineEnd(file, pos) && line == LineAt(file, pos)
  {
    next := Fgets(file, pos, buf, MAXLINE - 1);
    ghost var s := UpTo(file[pos..next], '\0');
    CleanLine(buf, s);
    if buf[0] == '\0' {
      line := Blank;
    } else {
      line := ReadEntry(buf, Clean(s));
    }
  }

  /** cfg_read: NULL for an empty list and for a file with an error. */
  method CfgRead(file: string) returns (first: CfgItem?, ghost items: seq<CfgItem>, message: Option<(Problem, nat)>)
    ensures Chain(first, items) && fresh(items)
    ensures match Parse(file, 0)
      case Loaded(rbls) => Rbls(items) == rbls && message.None?
      case Rejected(problem, line) => first == null && message == Some((problem, line))
  {
    var buf := new char[MAXLINE];
    var last: CfgItem? := null;
    var pos, lineno := 0, 0;
    first, items, message := null, [], None;
    ParseStarts(file);
    ghost var rbls: seq<Rbl> := [];
    assert Built(first, last, items, rbls);
    hide Parse, Progress, LineAt, LineEnd, Chain, Rbls, Nth;
    while pos < |file|
      invariant pos <= |file|
      invariant Progress(file, pos, lineno, rbls) && Built(first, last, items, rbls)
      invariant fresh(items) && (last != null ==> fresh(last))
      decreases |file| - pos
    {
      hide Built;
      LineRead(file, pos, lineno, rbls);
      var line;
      pos, line := ReadLine(file, pos, buf);
      lineno := lineno + 1;
      if line.Bad? {
        return null, [], Some((line.problem, lineno));
      } else if line.Entry? {
        first, last := Append(first, last, line.rbl, items, rbls);
        items, rbls := items + [last], rbls + [line.rbl];
      }
    }
    ParseEnds(file, lineno, rbls);
  }

  lemma ParseStarts(file: string)
    ensures Progress(file, 0, 0, [])
  {
    assert file[0..] == file;
    BehindBehind([], [], Parse(file, 0));
  }

  lemma ParseEnds(file: string, done: nat, rbls: seq<Rbl>)
    requires Progress(file, |file|, done, rbls)
    ensures Parse(file, 0).Loaded? && Parse(file, 0).rbls == rbls
  {
    assert rbls + [] == rbls;
  }

  // ---- Printing ----

  /** What "%-40s" and "%3hd" print. */
  function NameField(domain: string): (r: string) {
    FormatStr(Some(domain), 40, -1, NO_FLAGS.(minus := true))
  }

  function WeightField(weight: int): (r: string) {
    FormatInt(SignedArg(Short, weight), false, false, Decimal, 3, -1, NO_FLAGS)
  }

  function EntryText(rbl: Rbl): (r: string) { NameField(rbl.domain) + " " + WeightField(rbl.weight) }

  function Entries(rbls: seq<Rbl>): (r: string) {
    if rbls == [] then "" else EntryText(rbls[0]) + "\n" + Entries(rbls[1..])
  }

  lemma EntriesStep(out: string, rbls: seq<Rbl>, k: nat, text: string)
    requires k < |rbls| && text == EntryText(rbls[k])
    ensures out + Entries(rbls[k..]) == (out + (text + "\n")) + Entries(rbls[k + 1..])
  {
    hide EntryText;
    assert rbls[k..][1..] == rbls[k + 1..];
    assert out + (text + "\n" + Entries(rbls[k + 1..])) == (out + (text + "\n")) + Entries(rbls[k + 1..]);
  }

  /** cfg_dump. */
  method CfgDump(first: CfgItem?, ghost items: seq<CfgItem>) returns (out: string)
    requires Chain(first, items)
    ensures out == "<rblservers>\n" + Entries(Rbls(items)) + "</rblservers>\n"
  {
    out := "<rblservers>\n";
    var item := first;
    ghost var rbls, k := Rbls(items), 0;
    ghost var whole := out + Entries(rbls);
    assert rbls[0..] == rbls;
    hide Entries, EntryText;
    while item != null
      invariant 0 <= k <= |items| && item == Nth(items, k)
      invariant out + Entries(rbls[k..]) == whole
      decreases |items| - k
    {
      var text := EntryText(Rbl(item.domain, item.weight));
      EntriesStep(out, rbls, k, text);
      out := out + (text + "\n");
      item, k := item.next, k + 1;
    }
    EntriesEnd(out, rbls, k);
    out := out + "</rblservers>\n";
  }

  lemma EntriesEnd(out: string, rbls: seq<Rbl>, k: nat)
    requires k == |rbls|
    ensures out + Entries(rbls[k..]) == out
  {
  }
}
