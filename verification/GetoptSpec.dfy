/** What one call of getopt means, and what a whole scan means, on an argument
    vector that nobody permutes.  The imperative scanner is proved against
    these functions. */
module GetoptSpec {
  import opened Prelude

  datatype Ordering = RequireOrder | Permute | ReturnInOrder

  /** `hasArg` is 0 (none), 1 (required) or anything else (optional), as in C. */
  datatype LongOption = LongOption(name: string, hasArg: int, hasFlag: bool, val: int)

  /** What the caller says about the option syntax. */
  datatype Syntax = Syntax(optstring: string, longopts: Option<seq<LongOption>>, longOnly: bool)

  /** `posix` says whether POSIXLY_CORRECT is in the environment. */
  function InitialOrdering(syn: Syntax, posix: bool): (r: Ordering) {
    if At(syn.optstring, 0) == '-' then ReturnInOrder
    else if At(syn.optstring, 0) == '+' then RequireOrder
    else if posix then RequireOrder
    else Permute
  }

  predicate HasOrderingPrefix(syn: Syntax) {
    At(syn.optstring, 0) == '-' || At(syn.optstring, 0) == '+'
  }

  /** Only the initialising call skips a leading `-` or `+` of optstring. */
  function ShortOptions(syn: Syntax, initial: bool): (r: string) {
    if initial && HasOrderingPrefix(syn) then syn.optstring[1..] else syn.optstring
  }

  predicate NonOption(e: string) { At(e, 0) != '-' || At(e, 1) == '\0' }

  /** The index of the first `c` in `s` (the C function my_index). */
  function IndexOf(s: string, c: char): (r: Option<nat>) { IndexFrom(s, c, 0) }

  function IndexFrom(s: string, c: char, i: nat): (r: Option<nat>)
    decreases |s| - i
  {
    if i >= |s| then None else if s[i] == c then Some(i) else IndexFrom(s, c, i + 1)
  }

  lemma {:induction false} IndexFromIsFirst(s: string, c: char, i: nat)
    requires i <= |s|
    ensures match IndexFrom(s, c, i)
            case None => c !in s[i..]
            case Some(j) => i <= j < |s| && s[j] == c && c !in s[i..j]
    decreases |s| - i
  {
    if i < |s| && s[i] != c {
      IndexFromIsFirst(s, c, i + 1);
      assert s[i..] == [s[i]] + s[i + 1..];
      match IndexFrom(s, c, i + 1)
      case None =>
      case Some(j) => assert s[i..j] == [s[i]] + s[i + 1..j];
    }
  }

  /** The `W;` extension is not modelled. */
  predicate NoWExtension(shorts: string) {
    var w := IndexOf(shorts, 'W');
    w.Some? ==> At(shorts, w.value + 1) != ';'
  }

  predicate Supported(syn: Syntax) {
    NoWExtension(ShortOptions(syn, true)) && NoWExtension(ShortOptions(syn, false))
  }

  /** The length of the part of a long option before `=`. */
  function NameLength(n: string, i: nat): (k: nat)
    requires i <= |n|
    ensures i <= k <= |n|
    decreases |n| - i
  {
    if i == |n| || n[i] == '=' then i else NameLength(n, i + 1)
  }

  function NameOf(n: string): (r: string)
    ensures |r| <= |n|
  {
    n[..NameLength(n, 0)]
  }

  datatype Lookup = Found(index: nat) | Ambiguous | Unknown

  /** The first option called `name`, from index `i` on. */
  function FirstExact(lo: seq<LongOption>, name: string, i: nat): (r: Option<nat>)
    decreases |lo| - i
  {
    if i >= |lo| then None else if lo[i].name == name then Some(i) else FirstExact(lo, name, i + 1)
  }

  /** The first option that `name` abbreviates, from index `i` on. */
  function FirstPrefix(lo: seq<LongOption>, name: string, i: nat): (r: Option<nat>)
    decreases |lo| - i
  {
    if i >= |lo| then None else if name <= lo[i].name then Some(i) else FirstPrefix(lo, name, i + 1)
  }

  /** An exact name wins; otherwise an abbreviation must be unique. */
  function LookupLong(lo: seq<LongOption>, name: string): (r: Lookup) {
    match FirstExact(lo, name, 0)
    case Some(i) => Found(i)
    case None =>
      match FirstPrefix(lo, name, 0)
      case None => Unknown
      case Some(i) => if FirstPrefix(lo, name, i + 1).None? then Found(i) else Ambiguous
  }

  lemma {:induction false} FirstExactIsFirst(lo: seq<LongOption>, name: string, i: nat)
    requires i <= |lo|
    ensures match FirstExact(lo, name, i)
            case None => forall j :: i <= j < |lo| ==> lo[j].name != name
            case Some(k) => i <= k < |lo| && lo[k].name == name && forall j :: i <= j < k ==> lo[j].name != name
    decreases |lo| - i
  {
    if i < |lo| && lo[i].name != name {
      FirstExactIsFirst(lo, name, i + 1);
    }
  }

  lemma {:induction false} FirstPrefixIsFirst(lo: seq<LongOption>, name: string, i: nat)
    requires i <= |lo|
    ensures match FirstPrefix(lo, name, i)
            case None => forall j :: i <= j < |lo| ==> !(name <= lo[j].name)
            case Some(k) => i <= k < |lo| && name <= lo[k].name && forall j :: i <= j < k ==> !(name <= lo[j].name)
    decreases |lo| - i
  {
    if i < |lo| && !(name <= lo[i].name) {
      FirstPrefixIsFirst(lo, name, i + 1);
    }
  }

  /** The lookup finds the first option of that very name or, if there is none,
      the only option that the name abbreviates; two candidates are ambiguous. */
  lemma LookupLongMeaning(lo: seq<LongOption>, name: string)
    ensures match LookupLong(lo, name)
      case Found(i) =>
        && i < |lo| && name <= lo[i].name
        && (if lo[i].name == name then forall j :: 0 <= j < i ==> lo[j].name != name
            else forall j :: 0 <= j < |lo| && j != i ==> !(name <= lo[j].name))
      case Ambiguous =>
        && (forall j :: 0 <= j < |lo| ==> lo[j].name != name)
        && exists i, j :: 0 <= i < j < |lo| && name <= lo[i].name && name <= lo[j].name
      case Unknown => forall j :: 0 <= j < |lo| ==> !(name <= lo[j].name)
  {
    FirstExactIsFirst(lo, name, 0);
    FirstPrefixIsFirst(lo, name, 0);
    match FirstPrefix(lo, name, 0)
    case None =>
    case Some(i) => FirstPrefixIsFirst(lo, name, i + 1);
  }

  /** What one call reports and how far it moves: `rest` is what is left of the
      element being scanned and `taken` the number of elements finished. */
  datatype Decoded = Decoded(code: int, arg: Option<string>, optopt: Option<int>,
                             longind: Option<nat>, stored: Option<int>,
                             rest: string, taken: nat, missing: bool)

  function Plain(code: int, arg: Option<string>, rest: string, taken: nat): (r: Decoded) {
    Decoded(code, arg, None, None, None, rest, taken, false)
  }

  function Error(optopt: int, rest: string, taken: nat): (r: Decoded) {
    Decoded('?' as int, None, Some(optopt), None, None, rest, taken, false)
  }

  function Missing(shorts: string, optopt: int): (r: Decoded) {
    var code := if At(shorts, 0) == ':' then ':' as int else '?' as int;
    Decoded(code, None, Some(optopt), None, None, "", 1, true)
  }

  /** What every decoding of `n` keeps: it stays in the element or leaves it
      behind, takes at most the next element, and then as its argument. */
  predicate Sound(d: Decoded, n: string, next: Option<string>) {
    && (d.taken == 0 ==> d.rest != "" && |d.rest| < |n|)
    && (d.taken > 0 ==> d.rest == "")
    && (d.taken <= 1 || (d.taken == 2 && next.Some? && d.arg == next))
    && (d.missing ==> next.None? && d.taken == 1 && d.arg.None?)
  }

  predicate TriesLong(syn: Syntax, shorts: string, e: string) {
    && syn.longopts.Some?
    && (At(e, 1) == '-' || (syn.longOnly && (At(e, 2) != '\0' || IndexOf(shorts, At(e, 1)).None?)))
  }

  function LongMatch(p: LongOption, i: nat, arg: Option<string>, taken: nat): (r: Decoded) {
    if p.hasFlag then Decoded(0, arg, None, Some(i), Some(p.val), "", taken, false)
    else Decoded(p.val, arg, None, Some(i), None, "", taken, false)
  }

  function DecodeFound(p: LongOption, i: nat, shorts: string, n: string, next: Option<string>): (d: Decoded)
    ensures Sound(d, n, next)
  {
    var name := NameOf(n);
    if |name| < |n| then
      if p.hasArg != 0 then LongMatch(p, i, Some(n[|name| + 1..]), 1) else Error(p.val, "", 1)
    else if p.hasArg == 1 then
      match next
      case Some(a) => LongMatch(p, i, Some(a), 2)
      case None => Missing(shorts, p.val)
    else LongMatch(p, i, None, 1)
  }

  /** Element `e`, whose part `n` is still unread, as a long option; None hands
      it over to the short options. */
  function DecodeLong(lo: seq<LongOption>, longOnly: bool, shorts: string,
                      e: string, n: string, next: Option<string>): (d: Option<Decoded>)
    ensures d.Some? ==> Sound(d.value, n, next)
  {
    match LookupLong(lo, NameOf(n))
    case Ambiguous => Some(Error(0, "", 1))
    case Found(i) => if i < |lo| then Some(DecodeFound(lo[i], i, shorts, n, next)) else None
    case Unknown =>
      if !longOnly || At(e, 1) == '-' || IndexOf(shorts, At(n, 0)).None? then Some(Error(0, "", 1)) else None
  }

  function DecodeShort(shorts: string, n: string, next: Option<string>): (d: Decoded)
    requires n != ""
    ensures Sound(d, n, next)
  {
    var c, rest := n[0], n[1..];
    var step := if rest == "" then 1 else 0;
    match IndexOf(shorts, c)
    case None => Error(c as int, rest, step)
    case Some(t) =>
      if c == ':' then Error(c as int, rest, step)
      else if At(shorts, t + 1) != ':' then Plain(c as int, None, rest, step)
      else if rest != "" then Plain(c as int, Some(rest), "", 1)
      else if At(shorts, t + 2) == ':' then Plain(c as int, None, "", 1)
      else match next
        case Some(a) => Plain(c as int, Some(a), "", 2)
        case None => Missing(shorts, c as int)
  }

  function Decode(syn: Syntax, shorts: string, e: string, n: string, next: Option<string>): (d: Decoded)
    requires n != ""
    ensures Sound(d, n, next)
  {
    if TriesLong(syn, shorts, e) then
      match DecodeLong(syn.longopts.value, syn.longOnly, shorts, e, n, next)
      case Some(d) => d
      case None => DecodeShort(shorts, n, next)
    else DecodeShort(shorts, n, next)
  }

  /** The first `c` in `shorts` is followed by exactly one colon. */
  predicate WantsArgument(shorts: string, c: char) {
    var t := IndexOf(shorts, c);
    t.Some? && At(shorts, t.value + 1) == ':' && At(shorts, t.value + 2) != ':'
  }

  /** A short option is an error exactly if it is none of the caller's, or its
      argument is missing; the error names the character, and only a missing
      argument can be told apart, by a `:` at the start of optstring. */
  lemma ShortErrors(shorts: string, n: string, next: Option<string>)
    requires n != ""
    ensures var c, d := n[0], DecodeShort(shorts, n, next);
      && (d.missing <==> c in shorts && c != ':' && WantsArgument(shorts, c) && |n| == 1 && next.None?)
      && (d.optopt.Some? <==> d.missing || c !in shorts || c == ':')
      && (d.optopt.Some? ==>
            && d.arg.None? && d.optopt == Some(c as int)
            && d.code == if d.missing && At(shorts, 0) == ':' then ':' as int else '?' as int)
  {
    IndexFromIsFirst(shorts, n[0], 0);
  }

  /** Where the scan of vector `o` stands: `pos` and `rest` locate the next
      character; `opts` and `nons` are the elements passed so far, as options
      (with their arguments) and as non-options. */
  datatype Ref = Ref(pos: nat, rest: string, initial: bool, opts: seq<string>, nons: seq<string>)

  datatype Outcome = Done | Item(d: Decoded)

  ghost predicate WF(o: seq<string>, r: Ref) {
    && r.pos <= |o|
    && (r.rest != "" ==> r.pos < |o| && !NonOption(o[r.pos]) && |r.rest| < |o[r.pos]|)
  }

  /** The first index at or after `i` whose element looks like an option. */
  function SkipNonOptions(o: seq<string>, i: nat): (k: nat)
    requires i <= |o|
    ensures i <= k <= |o|
    decreases |o| - i
  {
    if i < |o| && NonOption(o[i]) then SkipNonOptions(o, i + 1) else i
  }

  lemma SkipsNonOptions(o: seq<string>, i: nat)
    requires i <= |o|
    ensures var k := SkipNonOptions(o, i);
            && (forall j :: i <= j < k ==> NonOption(o[j]))
            && (k < |o| ==> !NonOption(o[k]))
    decreases |o| - i
  {
    if i < |o| && NonOption(o[i]) {
      SkipsNonOptions(o, i + 1);
    }
  }

  function NextElement(o: seq<string>, k: nat): (r: Option<string>) {
    if k + 1 < |o| then Some(o[k + 1]) else None
  }

  /** The characters of an option element after its punctuation. */
  function Unpunctuated(syn: Syntax, e: string): (n: string)
    requires !NonOption(e)
    ensures |n| < |e|
    ensures e != "--" ==> n != ""
  {
    if syn.longopts.Some? && e[1] == '-' then e[2..] else e[1..]
  }

  /** The unread characters of the current element; all of it when the scan
      has not entered it. */
  function Unread(o: seq<string>, r: Ref): (s: nat) {
    if r.rest != "" then |r.rest| else if r.pos < |o| then |o[r.pos]| else 0
  }

  /** Decode at the current element, of which `n` is unread. */
  function DecodeAt(syn: Syntax, o: seq<string>, r: Ref, n: string): (s: (Ref, Outcome))
    requires r.pos < |o| && n != ""
  {
    var d := Decode(syn, ShortOptions(syn, r.initial), o[r.pos], n, NextElement(o, r.pos));
    (Ref(r.pos + d.taken, d.rest, false, r.opts + o[r.pos..r.pos + d.taken], r.nons), Item(d))
  }

  /** In PERMUTE mode the non-options that come next are passed over. */
  function Skip(ord: Ordering, o: seq<string>, r: Ref): (m: Ref)
    requires r.pos <= |o|
    ensures m.rest == r.rest && m.initial == r.initial && r.pos <= m.pos <= |o|
  {
    if ord == Permute then
      var k := SkipNonOptions(o, r.pos);
      r.(pos := k, nons := r.nons + o[r.pos..k])
    else r
  }

  /** Whether the scan ends where it has come to, and how everything is then
      divided: at the end of the vector, at `--`, and in REQUIRE_ORDER mode at
      the first non-option. */
  function Stop(ord: Ordering, o: seq<string>, m: Ref): (f: Option<Ref>)
    requires m.pos <= |o|
  {
    if m.pos == |o| then Some(Ref(|o|, "", false, m.opts, m.nons))
    else if o[m.pos] == "--" then Some(Ref(|o|, "", false, m.opts + ["--"], m.nons + o[m.pos + 1..]))
    else if NonOption(o[m.pos]) && ord == RequireOrder then Some(Ref(|o|, "", false, m.opts, m.nons + o[m.pos..]))
    else None
  }

  /** RETURN_IN_ORDER mode hands a non-option to the caller. */
  function PassedOn(o: seq<string>, m: Ref): (r: (Ref, Outcome))
    requires m.pos < |o|
  {
    (Ref(m.pos + 1, "", false, m.opts + [o[m.pos]], m.nons), Item(Plain(1, Some(o[m.pos]), "", 1)))
  }

  /** What is done at the element the scan has come to. */
  function Meet(syn: Syntax, ord: Ordering, o: seq<string>, m: Ref): (r: (Ref, Outcome))
    requires m.pos <= |o| && m.rest == ""
  {
    match Stop(ord, o, m)
    case Some(f) => (f, Done)
    case None =>
      if NonOption(o[m.pos]) then PassedOn(o, m)
      else DecodeAt(syn, o, m, Unpunctuated(syn, o[m.pos]))
  }

  /** One call of getopt, scanning `o` without ever moving an element. */
  function Call(syn: Syntax, ord: Ordering, o: seq<string>, r: Ref): (s: (Ref, Outcome))
    requires WF(o, r)
  {
    if r.rest != "" then DecodeAt(syn, o, r, r.rest) else Meet(syn, ord, o, Skip(ord, o, r))
  }

  /** Each call that reports an item moves on, in every ordering mode: the
      unscanned elements shrink, or they stay and the unread characters shrink. */
  lemma CallProgress(syn: Syntax, ord: Ordering, o: seq<string>, r: Ref)
    requires WF(o, r)
    ensures var (r', out) := Call(syn, ord, o, r);
      && WF(o, r') && r.pos <= r'.pos
      && (out.Item? ==> r.pos < r'.pos || (r'.pos == r.pos && Unread(o, r') < Unread(o, r)))
      && (out.Done? ==> r'.pos == |o| && r'.rest == "")
  {
    if r.rest == "" && ord == Permute {
      SkipsNonOptions(o, r.pos);
    }
  }

  /** A scan: what the calls report until one says that it is done, and where
      every element ended up. */
  datatype Scan = Scan(items: seq<Decoded>, final: Ref)

  function Run(syn: Syntax, ord: Ordering, o: seq<string>, r: Ref): (s: Scan)
    requires WF(o, r)
    decreases |o| - r.pos, Unread(o, r)
  {
    CallProgress(syn, ord, o, r);
    var (r', out) := Call(syn, ord, o, r);
    match out
    case Done => Scan([], r')
    case Item(d) =>
      var s := Run(syn, ord, o, r');
      Scan([d] + s.items, s.final)
  }

  function Start(i: nat): (r: Ref) { Ref(i, "", true, [], []) }

  /** A whole scan from index `i`. */
  function ScanFrom(syn: Syntax, posix: bool, o: seq<string>, i: nat): (r: Scan)
    requires i <= |o|
  {
    Run(syn, InitialOrdering(syn, posix), o, Start(i))
  }

  function Codes(ds: seq<Decoded>): (r: seq<(int, Option<string>)>)
    ensures |r| == |ds|
  {
    if ds == [] then [] else [(ds[0].code, ds[0].arg)] + Codes(ds[1..])
  }
}
