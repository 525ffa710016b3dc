/** Writing options down and reading them back: a command line composed of
    words with a known meaning is scanned as exactly that meaning. */
module GetoptRender {
  import opened Prelude
  import opened GetoptSpec

  /** One thing to say on a command line.  A long option may be abbreviated. */
  datatype Word =
    | Operand(text: string)
    | Flags(cs: string)
    | Required(c: char, arg: string, glued: bool)
    | Optional(c: char, arg: string)
    | Long(index: nat, name: string, value: Option<string>, glued: bool)

  function Written(w: Word): (r: seq<string>) {
    match w
    case Operand(t) => [t]
    case Flags(cs) => ["-" + cs]
    case Required(c, a, glued) => if glued then ["-" + [c] + a] else ["-" + [c], a]
    case Optional(c, a) => ["-" + [c] + a]
    case Long(_, n, v, glued) =>
      if v.None? then ["--" + n] else if glued then ["--" + n + "=" + v.value] else ["--" + n, v.value]
  }

  function FlagEvents(cs: string): (r: seq<(int, Option<string>)>) {
    if cs == "" then [] else [(cs[0] as int, None)] + FlagEvents(cs[1..])
  }

  function Events(syn: Syntax, w: Word): (r: seq<(int, Option<string>)>)
    requires Sayable(syn, w)
  {
    match w
    case Operand(_) => []
    case Flags(cs) => FlagEvents(cs)
    case Required(c, a, _) => [(c as int, Some(a))]
    case Optional(c, a) => [(c as int, if a == "" then None else Some(a))]
    case Long(i, _, v, _) =>
      var p := syn.longopts.value[i];
      [(if p.hasFlag then 0 else p.val, v)]
  }

  /** How many colons follow `c` in optstring; None if it is no option. */
  function Colons(syn: Syntax, c: char): (r: Option<nat>) {
    match IndexOf(syn.optstring, c)
    case None => None
    case Some(t) =>
      if c == ':' || c == '-' || c == '\0' then None
      else if At(syn.optstring, t + 1) != ':' then Some(0)
      else if At(syn.optstring, t + 2) != ':' then Some(1)
      else Some(2)
  }

  /** The words that the syntax allows. */
  predicate Sayable(syn: Syntax, w: Word) {
    match w
    case Operand(t) => NonOption(t)
    case Flags(cs) => cs != "" && forall i :: 0 <= i < |cs| ==> Colons(syn, cs[i]) == Some(0)
    case Required(c, a, glued) => Colons(syn, c) == Some(1) && (glued ==> a != "")
    case Optional(c, a) => Colons(syn, c) == Some(2)
    case Long(i, n, v, glued) =>
      && syn.longopts.Some? && i < |syn.longopts.value| && LookupLong(syn.longopts.value, n) == Found(i)
      && n != "" && '=' !in n
      && var h := syn.longopts.value[i].hasArg;
         if v.None? then h != 1 else if glued then h != 0 else h == 1
  }

  function AllWritten(ws: seq<Word>, operands: bool): (r: seq<string>) {
    if ws == [] then []
    else (if ws[0].Operand? == operands then Written(ws[0]) else []) + AllWritten(ws[1..], operands)
  }

  function CommandLine(ws: seq<Word>): (r: seq<string>) {
    if ws == [] then [] else Written(ws[0]) + CommandLine(ws[1..])
  }

  function AllEvents(syn: Syntax, ws: seq<Word>): (r: seq<(int, Option<string>)>)
    requires forall w :: w in ws ==> Sayable(syn, w)
  {
    if ws == [] then [] else Events(syn, ws[0]) + AllEvents(syn, ws[1..])
  }

  /** `--` and what follows it, or nothing. */
  function Tail(t: Option<seq<string>>): (r: seq<string>) {
    if t.None? then [] else ["--"] + t.value
  }

  // ---- Single calls ----

  lemma StepRun(syn: Syntax, o: seq<string>, r: Ref)
    requires WF(o, r)
    ensures var (r', out) := Call(syn, Permute, o, r);
      && WF(o, r')
      && var s, s' := Run(syn, Permute, o, r), Run(syn, Permute, o, r');
      (out.Item? ==>
         s == Scan([out.d] + s'.items, s'.final) && Codes(s.items) == [(out.d.code, out.d.arg)] + Codes(s'.items))
      && (out.Done? ==> s == Scan([], r'))
  {
    CallProgress(syn, Permute, o, r);
    var (r', out) := Call(syn, Permute, o, r);
    if out.Item? {
      var s, s' := Run(syn, Permute, o, r), Run(syn, Permute, o, r');
      assert s.items == [out.d] + s'.items && s.items[1..] == s'.items;
    }
  }

  /** Passing an operand changes nothing but the non-options. */
  lemma SkipOperand(syn: Syntax, o: seq<string>, r: Ref)
    requires WF(o, r) && r.rest == "" && r.pos < |o| && NonOption(o[r.pos])
    ensures Run(syn, Permute, o, r) == Run(syn, Permute, o, r.(pos := r.pos + 1, nons := r.nons + [o[r.pos]]))
  {
    var r' := r.(pos := r.pos + 1, nons := r.nons + [o[r.pos]]);
    var k := SkipNonOptions(o, r.pos);
    assert k == SkipNonOptions(o, r'.pos);
    assert o[r.pos..k] == [o[r.pos]] + o[r'.pos..k];
    assert r.nons + o[r.pos..k] == r'.nons + o[r'.pos..k];
    assert Call(syn, Permute, o, r) == Call(syn, Permute, o, r');
    StepRun(syn, o, r);
    StepRun(syn, o, r');
  }

  /** The call that decodes `n` at the current element. */
  lemma EnterOption(syn: Syntax, o: seq<string>, r: Ref, n: string)
    requires WF(o, r) && r.pos < |o| && !NonOption(o[r.pos]) && o[r.pos] != "--"
    requires n == if r.rest != "" then r.rest else Unpunctuated(syn, o[r.pos])
    ensures n != "" && Call(syn, Permute, o, r) == DecodeAt(syn, o, r, n)
  {
    assert o[r.pos..r.pos] == [] && r.nons + [] == r.nons;
  }

  predicate Plainly(syn: Syntax) {
    !HasOrderingPrefix(syn) && !syn.longOnly && Supported(syn)
  }

  lemma ShortFlag(syn: Syntax, e: string, n: string, next: Option<string>)
    requires Plainly(syn) && At(e, 1) != '-' && n != "" && Colons(syn, n[0]) == Some(0)
    ensures Decode(syn, syn.optstring, e, n, next)
         == Plain(n[0] as int, None, n[1..], if |n| == 1 then 1 else 0)
  {
  }

  lemma ShortRequired(syn: Syntax, e: string, n: string, next: Option<string>)
    requires Plainly(syn) && At(e, 1) != '-' && n != "" && Colons(syn, n[0]) == Some(1)
    requires |n| == 1 ==> next.Some?
    ensures Decode(syn, syn.optstring, e, n, next)
         == if |n| == 1 then Plain(n[0] as int, next, "", 2) else Plain(n[0] as int, Some(n[1..]), "", 1)
  {
  }

  lemma ShortOptional(syn: Syntax, e: string, n: string, next: Option<string>)
    requires Plainly(syn) && At(e, 1) != '-' && n != "" && Colons(syn, n[0]) == Some(2)
    ensures Decode(syn, syn.optstring, e, n, next)
         == Plain(n[0] as int, if |n| == 1 then None else Some(n[1..]), "", 1)
  {
  }

  lemma {:induction false} NameLengthIs(n: string, i: nat, k: nat)
    requires i <= k <= |n| && '=' !in n[..k] && (k < |n| ==> n[k] == '=')
    ensures NameLength(n, i) == k
    decreases k - i
  {
    if i < k {
      assert n[i] == n[..k][i];
      NameLengthIs(n, i + 1, k);
    }
  }

  lemma LongWord(syn: Syntax, w: Word, next: Option<string>)
    requires Plainly(syn) && w.Long? && Sayable(syn, w)
    requires w.value.Some? && !w.glued ==> next == w.value
    ensures var e := Written(w)[0];
            var d := Decode(syn, syn.optstring, e, e[2..], next);
            && e[2..] != "" && d.rest == "" && !d.missing && d.taken == |Written(w)|
            && [(d.code, d.arg)] == Events(syn, w)
  {
    var e := Written(w)[0];
    var n := e[2..];
    if w.value.Some? && w.glued {
      assert n == w.name + "=" + w.value.value;
      assert n[|w.name| + 1..] == w.value.value;
    } else {
      assert n == w.name;
    }
    assert n[..|w.name|] == w.name;
    NameLengthIs(n, 0, |w.name|);
    assert At(e, 1) == '-';
  }

  // ---- Words ----

  /** Where the scan stands after a word. */
  function After(r: Ref, w: Word): (s: Ref) {
    Ref(r.pos + |Written(w)|, "", r.initial && w.Operand?,
        if w.Operand? then r.opts else r.opts + Written(w),
        if w.Operand? then r.nons + Written(w) else r.nons)
  }

  /** Scanning on from `r` reports `events` and then goes on from `r'`. */
  ghost predicate Reads(syn: Syntax, o: seq<string>, r: Ref, events: seq<(int, Option<string>)>, r': Ref) {
    && WF(o, r) && WF(o, r')
    && Run(syn, Permute, o, r).final == Run(syn, Permute, o, r').final
    && Codes(Run(syn, Permute, o, r).items) == events + Codes(Run(syn, Permute, o, r').items)
  }

  lemma ReadsCall(syn: Syntax, o: seq<string>, r: Ref)
    requires WF(o, r) && Call(syn, Permute, o, r).1.Item?
    ensures var (r', out) := Call(syn, Permute, o, r); Reads(syn, o, r, [(out.d.code, out.d.arg)], r')
  {
    StepRun(syn, o, r);
  }

  lemma ReadsThrough(syn: Syntax, o: seq<string>, r1: Ref, e1: seq<(int, Option<string>)>, r2: Ref,
                     e2: seq<(int, Option<string>)>, r3: Ref)
    requires Reads(syn, o, r1, e1, r2) && Reads(syn, o, r2, e2, r3)
    ensures Reads(syn, o, r1, e1 + e2, r3)
  {
    var rest := Codes(Run(syn, Permute, o, r3).items);
    assert e1 + (e2 + rest) == e1 + e2 + rest;
  }

  lemma FlagCall(syn: Syntax, o: seq<string>, r: Ref, n: string)
    requires Plainly(syn) && WF(o, r) && r.pos < |o| && !NonOption(o[r.pos]) && At(o[r.pos], 1) != '-'
    requires n == if r.rest != "" then r.rest else Unpunctuated(syn, o[r.pos])
    requires n != "" && Colons(syn, n[0]) == Some(0)
    ensures var last := |n| == 1;
            Call(syn, Permute, o, r) ==
              (Ref(if last then r.pos + 1 else r.pos, n[1..], false,
                   if last then r.opts + [o[r.pos]] else r.opts, r.nons),
               Item(Plain(n[0] as int, None, n[1..], if last then 1 else 0)))
  {
    EnterOption(syn, o, r, n);
    ShortFlag(syn, o[r.pos], n, NextElement(o, r.pos));
    assert o[r.pos..r.pos + 1] == [o[r.pos]];
    assert o[r.pos..r.pos] == [] && r.opts + [] == r.opts;
  }

  lemma ReadFlag(syn: Syntax, o: seq<string>, r: Ref, n: string)
    requires Plainly(syn) && WF(o, r) && r.pos < |o| && !NonOption(o[r.pos]) && At(o[r.pos], 1) != '-'
    requires n == if r.rest != "" then r.rest else Unpunctuated(syn, o[r.pos])
    requires n != "" && Colons(syn, n[0]) == Some(0)
    ensures |n| == 1 ==> Reads(syn, o, r, [(n[0] as int, None)], Ref(r.pos + 1, "", false, r.opts + [o[r.pos]], r.nons))
    ensures |n| > 1 ==> Reads(syn, o, r, [(n[0] as int, None)], Ref(r.pos, n[1..], false, r.opts, r.nons))
  {
    FlagCall(syn, o, r, n);
    ReadsCall(syn, o, r);
  }

  lemma {:induction false} ReadFlags(syn: Syntax, o: seq<string>, r: Ref, n: string)
    requires Plainly(syn) && WF(o, r) && r.pos < |o| && !NonOption(o[r.pos]) && At(o[r.pos], 1) != '-'
    requires n == if r.rest != "" then r.rest else Unpunctuated(syn, o[r.pos])
    requires n != "" && forall i :: 0 <= i < |n| ==> Colons(syn, n[i]) == Some(0)
    ensures Reads(syn, o, r, FlagEvents(n), Ref(r.pos + 1, "", false, r.opts + [o[r.pos]], r.nons))
    decreases |n|
  {
    hide Run, Decode;
    var first, end := [(n[0] as int, None)], Ref(r.pos + 1, "", false, r.opts + [o[r.pos]], r.nons);
    ReadFlag(syn, o, r, n);
    if |n| == 1 {
      assert FlagEvents(n) == first;
    } else {
      var r' := Ref(r.pos, n[1..], false, r.opts, r.nons);
      ReadFlags(syn, o, r', n[1..]);
      ReadsThrough(syn, o, r, first, r', FlagEvents(n[1..]), end);
    }
  }

  /** A word that is decoded in one call. */
  lemma ReadOption(syn: Syntax, o: seq<string>, r: Ref, w: Word, n: string, d: Decoded)
    requires Plainly(syn) && WF(o, r) && r.rest == ""
    requires r.pos + |Written(w)| <= |o| && o[r.pos..r.pos + |Written(w)|] == Written(w)
    requires !NonOption(o[r.pos]) && o[r.pos] != "--" && n == Unpunctuated(syn, o[r.pos]) && !w.Operand?
    requires d == Decode(syn, syn.optstring, o[r.pos], n, NextElement(o, r.pos))
    requires d.rest == "" && d.taken == |Written(w)|
    ensures Reads(syn, o, r, [(d.code, d.arg)], After(r, w))
  {
    hide Written, Decode, DecodeAt, Unpunctuated, NextElement;
    EnterOption(syn, o, r, n);
    CallTakes(syn, o, r, n, d, Written(w));
    ReadsCall(syn, o, r);
  }

  lemma CallTakes(syn: Syntax, o: seq<string>, r: Ref, n: string, d: Decoded, taken: seq<string>)
    requires Plainly(syn) && WF(o, r) && r.pos < |o| && n != "" && taken != []
    requires r.pos + |taken| <= |o| && o[r.pos..r.pos + |taken|] == taken
    requires d == Decode(syn, syn.optstring, o[r.pos], n, NextElement(o, r.pos)) && d.rest == "" && d.taken == |taken|
    ensures DecodeAt(syn, o, r, n) == (Ref(r.pos + |taken|, "", false, r.opts + taken, r.nons), Item(d))
  {
  }

  lemma WordElements(o: seq<string>, r: Ref, w: Word)
    requires r.pos + |Written(w)| <= |o| && o[r.pos..r.pos + |Written(w)|] == Written(w)
    ensures o[r.pos] == Written(w)[0]
    ensures |Written(w)| == 2 ==> NextElement(o, r.pos) == Some(Written(w)[1])
  {
    assert o[r.pos] == o[r.pos..r.pos + |Written(w)|][0];
    if |Written(w)| == 2 {
      assert o[r.pos + 1] == o[r.pos..r.pos + |Written(w)|][1];
    }
  }

  lemma ReadRequired(syn: Syntax, o: seq<string>, r: Ref, w: Word)
    requires Plainly(syn) && Sayable(syn, w) && WF(o, r) && r.rest == "" && w.Required?
    requires r.pos + |Written(w)| <= |o| && o[r.pos..r.pos + |Written(w)|] == Written(w)
    ensures Reads(syn, o, r, [(w.c as int, Some(w.arg))], After(r, w))
  {
    WordElements(o, r, w);
    var e, next := o[r.pos], NextElement(o, r.pos);
    assert e[1..] == if w.glued then [w.c] + w.arg else [w.c];
    ShortRequired(syn, e, e[1..], next);
    ReadOption(syn, o, r, w, e[1..], Plain(w.c as int, Some(w.arg), "", |Written(w)|));
  }

  lemma ReadOptional(syn: Syntax, o: seq<string>, r: Ref, w: Word)
    requires Plainly(syn) && Sayable(syn, w) && WF(o, r) && r.rest == "" && w.Optional?
    requires r.pos + |Written(w)| <= |o| && o[r.pos..r.pos + |Written(w)|] == Written(w)
    ensures Reads(syn, o, r, [(w.c as int, if w.arg == "" then None else Some(w.arg))], After(r, w))
  {
    WordElements(o, r, w);
    var e, next := o[r.pos], NextElement(o, r.pos);
    assert e[1..] == [w.c] + w.arg;
    ShortOptional(syn, e, e[1..], next);
    ReadOption(syn, o, r, w, e[1..], Plain(w.c as int, if w.arg == "" then None else Some(w.arg), "", 1));
  }

  lemma ReadLong(syn: Syntax, o: seq<string>, r: Ref, w: Word)
    requires Plainly(syn) && Sayable(syn, w) && WF(o, r) && r.rest == "" && w.Long?
    requires r.pos + |Written(w)| <= |o| && o[r.pos..r.pos + |Written(w)|] == Written(w)
    ensures Reads(syn, o, r, Events(syn, w), After(r, w))
  {
    WordElements(o, r, w);
    var e, next := o[r.pos], NextElement(o, r.pos);
    LongWord(syn, w, next);
    ReadOption(syn, o, r, w, e[2..], Decode(syn, syn.optstring, e, e[2..], next));
  }

  lemma ReadWord(syn: Syntax, o: seq<string>, r: Ref, w: Word)
    requires Plainly(syn) && Sayable(syn, w) && WF(o, r) && r.rest == ""
    requires r.pos + |Written(w)| <= |o| && o[r.pos..r.pos + |Written(w)|] == Written(w)
    ensures Reads(syn, o, r, Events(syn, w), After(r, w))
  {
    WordElements(o, r, w);
    match w
    case Operand(t) => SkipOperand(syn, o, r);
    case Flags(cs) => ReadFlags(syn, o, r, cs);
    case Required(_, _, _) => ReadRequired(syn, o, r, w);
    case Optional(_, _) => ReadOptional(syn, o, r, w);
    case Long(_, _, _, _) => ReadLong(syn, o, r, w);
  }

  lemma ReadTail(syn: Syntax, o: seq<string>, r: Ref, t: Option<seq<string>>)
    requires WF(o, r) && r.rest == "" && o[r.pos..] == Tail(t)
    ensures Run(syn, Permute, o, r).items == []
    ensures var f := Run(syn, Permute, o, r).final;
            f.opts == r.opts + (if t.None? then [] else ["--"]) && f.nons == r.nons + (if t.None? then [] else t.value)
  {
    StepRun(syn, o, r);
    assert o[r.pos..r.pos] == [] && r.nons + [] == r.nons && r.opts + [] == r.opts;
    if t.None? {
      assert r.pos == |o|;
    } else {
      assert o[r.pos] == o[r.pos..][0] == "--";
      assert o[r.pos + 1..] == o[r.pos..][1..] == t.value;
    }
  }

  /** `o` continues with the words `ws` at `pos`. */
  ghost predicate Continues(o: seq<string>, pos: nat, ws: seq<Word>) {
    pos + |CommandLine(ws)| <= |o| && o[pos..pos + |CommandLine(ws)|] == CommandLine(ws)
  }

  lemma ContinuesSplit(o: seq<string>, pos: nat, ws: seq<Word>)
    requires Continues(o, pos, ws) && ws != []
    ensures var k := pos + |Written(ws[0])|;
            k <= |o| && o[pos..k] == Written(ws[0]) && Continues(o, k, ws[1..])
  {
    var x, y := Written(ws[0]), CommandLine(ws[1..]);
    assert CommandLine(ws) == x + y;
    hide Written, CommandLine;
    SplitSlice(o, pos, x, y);
  }

  /** Where the scan stands after some words. */
  function AfterAll(r: Ref, ws: seq<Word>): (s: Ref)
    decreases |ws|
  {
    if ws == [] then r else AfterAll(After(r, ws[0]), ws[1..])
  }

  lemma Associate<T>(a: seq<T>, b: seq<T>, c: seq<T>)
    ensures a + b + c == a + (b + c)
    ensures a + [] == a && [] + c == c
  {
  }

  lemma {:induction false} AfterAllIs(r: Ref, ws: seq<Word>)
    requires r.rest == ""
    ensures var a := AfterAll(r, ws);
      && a.pos == r.pos + |CommandLine(ws)| && a.rest == ""
      && a.opts == r.opts + AllWritten(ws, false) && a.nons == r.nons + AllWritten(ws, true)
    decreases |ws|
  {
    if ws != [] {
      var w, rest, r' := ws[0], ws[1..], After(r, ws[0]);
      AfterAllIs(r', rest);
      if w.Operand? {
        Associate(r.nons, Written(w), AllWritten(rest, true));
        Associate(r.opts, [], AllWritten(rest, false));
      } else {
        Associate(r.opts, Written(w), AllWritten(rest, false));
        Associate(r.nons, [], AllWritten(rest, true));
      }
    }
  }

  lemma {:induction false} ReadWords(syn: Syntax, o: seq<string>, r: Ref, ws: seq<Word>)
    requires Plainly(syn) && WF(o, r) && r.rest == ""
    requires forall w :: w in ws ==> Sayable(syn, w)
    requires Continues(o, r.pos, ws)
    ensures Reads(syn, o, r, AllEvents(syn, ws), AfterAll(r, ws))
    decreases |ws|
  {
    hide Run, Written, Events;
    if ws != [] {
      ContinuesSplit(o, r.pos, ws);
      ReadWord(syn, o, r, ws[0]);
      ReadWords(syn, o, After(r, ws[0]), ws[1..]);
      ReadsThrough(syn, o, r, Events(syn, ws[0]), After(r, ws[0]), AllEvents(syn, ws[1..]), AfterAll(r, ws));
    }
  }

  /** A command line in PERMUTE mode is read as it was meant: the events of its
      words in order, its options with their arguments (and `--`) in front, and
      its operands, with whatever follows `--`, behind. */
  lemma ScanReadsWhatWasWritten(syn: Syntax, before: seq<string>, ws: seq<Word>, t: Option<seq<string>>)
    requires Plainly(syn) && forall w :: w in ws ==> Sayable(syn, w)
    ensures var s := ScanFrom(syn, false, before + CommandLine(ws) + Tail(t), |before|);
      && Codes(s.items) == AllEvents(syn, ws)
      && s.final.opts == AllWritten(ws, false) + (if t.None? then [] else ["--"])
      && s.final.nons == AllWritten(ws, true) + (if t.None? then [] else t.value)
  {
    hide Run, Written, Events, Decode, CommandLine, Tail, AllWritten, AllEvents, AfterAll;
    var o := before + CommandLine(ws) + Tail(t);
    var r := Start(|before|);
    LineSlices(before, CommandLine(ws), Tail(t));
    ReadWords(syn, o, r, ws);
    AfterAllIs(r, ws);
    ReadTail(syn, o, AfterAll(r, ws), t);
    Nothing(AllWritten(ws, false));
    Nothing(AllWritten(ws, true));
    NothingMore(AllEvents(syn, ws));
  }

  lemma LineSlices(before: seq<string>, line: seq<string>, tail: seq<string>)
    ensures var o := before + line + tail;
      o[|before|..|before| + |line|] == line && o[|before| + |line|..] == tail
  {
  }

  lemma Nothing(s: seq<string>)
    ensures [] + s == s
  {
  }

  lemma NothingMore<T>(s: seq<T>)
    ensures s + [] == s
  {
  }
}
