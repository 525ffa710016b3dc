/** What getopt makes of a single element, said about the option table, the name
    and the characters themselves. */
module GetoptMeaning {
  import opened Prelude
  import opened GetoptSpec

  // ---- Long options ----

  /** `name` is what `n` says before the first `=`. */
  predicate IsName(name: string, n: string) {
    '=' !in name && name <= n && (|name| < |n| ==> n[|name|] == '=')
  }

  /** The option that `name` stands for: the first one of that very name, or
      the only one that it abbreviates. */
  ghost predicate Chosen(lo: seq<LongOption>, name: string, i: nat) {
    && i < |lo| && name <= lo[i].name
    && if lo[i].name == name then forall j :: 0 <= j < i ==> lo[j].name != name
       else forall j :: 0 <= j < |lo| && j != i ==> !(name <= lo[j].name)
  }

  ghost predicate Unfit(lo: seq<LongOption>, name: string) { forall j :: 0 <= j < |lo| ==> !(name <= lo[j].name) }

  ghost predicate Unclear(lo: seq<LongOption>, name: string) {
    && (forall j :: 0 <= j < |lo| ==> lo[j].name != name)
    && exists i, j :: 0 <= i < j < |lo| && name <= lo[i].name && name <= lo[j].name
  }

  lemma {:induction false} NameEnds(name: string, n: string, i: nat)
    requires IsName(name, n) && i <= |name|
    ensures NameLength(n, i) == |name|
    decreases |name| - i
  {
    if i < |name| {
      assert n[i] == name[i] && name[i] in name;
      NameEnds(name, n, i + 1);
    }
  }

  lemma LookupIs(lo: seq<LongOption>, name: string)
    ensures Unfit(lo, name) ==> LookupLong(lo, name) == Unknown
    ensures Unclear(lo, name) ==> LookupLong(lo, name) == Ambiguous
    ensures forall i :: Chosen(lo, name, i) ==> LookupLong(lo, name) == Found(i)
    ensures Unfit(lo, name) || Unclear(lo, name) || exists i :: Chosen(lo, name, i)
  {
    LookupLongMeaning(lo, name);
    hide LookupLong;
    match LookupLong(lo, name)
    case Found(k) =>
      assert Chosen(lo, name, k);
    case Ambiguous =>
    case Unknown =>
  }

  /** An option element that is looked up in the table of long options. */
  predicate LongForm(syn: Syntax, shorts: string, e: string) {
    && syn.longopts.Some? && |e| >= 2
    && (e[1] == '-' || (syn.longOnly && (At(e, 2) != '\0' || e[1] !in shorts)))
  }

  lemma TriesIt(syn: Syntax, shorts: string, e: string)
    requires |e| >= 2
    ensures LongForm(syn, shorts, e) <==> TriesLong(syn, shorts, e)
  {
    IndexFromIsFirst(shorts, e[1], 0);
  }

  lemma LongMissed(syn: Syntax, shorts: string, e: string, n: string, next: Option<string>, name: string)
    requires LongForm(syn, shorts, e) && n != "" && IsName(name, n) && Unfit(syn.longopts.value, name)
    requires e[1] == '-' || n[0] !in shorts
    ensures Decode(syn, shorts, e, n, next) == Error(0, "", 1)
  {
    TriesIt(syn, shorts, e);
    NameEnds(name, n, 0);
    assert NameOf(n) == name;
    LookupIs(syn.longopts.value, name);
    IndexFromIsFirst(shorts, n[0], 0);
    hide Unfit, Unclear, LookupLong;
  }

  lemma LongUnclear(syn: Syntax, shorts: string, e: string, n: string, next: Option<string>, name: string)
    requires LongForm(syn, shorts, e) && n != "" && IsName(name, n) && Unclear(syn.longopts.value, name)
    ensures Decode(syn, shorts, e, n, next) == Error(0, "", 1)
  {
    TriesIt(syn, shorts, e);
    NameEnds(name, n, 0);
    assert NameOf(n) == name;
    LookupIs(syn.longopts.value, name);
    hide Unfit, Unclear, LookupLong;
  }

  lemma LongChosen(syn: Syntax, shorts: string, e: string, n: string, next: Option<string>, name: string, i: nat)
    requires LongForm(syn, shorts, e) && n != "" && IsName(name, n) && Chosen(syn.longopts.value, name, i)
    ensures Decode(syn, shorts, e, n, next) == DecodeFound(syn.longopts.value[i], i, shorts, n, next)
  {
    TriesIt(syn, shorts, e);
    NameEnds(name, n, 0);
    assert NameOf(n) == name;
    LookupIs(syn.longopts.value, name);
    hide Unfit, Unclear, LookupLong, DecodeFound;
  }

  /** A long option is an error exactly if nothing in the table has the name or
      is abbreviated by it, or if more than one is and none is called so, or if
      its argument is missing, or if a value is given to an option without one.
      An error finishes the element; only a missing argument can be told apart,
      by a `:` at the start of optstring. */
  lemma LongErrors(syn: Syntax, shorts: string, e: string, n: string, next: Option<string>, name: string)
    requires LongForm(syn, shorts, e) && n != "" && IsName(name, n)
    requires e[1] == '-' || n[0] !in shorts || !Unfit(syn.longopts.value, name)
    ensures var lo, d := syn.longopts.value, Decode(syn, shorts, e, n, next);
      && (d.optopt.Some? <==>
            || Unfit(lo, name) || Unclear(lo, name)
            || exists i: nat :: Chosen(lo, name, i)
                 && if |name| < |n| then lo[i].hasArg == 0 else lo[i].hasArg == 1 && next.None?)
      && (d.optopt.Some? ==> d.arg.None? && d.longind.None? && d.stored.None? && d.rest == "" && d.taken == 1)
      && (Unfit(lo, name) || Unclear(lo, name) ==> d.optopt == Some(0) && d.code == '?' as int && !d.missing)
      && forall i: nat :: Chosen(lo, name, i) && d.optopt.Some? ==>
           && d.optopt == Some(lo[i].val) && (d.missing <==> |name| == |n|)
           && d.code == if |name| == |n| && At(shorts, 0) == ':' then ':' as int else '?' as int
  {
    var lo, d := syn.longopts.value, Decode(syn, shorts, e, n, next);
    NameEnds(name, n, 0);
    LookupIs(lo, name);
    if Unfit(lo, name) {
      LongMissed(syn, shorts, e, n, next, name);
    } else if Unclear(lo, name) {
      LongUnclear(syn, shorts, e, n, next, name);
    }
    forall i: nat | Chosen(lo, name, i)
      ensures d == DecodeFound(lo[i], i, shorts, n, next)
    {
      LongChosen(syn, shorts, e, n, next, name, i);
    }
    hide Decode, Unfit, Unclear, LookupLong;
  }

  /** Where it is no error, the option chosen is reported: by its value, or by 0
      and the value stored through its flag; with what follows the `=`, or the
      next element if it requires an argument. */
  lemma LongReports(syn: Syntax, shorts: string, e: string, n: string, next: Option<string>, name: string, i: nat)
    requires LongForm(syn, shorts, e) && n != "" && IsName(name, n) && Chosen(syn.longopts.value, name, i)
    requires Decode(syn, shorts, e, n, next).optopt.None?
    ensures var p, d := syn.longopts.value[i], Decode(syn, shorts, e, n, next);
      && d.longind == Some(i) && d.rest == "" && !d.missing
      && (if p.hasFlag then d.code == 0 && d.stored == Some(p.val) else d.code == p.val && d.stored.None?)
      && if |name| < |n| then p.hasArg != 0 && d.arg == Some(n[|name| + 1..]) && d.taken == 1
         else if p.hasArg == 1 then next.Some? && d.arg == next && d.taken == 2
         else d.arg.None? && d.taken == 1
  {
    LongChosen(syn, shorts, e, n, next, name, i);
    NameEnds(name, n, 0);
    hide Decode, Chosen;
  }

  /** With a single dash, what is not in the table is read as if there were
      none, if it starts with a short option. */
  lemma LongOnlyFallsBack(syn: Syntax, shorts: string, e: string, n: string, next: Option<string>, name: string)
    requires LongForm(syn, shorts, e) && n != "" && IsName(name, n)
    requires e[1] != '-' && n[0] in shorts && Unfit(syn.longopts.value, name)
    ensures Decode(syn, shorts, e, n, next) == Decode(syn.(longopts := None), shorts, e, n, next)
  {
    TriesIt(syn, shorts, e);
    NameEnds(name, n, 0);
    assert NameOf(n) == name;
    LookupIs(syn.longopts.value, name);
    IndexFromIsFirst(shorts, n[0], 0);
  }

  /** Every text has a name. */
  lemma {:induction false} HasName(n: string) returns (name: string)
    ensures IsName(name, n)
  {
    if n == "" || n[0] == '=' {
      name := "";
    } else {
      var rest := HasName(n[1..]);
      name := [n[0]] + rest;
      assert |rest| < |n[1..]| ==> n[1..][|rest|] == n[|name|];
    }
  }

  // ---- Short options ----

  /** The first place of `c` in the option string. */
  predicate IsPlace(shorts: string, c: char, t: nat) { t < |shorts| && shorts[t] == c && c !in shorts[..t] }

  lemma NotEarlier(s: string, c: char, i: nat, j: nat)
    requires i < j <= |s| && c !in s[..j]
    ensures s[i] != c
  {
    assert s[i] == s[..j][i];
  }

  lemma PlaceIs(shorts: string, c: char, t: nat)
    requires IsPlace(shorts, c, t)
    ensures IndexOf(shorts, c) == Some(t)
  {
    IndexFromIsFirst(shorts, c, 0);
    assert c in shorts[0..];
    match IndexFrom(shorts, c, 0)
    case None =>
    case Some(k) =>
      if k < t {
        NotEarlier(shorts, c, k, t);
      } else if k > t {
        NotEarlier(shorts, c, t, k);
      }
  }

  /** An option character that is none of the caller's is reported as such, and
      the scan goes on behind it. */
  lemma UnknownShort(syn: Syntax, shorts: string, e: string, n: string, next: Option<string>)
    requires !LongForm(syn, shorts, e) && |e| >= 2 && n != "" && (n[0] !in shorts || n[0] == ':')
    ensures Decode(syn, shorts, e, n, next)
         == Decoded('?' as int, None, Some(n[0] as int), None, None, n[1..], if |n| == 1 then 1 else 0, false)
  {
    TriesIt(syn, shorts, e);
    IndexFromIsFirst(shorts, n[0], 0);
  }

  /** One without an argument is reported, and the scan goes on behind it. */
  lemma ShortFlag(syn: Syntax, shorts: string, e: string, n: string, next: Option<string>, t: nat)
    requires !LongForm(syn, shorts, e) && |e| >= 2 && n != "" && n[0] != ':' && IsPlace(shorts, n[0], t)
    requires At(shorts, t + 1) != ':'
    ensures Decode(syn, shorts, e, n, next)
         == Decoded(n[0] as int, None, None, None, None, n[1..], if |n| == 1 then 1 else 0, false)
  {
    TriesIt(syn, shorts, e);
    PlaceIs(shorts, n[0], t);
  }

  /** One with an argument takes the rest of the element; if there is none, an
      optional argument is absent and a required one is the next element. */
  lemma ShortWithArgument(syn: Syntax, shorts: string, e: string, n: string, next: Option<string>, t: nat)
    requires !LongForm(syn, shorts, e) && |e| >= 2 && n != "" && n[0] != ':' && IsPlace(shorts, n[0], t)
    requires At(shorts, t + 1) == ':'
    ensures var d, optional := Decode(syn, shorts, e, n, next), At(shorts, t + 2) == ':';
      && d.rest == "" && d.longind.None? && d.stored.None?
      && (d.missing <==> |n| == 1 && !optional && next.None?)
      && d.optopt == (if d.missing then Some(n[0] as int) else None)
      && d.code == (if !d.missing then n[0] as int else if At(shorts, 0) == ':' then ':' as int else '?' as int)
      && d.arg == (if |n| > 1 then Some(n[1..]) else if optional then None else next)
      && d.taken == (if |n| == 1 && !optional && next.Some? then 2 else 1)
  {
    TriesIt(syn, shorts, e);
    PlaceIs(shorts, n[0], t);
  }

  // ---- One call ----

  /** What the C code tests of an element: `argv[i][0]` and `argv[i][1]`. */
  predicate LooksLikeOption(e: string) { |e| >= 2 && e[0] == '-' && e[1] != '\0' }

  lemma ReadsOn(syn: Syntax, ord: Ordering, o: seq<string>, r: Ref)
    requires WF(o, r) && r.rest != ""
    ensures Call(syn, ord, o, r) == DecodeAt(syn, o, r, r.rest)
  {
  }

  lemma StaysAtOption(syn: Syntax, ord: Ordering, o: seq<string>, r: Ref)
    requires WF(o, r) && r.rest == "" && r.pos < |o| && !NonOption(o[r.pos]) && o[r.pos] != "--"
    ensures Call(syn, ord, o, r) == DecodeAt(syn, o, r, Unpunctuated(syn, o[r.pos]))
  {
    assert r.nons + o[r.pos..r.pos] == r.nons;
    assert Skip(ord, o, r) == r;
    hide DecodeAt, Unpunctuated;
  }

  /** A call that comes to an option, or is in the middle of one: what it reads,
      with which option string, and what it counts as passed.  Only the first
      call skips the ordering character. */
  lemma OptionIsRead(syn: Syntax, ord: Ordering, o: seq<string>, r: Ref)
    requires WF(o, r) && r.pos < |o| && LooksLikeOption(o[r.pos]) && (r.rest == "" ==> o[r.pos] != "--")
    ensures var e := o[r.pos];
      var n := if r.rest != "" then r.rest else if syn.longopts.Some? && e[1] == '-' then e[2..] else e[1..];
      var shorts := if r.initial && syn.optstring != "" && syn.optstring[0] in "-+" then syn.optstring[1..]
                    else syn.optstring;
      && n != ""
      && var d := Decode(syn, shorts, e, n, if r.pos + 1 < |o| then Some(o[r.pos + 1]) else None);
      Call(syn, ord, o, r) == (Ref(r.pos + d.taken, d.rest, false, r.opts + o[r.pos..r.pos + d.taken], r.nons), Item(d))
  {
    hide Call, Decode;
    if r.rest == "" {
      StaysAtOption(syn, ord, o, r);
    } else {
      ReadsOn(syn, ord, o, r);
    }
  }

  // ---- The first operand ----

  lemma CallCarries(syn: Syntax, ord: Ordering, o: seq<string>, r: Ref, x: seq<string>)
    requires WF(o, r)
    ensures var (r', out) := Call(syn, ord, o, r);
      Call(syn, ord, o, r.(nons := x + r.nons)) == (r'.(nons := x + r'.nons), out)
  {
    hide Decode, Unpunctuated;
    if r.rest == "" {
      var k := SkipNonOptions(o, r.pos);
      assert (x + r.nons) + o[r.pos..k] == x + (r.nons + o[r.pos..k]);
      MeetCarries(syn, ord, o, Skip(ord, o, r), x);
    }
  }

  lemma MeetCarries(syn: Syntax, ord: Ordering, o: seq<string>, m: Ref, x: seq<string>)
    requires m.pos <= |o| && m.rest == ""
    ensures var (r', out) := Meet(syn, ord, o, m);
      Meet(syn, ord, o, m.(nons := x + m.nons)) == (r'.(nons := x + r'.nons), out)
  {
    hide Decode, Unpunctuated;
    if m.pos < |o| {
      assert (x + m.nons) + o[m.pos + 1..] == x + (m.nons + o[m.pos + 1..]);
      assert (x + m.nons) + o[m.pos..] == x + (m.nons + o[m.pos..]);
    }
  }

  /** Non-options skipped before do not matter. */
  lemma {:induction false} RunCarries(syn: Syntax, ord: Ordering, o: seq<string>, r: Ref, x: seq<string>)
    requires WF(o, r)
    ensures var s := Run(syn, ord, o, r);
      Run(syn, ord, o, r.(nons := x + r.nons)) == Scan(s.items, s.final.(nons := x + s.final.nons))
    decreases |o| - r.pos, Unread(o, r)
  {
    CallProgress(syn, ord, o, r);
    CallCarries(syn, ord, o, r, x);
    var (r', out) := Call(syn, ord, o, r);
    hide Call;
    if out.Item? {
      RunCarries(syn, ord, o, r', x);
    }
  }

  lemma OperandIsSkipped(syn: Syntax, o: seq<string>, i: nat)
    requires i < |o| && NonOption(o[i])
    ensures var r := Start(i + 1);
      Run(syn, Permute, o, Start(i)) == Run(syn, Permute, o, r.(nons := [o[i]] + r.nons))
  {
    var k := SkipNonOptions(o, i + 1);
    assert [] + o[i..k] == [o[i]] + [] + o[i + 1..k];
    hide Meet;
    assert Call(syn, Permute, o, Start(i)) == Call(syn, Permute, o, Ref(i + 1, "", true, [], [o[i]] + []));
    hide Call;
  }

  /** What is done with an operand that comes first: after a leading `-` in
      optstring it is reported as the argument of an option 1; after a leading
      `+`, or with POSIXLY_CORRECT in the environment, the scan stops in front
      of it; otherwise it is passed over, and is the first of those left. */
  lemma FirstOperand(syn: Syntax, posix: bool, o: seq<string>, i: nat)
    requires i < |o| && !LooksLikeOption(o[i])
    ensures var s := ScanFrom(syn, posix, o, i);
      if At(syn.optstring, 0) == '-' then
        s.items != [] && s.items[0] == Decoded(1, Some(o[i]), None, None, None, "", 1, false)
      else if At(syn.optstring, 0) == '+' || posix then
        s.items == [] && s.final.opts == [] && s.final.nons == o[i..]
      else
        var rest := ScanFrom(syn, posix, o, i + 1);
        s.items == rest.items && s.final.opts == rest.final.opts && s.final.nons == [o[i]] + rest.final.nons
  {
    var ord := InitialOrdering(syn, posix);
    if ord == Permute {
      OperandIsSkipped(syn, o, i);
      RunCarries(syn, ord, o, Start(i + 1), [o[i]]);
      hide Run;
    } else {
      assert [] + o[i..] == o[i..];
    }
  }
}
