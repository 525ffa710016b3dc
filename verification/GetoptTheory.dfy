/** What a whole getopt scan guarantees. */
module GetoptTheory {
  import opened Prelude
  import opened GetoptSpec

  // ---- What the elements of a vector are ----

  /** An option element holds one option or a cluster of them.  `Dashes` is the
      `--` that ends the options. */
  datatype Role = OptionElement | Argument | Dashes | Operand

  /** Of the element `e`, `n` is still unread: whether decoding it to its end
      takes the next element as an argument, if there is one. */
  predicate TakesNext(syn: Syntax, e: string, n: string)
    decreases |n|
  {
    n != "" &&
    var d := Decode(syn, syn.optstring, e, n, Some(""));
    if d.taken == 0 then TakesNext(syn, e, d.rest) else d.taken == 2
  }

  predicate HasSeparateArgument(syn: Syntax, e: string) {
    !NonOption(e) && TakesNext(syn, e, Unpunctuated(syn, e))
  }

  /** The last element is an option that takes the next one as its argument. */
  predicate Awaits(syn: Syntax, src: seq<string>, roles: seq<Role>)
    requires |roles| == |src|
  {
    src != [] && roles[|src| - 1] == OptionElement && HasSeparateArgument(syn, src[|src| - 1])
  }

  /** What an element is that follows `src`, whose elements are `roles`. */
  function RoleOf(syn: Syntax, src: seq<string>, roles: seq<Role>, e: string): (r: Role)
    requires |roles| == |src|
  {
    if Dashes in roles then Operand
    else if Awaits(syn, src, roles) then Argument
    else if e == "--" then Dashes
    else if NonOption(e) then Operand
    else OptionElement
  }

  /** What every element of `src` is, from the elements themselves. */
  function Roles(syn: Syntax, src: seq<string>): (r: seq<Role>)
    ensures |r| == |src|
  {
    if src == [] then []
    else
      var before := src[..|src| - 1];
      Roles(syn, before) + [RoleOf(syn, before, Roles(syn, before), src[|src| - 1])]
  }

  predicate IsOperand(r: Role) { r == Operand }

  predicate IsPassed(r: Role) { r != Operand }

  predicate IsArgument(r: Role) { r == Argument }

  /** The elements of `src` whose role is wanted, in their order in `src`. */
  function Pick(src: seq<string>, roles: seq<Role>, wanted: Role -> bool): (r: seq<string>)
    requires |src| == |roles|
  {
    if src == [] then []
    else
      var n := |src| - 1;
      Pick(src[..n], roles[..n], wanted) + (if wanted(roles[n]) then [src[n]] else [])
  }

  /** Which element has which role does not depend on what follows it. */
  lemma {:induction false} RolesAt(syn: Syntax, src: seq<string>, j: nat)
    requires j < |src|
    ensures Roles(syn, src)[..j] == Roles(syn, src[..j])
    ensures Roles(syn, src)[j] == RoleOf(syn, src[..j], Roles(syn, src[..j]), src[j])
  {
    var n := |src| - 1;
    if j < n {
      RolesAt(syn, src[..n], j);
      assert src[..n][..j] == src[..j];
    }
  }

  /** The options, the operands and the arguments of `src`. */
  ghost predicate Assigned(syn: Syntax, src: seq<string>, opts: seq<string>, nons: seq<string>, args: seq<string>) {
    var roles := Roles(syn, src);
    opts == Pick(src, roles, IsPassed) && nons == Pick(src, roles, IsOperand) && args == Pick(src, roles, IsArgument)
  }

  lemma PickNext(src: seq<string>, roles: seq<Role>, e: string, r: Role, wanted: Role -> bool)
    requires |src| == |roles|
    ensures Pick(src + [e], roles + [r], wanted) == Pick(src, roles, wanted) + (if wanted(r) then [e] else [])
  {
    assert (src + [e])[..|src|] == src && (roles + [r])[..|src|] == roles;
  }

  lemma RolesNext(syn: Syntax, src: seq<string>, e: string)
    ensures Roles(syn, src + [e]) == Roles(syn, src) + [RoleOf(syn, src, Roles(syn, src), e)]
  {
    assert (src + [e])[..|src|] == src;
  }

  lemma AssignNext(syn: Syntax, src: seq<string>, opts: seq<string>, nons: seq<string>, args: seq<string>,
                   e: string, r: Role)
    requires Assigned(syn, src, opts, nons, args) && r == RoleOf(syn, src, Roles(syn, src), e)
    ensures Assigned(syn, src + [e], if r == Operand then opts else opts + [e],
                     if r == Operand then nons + [e] else nons, if r == Argument then args + [e] else args)
  {
    var roles := Roles(syn, src);
    RolesNext(syn, src, e);
    PickNext(src, roles, e, r, IsPassed);
    PickNext(src, roles, e, r, IsOperand);
    PickNext(src, roles, e, r, IsArgument);
  }

  /** Nothing has ended the options, and no option awaits an argument. */
  predicate Open(syn: Syntax, src: seq<string>) {
    Dashes !in Roles(syn, src) && !Awaits(syn, src, Roles(syn, src))
  }

  /** The role of a fresh element. */
  lemma OpenNext(syn: Syntax, src: seq<string>, e: string)
    requires Open(syn, src)
    ensures var r := RoleOf(syn, src, Roles(syn, src), e);
      && r == (if e == "--" then Dashes else if NonOption(e) then Operand else OptionElement)
      && (Open(syn, src + [e]) <==> e != "--" && !HasSeparateArgument(syn, e))
      && (Awaits(syn, src + [e], Roles(syn, src + [e])) <==> e != "--" && HasSeparateArgument(syn, e))
      && (Dashes in Roles(syn, src + [e]) <==> e == "--")
  {
    RolesNext(syn, src, e);
  }

  lemma ArgumentNext(syn: Syntax, src: seq<string>, e: string)
    requires Dashes !in Roles(syn, src) && Awaits(syn, src, Roles(syn, src))
    ensures RoleOf(syn, src, Roles(syn, src), e) == Argument && Open(syn, src + [e])
  {
    RolesNext(syn, src, e);
  }

  lemma Snoc(src: seq<string>, more: seq<string>)
    requires more != []
    ensures src + more == (src + more[..|more| - 1]) + [more[|more| - 1]]
  {
  }

  /** Non-options that are skipped are operands. */
  lemma {:induction false} AssignSkipped(syn: Syntax, src: seq<string>, opts: seq<string>, nons: seq<string>,
                                         args: seq<string>, more: seq<string>)
    requires Assigned(syn, src, opts, nons, args) && Open(syn, src)
    requires forall j :: 0 <= j < |more| ==> NonOption(more[j])
    ensures Assigned(syn, src + more, opts, nons + more, args) && Open(syn, src + more)
    decreases |more|
  {
    hide Assigned, Open, Awaits, Roles, RoleOf;
    if more == [] {
      assert src + more == src && nons + more == nons;
    } else {
      var init, e := more[..|more| - 1], more[|more| - 1];
      AssignSkipped(syn, src, opts, nons, args, init);
      OpenNext(syn, src + init, e);
      AssignNext(syn, src + init, opts, nons + init, args, e, Operand);
      Snoc(src, more);
      Snoc(nons, more);
    }
  }

  /** Everything behind a `--` is an operand. */
  lemma {:induction false} AssignRest(syn: Syntax, src: seq<string>, opts: seq<string>, nons: seq<string>,
                                      args: seq<string>, more: seq<string>)
    requires Assigned(syn, src, opts, nons, args) && Dashes in Roles(syn, src)
    ensures Assigned(syn, src + more, opts, nons + more, args) && Dashes in Roles(syn, src + more)
    decreases |more|
  {
    hide Assigned, Open, Awaits, Roles, HasSeparateArgument;
    if more == [] {
      assert src + more == src && nons + more == nons;
    } else {
      var init, e := more[..|more| - 1], more[|more| - 1];
      AssignRest(syn, src, opts, nons, args, init);
      RolesNext(syn, src + init, e);
      AssignNext(syn, src + init, opts, nons + init, args, e, Operand);
      Snoc(src, more);
      Snoc(nons, more);
    }
  }

  // ---- A scan assigns ----

  /** The arguments that were elements of their own. */
  function SeparateArguments(ds: seq<Decoded>): (r: seq<string>) {
    if ds == [] then [] else SeparateArgument(ds[0]) + SeparateArguments(ds[1..])
  }

  function SeparateArgument(d: Decoded): (r: seq<string>) {
    if d.taken == 2 && d.arg.Some? then [d.arg.value] else []
  }

  lemma DecodeWithNext(syn: Syntax, shorts: string, e: string, n: string, next: Option<string>)
    requires n != ""
    ensures var d, d' := Decode(syn, shorts, e, n, next), Decode(syn, shorts, e, n, Some(""));
      && d.rest == d'.rest && (d.taken == 0 <==> d'.taken == 0)
      && (next.Some? ==> d.taken == d'.taken)
      && (d'.taken == 1 ==> d.taken == 1)
  {
  }

  /** Whether the element takes the next one shows when it has been read. */
  lemma TakesStep(syn: Syntax, e: string, n: string, next: Option<string>)
    requires n != ""
    ensures var d := Decode(syn, syn.optstring, e, n, next);
      && (d.taken == 0 ==> TakesNext(syn, e, n) == TakesNext(syn, e, d.rest))
      && (d.taken == 1 ==> next.None? || !TakesNext(syn, e, n))
      && (d.taken == 2 ==> TakesNext(syn, e, n))
  {
    DecodeWithNext(syn, syn.optstring, e, n, next);
  }

  /** What the scan has passed is assigned, and unless that was everything, no
      option awaits its argument; what is left of the current element decides
      whether it takes the next one. */
  ghost predicate Accounts(syn: Syntax, o: seq<string>, start: nat, r: Ref, args: seq<string>) {
    && start <= r.pos <= |o|
    && Assigned(syn, o[start..r.pos], r.opts, r.nons, args)
    && (r.pos < |o| ==> Open(syn, o[start..r.pos]))
    && Entered(syn, o, r)
  }

  predicate Entered(syn: Syntax, o: seq<string>, r: Ref) {
    r.rest != "" ==>
      && r.pos < |o| && !NonOption(o[r.pos]) && o[r.pos] != "--"
      && HasSeparateArgument(syn, o[r.pos]) == TakesNext(syn, o[r.pos], r.rest)
  }

  lemma Slices(o: seq<string>, a: nat, b: nat, c: nat)
    requires a <= b <= c <= |o|
    ensures o[a..b] + o[b..c] == o[a..c]
  {
  }

  lemma SliceNext(o: seq<string>, a: nat, b: nat)
    requires a <= b < |o|
    ensures o[a..b] + [o[b]] == o[a..b + 1]
  {
  }

  /** Where a call comes to has been skipped. */
  lemma SkipAccounts(syn: Syntax, o: seq<string>, start: nat, r: Ref, args: seq<string>, k: nat)
    requires Accounts(syn, o, start, r, args) && r.pos <= k <= |o| && (r.rest != "" ==> k == r.pos)
    requires forall j :: r.pos <= j < k ==> NonOption(o[j])
    ensures Assigned(syn, o[start..k], r.opts, r.nons + o[r.pos..k], args) && (k < |o| ==> Open(syn, o[start..k]))
  {
    hide Assigned, Open;
    if k == r.pos {
      assert r.nons + o[r.pos..k] == r.nons;
    } else {
      AssignSkipped(syn, o[start..r.pos], r.opts, r.nons, args, o[r.pos..k]);
      Slices(o, start, r.pos, k);
    }
  }

  /** The call that ends the scan. */
  lemma DoneAccounts(syn: Syntax, o: seq<string>, start: nat, r: Ref, args: seq<string>)
    requires WF(o, r) && Accounts(syn, o, start, r, args) && Call(syn, Permute, o, r).1.Done?
    ensures var f := Call(syn, Permute, o, r).0; Assigned(syn, o[start..], f.opts, f.nons, args)
  {
    hide Call, Assigned, Open;
    var k := CallDone(syn, o, r);
    SkipAccounts(syn, o, start, r, args, k);
    if k == |o| {
      assert o[start..k] == o[start..];
    } else {
      DashesAssigned(syn, o[start..k], o[k + 1..], r.opts, r.nons + o[r.pos..k], args);
      SliceNext(o, start, k);
      Slices(o, start, k + 1, |o|);
      assert o[start..|o|] == o[start..] && o[k + 1..|o|] == o[k + 1..];
    }
  }

  lemma DashesAssigned(syn: Syntax, src: seq<string>, more: seq<string>, opts: seq<string>, nons: seq<string>,
                       args: seq<string>)
    requires Assigned(syn, src, opts, nons, args) && Open(syn, src)
    ensures Assigned(syn, (src + ["--"]) + more, opts + ["--"], nons + more, args)
  {
    hide Assigned, Open, Awaits, Roles, RoleOf, HasSeparateArgument;
    OpenNext(syn, src, "--");
    AssignNext(syn, src, opts, nons, args, "--", Dashes);
    AssignRest(syn, src + ["--"], opts + ["--"], nons, args, more);
  }

  /** An option element is left, with a separate argument or without. */
  lemma OptionAssigned(syn: Syntax, src: seq<string>, opts: seq<string>, nons: seq<string>, args: seq<string>,
                       e: string, arg: Option<string>)
    requires Assigned(syn, src, opts, nons, args) && Open(syn, src) && !NonOption(e) && e != "--"
    requires arg.Some? ==> HasSeparateArgument(syn, e)
    ensures arg.None? ==>
      && Assigned(syn, src + [e], opts + [e], nons, args)
      && (Open(syn, src + [e]) <==> !HasSeparateArgument(syn, e))
    ensures arg.Some? ==>
      && Assigned(syn, src + [e] + [arg.value], opts + [e] + [arg.value], nons, args + [arg.value])
      && Open(syn, src + [e] + [arg.value])
  {
    hide Assigned, Open, Awaits, Roles, RoleOf, HasSeparateArgument;
    OpenNext(syn, src, e);
    AssignNext(syn, src, opts, nons, args, e, OptionElement);
    if arg.Some? {
      ArgumentNext(syn, src + [e], arg.value);
      AssignNext(syn, src + [e], opts + [e], nons, args, arg.value, Argument);
    }
  }

  lemma ItemAccounts(syn: Syntax, o: seq<string>, start: nat, r: Ref, args: seq<string>)
    requires WF(o, r) && !HasOrderingPrefix(syn) && Accounts(syn, o, start, r, args)
    requires Call(syn, Permute, o, r).1.Item?
    ensures var (r', out) := Call(syn, Permute, o, r);
      Accounts(syn, o, start, r', args + SeparateArgument(out.d))
  {
    hide Call, Decode, Assigned, Open, TakesNext;
    var (r', out) := Call(syn, Permute, o, r);
    var k, n := CallDecodes(syn, o, r);
    SkipAccounts(syn, o, start, r, args, k);
    DecodeAccounts(syn, o, start, k, r.opts, r.nons + o[r.pos..k], args, n, out.d, r');
  }

  lemma DecodeAccounts(syn: Syntax, o: seq<string>, start: nat, k: nat, opts: seq<string>, nons: seq<string>,
                       args: seq<string>, n: string, d: Decoded, r': Ref)
    requires start <= k < |o| && Assigned(syn, o[start..k], opts, nons, args) && Open(syn, o[start..k])
    requires !NonOption(o[k]) && o[k] != "--" && n != "" && TakesNext(syn, o[k], n) == HasSeparateArgument(syn, o[k])
    requires d == Decode(syn, syn.optstring, o[k], n, NextElement(o, k))
    requires r' == Ref(k + d.taken, d.rest, false, opts + o[k..k + d.taken], nons) && r'.pos <= |o|
    ensures Accounts(syn, o, start, r', args + SeparateArgument(d))
  {
    hide Assigned, Open, Decode, TakesNext, HasSeparateArgument;
    TakesStep(syn, o[k], n, NextElement(o, k));
    if d.taken == 0 {
      assert opts + o[k..k] == opts && args + [] == args;
    } else if d.taken == 1 {
      OneTaken(syn, o, start, k, opts, nons, args);
      assert args + [] == args;
    } else {
      TwoTaken(syn, o, start, k, opts, nons, args);
    }
  }

  lemma OneTaken(syn: Syntax, o: seq<string>, start: nat, k: nat, opts: seq<string>, nons: seq<string>,
                 args: seq<string>)
    requires start <= k < |o| && Assigned(syn, o[start..k], opts, nons, args) && Open(syn, o[start..k])
    requires !NonOption(o[k]) && o[k] != "--" && (k + 1 < |o| ==> !HasSeparateArgument(syn, o[k]))
    ensures Assigned(syn, o[start..k + 1], opts + o[k..k + 1], nons, args)
    ensures k + 1 < |o| ==> Open(syn, o[start..k + 1])
  {
    hide Assigned, Open, HasSeparateArgument;
    OptionAssigned(syn, o[start..k], opts, nons, args, o[k], None);
    SliceNext(o, start, k);
    assert o[k..k + 1] == [o[k]];
  }

  lemma TwoTaken(syn: Syntax, o: seq<string>, start: nat, k: nat, opts: seq<string>, nons: seq<string>,
                 args: seq<string>)
    requires start <= k < |o| - 1 && Assigned(syn, o[start..k], opts, nons, args) && Open(syn, o[start..k])
    requires !NonOption(o[k]) && o[k] != "--" && HasSeparateArgument(syn, o[k])
    ensures Assigned(syn, o[start..k + 2], opts + o[k..k + 2], nons, args + [o[k + 1]])
    ensures Open(syn, o[start..k + 2])
  {
    hide Assigned, Open, HasSeparateArgument;
    OptionAssigned(syn, o[start..k], opts, nons, args, o[k], Some(o[k + 1]));
    SliceNext(o, start, k);
    SliceNext(o, start, k + 1);
    AppendTwo(opts, o, k);
  }

  lemma AppendTwo(opts: seq<string>, o: seq<string>, k: nat)
    requires k + 2 <= |o|
    ensures opts + o[k..k + 2] == opts + [o[k]] + [o[k + 1]]
  {
  }

  lemma {:induction false} RunAccounts(syn: Syntax, o: seq<string>, start: nat, r: Ref, args: seq<string>)
    requires WF(o, r) && !HasOrderingPrefix(syn) && Accounts(syn, o, start, r, args)
    ensures var s := Run(syn, Permute, o, r);
      Assigned(syn, o[start..], s.final.opts, s.final.nons, args + SeparateArguments(s.items))
    decreases |o| - r.pos, Unread(o, r)
  {
    CallProgress(syn, Permute, o, r);
    var (r', out) := Call(syn, Permute, o, r);
    if out.Done? {
      DoneAccounts(syn, o, start, r, args);
      assert args + [] == args;
    } else {
      ItemAccounts(syn, o, start, r, args);
      RunAccounts(syn, o, start, r', args + SeparateArgument(out.d));
      ArgumentsCons(args, out.d, Run(syn, Permute, o, r').items);
    }
  }

  lemma ArgumentsCons(args: seq<string>, d: Decoded, ds: seq<Decoded>)
    ensures args + SeparateArguments([d] + ds) == (args + SeparateArgument(d)) + SeparateArguments(ds)
  {
    assert ([d] + ds)[1..] == ds;
  }

  /** In PERMUTE mode a scan is a stable partition: every element of the vector
      has one role; the options (with their arguments and `--`) and the operands
      are the two complementary subsequences of it; and the arguments that were
      elements of their own are those that the scan reported. */
  lemma ScanIsStablePartition(syn: Syntax, posix: bool, o: seq<string>, start: nat)
    requires start <= |o| && InitialOrdering(syn, posix) == Permute
    ensures var s, roles := ScanFrom(syn, posix, o, start), Roles(syn, o[start..]);
      && s.final.opts == Pick(o[start..], roles, IsPassed)
      && s.final.nons == Pick(o[start..], roles, IsOperand)
      && SeparateArguments(s.items) == Pick(o[start..], roles, IsArgument)
  {
    assert o[start..start] == [];
    RunAccounts(syn, o, start, Start(start), []);
    var args := SeparateArguments(ScanFrom(syn, posix, o, start).items);
    assert [] + args == args;
  }

  // ---- The other two modes ----

  /** The last option passed is `--`. */
  predicate EndsWithDashes(opts: seq<string>) { opts != [] && opts[|opts| - 1] == "--" }

  lemma {:induction false} RunKeepsOrder(syn: Syntax, ord: Ordering, o: seq<string>, start: nat, r: Ref)
    requires WF(o, r) && ord != Permute && start <= r.pos && r.nons == [] && r.opts == o[start..r.pos]
    ensures var f := Run(syn, ord, o, r).final;
      && f.opts + f.nons == o[start..]
      && (f.nons != [] ==> EndsWithDashes(f.opts) || (ord == RequireOrder && NonOption(f.nons[0])))
    decreases |o| - r.pos, Unread(o, r)
  {
    hide Decode;
    CallProgress(syn, ord, o, r);
    var (r', out) := Call(syn, ord, o, r);
    if out.Item? {
      assert r'.opts == r.opts + o[r.pos..r'.pos] == o[start..r'.pos];
      RunKeepsOrder(syn, ord, o, start, r');
    } else {
      KeepsOrderWhenDone(ord, o, start, r, r');
    }
  }

  lemma KeepsOrderWhenDone(ord: Ordering, o: seq<string>, start: nat, r: Ref, f: Ref)
    requires start <= r.pos <= |o| && ord != Permute && r.nons == [] && r.opts == o[start..r.pos]
    requires Stop(ord, o, r) == Some(f)
    ensures f.opts + f.nons == o[start..]
    ensures f.nons != [] ==> EndsWithDashes(f.opts) || (ord == RequireOrder && NonOption(f.nons[0]))
  {
    assert o[start..] == o[start..r.pos] + o[r.pos..];
    if r.pos < |o| && o[r.pos] == "--" {
      assert o[r.pos..] == ["--"] + o[r.pos + 1..];
    }
  }

  /** In the other two modes argv stays as it is.  REQUIRE_ORDER stops at the
      first element that is no option, or behind a `--`; RETURN_IN_ORDER reports
      every element up to a `--`. */
  lemma OtherModesMoveNothing(syn: Syntax, posix: bool, o: seq<string>, start: nat)
    requires start <= |o| && InitialOrdering(syn, posix) != Permute
    ensures var f := ScanFrom(syn, posix, o, start).final;
      && o[..start] + f.opts + f.nons == o
      && (f.nons != [] ==>
            EndsWithDashes(f.opts) || (InitialOrdering(syn, posix) == RequireOrder && NonOption(f.nons[0])))
  {
    hide Run;
    RunKeepsOrder(syn, InitialOrdering(syn, posix), o, start, Start(start));
    var f := ScanFrom(syn, posix, o, start).final;
    assert o[..start] + (f.opts + f.nons) == o;
  }

  // ---- A permuted vector is a normal form ----

  /** `next` matters only to a call that takes it, or that misses it. */
  lemma DecodeLocal(syn: Syntax, shorts: string, e: string, n: string, next1: Option<string>, next2: Option<string>)
    requires n != ""
    requires var d := Decode(syn, shorts, e, n, next1); (d.taken == 2 || d.missing) ==> next1 == next2
    ensures Decode(syn, shorts, e, n, next2) == Decode(syn, shorts, e, n, next1)
  {
  }

  /** A call that misses its argument takes the next element when there is one. */
  lemma DecodeMissing(syn: Syntax, shorts: string, e: string, n: string, a: string)
    requires n != "" && Decode(syn, shorts, e, n, None).missing
    ensures Decode(syn, shorts, e, n, Some(a)).arg == Some(a)
  {
  }

  /** From `r` to `f` the lists only grow, and an element that was entered is
      the next option. */
  ghost predicate Extends(o: seq<string>, r: Ref, f: Ref) {
    && r.opts <= f.opts && r.nons <= f.nons
    && (r.rest != "" ==>
        && r.pos < |o|
        && ((|r.opts| < |f.opts| && f.opts[|r.opts|] == o[r.pos])
            || (f.opts == r.opts && f.rest != "" && f.pos == r.pos)))
  }

  lemma CallExtends(syn: Syntax, ord: Ordering, o: seq<string>, r: Ref)
    requires WF(o, r)
    ensures Extends(o, r, Call(syn, ord, o, r).0)
  {
    if r.rest != "" {
      var d := Decode(syn, ShortOptions(syn, r.initial), o[r.pos], r.rest, NextElement(o, r.pos));
      assert d.taken > 0 ==> o[r.pos..r.pos + d.taken][0] == o[r.pos];
      assert o[r.pos..r.pos] == [];
    }
  }

  lemma ExtendsTransitive(o: seq<string>, r: Ref, m: Ref, f: Ref)
    requires Extends(o, r, m) && Extends(o, m, f)
    ensures Extends(o, r, f)
  {
  }

  lemma {:induction false} RunExtends(syn: Syntax, ord: Ordering, o: seq<string>, r: Ref)
    requires WF(o, r)
    ensures Extends(o, r, Run(syn, ord, o, r).final)
    ensures var f := Run(syn, ord, o, r).final; f.pos == |o| && f.rest == "" && !f.initial
    decreases |o| - r.pos, Unread(o, r)
  {
    CallProgress(syn, ord, o, r);
    CallExtends(syn, ord, o, r);
    var (r', out) := Call(syn, ord, o, r);
    if out.Item? {
      RunExtends(syn, ord, o, r');
      ExtendsTransitive(o, r, r', Run(syn, ord, o, r').final);
    }
  }

  /** The state of the rescan that corresponds to `r`. */
  function Twin(start: nat, r: Ref): (s: Ref) {
    Ref(start + |r.opts|, r.rest, r.initial, r.opts, [])
  }

  function Rearranged(o: seq<string>, start: nat, f: Ref): (r: seq<string>)
    requires start <= |o|
  {
    o[..start] + f.opts + f.nons
  }

  /** A call that decoded `n` at element `k` and reported `d`. */
  ghost predicate DecodedAt(o: seq<string>, r: Ref, k: nat, n: string, d: Decoded, r': Ref) {
    && r.pos <= k < |o| && n != "" && k + d.taken <= |o| && d.taken <= 2
    && (d.taken == 0 ==> d.rest != "")
    && r' == Ref(k + d.taken, d.rest, false, r.opts + o[k..k + d.taken], r.nons + o[r.pos..k])
  }

  lemma CallDecodes(syn: Syntax, o: seq<string>, r: Ref) returns (k: nat, n: string)
    requires WF(o, r) && !HasOrderingPrefix(syn)
    requires Call(syn, Permute, o, r).1.Item?
    ensures var (r', out) := Call(syn, Permute, o, r);
            && DecodedAt(o, r, k, n, out.d, r')
            && !NonOption(o[k]) && n != "" && out.d == Decode(syn, syn.optstring, o[k], n, NextElement(o, k))
            && (if r.rest != "" then n == r.rest && |n| < |o[k]| else o[k] != "--" && n == Unpunctuated(syn, o[k]))
            && (out.d.missing ==> k + 1 == |o| && out.d.taken == 1)
    ensures forall j :: r.pos <= j < k ==> NonOption(o[j])
    ensures r.rest != "" ==> k == r.pos
  {
    hide Decode, Unpunctuated;
    SkipsNonOptions(o, r.pos);
    k := if r.rest != "" then r.pos else SkipNonOptions(o, r.pos);
    n := if r.rest != "" then r.rest else Unpunctuated(syn, o[k]);
  }

  /** The decoded element and what was taken after it, found again in the
      rearranged vector. */
  lemma TwinElements(o: seq<string>, start: nat, r: Ref, k: nat, n: string, d: Decoded, r': Ref, f: Ref)
    requires start <= r.pos && DecodedAt(o, r, k, n, d, r') && Extends(o, r', f) && f.rest == ""
    ensures var p := Rearranged(o, start, f);
            var q := start + |r.opts|;
            && q + d.taken <= |p| && q < |p|
            && p[q] == o[k] && p[q..q + d.taken] == o[k..k + d.taken]
            && (d.taken == 2 ==> NextElement(p, q) == NextElement(o, k))
            && (f.nons == [] && f.opts == r'.opts && d.taken == 1 ==> NextElement(p, q).None?)
            && (f.nons != [] && f.opts == r'.opts && d.taken == 1 ==> NextElement(p, q) == Some(f.nons[0]))
  {
    hide Rearranged, NextElement;
    var p, q := Rearranged(o, start, f), start + |r.opts|;
    TwinSlice(o, start, r.opts, o[k..k + d.taken], f);
    if d.taken == 0 {
      TwinAt(o, start, f, |r.opts|);
    } else {
      SameSlices(p, q, o, k, d.taken);
      if d.taken == 1 && f.opts == r'.opts {
        AfterTheOptions(o, start, f);
      }
    }
  }

  lemma TwinAt(o: seq<string>, start: nat, f: Ref, i: nat)
    requires start <= |o| && i < |f.opts|
    ensures start + i < |Rearranged(o, start, f)| && Rearranged(o, start, f)[start + i] == f.opts[i]
  {
  }

  /** The last option is followed by the first non-option. */
  lemma AfterTheOptions(o: seq<string>, start: nat, f: Ref)
    requires start <= |o| && f.opts != []
    ensures NextElement(Rearranged(o, start, f), start + |f.opts| - 1) == if f.nons == [] then None else Some(f.nons[0])
  {
  }

  /** What follows the first options in the rearranged vector. */
  lemma TwinSlice(o: seq<string>, start: nat, opts: seq<string>, taken: seq<string>, f: Ref)
    requires start <= |o| && opts + taken <= f.opts
    ensures var p, q := Rearranged(o, start, f), start + |opts|;
      q + |taken| <= |p| && p[q..q + |taken|] == taken
  {
    var front, rest := o[..start] + opts, f.opts[|opts + taken|..] + f.nons;
    TakeDrop(f.opts, |opts + taken|);
    assert Rearranged(o, start, f) == front + taken + rest;
    MiddleSlice(front, taken, rest);
  }

  lemma MiddleSlice(x: seq<string>, y: seq<string>, z: seq<string>)
    ensures (x + y + z)[|x|..|x| + |y|] == y
  {
  }

  lemma SameSlices(p: seq<string>, q: nat, o: seq<string>, k: nat, n: nat)
    requires q + n <= |p| && k + n <= |o| && p[q..q + n] == o[k..k + n]
    ensures n > 0 ==> p[q] == o[k]
    ensures n == 2 ==> NextElement(p, q) == NextElement(o, k)
  {
    if n > 0 {
      assert p[q] == p[q..q + n][0] == o[k..k + n][0];
    }
    if n == 2 {
      assert p[q + 1] == p[q..q + n][1] == o[k..k + n][1];
    }
  }

  /** A call in REQUIRE_ORDER mode that stands before, or inside, an option. */
  lemma RequireOrderCall(syn: Syntax, p: seq<string>, r: Ref, n: string)
    requires WF(p, r) && r.pos < |p| && !NonOption(p[r.pos])
    requires if r.rest != "" then n == r.rest else p[r.pos] != "--" && n == Unpunctuated(syn, p[r.pos])
    requires n != ""
    ensures Call(syn, RequireOrder, p, r) == DecodeAt(syn, p, r, n)
  {
  }

  /** A decoding depends on the element and on what it takes, not on where they stand. */
  lemma DecodeAtTwin(syn: Syntax, p: seq<string>, o: seq<string>, t: Ref, k: nat, n: string, d: Decoded)
    requires t.pos < |p| && k < |o| && n != "" && p[t.pos] == o[k] && !HasOrderingPrefix(syn)
    requires d == Decode(syn, syn.optstring, o[k], n, NextElement(o, k))
    requires d.taken == 2 || d.missing ==> NextElement(p, t.pos) == NextElement(o, k)
    ensures DecodeAt(syn, p, t, n)
         == (Ref(t.pos + d.taken, d.rest, false, t.opts + p[t.pos..t.pos + d.taken], t.nons), Item(d))
  {
    DecodeLocal(syn, syn.optstring, o[k], n, NextElement(o, k), NextElement(p, t.pos));
  }

  /** The two vectors agree on what a call does, unless the rearranged one
      offers the argument that was missing. */
  lemma TwinDecode(syn: Syntax, o: seq<string>, start: nat, r: Ref, k: nat, n: string, d: Decoded, r': Ref, f: Ref)
    requires start <= r.pos && !HasOrderingPrefix(syn)
    requires DecodedAt(o, r, k, n, d, r') && Extends(o, r', f) && f.rest == ""
    requires d == Decode(syn, syn.optstring, o[k], n, NextElement(o, k))
    requires d.missing ==> k + 1 == |o| && d.taken == 1 && f.opts == r'.opts
    ensures var p, t := Rearranged(o, start, f), Twin(start, r);
            && t.pos < |p| && p[t.pos] == o[k]
            && var (t', out') := DecodeAt(syn, p, t, n);
            if d.missing && f.nons != [] then out'.d.arg != d.arg
            else t' == Twin(start, r') && out' == Item(d)
  {
    TwinElements(o, start, r, k, n, d, r', f);
    var p, t := Rearranged(o, start, f), Twin(start, r);
    if d.missing && f.nons != [] {
      DecodeMissing(syn, syn.optstring, o[k], n, f.nons[0]);
    } else {
      DecodeAtTwin(syn, p, o, t, k, n, d);
    }
  }

  lemma ExhaustedRun(syn: Syntax, o: seq<string>, r: Ref)
    requires WF(o, r) && r.pos == |o|
    ensures Run(syn, Permute, o, r) == Scan([], Ref(|o|, "", false, r.opts, r.nons))
  {
    assert r.nons + o[r.pos..] == r.nons;
  }

  lemma TwinCall(syn: Syntax, o: seq<string>, start: nat, r: Ref)
    requires WF(o, r) && start <= r.pos && !HasOrderingPrefix(syn)
    requires Call(syn, Permute, o, r).1.Item?
    ensures var (r', out) := Call(syn, Permute, o, r);
            var f := Run(syn, Permute, o, r).final;
            var p := Rearranged(o, start, f);
            && WF(p, Twin(start, r))
            && var (t', out') := Call(syn, RequireOrder, p, Twin(start, r));
            if out.d.missing && f.nons != [] then out'.Item? && out'.d.arg != out.d.arg
            else t' == Twin(start, r') && out' == out
  {
    hide Call, Decode;
    var (r', out) := Call(syn, Permute, o, r);
    var f := Run(syn, Permute, o, r).final;
    var k, n := CallDecodes(syn, o, r);
    assert f == Run(syn, Permute, o, r').final && r'.pos == k + out.d.taken;
    RunExtends(syn, Permute, o, r');
    if out.d.missing {
      ExhaustedRun(syn, o, r');
    }
    TwinDecode(syn, o, start, r, k, n, out.d, r', f);
    RequireOrderCall(syn, Rearranged(o, start, f), Twin(start, r), n);
  }

  ghost predicate AllNonOptions(xs: seq<string>) { forall x :: x in xs ==> NonOption(x) }

  lemma CallNonOptions(syn: Syntax, o: seq<string>, r: Ref)
    requires WF(o, r) && AllNonOptions(r.nons) && Call(syn, Permute, o, r).1.Item?
    ensures AllNonOptions(Call(syn, Permute, o, r).0.nons)
  {
    SkipsNonOptions(o, r.pos);
    var skipped := o[r.pos..SkipNonOptions(o, r.pos)];
    forall x | x in skipped ensures NonOption(x) {}
    assert AllNonOptions(r.nons + skipped);
    assert Call(syn, Permute, o, r).0.nons == if r.rest == "" then r.nons + skipped else r.nons;
  }

  /** A scan stops at the end of the vector or behind a `--`. */
  lemma CallDone(syn: Syntax, o: seq<string>, r: Ref) returns (k: nat)
    requires WF(o, r) && Call(syn, Permute, o, r).1.Done?
    ensures r.rest == "" && r.pos <= k <= |o| && forall j :: r.pos <= j < k ==> NonOption(o[j])
    ensures k < |o| ==> o[k] == "--"
    ensures Call(syn, Permute, o, r).0 ==
            if k == |o| then Ref(|o|, "", false, r.opts, r.nons + o[r.pos..k])
            else Ref(|o|, "", false, r.opts + ["--"], r.nons + o[r.pos..k] + o[k + 1..])
  {
    SkipsNonOptions(o, r.pos);
    k := SkipNonOptions(o, r.pos);
  }

  lemma RequireOrderStops(syn: Syntax, p: seq<string>, r: Ref)
    requires WF(p, r) && r.rest == "" && r.nons == []
    ensures r.pos == |p| || NonOption(p[r.pos]) ==>
              Call(syn, RequireOrder, p, r) == (Ref(|p|, "", false, r.opts, p[r.pos..]), Done)
    ensures r.pos < |p| && p[r.pos] == "--" ==>
              Call(syn, RequireOrder, p, r) == (Ref(|p|, "", false, r.opts + ["--"], p[r.pos + 1..]), Done)
  {
    assert r.nons + p[r.pos..] == p[r.pos..];
    if r.pos < |p| {
      assert r.nons + p[r.pos..r.pos] + p[r.pos + 1..] == p[r.pos + 1..];
    }
  }

  /** Where the first scan stops, the rescan stops too. */
  lemma TwinDone(syn: Syntax, o: seq<string>, start: nat, r: Ref)
    requires WF(o, r) && start <= r.pos && AllNonOptions(r.nons)
    requires Call(syn, Permute, o, r).1.Done?
    ensures var f := Call(syn, Permute, o, r).0;
            var p := Rearranged(o, start, f);
            && WF(p, Twin(start, r)) && f.rest == "" && !f.initial
            && Call(syn, RequireOrder, p, Twin(start, r)) == (Ref(|p|, "", false, f.opts, f.nons), Done)
  {
    var k := CallDone(syn, o, r);
    TwinStops(syn, o, start, r, k, Call(syn, Permute, o, r).0);
  }

  lemma TwinStops(syn: Syntax, o: seq<string>, start: nat, r: Ref, k: nat, f: Ref)
    requires r.rest == "" && start <= r.pos <= k <= |o| && AllNonOptions(r.nons)
    requires forall j :: r.pos <= j < k ==> NonOption(o[j])
    requires f == if k == |o| then Ref(|o|, "", false, r.opts, r.nons + o[r.pos..k])
                  else Ref(|o|, "", false, r.opts + ["--"], r.nons + o[r.pos..k] + o[k + 1..])
    ensures var p := Rearranged(o, start, f);
            && WF(p, Twin(start, r))
            && Call(syn, RequireOrder, p, Twin(start, r)) == (Ref(|p|, "", false, f.opts, f.nons), Done)
  {
    var p, q := Rearranged(o, start, f), start + |r.opts|;
    if k == |o| {
      assert p[q..] == f.nons;
      assert q < |p| ==> p[q] == f.nons[0];
    } else {
      assert p[q] == "--" && p[q + 1..] == f.nons;
    }
    RequireOrderStops(syn, p, Twin(start, r));
  }

  /** The argument vector did not end before an option got its argument, or
      there is nothing else for a rescan to mistake for it. */
  ghost predicate Complete(s: Scan) {
    (forall d :: d in s.items ==> !d.missing) || s.final.nons == []
  }

  /** One more item in front of a scan and of its rescan. */
  lemma RescanStep(d: Decoded, d': Decoded, s: Scan, s': Scan, again: Scan, again': Scan, end: Ref)
    requires s == Scan([d] + s'.items, s'.final)
    requires again == Scan([d'] + again'.items, again'.final)
    requires if d.missing && s.final.nons != [] then d'.arg != d.arg
             else
               && d' == d
               && if Complete(s') then again' == Scan(s'.items, end) else Codes(again'.items) != Codes(s'.items)
    ensures if Complete(s) then again == Scan(s.items, end) else Codes(again.items) != Codes(s.items)
  {
    assert forall x :: x in s'.items ==> x in s.items;
    assert d in s.items && d == s.items[0];
    assert Codes(s.items)[0] == (d.code, d.arg) && Codes(again.items)[0] == (d'.code, d'.arg);
    assert Codes(s.items)[1..] == Codes(s'.items) && Codes(again.items)[1..] == Codes(again'.items);
  }

  lemma RunDone(syn: Syntax, ord: Ordering, o: seq<string>, r: Ref, f: Ref)
    requires WF(o, r) && Call(syn, ord, o, r) == (f, Done)
    ensures Run(syn, ord, o, r) == Scan([], f)
  {
  }

  lemma {:induction false} RunRescan(syn: Syntax, o: seq<string>, start: nat, r: Ref)
    requires WF(o, r) && start <= r.pos && !HasOrderingPrefix(syn) && AllNonOptions(r.nons)
    ensures var s := Run(syn, Permute, o, r);
            var p := Rearranged(o, start, s.final);
            && WF(p, Twin(start, r))
            && var again := Run(syn, RequireOrder, p, Twin(start, r));
            if Complete(s) then again == Scan(s.items, s.final.(pos := |p|))
            else Codes(again.items) != Codes(s.items)
    decreases |o| - r.pos, Unread(o, r)
  {
    hide Call;
    CallProgress(syn, Permute, o, r);
    var (r', out) := Call(syn, Permute, o, r);
    if out.Done? {
      TwinDone(syn, o, start, r);
      RunDone(syn, Permute, o, r, r');
      RunDone(syn, RequireOrder, Rearranged(o, start, r'), Twin(start, r), r'.(pos := |Rearranged(o, start, r')|));
    } else {
      TwinCall(syn, o, start, r);
      CallNonOptions(syn, o, r);
      RunRescan(syn, o, start, r');
      var s, s' := Run(syn, Permute, o, r), Run(syn, Permute, o, r');
      assert s == Scan([out.d] + s'.items, s'.final);
      var p := Rearranged(o, start, s.final);
      CallProgress(syn, RequireOrder, p, Twin(start, r));
      var (t', out') := Call(syn, RequireOrder, p, Twin(start, r));
      var again, again' := Run(syn, RequireOrder, p, Twin(start, r)), Run(syn, RequireOrder, p, t');
      assert again == Scan([out'.d] + again'.items, again'.final);
      RescanStep(out.d, out'.d, s, s', again, again', s.final.(pos := |p|));
    }
  }

  lemma RunOfOne(syn: Syntax, ord: Ordering, o: seq<string>, r: Ref, d: Decoded, m: Ref, f: Ref)
    requires WF(o, r) && WF(o, m) && Call(syn, ord, o, r) == (m, Item(d)) && Call(syn, ord, o, m) == (f, Done)
    ensures Run(syn, ord, o, r) == Scan([d], f) && Codes([d]) == [(d.code, d.arg)]
  {
    assert Run(syn, ord, o, m) == Scan([], f);
    assert [d] + [] == [d];
  }

  lemma LackingOption(syn: Syntax)
    requires syn == Syntax("o:", None, false)
    ensures Decode(syn, "o:", "-o", "o", None) == Missing("o:", 'o' as int)
    ensures Decode(syn, "o:", "-o", "o", Some("x")) == Plain('o' as int, Some("x"), "", 2)
    ensures !HasOrderingPrefix(syn) && Unpunctuated(syn, "-o") == "o"
  {
    assert IndexFrom("o:", 'o', 0) == Some(0);
    assert "-o"[1..] == "o";
  }

  /** The scan of `p x -o`, where -o wants an argument, reports its lack. */
  lemma LackIsReported(syn: Syntax, o: seq<string>)
    requires syn == Syntax("o:", None, false) && o == ["p", "x", "-o"]
    ensures ScanFrom(syn, false, o, 1) == Scan([Missing("o:", 'o' as int)], Ref(3, "", false, ["-o"], ["x"]))
  {
    var d := Missing("o:", 'o' as int);
    var met, r := Ref(2, "", true, [], ["x"]), Ref(3, "", false, ["-o"], ["x"]);
    LackingOption(syn);
    assert "-o"[1] != "--"[1] && !NonOption("-o") && NonOption("x") && SkipNonOptions(o, 1) == 2;
    assert o[1..2] == ["x"] && o[2..3] == ["-o"] && ["x"] + o[3..3] == ["x"];
    assert [] + ["x"] == ["x"] && [] + ["-o"] == ["-o"];
    assert Skip(Permute, o, Start(1)) == met && Meet(syn, Permute, o, met) == (r, Item(d));
    RunOfOne(syn, Permute, o, Start(1), d, r, r);
  }

  /** The scan of `p -o x` finds an argument. */
  lemma ArgumentIsFound(syn: Syntax, p: seq<string>)
    requires syn == Syntax("o:", None, false) && p == ["p", "-o", "x"]
    ensures ScanFrom(syn, true, p, 1).items == [Plain('o' as int, Some("x"), "", 2)]
  {
    var d := Plain('o' as int, Some("x"), "", 2);
    var r := Ref(3, "", false, ["-o", "x"], []);
    LackingOption(syn);
    assert "-o"[1] != "--"[1] && !NonOption("-o");
    assert p[1..3] == ["-o", "x"] && [] + ["-o", "x"] == ["-o", "x"];
    assert Meet(syn, RequireOrder, p, Start(1)) == (r, Item(d));
    RunOfOne(syn, RequireOrder, p, Start(1), d, r, r);
  }

  /** A permuted vector need not be a normal form: after `p x -o`, where -o wants
      an argument, the rescan of `p -o x` finds one. */
  lemma MissingArgumentIsFound(syn: Syntax, o: seq<string>, p: seq<string>)
    requires syn == Syntax("o:", None, false) && o == ["p", "x", "-o"] && p == ["p", "-o", "x"]
    ensures var s := ScanFrom(syn, false, o, 1);
      && !Complete(s) && Rearranged(o, 1, s.final) == p
      && Codes(s.items) == [('?' as int, None)]
      && Codes(ScanFrom(syn, true, p, 1).items) == [('o' as int, Some("x"))]
  {
    var d := Missing("o:", 'o' as int);
    LackIsReported(syn, o);
    ArgumentIsFound(syn, p);
    assert d in [d] && [d][1..] == [] && [Plain('o' as int, Some("x"), "", 2)][1..] == [];
    assert o[..1] + ["-o"] + ["x"] == p;
  }

  /** A permuted vector is a normal form: scanned again with POSIXLY_CORRECT set
      it reports the same items, ends with the same options and non-options, and
      so stops at the same index.  This holds exactly when no option was left
      without its argument in front of non-options. */
  lemma PermutedIsNormalForm(syn: Syntax, o: seq<string>, start: nat)
    requires start <= |o| && InitialOrdering(syn, false) == Permute
    ensures var s := ScanFrom(syn, false, o, start);
            var p := Rearranged(o, start, s.final);
            var again := ScanFrom(syn, true, p, start);
            && (Complete(s) ==> again == Scan(s.items, s.final.(pos := |p|)))
            && (!Complete(s) ==> Codes(again.items) != Codes(s.items))
  {
    var s := ScanFrom(syn, false, o, start);
    RunRescan(syn, o, start, Start(start));
  }
}
