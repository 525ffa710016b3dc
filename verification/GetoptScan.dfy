/** A caller's loop around getopt, and what the argument vector is like when it
    is over. */
module GetoptScan {
  import opened Prelude
  import opened GetoptSpec
  import opened Getopt
  import opened GetoptTheory

  /** No long option returns the number that means the end of the scan. */
  predicate Distinguishable(syn: Syntax) {
    syn.longopts.Some? ==> forall i :: 0 <= i < |syn.longopts.value| ==> syn.longopts.value[i].val != -1
  }

  lemma DecodeCode(syn: Syntax, shorts: string, e: string, n: string, next: Option<string>)
    requires Distinguishable(syn) && n != ""
    ensures Decode(syn, shorts, e, n, next).code != -1
  {
  }

  lemma CallCode(syn: Syntax, ord: Ordering, o: seq<string>, r: Ref)
    requires Distinguishable(syn) && WF(o, r)
    ensures var out := Call(syn, ord, o, r).1; out.Item? ==> out.d.code != -1
  {
    var m := Skip(ord, o, r);
    if r.rest != "" {
      DecodeCode(syn, ShortOptions(syn, r.initial), o[r.pos], r.rest, NextElement(o, r.pos));
    } else if Stop(ord, o, m).None? && !NonOption(o[m.pos]) {
      DecodeCode(syn, ShortOptions(syn, r.initial), o[m.pos], Unpunctuated(syn, o[m.pos]), NextElement(o, m.pos));
    }
  }

  lemma {:induction false} CodesAppend(ds: seq<Decoded>, d: Decoded)
    ensures Codes(ds + [d]) == Codes(ds) + [(d.code, d.arg)]
  {
    if ds != [] {
      assert (ds + [d])[1..] == ds[1..] + [d];
      CodesAppend(ds[1..], d);
    }
  }

  /** Calls getopt until it returns -1. */
  method ScanAll(g: Scanner, syn: Syntax, posix: bool) returns (events: seq<(int, Option<string>)>)
    requires g.Ready() && !g.initialized && Supported(syn) && Distinguishable(syn)
    modifies g, g.argv
    ensures var o, i, f := old(g.argv[..]), old(g.start), ScanFrom(syn, posix, old(g.argv[..]), old(g.start)).final;
      && events == Codes(ScanFrom(syn, posix, o, i).items)
      && g.argv[..] == o[..i] + f.opts + f.nons
      && g.optind == |o[..i] + f.opts|
  {
    ghost var o, start, ord := g.original, g.start, InitialOrdering(syn, posix);
    ghost var whole := ScanFrom(syn, posix, o, start);
    ghost var items: seq<Decoded> := [];
    events := [];
    var done := false;
    while !done
      invariant g.original == o && g.start == start && WF(o, g.ref)
      invariant !done ==> g.Ready() && (g.initialized ==> g.ordering == ord)
      invariant !done ==> whole == Scan(items + Run(syn, ord, o, g.ref).items, Run(syn, ord, o, g.ref).final)
      invariant done ==> whole == Scan(items, g.ref) && g.Viewed() && Finished(g.view, o, start, g.ref, g.optind)
      invariant events == Codes(items)
      decreases !done, |o| - g.ref.pos, Unread(o, g.ref)
    {
      ghost var r := g.ref;
      CallProgress(syn, ord, o, r);
      CallCode(syn, ord, o, r);
      RunUnfolds(syn, ord, o, r, items);
      var code := g.Next(syn, posix);
      if code == -1 {
        done := true;
      } else {
        CodesAppend(items, g.outcome.d);
        events := events + [(code, g.optarg)];
        items := items + [g.outcome.d];
      }
    }
    FinishedMeaning(g.view, o, start, g.ref, g.optind);
  }

  lemma RunUnfolds(syn: Syntax, ord: Ordering, o: seq<string>, r: Ref, before: seq<Decoded>)
    requires WF(o, r)
    ensures var (r', out) := Call(syn, ord, o, r);
      && WF(o, r')
      && var s, s' := Run(syn, ord, o, r), Run(syn, ord, o, r');
      match out
      case Done => s.final == r' && before + s.items == before
      case Item(d) => s.final == s'.final && before + s.items == (before + [d]) + s'.items
  {
    CallProgress(syn, ord, o, r);
    hide Call, WF;
    var (r', out) := Call(syn, ord, o, r);
    if out.Item? {
      Regroup(before, out.d, Run(syn, ord, o, r').items);
    } else {
      assert before + [] == before;
    }
  }

  lemma Regroup(before: seq<Decoded>, d: Decoded, after: seq<Decoded>)
    ensures before + ([d] + after) == (before + [d]) + after
  {
  }

  /** In PERMUTE mode argv ends up as a stable partition of what it was: from
      `start` to optind its option elements, their separate arguments and `--`,
      and from optind on its operands, each in their original order.  The
      arguments reported include the separate ones, in that order. */
  method Permutes(g: Scanner, syn: Syntax) returns (events: seq<(int, Option<string>)>)
    requires g.Ready() && !g.initialized && Supported(syn) && Distinguishable(syn)
    requires InitialOrdering(syn, false) == Permute
    modifies g, g.argv
    ensures var o, i := old(g.argv[..]), old(g.start);
      && i <= g.optind <= |o| && g.argv[..i] == o[..i]
      && var roles := Roles(syn, o[i..]);
      && g.argv[i..g.optind] == Pick(o[i..], roles, IsPassed)
      && g.argv[g.optind..] == Pick(o[i..], roles, IsOperand)
      && var items := ScanFrom(syn, false, o, i).items;
      && events == Codes(items)
      && SeparateArguments(items) == Pick(o[i..], roles, IsArgument)
  {
    ghost var o, i := g.argv[..], g.start;
    ghost var f := ScanFrom(syn, false, o, i).final;
    ScanIsStablePartition(syn, false, o, i);
    events := ScanAll(g, syn, false);
    ghost var a := g.argv[..];
    assert a[..i] == o[..i];
    assert a[i..g.optind] == f.opts;
    assert a[g.optind..] == f.nons;
    assert g.argv[i..g.optind] == a[i..g.optind] && g.argv[g.optind..] == a[g.optind..];
  }
}
