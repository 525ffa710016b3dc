/** The scanner itself: static variables that live from one call to the next,
    and an argument vector that is permuted in place. */
module Getopt {
  import opened Prelude
  import opened GetoptSpec
  import opened Rotation

  /** The vector in the middle of a scan: the options before the block of
      skipped non-options, which starts at `first`, that block, the options
      found since, and the elements not yet reached. */
  ghost function Layout(o: seq<string>, start: nat, opts: seq<string>, nons: seq<string>, first: int): (r: seq<string>)
    requires start <= first <= start + |opts| && start + |opts| + |nons| <= |o|
    ensures |r| == |o|
  {
    seq(|o|, i requires 0 <= i < |o| =>
      if start <= i < first then opts[i - start]
      else if first <= i < first + |nons| then nons[i - first]
      else if first + |nons| <= i < start + |opts| + |nons| then opts[i - start - |nons|]
      else o[i])
  }

  /** Vector `a` holds what was passed so far, with the skipped non-options at
      `[first, last)`. */
  ghost predicate Arranged(a: seq<string>, o: seq<string>, start: nat, r: Ref, first: int, last: int) {
    && start <= first <= last <= r.pos <= |o|
    && last - first == |r.nons| && (first - start) + (r.pos - last) == |r.opts|
    && a == Layout(o, start, r.opts, r.nons, first)
  }

  /** The final layout: the options, then the non-options. */
  ghost predicate Finished(a: seq<string>, o: seq<string>, start: nat, f: Ref, optind: int) {
    && start <= |o| && start + |f.opts| + |f.nons| == |o|
    && a == Layout(o, start, f.opts, f.nons, start + |f.opts|)
    && optind == start + |f.opts|
  }

  lemma FinishedMeaning(a: seq<string>, o: seq<string>, start: nat, f: Ref, optind: int)
    requires Finished(a, o, start, f, optind)
    ensures a == o[..start] + f.opts + f.nons && optind == |o[..start] + f.opts|
  {
  }

  lemma SliceIs(a: seq<string>, i: nat, s: seq<string>)
    requires i + |s| <= |a| && forall j :: i <= j < i + |s| ==> a[j] == s[j - i]
    ensures a[i..i + |s|] == s
  {
  }

  // The layout seen from the vector.

  lemma ArrangedOutside(a: seq<string>, o: seq<string>, start: nat, r: Ref, first: nat, last: nat)
    requires Arranged(a, o, start, r, first, last)
    ensures |a| == |o| && a[..start] == o[..start] && a[r.pos..] == o[r.pos..]
  {
    SliceIs(a, 0, o[..start]);
    SliceIs(a, r.pos, o[r.pos..]);
  }

  lemma ArrangedSkipped(a: seq<string>, o: seq<string>, start: nat, r: Ref, first: nat, last: nat)
    requires Arranged(a, o, start, r, first, last)
    ensures a[first..last] == r.nons
  {
    SliceIs(a, first, r.nons);
  }

  lemma ArrangedInFront(a: seq<string>, o: seq<string>, start: nat, r: Ref, first: nat, last: nat)
    requires Arranged(a, o, start, r, first, last)
    ensures a[start..first] == r.opts[..first - start]
  {
    SliceIs(a, start, r.opts[..first - start]);
  }

  lemma ArrangedBehind(a: seq<string>, o: seq<string>, start: nat, r: Ref, first: nat, last: nat)
    requires Arranged(a, o, start, r, first, last)
    ensures a[last..r.pos] == r.opts[first - start..]
  {
    SliceIs(a, last, r.opts[first - start..]);
  }

  lemma ArrangedExchange(a: seq<string>, o: seq<string>, start: nat, r: Ref, first: nat, last: nat, top: nat)
    requires Arranged(a, o, start, r, first, last) && top == r.pos
    ensures Arranged(Rotated(a, first, last, top), o, start, r, first + (top - last), top)
  {
  }

  /** There is nothing to exchange. */
  lemma ArrangedInPlace(a: seq<string>, o: seq<string>, start: nat, r: Ref, first: nat, last: nat)
    requires Arranged(a, o, start, r, first, last) && (first == last || last == r.pos)
    ensures Arranged(a, o, start, r, if last == r.pos then first else r.pos, r.pos)
  {
    RotateNothing(a, first, last, r.pos);
    ArrangedExchange(a, o, start, r, first, last, r.pos);
  }

  lemma ArrangedSkip(a: seq<string>, o: seq<string>, start: nat, r: Ref, first: nat, k: nat)
    requires Arranged(a, o, start, r, first, r.pos) && r.pos <= k <= |o|
    ensures Arranged(a, o, start, r.(pos := k, nons := r.nons + o[r.pos..k]), first, k)
  {
  }

  lemma ArrangedTake(a: seq<string>, o: seq<string>, start: nat, r: Ref, first: nat, last: nat, k: nat)
    requires Arranged(a, o, start, r, first, last) && r.pos <= k <= |o|
    ensures Arranged(a, o, start, r.(pos := k, opts := r.opts + o[r.pos..k]), first, last)
  {
  }

  lemma ArrangedPassed(a: seq<string>, o: seq<string>, start: nat, r: Ref, first: nat, last: nat)
    requires Arranged(a, o, start, r, first, last) && r.pos < |o|
    ensures Arranged(a, o, start, PassedOn(o, r).0, first, last)
  {
  }

  lemma ArrangedFinish(a: seq<string>, o: seq<string>, start: nat, r: Ref, first: nat)
    requires Arranged(a, o, start, r, first, r.pos)
    ensures Finished(a, o, start, r.(pos := |o|, nons := r.nons + o[r.pos..]), first)
  {
  }

  /** Nothing was skipped, so nothing needs to move. */
  lemma ArrangedDoneInPlace(a: seq<string>, o: seq<string>, start: nat, r: Ref, first: nat, last: nat)
    requires Arranged(a, o, start, r, first, last) && (r.nons == [] || last == r.pos)
    ensures Finished(a, o, start, r.(pos := |o|, nons := r.nons + o[r.pos..]),
                     if first == last then r.pos else first)
  {
    ArrangedInPlace(a, o, start, r, first, last);
    ArrangedFinish(a, o, start, r, if last == r.pos then first else r.pos);
  }

  /** The three ways of Stop, told apart as the code does. */
  lemma StopCases(ord: Ordering, o: seq<string>, m: Ref)
    requires m.pos <= |o|
    ensures if m.pos == |o| || o[m.pos] == "--" then Stop(ord, o, m).Some? && Stop(ord, o, m) == Stop(Permute, o, m)
            else if NonOption(o[m.pos]) && ord == RequireOrder then
              Stop(ord, o, m) == Some(Ref(|o|, "", false, m.opts, m.nons + o[m.pos..]))
            else Stop(ord, o, m) == None
  {
  }

  lemma ArrangedStop(a: seq<string>, o: seq<string>, start: nat, r: Ref, first: nat, last: nat)
    requires Arranged(a, o, start, r, first, last) && r.nons == []
    ensures Finished(a, o, start, Ref(|o|, "", false, r.opts, r.nons + o[r.pos..]), r.pos)
  {
    ArrangedDoneInPlace(a, o, start, r, first, last);
  }

  /** The C function my_index. */
  method MyIndex(s: string, c: char) returns (r: Option<nat>)
    ensures r == IndexOf(s, c)
  {
    var i := 0;
    while i < |s|
      invariant 0 <= i <= |s|
      invariant IndexOf(s, c) == IndexFrom(s, c, i)
    {
      if s[i] == c {
        return Some(i);
      }
      i := i + 1;
    }
    return None;
  }

  /** The test of all long options for an exact or an abbreviated match. */
  method FindLong(lo: seq<LongOption>, name: string) returns (r: Lookup)
    ensures r == LookupLong(lo, name)
    ensures r.Found? ==> r.index < |lo|
  {
    var found: Option<nat>, ambig := None, false;
    var i := 0;
    while i < |lo|
      invariant 0 <= i <= |lo|
      invariant FirstExact(lo, name, 0) == FirstExact(lo, name, i)
      invariant found.None? ==> FirstPrefix(lo, name, 0) == FirstPrefix(lo, name, i)
      invariant found.Some? ==> found.value < i && FirstPrefix(lo, name, 0) == found
      invariant found.Some? && !ambig ==> FirstPrefix(lo, name, found.value + 1) == FirstPrefix(lo, name, i)
      invariant ambig ==> found.Some? && FirstPrefix(lo, name, found.value + 1).Some?
    {
      if name <= lo[i].name {
        if |name| == |lo[i].name| {
          return Found(i);
        } else if found.None? {
          found := Some(i);
        } else {
          ambig := true;
        }
      }
      i := i + 1;
    }
    if ambig {
      return Ambiguous;
    }
    return match found case Some(p) => Found(p) case None => Unknown;
  }

  /** The end of the option name: the first `=`, or the end of the string. */
  method NameEnd(n: string) returns (name: string)
    ensures name == NameOf(n)
  {
    var i := 0;
    while i < |n| && n[i] != '='
      invariant 0 <= i <= |n|
      invariant NameLength(n, i) == NameLength(n, 0)
    {
      i := i + 1;
    }
    return n[..i];
  }

  datatype Advanced = Ended | Operand | Element

  class Scanner {
    const argv: array<string>
    var optind: int
    var firstNonopt: int
    var lastNonopt: int
    var nextchar: string            // "" also stands for NULL
    var ordering: Ordering
    var initialized: bool
    var optarg: Option<string>      // None for NULL
    var optopt: int
    var longind: int
    var flags: map<nat, int>        // the flag variables written so far, by option index

    ghost var view: seq<string>     // the contents of argv
    ghost var original: seq<string> // the vector before any exchange
    ghost var start: nat            // the first index scanned
    ghost var ref: Ref              // where a scan of `original` stands
    ghost var outcome: Outcome      // what the last call came to

    ghost predicate Viewed()
      reads `view, argv
    {
      view == argv[..]
    }

    /** In the middle of a scan. */
    ghost predicate Scanning()
      reads argv, `view, `original, `start, `ref, `optind, `nextchar, `firstNonopt, `lastNonopt
      reads `initialized, `ordering
    {
      && Viewed() && initialized && 1 <= start
      && WF(original, ref) && optind == ref.pos && nextchar == ref.rest
      && Arranged(view, original, start, ref, firstNonopt, lastNonopt)
      && (ordering != Permute ==> ref.nons == [])
    }

    /** Between two calls. */
    ghost predicate Ready()
      reads argv, `view, `original, `start, `ref, `optind, `nextchar, `firstNonopt, `lastNonopt
      reads `initialized, `ordering
    {
      if initialized then Scanning() && !ref.initial
      else
        && 0 <= optind && start == (if optind == 0 then 1 else optind)
        && start <= argv.Length && Viewed() && original == view && ref == Start(start)
    }

    /** The bounds that hold between calls, and what lies between them: options
        passed, the non-options skipped, options passed since, and the suffix not
        yet scanned. */
    lemma Bounds()
      requires Ready() && initialized
      ensures 1 <= start <= firstNonopt <= lastNonopt <= optind <= argv.Length
      ensures argv[..start] == original[..start] && argv[optind..] == original[optind..]
      ensures argv[firstNonopt..lastNonopt] == ref.nons
      ensures argv[start..firstNonopt] + argv[lastNonopt..optind] == ref.opts
    {
      hide Layout;
      ArrangedOutside(view, original, start, ref, firstNonopt, lastNonopt);
      ArrangedSkipped(view, original, start, ref, firstNonopt, lastNonopt);
      ArrangedInFront(view, original, start, ref, firstNonopt, lastNonopt);
      ArrangedBehind(view, original, start, ref, firstNonopt, lastNonopt);
      TakeDrop(ref.opts, firstNonopt - start);
    }

    constructor (argv: array<string>, optind: nat)
      requires 1 <= argv.Length && optind <= argv.Length
      ensures Ready() && !initialized
      ensures this.argv == argv && original == argv[..]
      ensures start == if optind == 0 then 1 else optind
    {
      this.argv, this.optind := argv, optind;
      firstNonopt, lastNonopt, nextchar, ordering := 0, 0, "", Permute;
      initialized, optarg, optopt, longind, flags := false, None, '?' as int, 0, map[];
      view, original, start := argv[..], argv[..], if optind == 0 then 1 else optind;
      ref, outcome := Start(if optind == 0 then 1 else optind), Done;
    }

    /** Exchanges the skipped non-options `[firstNonopt, lastNonopt)` with the
        options `[lastNonopt, optind)` found since. */
    method Exchange() returns (ghost swaps: nat)
      requires Viewed() && 0 <= firstNonopt <= lastNonopt <= optind <= argv.Length
      modifies argv, this`firstNonopt, this`lastNonopt, this`view
      ensures Viewed() && view == Rotated(old(view), old(firstNonopt), old(lastNonopt), optind)
      ensures firstNonopt == old(firstNonopt) + (optind - old(lastNonopt)) && lastNonopt == optind
      ensures swaps == Cost(old(lastNonopt - firstNonopt), optind - old(lastNonopt))
    {
      swaps := Rotate(argv, firstNonopt, lastNonopt, optind);
      firstNonopt := firstNonopt + (optind - lastNonopt);
      lastNonopt := optind;
      view := argv[..];
    }

    method Initialize(syn: Syntax, posix: bool) returns (shorts: string)
      modifies this`firstNonopt, this`lastNonopt, this`nextchar, this`ordering
      ensures firstNonopt == lastNonopt == optind && nextchar == ""
      ensures ordering == InitialOrdering(syn, posix) && shorts == ShortOptions(syn, true)
    {
      firstNonopt, lastNonopt := optind, optind;
      nextchar := "";
      shorts := syn.optstring;
      if At(shorts, 0) == '-' {
        ordering := ReturnInOrder;
        shorts := shorts[1..];
      } else if At(shorts, 0) == '+' {
        ordering := RequireOrder;
        shorts := shorts[1..];
      } else if posix {
        ordering := RequireOrder;
      } else {
        ordering := Permute;
      }
    }

    /** Brings the skipped non-options behind the options found since.  (The
        source spells the condition of the second assignment in two ways that
        amount to the same.) */
    method ExchangeIfNeeded()
      requires Viewed() && optind == ref.pos
      requires Arranged(view, original, start, ref, firstNonopt, lastNonopt)
      modifies argv, this`firstNonopt, this`lastNonopt, this`view
      ensures Viewed() && Arranged(view, original, start, ref, firstNonopt, optind)
    {
      hide Layout, Rotated, Cost;
      if firstNonopt != lastNonopt && lastNonopt != optind {
        ghost var v, f, l := view, firstNonopt, lastNonopt;
        ghost var swaps := Exchange();
        ArrangedExchange(v, original, start, ref, f, l, optind);
      } else {
        ArrangedInPlace(view, original, start, ref, firstNonopt, lastNonopt);
        if lastNonopt != optind {
          firstNonopt := optind;
        }
      }
    }

    /** The loop over non-options. */
    method PassNonOptions()
      requires 0 <= optind <= argv.Length == |original| && argv[optind..] == original[optind..]
      modifies this`optind
      ensures optind == SkipNonOptions(original, old(optind))
    {
      ghost var k := SkipNonOptions(original, optind);
      ghost var from := optind;
      while optind < argv.Length && NonOption(argv[optind])
        invariant from <= optind <= k && SkipNonOptions(original, optind) == k
        decreases argv.Length - optind
      {
        assert argv[from..][optind - from] == original[from..][optind - from];
        optind := optind + 1;
      }
      assert optind < argv.Length ==> argv[from..][optind - from] == original[from..][optind - from];
    }

    /** Skips additional non-options and extends the block by them. */
    method SkipMore()
      requires Viewed() && ref.rest == "" && optind == ref.pos
      requires Arranged(view, original, start, ref, firstNonopt, optind)
      modifies this`lastNonopt, this`optind, this`ref
      ensures Arranged(view, original, start, ref, firstNonopt, lastNonopt)
      ensures ref == Skip(Permute, original, old(ref))
      ensures lastNonopt == optind == ref.pos
    {
      ghost var k := SkipNonOptions(original, ref.pos);
      assert Skip(Permute, original, ref) == ref.(pos := k, nons := ref.nons + original[ref.pos..k]);
      hide Arranged, Skip, NonOption;
      ArrangedSkip(view, original, start, ref, firstNonopt, k);
      PassNonOptions();
      lastNonopt := optind;
      ref := Skip(Permute, original, ref);
    }

    /** The special element `--`: skipped like an option and exchanged with the
        non-options before it; everything after it is a non-option. */
    method EndAtDashes()
      requires Viewed() && ref.pos < |original| && original[ref.pos] == "--" && optind == ref.pos
      requires Arranged(view, original, start, ref, firstNonopt, lastNonopt)
      modifies argv, this`firstNonopt, this`lastNonopt, this`optind, this`view, this`ref
      ensures Viewed() && lastNonopt == optind == argv.Length
      ensures Some(ref) == Stop(Permute, original, old(ref)) && Finished(view, original, start, ref, firstNonopt)
    {
      hide Layout;
      ghost var o, r := original, ref;
      ArrangedPassed(view, o, start, r, firstNonopt, lastNonopt);
      optind := optind + 1;
      ref := PassedOn(o, r).0;
      ExchangeIfNeeded();
      ghost var v, m, f := view, ref, firstNonopt;
      ArrangedFinish(v, o, start, m, f);
      lastNonopt := argv.Length;
      optind := argv.Length;
      ref := Ref(|o|, "", false, m.opts, m.nons + o[m.pos..]);
    }

    /** Stops at `--` and at the end of the vector, and backs over the
        non-options that were skipped. */
    method EndOfScan() returns (ended: bool)
      requires Viewed() && optind == ref.pos
      requires Arranged(view, original, start, ref, firstNonopt, lastNonopt)
      requires ref.nons == [] || lastNonopt == optind
      modifies argv, this`firstNonopt, this`lastNonopt, this`optind, this`view, this`ref
      ensures Viewed() && (ended <==> old(ref).pos == |original| || original[old(ref).pos] == "--")
      ensures ended ==> Some(ref) == Stop(Permute, original, old(ref)) && Finished(view, original, start, ref, optind)
      ensures !ended ==> unchanged(this) && ref.pos < argv.Length && argv[optind] == original[ref.pos]
    {
      if optind != argv.Length && argv[optind] == "--" {
        EndAtDashes();
      } else if optind == argv.Length {
        ArrangedDoneInPlace(view, original, start, ref, firstNonopt, lastNonopt);
        assert ref.nons + original[ref.pos..] == ref.nons;
        ref := Ref(ref.pos, "", false, ref.opts, ref.nons);
      }
      if optind == argv.Length {
        if firstNonopt != lastNonopt {
          optind := firstNonopt;
        }
        return true;
      }
      return false;
    }

    /** Describes a non-option to the caller or stops there, and skips the
        punctuation of an option. */
    method Enter(syn: Syntax) returns (a: Advanced)
      requires 0 <= optind < argv.Length && argv[optind] != "--"
      modifies this`optind, this`nextchar, this`optarg
      ensures var e := argv[old(optind)];
        if NonOption(e) && ordering == RequireOrder then
          a == Ended && optind == old(optind) && optarg == old(optarg) && nextchar == old(nextchar)
        else if NonOption(e) then
          a == Operand && optind == old(optind) + 1 && optarg == Some(e) && nextchar == old(nextchar)
        else
          a == Element && optind == old(optind) && optarg == old(optarg) && nextchar == Unpunctuated(syn, e)
    {
      if NonOption(argv[optind]) {
        if ordering == RequireOrder {
          return Ended;
        }
        optarg := Some(argv[optind]);
        optind := optind + 1;
        return Operand;
      }
      nextchar := if syn.longopts.Some? && argv[optind][1] == '-' then argv[optind][2..] else argv[optind][1..];
      return Element;
    }

    /** Makes the block rational again if the caller has moved optind back. */
    method Clamp()
      modifies this`firstNonopt, this`lastNonopt
      ensures firstNonopt == Min(old(firstNonopt), optind) && lastNonopt == Min(old(lastNonopt), optind)
    {
      if lastNonopt > optind {
        lastNonopt := optind;
      }
      if firstNonopt > optind {
        firstNonopt := optind;
      }
    }

    /** The exchange and the skip of PERMUTE mode. */
    method Prepare()
      requires Scanning() && nextchar == ""
      modifies argv, this`firstNonopt, this`lastNonopt, this`optind, this`ref, this`view
      ensures Viewed() && ref == Skip(ordering, original, old(ref)) && optind == ref.pos
      ensures Arranged(view, original, start, ref, firstNonopt, lastNonopt)
      ensures if ordering == Permute then lastNonopt == optind else ref.nons == []
    {
      hide Layout;
      Clamp();
      if ordering == Permute {
        ExchangeIfNeeded();
        SkipMore();
      }
    }

    /** Deals with the element that the scan has come to. */
    method Advance(syn: Syntax) returns (a: Advanced)
      requires Viewed() && optind == ref.pos
      requires Arranged(view, original, start, ref, firstNonopt, lastNonopt)
      requires if ordering == Permute then lastNonopt == optind else ref.nons == []
      modifies argv, this`firstNonopt, this`lastNonopt, this`optind, this`nextchar, this`optarg, this`view, this`ref
      ensures Viewed()
      ensures var m, o := old(ref), original;
        match Stop(ordering, o, m)
        case Some(f) => a == Ended && optarg == old(optarg) && ref == f && Finished(view, o, start, f, optind)
        case None =>
          && ref == m && m.pos < |o| && o[m.pos] != "--" && Arranged(view, o, start, m, firstNonopt, lastNonopt)
          && if NonOption(o[m.pos])
             then a == Operand && optarg == Some(o[m.pos]) && nextchar == old(nextchar) && optind == m.pos + 1
             else a == Element && optarg == old(optarg) && nextchar == Unpunctuated(syn, o[m.pos]) && optind == m.pos
    {
      assert ref.pos <= |original| && 0 <= firstNonopt && 0 <= lastNonopt;
      hide Stop, Arranged, Unpunctuated, Finished;
      StopCases(ordering, original, ref);
      var ended := EndOfScan();
      if ended {
        return Ended;
      }
      if ordering == RequireOrder {
        ArrangedStop(view, original, start, ref, firstNonopt, lastNonopt);
      }
      a := Enter(syn);
      if a == Ended {
        ref := Ref(|original|, "", false, ref.opts, ref.nons + original[ref.pos..]);
      }
    }

    /** The element after the current one. */
    function Following(): (r: Option<string>)
      reads `optind, argv
      requires 0 <= optind < argv.Length
    {
      if optind + 1 < argv.Length then Some(argv[optind + 1]) else None
    }

    /** The variables a call reports through have been set as `d` says. */
    twostate predicate Reports(d: Decoded)
      reads this
    {
      && optarg == d.arg
      && optopt == (if d.optopt.Some? then d.optopt.value else old(optopt))
      && longind == (if d.longind.Some? then d.longind.value else old(longind))
      && flags == (if d.longind.Some? && d.stored.Some? then old(flags)[d.longind.value := d.stored.value]
                   else old(flags))
    }

    /** The long option `p`, the `i`th of the table, was found by `name`. */
    method LongFound(p: LongOption, i: nat, name: string, shorts: string) returns (code: int)
      requires 0 <= optind < argv.Length && nextchar != "" && optarg == None && name == NameOf(nextchar)
      modifies this`optind, this`nextchar, this`optarg, this`optopt, this`longind, this`flags
      ensures var d := DecodeFound(p, i, shorts, old(nextchar), old(Following()));
        code == d.code && optind == old(optind) + d.taken && nextchar == d.rest && Reports(d)
    {
      hide NameOf;
      optind := optind + 1;
      if |name| < |nextchar| {
        if p.hasArg != 0 {
          optarg := Some(nextchar[|name| + 1..]);
        } else {
          nextchar := "";
          optopt := p.val;
          return '?' as int;
        }
      } else if p.hasArg == 1 {
        if optind < argv.Length {
          optarg := Some(argv[optind]);
          optind := optind + 1;
        } else {
          nextchar := "";
          optopt := p.val;
          return if At(shorts, 0) == ':' then ':' as int else '?' as int;
        }
      }
      nextchar := "";
      longind := i;
      if p.hasFlag {
        flags := flags[i := p.val];
        return 0;
      }
      return p.val;
    }

    /** Reads the current element as a long option; None if it is none. */
    method LongOptionAt(syn: Syntax, shorts: string) returns (code: Option<int>)
      requires 0 <= optind < argv.Length && nextchar != "" && optarg == None && syn.longopts.Some?
      modifies this`optind, this`nextchar, this`optarg, this`optopt, this`longind, this`flags
      ensures match DecodeLong(syn.longopts.value, syn.longOnly, shorts, argv[old(optind)], old(nextchar),
                               old(Following()))
        case Some(d) =>
          code == Some(d.code) && optind == old(optind) + d.taken && nextchar == d.rest && Reports(d)
        case None => code == None && unchanged(this)
    {
      hide LookupLong, NameOf, DecodeFound;
      var lo := syn.longopts.value;
      var name := NameEnd(nextchar);
      var found := FindLong(lo, name);
      match found
      case Ambiguous =>
        nextchar := "";
        optind := optind + 1;
        optopt := 0;
        return Some('?' as int);
      case Found(i) =>
        var c := LongFound(lo[i], i, name, shorts);
        return Some(c);
      case Unknown =>
        var short := MyIndex(shorts, nextchar[0]);
        if !syn.longOnly || At(argv[optind], 1) == '-' || short.None? {
          nextchar := "";
          optind := optind + 1;
          optopt := 0;
          return Some('?' as int);
        }
        return None;
    }

    /** Reads the next short option character. */
    method ShortOptionAt(shorts: string) returns (code: int)
      requires 0 <= optind < argv.Length && nextchar != "" && optarg == None
      modifies this`optind, this`nextchar, this`optarg, this`optopt
      ensures var d := DecodeShort(shorts, old(nextchar), old(Following()));
              code == d.code && optind == old(optind) + d.taken && nextchar == d.rest && Reports(d)
    {
      var c := nextchar[0];
      nextchar := nextchar[1..];
      var temp := MyIndex(shorts, c);
      if nextchar == "" {
        optind := optind + 1;
      }
      if temp.None? || c == ':' {
        optopt := c as int;
        return '?' as int;
      }
      code := c as int;
      if At(shorts, temp.value + 1) == ':' {
        if At(shorts, temp.value + 2) == ':' {
          if nextchar != "" {
            optarg := Some(nextchar);
            optind := optind + 1;
          } else {
            optarg := None;
          }
          nextchar := "";
        } else {
          if nextchar != "" {
            optarg := Some(nextchar);
            optind := optind + 1;
          } else if optind == argv.Length {
            optopt := c as int;
            code := if At(shorts, 0) == ':' then ':' as int else '?' as int;
          } else {
            optarg := Some(argv[optind]);
            optind := optind + 1;
          }
          nextchar := "";
        }
      }
    }

    /** Decodes at the current element `e`, which `next` follows. */
    method DecodeElement(syn: Syntax, shorts: string, ghost e: string, ghost next: Option<string>) returns (code: int)
      requires 0 <= optind < argv.Length && nextchar != "" && optarg == None
      requires e == argv[optind] && next == Following()
      modifies this`optind, this`nextchar, this`optarg, this`optopt, this`longind, this`flags
      ensures var d := Decode(syn, shorts, e, old(nextchar), next);
              code == d.code && optind == old(optind) + d.taken && nextchar == d.rest && Reports(d)
    {
      hide DecodeShort, DecodeLong;
      var known := MyIndex(shorts, At(argv[optind], 1));
      if syn.longopts.Some?
         && (At(argv[optind], 1) == '-' || (syn.longOnly && (At(argv[optind], 2) != '\0' || known.None?))) {
        var long := LongOptionAt(syn, shorts);
        if long.Some? {
          return long.value;
        }
      }
      code := ShortOptionAt(shorts);
    }

    /** Decodes at the current element and moves past what was taken. */
    method DecodeAndMove(syn: Syntax, shorts: string) returns (code: int)
      requires Scanning() && nextchar != "" && optarg == None && shorts == ShortOptions(syn, ref.initial)
      modifies this`optind, this`nextchar, this`optarg, this`optopt, this`longind, this`flags, this`ref, this`outcome
      ensures Scanning() && !ref.initial
      ensures (ref, outcome) == Call(syn, ordering, original, old(ref))
      ensures outcome.Item? && code == outcome.d.code && Reports(outcome.d)
    {
      hide Decode;
      ghost var e, next := original[ref.pos], NextElement(original, ref.pos);
      ghost var d := Decode(syn, shorts, e, nextchar, next);
      ArrangedTake(view, original, start, ref, firstNonopt, lastNonopt, ref.pos + d.taken);
      ghost var r' := Ref(ref.pos + d.taken, d.rest, false, ref.opts + original[ref.pos..ref.pos + d.taken], ref.nons);
      assert DecodeAt(syn, original, ref, nextchar) == (r', Item(d));
      code := DecodeElement(syn, shorts, e, next);
      ref, outcome := r', Item(d);
    }

    /** Initialises on the first call. */
    method Begin(syn: Syntax, posix: bool) returns (shorts: string)
      requires Ready()
      modifies this`optind, this`firstNonopt, this`lastNonopt, this`nextchar
      modifies this`ordering, this`initialized, this`optarg
      ensures Scanning() && shorts == ShortOptions(syn, ref.initial) && optarg == None
      ensures unchanged(`optopt, `longind, `flags, `ref)
      ensures ordering == if old(initialized) then old(ordering) else InitialOrdering(syn, posix)
    {
      hide Layout;
      optarg := None;
      shorts := syn.optstring;
      if optind == 0 || !initialized {
        if optind == 0 {
          optind := 1;
        }
        shorts := Initialize(syn, posix);
        initialized := true;
        ArrangedStart(view, start);
      }
    }

    /** A non-option was handed to the caller. */
    ghost method PassOn()
      requires Viewed() && initialized && 1 <= start && (ordering != Permute ==> ref.nons == [])
      requires ref.pos < |original| && nextchar == "" && optind == ref.pos + 1
      requires Arranged(view, original, start, ref, firstNonopt, lastNonopt)
      modifies this`ref, this`outcome
      ensures (ref, outcome) == PassedOn(original, old(ref)) && Scanning()
    {
      hide Layout;
      ArrangedPassed(view, original, start, ref, firstNonopt, lastNonopt);
      outcome := PassedOn(original, ref).1;
      ref := PassedOn(original, ref).0;
    }

    /** The scan has come to an option element, and has not read any of it. */
    ghost method EnterElement()
      requires Viewed() && initialized && 1 <= start && (ordering != Permute ==> ref.nons == [])
      requires ref.pos < |original| && !NonOption(original[ref.pos]) && optind == ref.pos
      requires |nextchar| < |original[ref.pos]|
      requires Arranged(view, original, start, ref, firstNonopt, lastNonopt)
      modifies this`ref
      ensures ref == old(ref).(rest := nextchar) && Scanning()
    {
      hide Layout;
      ref := ref.(rest := nextchar);
    }

    /** Comes to the next element and deals with it, up to decoding an option:
        then a call that starts from there does the same. */
    method Reach(syn: Syntax) returns (code: Option<int>)
      requires Scanning() && nextchar == "" && optarg == None
      modifies argv, this`firstNonopt, this`lastNonopt, this`optind, this`nextchar, this`optarg, this`ref, this`view,
               this`outcome
      ensures Viewed() && unchanged(`optopt, `longind, `flags)
      ensures code.Some? ==> (ref, outcome) == Call(syn, ordering, original, old(ref))
      ensures code.Some? && outcome.Done? ==>
                code == Some(-1) && optarg == None && Finished(view, original, start, ref, optind)
      ensures code.Some? && outcome.Item? ==>
                Scanning() && !ref.initial && code == Some(1) && outcome.d == Plain(1, optarg, "", 1)
      ensures code.None? ==>
                && Scanning() && optarg == None && nextchar != "" && ref.initial == old(ref.initial)
                && Call(syn, ordering, original, ref) == Call(syn, ordering, original, old(ref))
    {
      hide Call, Meet, DecodeAt, Decode, Skip, Stop, NonOption, WF, Layout, Unpunctuated, Arranged, Finished;
      ghost var r := ref;
      Prepare();
      var a := Advance(syn);
      if a == Ended {
        outcome := Done;
        code := Some(-1);
      } else if a == Operand {
        PassOn();
        code := Some(1);
      } else {
        EnterElement();
        code := None;
      }
      CallReaches(syn, ordering, original, r);
    }

    /** The call proper, after the initialisation. */
    method Proceed(syn: Syntax, shorts: string) returns (code: int)
      requires Scanning() && optarg == None && shorts == ShortOptions(syn, ref.initial)
      modifies argv, this`firstNonopt, this`lastNonopt, this`optind, this`nextchar, this`view
      modifies this`optarg, this`optopt, this`longind, this`flags, this`ref, this`outcome
      ensures Viewed() && (ref, outcome) == Call(syn, ordering, original, old(ref))
      ensures outcome.Done? ==> code == -1 && optarg == None && Finished(view, original, start, ref, optind)
      ensures outcome.Item? ==> code == outcome.d.code && Scanning() && !ref.initial && Reports(outcome.d)
    {
      hide Layout, Call, WF;
      if nextchar == "" {
        var reached := Reach(syn);
        if reached.Some? {
          return reached.value;
        }
      }
      code := DecodeAndMove(syn, shorts);
    }

    /** One call of getopt.  It does what the pure call does on the original
        vector; when that is done, argv holds the options before the
        non-options and optind points between them. */
    method Next(syn: Syntax, posix: bool) returns (code: int)
      requires Ready() && Supported(syn)
      modifies this, argv
      ensures original == old(original) && start == old(start) && initialized
      ensures ordering == if old(initialized) then old(ordering) else InitialOrdering(syn, posix)
      ensures (ref, outcome) == Call(syn, ordering, original, old(ref))
      ensures Viewed() && match outcome
              case Done => code == -1 && optarg == None && Finished(view, original, start, ref, optind)
              case Item(d) => code == d.code && Ready() && Reports(d)
    {
      hide Layout, Call;
      var shorts := Begin(syn, posix);
      code := Proceed(syn, shorts);
    }
  }

  lemma ArrangedStart(o: seq<string>, start: nat)
    requires start <= |o|
    ensures Arranged(o, o, start, Start(start), start, start)
  {
  }

  /** What a call does at a fresh element. */
  lemma CallReaches(syn: Syntax, ord: Ordering, o: seq<string>, r: Ref)
    requires WF(o, r)
    ensures r.rest == "" ==>
      var m := Skip(ord, o, r);
      match Stop(ord, o, m)
      case Some(f) => Call(syn, ord, o, r) == (f, Done)
      case None =>
        && m.pos < |o|
        && if NonOption(o[m.pos]) then Call(syn, ord, o, r) == PassedOn(o, m)
           else
             var n := Unpunctuated(syn, o[m.pos]);
             n != "" && Call(syn, ord, o, r) == Call(syn, ord, o, m.(rest := n))
  {
  }
}
