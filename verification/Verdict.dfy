/** The verdict on a client: the weights of the lists that name it are added,
    and from 100 on the client is rejected.  Two forms: all lists at once (the
    worker) and list by list until the verdict is certain (process_request). */
module Verdict {
  import opened Prelude

  const LIMIT: int := 100

  /** One configured list. */
  datatype Rbl = Rbl(domain: string, weight: int)

  // ---- What the DNS says ----

  /** The answer to a lookup: no host, or a host with its address family and
      its addresses in text form. */
  datatype Answer = NoHost | Host(inet: bool, addrs: seq<string>)

  /** A client is listed if some address of the answer is in 127/8. */
  ghost predicate Listed(a: Answer) {
    a.Host? && a.inet && exists i :: 0 <= i < |a.addrs| && "127." <= a.addrs[i]
  }

  method IsListed(a: Answer) returns (listed: bool)
    ensures listed == Listed(a)
  {
    if a.NoHost? || !a.inet {
      return false;
    }
    var i := 0;
    while i < |a.addrs|
      invariant 0 <= i <= |a.addrs|
      invariant forall j :: 0 <= j < i ==> !("127." <= a.addrs[j])
    {
      if "127." <= a.addrs[i] {
        return true;
      }
      i := i + 1;
    }
    return false;
  }

  // ---- Scores and replies ----

  /** The total weight of the lists that name the client. */
  function Score(rbls: seq<Rbl>, hits: seq<bool>): (r: int)
    requires |rbls| == |hits|
  {
    if rbls == [] then 0
    else Score(rbls[..|rbls| - 1], hits[..|rbls| - 1]) + (if hits[|rbls| - 1] then rbls[|rbls| - 1].weight else 0)
  }

  /** Their domains, in configuration order. */
  function Blocking(rbls: seq<Rbl>, hits: seq<bool>): (r: seq<string>)
    requires |rbls| == |hits|
  {
    if rbls == [] then []
    else
      var before := Blocking(rbls[..|rbls| - 1], hits[..|rbls| - 1]);
      if hits[|rbls| - 1] then before + [rbls[|rbls| - 1].domain] else before
  }

  function Join(ds: seq<string>): (r: string) {
    if ds == [] then ""
    else if |ds| == 1 then ds[0]
    else Join(ds[..|ds| - 1]) + ", " + ds[|ds| - 1]
  }

  ghost predicate Positive(rbls: seq<Rbl>) { forall r :: r in rbls ==> r.weight > 0 }

  lemma NothingYet(rbls: seq<Rbl>, hits: seq<bool>)
    requires |rbls| == |hits|
    ensures Score(rbls[..0], hits[..0]) == 0 && Blocking(rbls[..0], hits[..0]) == []
  {
  }

  lemma ScoreStep(rbls: seq<Rbl>, hits: seq<bool>, i: nat)
    requires |rbls| == |hits| && i < |rbls|
    ensures Score(rbls[..i + 1], hits[..i + 1]) == Score(rbls[..i], hits[..i]) + (if hits[i] then rbls[i].weight else 0)
    ensures Blocking(rbls[..i + 1], hits[..i + 1])
         == (if hits[i] then Blocking(rbls[..i], hits[..i]) + [rbls[i].domain] else Blocking(rbls[..i], hits[..i]))
  {
    assert rbls[..i + 1][..i] == rbls[..i] && hits[..i + 1][..i] == hits[..i];
  }

  lemma {:induction false} ScoreMonotone(rbls: seq<Rbl>, hits: seq<bool>, i: nat, j: nat)
    requires |rbls| == |hits| && i <= j <= |rbls| && Positive(rbls)
    ensures 0 <= Score(rbls[..i], hits[..i]) <= Score(rbls[..j], hits[..j])
    ensures Blocking(rbls[..i], hits[..i]) <= Blocking(rbls[..j], hits[..j])
    decreases j
  {
    if j > 0 {
      ScoreStep(rbls, hits, j - 1);
      assert rbls[j - 1] in rbls;
      ScoreMonotone(rbls, hits, if i < j then i else j - 1, j - 1);
    }
  }

  /** A positive score comes from a list, so there is something to reply. */
  lemma {:induction false} PositiveScoreBlocks(rbls: seq<Rbl>, hits: seq<bool>)
    requires |rbls| == |hits| && Positive(rbls)
    ensures Score(rbls, hits) > 0 <==> Blocking(rbls, hits) != []
    ensures Score(rbls, hits) >= 0
  {
    if rbls != [] {
      var n := |rbls| - 1;
      assert rbls[n] in rbls;
      PositiveScoreBlocks(rbls[..n], hits[..n]);
    }
  }

  lemma {:induction false} JoinPrefix(ds: seq<string>, es: seq<string>)
    requires ds <= es
    ensures Join(ds) <= Join(es)
    decreases |es|
  {
    if |ds| < |es| {
      var n := |es| - 1;
      assert ds == es[..|ds|] == es[..n][..|ds|];
      JoinPrefix(ds, es[..n]);
      var j := Join(es[..n]);
      if |es| > 1 {
        assert Join(es) == j + (", " + es[n]);
        assert j <= Join(es) && Join(es)[..|Join(ds)|] == j[..|Join(ds)|];
      }
    } else {
      assert ds == es;
    }
  }

  // ---- What they are made of ----

  /** Positions in increasing order: those of the lists that name the client. */
  ghost predicate AreHits(idx: seq<nat>, hits: seq<bool>) {
    && (forall k :: 0 <= k < |idx| ==> idx[k] < |hits| && hits[idx[k]])
    && (forall j, k :: 0 <= j < k < |idx| ==> idx[j] < idx[k])
    && forall i: nat :: i < |hits| && hits[i] ==> i in idx
  }

  function WeightsAt(rbls: seq<Rbl>, idx: seq<nat>): (r: seq<int>)
    requires forall k :: 0 <= k < |idx| ==> idx[k] < |rbls|
  {
    seq(|idx|, k requires 0 <= k < |idx| => rbls[idx[k]].weight)
  }

  function DomainsAt(rbls: seq<Rbl>, idx: seq<nat>): (r: seq<string>)
    requires forall k :: 0 <= k < |idx| ==> idx[k] < |rbls|
  {
    seq(|idx|, k requires 0 <= k < |idx| => rbls[idx[k]].domain)
  }

  lemma HitsGrow(idx: seq<nat>, hits: seq<bool>)
    requires hits != [] && AreHits(idx, hits[..|hits| - 1])
    ensures AreHits(if hits[|hits| - 1] then idx + [|hits| - 1] else idx, hits)
  {
    var n := |hits| - 1;
    assert forall i :: 0 <= i < n ==> hits[..n][i] == hits[i];
    assert hits[n] ==> n in idx + [n];
  }

  lemma HitAppended(rbls: seq<Rbl>, idx: seq<nat>, n: nat)
    requires n < |rbls| && forall k :: 0 <= k < |idx| ==> idx[k] < n
    ensures WeightsAt(rbls[..n], idx) == WeightsAt(rbls, idx) && DomainsAt(rbls[..n], idx) == DomainsAt(rbls, idx)
    ensures WeightsAt(rbls, idx + [n]) == WeightsAt(rbls, idx) + [rbls[n].weight]
    ensures DomainsAt(rbls, idx + [n]) == DomainsAt(rbls, idx) + [rbls[n].domain]
  {
  }

  /** The lists at these positions are all that counts: their weights add up to
      the score, and their domains are named, in configuration order. */
  lemma {:induction false} VerdictIsOfHits(rbls: seq<Rbl>, hits: seq<bool>) returns (idx: seq<nat>)
    requires |rbls| == |hits|
    ensures AreHits(idx, hits)
    ensures Score(rbls, hits) == Sum(WeightsAt(rbls, idx))
    ensures Blocking(rbls, hits) == DomainsAt(rbls, idx)
  {
    if rbls == [] {
      idx := [];
    } else {
      var n := |rbls| - 1;
      idx := VerdictIsOfHits(rbls[..n], hits[..n]);
      HitsGrow(idx, hits);
      HitAppended(rbls, idx, n);
      hide WeightsAt, DomainsAt, AreHits;
      if hits[n] {
        SumConcat(WeightsAt(rbls, idx), [rbls[n].weight]);
        idx := idx + [n];
      }
    }
  }

  // ---- The text of a reply, taken apart ----

  /** Where the first ", " of `s` is, or its length. */
  function Cut(s: string): (k: nat)
    ensures k <= |s| && (k < |s| ==> k + 2 <= |s| && s[k..k + 2] == ", ")
  {
    if |s| < 2 then |s| else if s[0] == ',' && s[1] == ' ' then 0 else 1 + Cut(s[1..])
  }

  /** The pieces of `s` between the places where it reads ", ". */
  function Split(s: string): (parts: seq<string>) {
    var k := Cut(s);
    if k == |s| then [s] else [s[..k]] + Split(s[k + 2..])
  }

  lemma {:induction false} CutsBehindWord(d: string, t: string)
    requires ' ' !in d && (t == "" || ", " <= t)
    ensures Cut(d + t) == |d|
  {
    if d == "" {
      assert d + t == t;
    } else {
      assert (d + t)[1..] == d[1..] + t;
      assert |d| > 1 ==> d[1] in d;
      CutsBehindWord(d[1..], t);
    }
  }

  lemma {:induction false} JoinInFront(d: string, ds: seq<string>)
    requires ds != []
    ensures Join([d] + ds) == d + (", " + Join(ds))
  {
    var n := |ds| - 1;
    assert ([d] + ds)[..|ds|] == [d] + ds[..n];
    if n > 0 {
      JoinInFront(d, ds[..n]);
      assert (d + (", " + Join(ds[..n]))) + ", " + ds[n] == d + (", " + (Join(ds[..n]) + ", " + ds[n]));
    } else {
      assert [d] + ds[..n] == [d];
    }
  }

  lemma SplitsOff(d: string, t: string)
    requires ' ' !in d
    ensures Split(d) == [d] && Split(d + (", " + t)) == [d] + Split(t)
  {
    hide Cut;
    CutsBehindWord(d, "");
    assert d + "" == d;
    var s := d + (", " + t);
    CutsBehindWord(d, ", " + t);
    assert s[..|d|] == d && s[|d| + 2..] == t;
  }

  /** Words joined with ", " come apart again. */
  lemma {:induction false} SplitsAsJoined(ds: seq<string>)
    requires ds != [] && forall d :: d in ds ==> ' ' !in d
    ensures Split(Join(ds)) == ds
  {
    hide Split, Join;
    var d, rest := ds[0], ds[1..];
    assert d in ds && ds == [d] + rest;
    JoinOne(d);
    SplitsOff(d, Join(rest));
    if rest == [] {
      assert ds == [d];
    } else {
      SplitsAsJoined(rest);
      JoinInFront(d, rest);
    }
  }

  lemma JoinOne(d: string)
    ensures Join([d]) == d
  {
  }

  /** Domains that are words, as those of a loaded configuration are. */
  ghost predicate Words(rbls: seq<Rbl>) { forall r :: r in rbls ==> ' ' !in r.domain && '\0' !in r.domain }

  lemma {:induction false} BlockingWords(rbls: seq<Rbl>, hits: seq<bool>)
    requires |rbls| == |hits| && Words(rbls)
    ensures forall d :: d in Blocking(rbls, hits) ==> ' ' !in d && '\0' !in d
  {
    if rbls != [] {
      var n := |rbls| - 1;
      assert rbls[n] in rbls;
      BlockingWords(rbls[..n], hits[..n]);
    }
  }

  lemma BlockingSplits(rbls: seq<Rbl>, hits: seq<bool>)
    requires |rbls| == |hits|
    ensures Words(rbls) && Blocking(rbls, hits) != [] ==> Split(Join(Blocking(rbls, hits))) == Blocking(rbls, hits)
  {
    if Words(rbls) && Blocking(rbls, hits) != [] {
      BlockingWords(rbls, hits);
      SplitsAsJoined(Blocking(rbls, hits));
    }
  }

  // ---- The reply buffer ----

  /** The buffer `reply` of `replen` characters carries the joined domains and
      a NUL exactly; before the first one there is no buffer. */
  ghost predicate Carries(reply: array?<char>, replen: nat, ds: seq<string>)
    reads reply
  {
    if ds == [] then reply == null && replen == 0
    else
      && reply != null && reply.Length == replen == |Join(ds)| + 1
      && reply[..replen - 1] == Join(ds) && reply[replen - 1] == '\0'
  }

  /** realloc to `n` characters: the old contents and something behind them. */
  method Realloc(old_: array<char>, n: nat) returns (a: array<char>)
    requires old_.Length <= n
    ensures fresh(a) && a.Length == n && a[..old_.Length] == old_[..]
  {
    a := new char[n];
    var i := 0;
    while i < old_.Length
      invariant 0 <= i <= old_.Length
      invariant forall j :: 0 <= j < i ==> a[j] == old_[j]
    {
      a[i] := old_[i];
      i := i + 1;
    }
  }

  /** strcat of `s` to the string of length `len` in `a`. */
  method StrCat(a: array<char>, len: nat, s: string)
    requires len + |s| < a.Length
    modifies a
    ensures a[..len + |s|] == old(a[..len]) + s && a[len + |s|] == '\0'
  {
    var i := 0;
    while i < |s|
      invariant 0 <= i <= |s|
      invariant forall j :: 0 <= j < len ==> a[j] == old(a[j])
      invariant forall j :: 0 <= j < i ==> a[len + j] == s[j]
    {
      a[len + i] := s[i];
      i := i + 1;
    }
    a[len + |s|] := '\0';
  }

  lemma JoinBehind(ds: seq<string>, d: string)
    ensures Join(ds + [d]) == if ds == [] then d else Join(ds) + ", " + d
  {
    assert (ds + [d])[..|ds|] == ds;
  }

  /** Appends one domain.  The size that is asked for is the size that is needed. */
  method AppendDomain(reply: array?<char>, replen: nat, d: string, ghost ds: seq<string>)
    returns (reply': array<char>, replen': nat)
    requires Carries(reply, replen, ds)
    ensures fresh(reply') && Carries(reply', replen', ds + [d])
  {
    hide Join;
    JoinBehind(ds, d);
    if reply != null {
      replen' := replen + 2 + |d|;
      reply' := Realloc(reply, replen');
      assert reply'[..replen - 1] == reply'[..reply.Length][..replen - 1] == Join(ds);
      StrCat(reply', replen - 1, ", ");
      StrCat(reply', replen + 1, d);
    } else {
      replen' := |d| + 1;
      reply' := new char[replen'];
      reply'[0] := '\0';
      StrCat(reply', 0, d);
    }
  }

  // ---- The worker's collection ----

  /** The loop over all results in configuration order. */
  method Collect(rbls: seq<Rbl>, scores: seq<int>, ghost hits: seq<bool>)
    returns (score: int, reply: array?<char>, replen: nat)
    requires |rbls| == |scores| == |hits| && Positive(rbls)
    requires forall i :: 0 <= i < |rbls| ==> scores[i] == if hits[i] then rbls[i].weight else 0
    ensures score == Score(rbls, hits) && Carries(reply, replen, Blocking(rbls, hits))
    ensures score >= LIMIT ==> reply != null
    ensures Words(rbls) && reply != null ==> Split(reply[..replen - 1]) == Blocking(rbls, hits)
  {
    hide Score, Blocking, Join, Split, Words;
    score, reply, replen := 0, null, 0;
    var i := 0;
    NothingYet(rbls, hits);
    while i < |rbls|
      invariant 0 <= i <= |rbls|
      invariant score == Score(rbls[..i], hits[..i])
      invariant Carries(reply, replen, Blocking(rbls[..i], hits[..i]))
    {
      ScoreStep(rbls, hits, i);
      assert rbls[i] in rbls;
      if scores[i] != 0 {
        score := score + scores[i];
        reply, replen := AppendDomain(reply, replen, rbls[i].domain, Blocking(rbls[..i], hits[..i]));
      }
      i := i + 1;
    }
    assert rbls[..i] == rbls && hits[..i] == hits;
    PositiveScoreBlocks(rbls, hits);
    BlockingSplits(rbls, hits);
  }

  // ---- process_request ----

  /** How many lists are asked: up to the first total of at least the limit. */
  function Asked(rbls: seq<Rbl>, hits: seq<bool>, i: nat): (k: nat)
    requires |rbls| == |hits| && i <= |rbls|
    ensures i <= k <= |rbls|
    decreases |rbls| - i
  {
    if i == |rbls| || Score(rbls[..i], hits[..i]) >= LIMIT then i else Asked(rbls, hits, i + 1)
  }

  method ProcessRequest(rbls: seq<Rbl>, answers: seq<Answer>, ghost hits: seq<bool>)
    returns (score: int, reply: array?<char>, replen: nat, asked: nat)
    requires |rbls| == |answers| == |hits| && Positive(rbls)
    requires forall i :: 0 <= i < |rbls| ==> hits[i] == Listed(answers[i])
    ensures asked == Asked(rbls, hits, 0)
    ensures score == Score(rbls[..asked], hits[..asked])
    ensures Carries(reply, replen, Blocking(rbls[..asked], hits[..asked]))
    ensures score >= LIMIT ==> reply != null
    ensures Words(rbls) && reply != null ==>
              Split(reply[..replen - 1]) == Blocking(rbls[..asked], hits[..asked])
  {
    hide Score, Blocking, Join, Split, Words;
    score, reply, replen := 0, null, 0;
    var i := 0;
    NothingYet(rbls, hits);
    while i < |rbls| && score < LIMIT
      invariant 0 <= i <= |rbls|
      invariant score == Score(rbls[..i], hits[..i])
      invariant Carries(reply, replen, Blocking(rbls[..i], hits[..i]))
      invariant Asked(rbls, hits, 0) == Asked(rbls, hits, i)
      decreases |rbls| - i
    {
      ScoreStep(rbls, hits, i);
      var listed := IsListed(answers[i]);
      if listed {
        reply, replen := AppendDomain(reply, replen, rbls[i].domain, Blocking(rbls[..i], hits[..i]));
        score := score + rbls[i].weight;
      }
      i := i + 1;
      if score >= LIMIT {
        break;
      }
    }
    asked := i;
    PrefixKeeps(rbls, i);
    PositiveScoreBlocks(rbls[..i], hits[..i]);
    BlockingSplits(rbls[..i], hits[..i]);
  }

  lemma PrefixKeeps(rbls: seq<Rbl>, i: nat)
    requires i <= |rbls|
    ensures Positive(rbls) ==> Positive(rbls[..i])
    ensures Words(rbls) ==> Words(rbls[..i])
  {
    assert forall r :: r in rbls[..i] ==> r in rbls;
  }

  lemma {:induction false} AskedStops(rbls: seq<Rbl>, hits: seq<bool>, i: nat)
    requires |rbls| == |hits| && i <= |rbls|
    ensures var k := Asked(rbls, hits, i); k == |rbls| || Score(rbls[..k], hits[..k]) >= LIMIT
    ensures forall j :: i <= j < Asked(rbls, hits, i) ==> Score(rbls[..j], hits[..j]) < LIMIT
    decreases |rbls| - i
  {
    if i < |rbls| && Score(rbls[..i], hits[..i]) < LIMIT {
      AskedStops(rbls, hits, i + 1);
    }
  }

  /** Asking list by list and stopping early gives the verdict of asking all of
      them; and what it names as blocking, domains and text, is the beginning
      of what the worker names. */
  lemma EarlyVerdictIsVerdict(rbls: seq<Rbl>, hits: seq<bool>)
    requires |rbls| == |hits| && Positive(rbls)
    ensures var k := Asked(rbls, hits, 0);
      && (Score(rbls[..k], hits[..k]) >= LIMIT <==> Score(rbls, hits) >= LIMIT)
      && Blocking(rbls[..k], hits[..k]) <= Blocking(rbls, hits)
      && Join(Blocking(rbls[..k], hits[..k])) <= Join(Blocking(rbls, hits))
      && (Score(rbls, hits) < LIMIT ==> k == |rbls|)
  {
    var k := Asked(rbls, hits, 0);
    AskedStops(rbls, hits, 0);
    ScoreMonotone(rbls, hits, k, |rbls|);
    assert rbls[..|rbls|] == rbls && hits[..|rbls|] == hits;
    JoinPrefix(Blocking(rbls[..k], hits[..k]), Blocking(rbls, hits));
  }

  // ---- What the client is sent ----

  lemma {:induction false} NoNulInJoin(ds: seq<string>)
    requires forall d :: d in ds ==> '\0' !in d
    ensures '\0' !in Join(ds)
  {
    if |ds| > 1 {
      NoNulInJoin(ds[..|ds| - 1]);
      assert ds[|ds| - 1] in ds;
    } else if ds != [] {
      assert ds[0] in ds;
    }
  }

  /** The end of both forms: the answer that is written to the connection. */
  method Respond(err: bool, score: int, reply: array?<char>, ghost replen: nat, ghost ds: seq<string>)
    returns (sent: string)
    requires Carries(reply, replen, ds) && forall d :: d in ds ==> '\0' !in d
    requires score >= LIMIT ==> reply != null
    ensures sent == if !err && score >= 100 then "action=REJECT Blocked through " + Join(ds) + "\n\n"
                    else "action=DUNNO\n\n"
  {
    if !err && score >= LIMIT {
      NoNulInJoin(ds);
      assert reply[replen - 1] == '\0';
      var n := StrLen(reply);
      forall i | 0 <= i < replen - 1
        ensures reply[i] != '\0'
      {
        assert reply[..replen - 1][i] in Join(ds);
      }
      assert reply[..n] == Join(ds);
      sent := "action=REJECT Blocked through ";
      sent := sent + reply[..n];
      sent := sent + "\n\n";
    } else {
      sent := "action=DUNNO";
      sent := sent + "\n\n";
    }
  }

  /** A rejection that names `ds`, or nothing against the client. */
  ghost predicate Answers(sent: string, reject: bool, ds: seq<string>) {
    if reject then exists text :: sent == "action=REJECT Blocked through " + text + "\n\n" && Split(text) == ds
    else sent == "action=DUNNO\n\n"
  }

  /** The worker from its results on: the client is rejected if and only if the
      weights of the lists that name it add up to 100, and is told which. */
  method WorkerAnswer(err: bool, rbls: seq<Rbl>, scores: seq<int>, ghost hits: seq<bool>) returns (sent: string)
    requires |rbls| == |scores| == |hits| && Positive(rbls) && Words(rbls)
    requires forall i :: 0 <= i < |rbls| ==> scores[i] == if hits[i] then rbls[i].weight else 0
    ensures Answers(sent, !err && Score(rbls, hits) >= 100, Blocking(rbls, hits))
  {
    if err {
      sent := Respond(err, 0, null, 0, []);
    } else {
      var score, reply, replen := Collect(rbls, scores, hits);
      BlockingWords(rbls, hits);
      BlockingSplits(rbls, hits);
      sent := Respond(err, score, reply, replen, Blocking(rbls, hits));
    }
  }

  /** process_request from the client address on: the same verdict. */
  method RequestAnswer(err: bool, rbls: seq<Rbl>, answers: seq<Answer>, ghost hits: seq<bool>)
    returns (sent: string)
    requires |rbls| == |answers| == |hits| && Positive(rbls) && Words(rbls)
    requires forall i :: 0 <= i < |rbls| ==> hits[i] == Listed(answers[i])
    ensures var asked := Asked(rbls, hits, 0);
      && Answers(sent, !err && Score(rbls, hits) >= 100, Blocking(rbls[..asked], hits[..asked]))
      && Blocking(rbls[..asked], hits[..asked]) <= Blocking(rbls, hits)
  {
    EarlyVerdictIsVerdict(rbls, hits);
    if err {
      sent := Respond(err, 0, null, 0, []);
    } else {
      var score, reply, replen, k := ProcessRequest(rbls, answers, hits);
      PrefixKeeps(rbls, k);
      BlockingWords(rbls[..k], hits[..k]);
      BlockingSplits(rbls[..k], hits[..k]);
      sent := Respond(err, score, reply, replen, Blocking(rbls[..k], hits[..k]));
    }
  }
}
