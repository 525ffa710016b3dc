/** What a line of the configuration file says, said about its characters. */
module ConfigLines {
  import opened Prelude
  import opened Numbers
  import opened Verdict
  import opened Config

  const WHITE := " \t\n\U{b}\U{c}\r"

  ghost predicate Spaces(s: string) { forall i :: 0 <= i < |s| ==> s[i] in WHITE }

  ghost predicate IsComment(s: string) { s == "" || s[0] == '#' }

  /** A word that the parser cannot take apart. */
  ghost predicate IsToken(s: string) {
    s != "" && forall i :: 0 <= i < |s| ==> s[i] !in WHITE && s[i] != '#' && s[i] != '\0'
  }

  lemma WhiteIsSpace()
    ensures forall c: char {:trigger IsSpace(c)} :: IsSpace(c) <==> c in WHITE
  {
  }

  // ---- Space, words and comments ----

  lemma {:induction false} RTrimIs(s: string, k: nat)
    requires k <= |s| && Spaces(s[k..]) && (k > 0 ==> s[k - 1] !in WHITE)
    ensures RTrim(s) == s[..k]
  {
    WhiteIsSpace();
    if k < |s| {
      assert s[k..][|s| - 1 - k] == s[|s| - 1];
      var t := s[..|s| - 1];
      assert forall i :: 0 <= i < |t| - k ==> t[k..][i] == s[k..][i];
      RTrimIs(t, k);
      assert t[..k] == s[..k];
    } else {
      assert s[..k] == s;
    }
  }

  /** A body that ends in no space, then space, then perhaps a comment. */
  lemma CleanIs(body: string, post: string, comment: string)
    requires '#' !in body && Spaces(post) && IsComment(comment)
    requires body != "" ==> body[|body| - 1] !in WHITE
    ensures Clean(body + post + comment) == body
  {
    var s := body + post;
    assert forall i :: 0 <= i < |post| ==> post[i] != '#';
    assert (s + comment)[..|s|] == s;
    UpToIs(s + comment, '#', |s|);
    assert s[|body|..] == post && s[..|body|] == body;
    RTrimIs(s, |body|);
  }

  lemma BlankLine(ws: string, comment: string)
    requires Spaces(ws) && IsComment(comment)
    ensures ParseLine(ws + comment) == Blank
  {
    assert "" + ws + comment == ws + comment;
    CleanIs("", ws, comment);
  }

  lemma SplitsAt(pre: string, word: string, tail: string)
    requires Spaces(pre) && IsToken(word) && (tail != "" ==> tail[0] in WHITE)
    ensures LTrim(pre + word + tail) == word + tail && Word(word + tail) == word
  {
    hide LTrim, Word;
    WhiteIsSpace();
    LTrimIs(pre + word + tail, |pre|);
    assert (pre + word + tail)[|pre|..] == word + tail;
    WordIs(word + tail, |word|);
    assert (word + tail)[..|word|] == word;
  }

  /** A line with one word only. */
  lemma LoneWord(pre: string, word: string, post: string, comment: string)
    requires Spaces(pre) && IsToken(word) && Spaces(post) && IsComment(comment)
    ensures ParseLine(pre + word + post + comment) == Bad(Premature)
  {
    CleanIs(pre + word, post, comment);
    SplitsAt(pre, word, "");
    assert pre + word + "" == pre + word && word + "" == word;
  }

  /** Text between white space, and in front of a comment. */
  ghost predicate IsInner(t: string) {
    t != "" && t[0] !in WHITE && t[|t| - 1] !in WHITE && '#' !in t && '\0' !in t
  }

  lemma WordAndRest(pre: string, d: string, mid: string, t: string, post: string, comment: string)
    requires Spaces(pre) && Spaces(mid) && Spaces(post) && mid != "" && IsComment(comment)
    requires IsToken(d) && IsInner(t)
    ensures ParseLine(pre + d + mid + t + post + comment)
         == var (n, rest) := Strtol(t);
            if rest != "" then Bad(NotNumeric)
            else if n <= 0 || n > SHRT_MAX then Bad(OutOfRange)
            else Entry(Rbl(d, n))
  {
    hide Strtol, Clean, LTrim, Word;
    WhiteIsSpace();
    var body := pre + d + mid + t;
    assert forall i :: 0 <= i < |body| ==> body[i] in pre || body[i] in d || body[i] in mid || body[i] in t;
    CleanIs(body, post, comment);
    SplitsAt(pre, d, mid + t);
    assert pre + d + (mid + t) == body;
    assert (d + (mid + t))[|d|..] == mid + t;
    LTrimIs(mid + t, |mid|);
    assert (mid + t)[|mid|..] == t;
  }

  // ---- Weights ----

  /** What stands in place of a weight: a sign, a prefix that tells the base,
      digits, and what follows them; or no digits at all behind the sign. */
  datatype Weight =
    | Number(sign: string, base: Base, prefix: string, digits: string, tail: string)
    | NoNumber(text: string)

  function WeightText(w: Weight): (r: string) {
    match w
    case Number(sign, _, prefix, digits, tail) => sign + (prefix + (digits + tail))
    case NoNumber(text) => text
  }

  predicate StartsHex(s: string) { |s| >= 2 && (s[0] == 'x' || s[0] == 'X') && IsDigitOf(s[1], Hex) }

  ghost predicate WellFormed(w: Weight) {
    match w
    case Number(sign, base, prefix, digits, tail) =>
      && (sign == "" || sign == "+" || sign == "-")
      && (tail == "" || !IsDigitOf(tail[0], base))
      && (match base
          case Decimal => prefix == "" && AllDigits(digits, Decimal) && digits[0] != '0'
          case Octal => prefix == "0" && if digits == "" then !StartsHex(tail) else AllDigits(digits, Octal)
          case Hex => (prefix == "0x" || prefix == "0X") && AllDigits(digits, Hex))
    case NoNumber(text) =>
      var u := if text != "" && (text[0] == '+' || text[0] == '-') then text[1..] else text;
      u == "" || !('0' <= u[0] <= '9')
  }

  function SignedValue(w: Weight): (n: int)
    requires w.Number?
  {
    var v: int := Value(w.digits, w.base);
    if w.sign == "-" then -v else v
  }

  lemma {:induction false} LeadingZero(s: string)
    ensures Value("0" + s, Octal) == Value(s, Octal)
  {
    if s == "" {
      assert ("0" + s)[..0] == "";
    } else {
      assert ("0" + s)[..|s|] == "0" + s[..|s| - 1];
      LeadingZero(s[..|s| - 1]);
    }
  }

  // How strtol takes the unsigned part `u` apart: `v` is read in base `b`.

  lemma DecimalBody(digits: string, tail: string, u: string)
    requires AllDigits(digits, Decimal) && digits[0] != '0' && u == digits + tail
    ensures u != "" && IsDigit(u[0]) && BaseOf(u) == Decimal
  {
    assert u[0] == digits[0];
  }

  lemma OctalBody(digits: string, tail: string, u: string)
    requires if digits == "" then !StartsHex(tail) else AllDigits(digits, Octal)
    requires u == "0" + digits + tail
    ensures u != "" && IsDigit(u[0]) && BaseOf(u) == Octal
    ensures AllDigits("0" + digits, Octal)
  {
    if digits == "" {
      assert u[1..] == tail;
      assert At(u, 1) == At(tail, 0) && At(u, 2) == At(tail, 1);
    } else {
      assert u[1] == digits[0];
    }
  }

  lemma HexBody(prefix: string, digits: string, tail: string, u: string)
    requires prefix == "0x" || prefix == "0X"
    requires AllDigits(digits, Hex) && u == prefix + (digits + tail)
    ensures u != "" && IsDigit(u[0]) && BaseOf(u) == Hex && |u| >= 2 && u[2..] == digits + tail
  {
    assert At(u, 2) == digits[0];
  }

  lemma DigitsCut(ds: string, tail: string, b: Base)
    requires AllDigits(ds, b) && (tail == "" || !IsDigitOf(tail[0], b))
    ensures LeadingDigits(ds + tail, b) == ds && (ds + tail)[|ds|..] == tail
  {
    ReadsDigits(ds, tail, b);
  }

  /** From the unsigned part `u` strtol reads the digits `ds` in base `b`. */
  ghost predicate ReadFrom(u: string, b: Base, ds: string, tail: string) {
    && u != "" && IsDigit(u[0]) && BaseOf(u) == b && (b == Hex ==> |u| >= 2)
    && var v := if b == Hex then u[2..] else u;
    ds != "" && LeadingDigits(v, b) == ds && v[|ds|..] == tail
  }

  lemma UnsignedReads(w: Weight, u: string) returns (ds: string)
    requires w.Number? && WellFormed(w) && u == w.prefix + (w.digits + w.tail)
    ensures ReadFrom(u, w.base, ds, w.tail) && Value(ds, w.base) == Value(w.digits, w.base)
  {
    hide Value, LeadingDigits, BaseOf, AllDigits;
    match w.base
    case Decimal =>
      ds := w.digits;
      assert u == w.digits + w.tail;
      DecimalBody(w.digits, w.tail, u);
      NotEmpty(ds, Decimal);
      DigitsCut(ds, w.tail, Decimal);
    case Octal =>
      ds := "0" + w.digits;
      assert u == "0" + w.digits + w.tail;
      OctalBody(w.digits, w.tail, u);
      LeadingZero(w.digits);
      DigitsCut(ds, w.tail, Octal);
    case Hex =>
      ds := w.digits;
      HexBody(w.prefix, w.digits, w.tail, u);
      NotEmpty(ds, Hex);
      DigitsCut(ds, w.tail, Hex);
  }

  lemma NotEmpty(ds: string, b: Base)
    requires AllDigits(ds, b)
    ensures ds != ""
  {
  }

  lemma SignRead(sign: string, u: string, t: string)
    requires (sign == "" || sign == "+" || sign == "-") && u != "" && IsDigit(u[0]) && t == sign + u
    ensures LTrim(t) == t && (if HasSign(t) then t[1..] else t) == u && (At(t, 0) == '-' <==> sign == "-")
  {
    if sign == "" {
      assert t == u;
    } else {
      assert t[0] == sign[0] && t[1..] == u;
    }
  }

  lemma StrtolFrom(t: string, u: string, negative: bool, b: Base, ds: string, tail: string)
    requires LTrim(t) == t && (if HasSign(t) then t[1..] else t) == u && (At(t, 0) == '-' <==> negative)
    requires ReadFrom(u, b, ds, tail)
    ensures Strtol(t) == (Clamp(if negative then -(Value(ds, b) as int) else Value(ds, b)), tail)
  {
    hide LTrim, HasSign, BaseOf, Value, LeadingDigits, Clamp;
  }

  lemma StrtolNumber(w: Weight)
    requires w.Number? && WellFormed(w)
    ensures Strtol(WeightText(w)) == (Clamp(SignedValue(w)), w.tail)
  {
    hide Value, LeadingDigits, BaseOf, Strtol, LTrim, HasSign, Clamp, AllDigits;
    var u := w.prefix + (w.digits + w.tail);
    var ds := UnsignedReads(w, u);
    SignRead(w.sign, u, WeightText(w));
    StrtolFrom(WeightText(w), u, w.sign == "-", w.base, ds, w.tail);
  }

  lemma StrtolNothing(t: string)
    requires WellFormed(NoNumber(t)) && t != "" && t[0] !in WHITE
    ensures Strtol(t) == (0, t)
  {
    WhiteIsSpace();
    assert LTrim(t) == t;
  }

  /** An entry line is an entry if and only if nothing stands behind its number
      and this is within 1..32767; it is out of range if and only if nothing
      stands behind a number that is not; and it is not numeric if and only if
      something does or there are no digits. */
  lemma WeightLine(pre: string, d: string, mid: string, w: Weight, post: string, comment: string)
    requires Spaces(pre) && Spaces(mid) && Spaces(post) && mid != "" && IsComment(comment)
    requires IsToken(d) && WellFormed(w) && IsInner(WeightText(w))
    ensures ParseLine(pre + d + mid + WeightText(w) + post + comment)
         == if w.NoNumber? || w.tail != "" then Bad(NotNumeric)
            else if 1 <= SignedValue(w) <= 32767 then Entry(Rbl(d, SignedValue(w)))
            else Bad(OutOfRange)
  {
    hide Strtol, ParseLine, Value, WellFormed, IsInner, Spaces, IsToken;
    WordAndRest(pre, d, mid, WeightText(w), post, comment);
    match w
    case NoNumber(text) =>
      InnerStarts(text);
      StrtolNothing(text);
    case Number(_, _, _, _, _) =>
      StrtolNumber(w);
  }

  lemma InnerStarts(t: string)
    requires IsInner(t)
    ensures t != "" && t[0] !in WHITE
  {
  }

  // ---- Lines as people write them ----

  /** White space with or without a comment; one word; or an entry: each with
      white space around its parts and perhaps a comment. */
  datatype Written =
    | Nothing(ws: string, comment: string)
    | Lone(pre: string, word: string, post: string, comment: string)
    | Item(pre: string, domain: string, mid: string, weight: Weight, post: string, comment: string)

  function TextOf(p: Written): (r: string) {
    match p
    case Nothing(ws, comment) => ws + comment
    case Lone(pre, word, post, comment) => pre + word + post + comment
    case Item(pre, d, mid, w, post, comment) => pre + d + mid + WeightText(w) + post + comment
  }

  ghost predicate IsLine(p: Written) {
    && IsComment(p.comment)
    && match p
       case Nothing(ws, _) => Spaces(ws)
       case Lone(pre, word, post, _) => Spaces(pre) && IsToken(word) && Spaces(post)
       case Item(pre, d, mid, w, post, _) =>
         && Spaces(pre) && IsToken(d) && Spaces(mid) && mid != "" && Spaces(post)
         && WellFormed(w) && IsInner(WeightText(w))
  }

  /** What the line is to the reader. */
  function LineOf(p: Written): (r: Line) {
    match p
    case Nothing(_, _) => Blank
    case Lone(_, _, _, _) => Bad(Premature)
    case Item(_, d, _, w, _, _) =>
      if w.NoNumber? || w.tail != "" then Bad(NotNumeric)
      else if 1 <= SignedValue(w) <= 32767 then Entry(Rbl(d, SignedValue(w)))
      else Bad(OutOfRange)
  }

  lemma LineMeaning(p: Written)
    requires IsLine(p)
    ensures ParseLine(TextOf(p)) == LineOf(p)
  {
    hide ParseLine, WellFormed, IsInner, SignedValue;
    match p
    case Nothing(ws, comment) => BlankLine(ws, comment);
    case Lone(pre, word, post, comment) => LoneWord(pre, word, post, comment);
    case Item(pre, d, mid, w, post, comment) => WeightLine(pre, d, mid, w, post, comment);
  }

  // ---- And there are no other lines ----

  /** How far `s` starts with white space, or without. */
  lemma Span(s: string, white: bool) returns (k: nat)
    ensures k <= |s| && forall j :: 0 <= j < k ==> (s[j] in WHITE <==> white)
    ensures k < |s| ==> (s[k] in WHITE <==> !white)
  {
    k := 0;
    while k < |s| && (s[k] in WHITE <==> white)
      invariant k <= |s| && forall j :: 0 <= j < k ==> (s[j] in WHITE <==> white)
    {
      k := k + 1;
    }
  }

  lemma DigitSpan(s: string, b: Base) returns (k: nat)
    ensures k <= |s| && forall j :: 0 <= j < k ==> IsDigitOf(s[j], b)
    ensures k < |s| ==> !IsDigitOf(s[k], b)
  {
    k := 0;
    while k < |s| && IsDigitOf(s[k], b)
      invariant k <= |s| && forall j :: 0 <= j < k ==> IsDigitOf(s[j], b)
    {
      k := k + 1;
    }
  }

  predicate IsBody(base: Base, u: string) {
    u != "" &&
    match base
    case Decimal => IsDigit(u[0]) && u[0] != '0'
    case Octal => u[0] == '0' && !StartsHex(u[1..])
    case Hex => u[0] == '0' && StartsHex(u[1..])
  }

  function PrefixLength(base: Base): (n: nat) { match base case Decimal => 0 case Octal => 1 case Hex => 2 }

  lemma DigitsOf(v: string, b: Base) returns (digits: string, tail: string)
    ensures v == digits + tail && (tail == "" || !IsDigitOf(tail[0], b))
    ensures forall i :: 0 <= i < |digits| ==> IsDigitOf(digits[i], b)
    ensures v != "" && IsDigitOf(v[0], b) ==> digits != "" && digits[0] == v[0]
  {
    var k := DigitSpan(v, b);
    digits, tail := v[..k], v[k..];
  }

  lemma BodyParts(base: Base, u: string) returns (prefix: string, digits: string, tail: string)
    requires IsBody(base, u)
    ensures u == prefix + (digits + tail) && WellFormed(Number("", base, prefix, digits, tail))
  {
    var n := PrefixLength(base);
    prefix := u[..n];
    digits, tail := DigitsOf(u[n..], base);
    match base
    case Decimal => assert u[n..] == u;
    case Octal => assert digits == "" ==> tail == u[1..];
    case Hex => assert u[n..][0] == u[1..][1];
  }

  lemma WithSign(sign: string, base: Base, prefix: string, digits: string, tail: string)
    requires (sign == "" || sign == "+" || sign == "-") && WellFormed(Number("", base, prefix, digits, tail))
    ensures WellFormed(Number(sign, base, prefix, digits, tail))
  {
  }

  /** Every text stands for a weight, a proper one or not. */
  lemma EveryWeight(t: string) returns (w: Weight)
    ensures WellFormed(w) && WeightText(w) == t
  {
    var signed := t != "" && (t[0] == '+' || t[0] == '-');
    var sign, u := if signed then t[..1] else "", if signed then t[1..] else t;
    assert t == sign + u;
    if u == "" || !IsDigit(u[0]) {
      w := NoNumber(t);
    } else {
      var base := if u[0] != '0' then Decimal else if StartsHex(u[1..]) then Hex else Octal;
      var prefix, digits, tail := BodyParts(base, u);
      hide WellFormed;
      WithSign(sign, base, prefix, digits, tail);
      w := Number(sign, base, prefix, digits, tail);
    }
  }

  lemma LastDark(s: string) returns (m: nat)
    ensures m <= |s| && Spaces(s[m..]) && (m > 0 ==> s[m - 1] !in WHITE)
  {
    m := |s|;
    while m > 0 && s[m - 1] in WHITE
      invariant m <= |s| && forall i :: m <= i < |s| ==> s[i] in WHITE
    {
      m := m - 1;
    }
  }

  lemma CommentAt(s: string) returns (k: nat)
    ensures k <= |s| && '#' !in s[..k] && IsComment(s[k..])
  {
    k := 0;
    while k < |s| && s[k] != '#'
      invariant k <= |s| && '#' !in s[..k]
    {
      k := k + 1;
    }
  }

  predicate Closed(s: string) {
    (s != "" ==> s[|s| - 1] !in WHITE) && '#' !in s && '\0' !in s
  }

  lemma ClosedBehind(a: string, b: string)
    requires Closed(a + b)
    ensures Closed(b) && '#' !in a && '\0' !in a && (a != "" && b == "" ==> a[|a| - 1] !in WHITE)
  {
    assert forall c :: c in a || c in b ==> c in a + b;
    assert b != "" ==> (a + b)[|a + b| - 1] == b[|b| - 1];
    assert b == "" ==> a + b == a;
  }

  lemma FrontSpace(s: string) returns (a: string, b: string)
    requires Closed(s)
    ensures s == a + b && Spaces(a) && Closed(b) && (s != "" ==> b != "" && b[0] !in WHITE)
    ensures s != "" && s[0] in WHITE ==> a != ""
  {
    var k := Span(s, true);
    a, b := s[..k], s[k..];
    assert s == a + b;
    ClosedBehind(a, b);
  }

  lemma FrontWord(s: string) returns (a: string, b: string)
    requires Closed(s) && s != "" && s[0] !in WHITE
    ensures s == a + b && IsToken(a) && Closed(b) && (b != "" ==> b[0] in WHITE)
  {
    var k := Span(s, false);
    a, b := s[..k], s[k..];
    assert s == a + b;
    ClosedBehind(a, b);
  }

  /** The words of a line. */
  lemma BodyWords(body: string) returns (pre: string, d: string, mid: string, t: string)
    requires Closed(body) && body != ""
    ensures Spaces(pre) && IsToken(d) && Spaces(mid) && body == pre + d + mid + t
    ensures if t == "" then mid == "" else mid != "" && IsInner(t)
  {
    hide Spaces, IsToken;
    var rest, behind;
    pre, rest := FrontSpace(body);
    d, behind := FrontWord(rest);
    mid, t := FrontSpace(behind);
    FourParts(pre, d, mid, t);
  }

  lemma FourParts(a: string, b: string, c: string, d: string)
    ensures a + (b + (c + d)) == a + b + c + d
  {
  }

  /** Every line, that is. */
  lemma EveryLine(s: string) returns (p: Written)
    requires '\0' !in s
    ensures IsLine(p) && TextOf(p) == s
  {
    var k := CommentAt(s);
    var head, comment := s[..k], s[k..];
    var m := LastDark(head);
    var body, post := head[..m], head[m..];
    assert s == head + comment && head == body + post;
    if m == 0 {
      p := Nothing(head, comment);
      assert head == post;
    } else {
      var pre, d, mid, t := BodyWords(body);
      if t == "" {
        p := Lone(pre, d, post, comment);
        assert pre + d == body;
      } else {
        var w := EveryWeight(t);
        p := Item(pre, d, mid, w, post, comment);
      }
    }
  }
}
