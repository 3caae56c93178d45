/**
 * The continuation-passing regular-expression matcher, proved against a declarative
 * semantics: which stretches of a text an expression matches.
 */
module Regex {
  /** A set of characters is a list of ranges, possibly negated. */
  datatype RE =
    | Lit(text: string)
    | Seq(left: RE, right: RE)
    | Alt(left: RE, right: RE)
    | Star(body: RE)
    | CharSet(ranges: seq<(char, char)>, negated: bool)
    | LineStart
    | LineEnd
    | Any

  predicate InRanges(ranges: seq<(char, char)>, ch: char) {
    exists i :: 0 <= i < |ranges| && ranges[i].0 <= ch <= ranges[i].1
  }

  predicate Accepts(ranges: seq<(char, char)>, negated: bool, ch: char) {
    InRanges(ranges, ch) != negated
  }

  /** The dot: any character but a newline. */
  const Dot := CharSet([('\n', '\n')], true)

  /** Can the expression match the empty string somewhere? */
  predicate Nullable(re: RE) {
    match re
    case Lit(text) => text == ""
    case Seq(l, r) => Nullable(l) && Nullable(r)
    case Alt(l, r) => Nullable(l) || Nullable(r)
    case CharSet(_, _) => false
    case _ => true
  }

  /** No star has a body that can match the empty string. */
  predicate Tame(re: RE) {
    match re
    case Seq(l, r) => Tame(l) && Tame(r)
    case Alt(l, r) => Tame(l) && Tame(r)
    case Star(body) => Tame(body) && !Nullable(body)
    case _ => true
  }

  // ----- What an expression matches -----

  /** Position `i` is at the start of a line; position 0 is when `bol` says so. */
  predicate AtLineStart(text: string, bol: bool, i: nat)
    requires i <= |text|
  {
    if i == 0 then bol else text[i - 1] == '\n'
  }

  ghost predicate Chain(body: RE, text: string, bol: bool, stops: seq<nat>)
    decreases body, 1
  {
    forall k :: 0 < k < |stops| ==> Matches(body, text, bol, stops[k - 1], stops[k])
  }

  /** The expression matches the stretch from `i` up to `j`. */
  ghost predicate Matches(re: RE, text: string, bol: bool, i: nat, j: nat)
    decreases re, 0
  {
    && i <= j <= |text|
    && match re
       case Lit(lit) => text[i..j] == lit
       case Seq(l, r) => exists m: nat :: Matches(l, text, bol, i, m) && Matches(r, text, bol, m, j)
       case Alt(l, r) => Matches(l, text, bol, i, j) || Matches(r, text, bol, i, j)
       case Star(body) =>
         exists stops: seq<nat> :: stops != [] && stops[0] == i && stops[|stops| - 1] == j && Chain(body, text, bol, stops)
       case CharSet(ranges, negated) => j == i + 1 && Accepts(ranges, negated, text[i])
       case LineStart => i == j && AtLineStart(text, bol, i)
       case LineEnd => i == j && (i == |text| || text[i] == '\n')
       case Any => i == j
  }

  // ----- The matcher -----

  type Callback = (string, bool) --> bool

  /** Every match eats at least this many characters. */
  function Eats(re: RE): nat {
    if Nullable(re) then 0 else 1
  }

  /** The callback can be asked about every rest that a match can leave. */
  ghost predicate Answers(cb: Callback, re: RE, str: string) {
    forall rest: string, bol: bool :: |rest| + Eats(re) <= |str| ==> cb.requires(rest, bol)
  }

  function Then(left: RE, right: RE, str: string, cb: Callback): (k: Callback)
    requires Tame(right) && Answers(cb, Seq(left, right), str)
    ensures Answers(k, left, str)
    decreases |str|, Seq(left, right), 0
  {
    (rest: string, bol: bool) requires |rest| + Eats(left) <= |str| => Match(right, rest, bol, cb)
  }

  function Again(body: RE, str: string, cb: Callback): (k: Callback)
    requires Tame(Star(body)) && Answers(cb, Star(body), str)
    ensures Answers(k, body, str)
    decreases |str|, Star(body), 0
  {
    (rest: string, bol: bool) requires |rest| < |str| => Match(Star(body), rest, bol, cb)
  }

  /** Asks the callback about the rest after each way of matching a prefix, until it says yes. */
  predicate Match(re: RE, str: string, bol: bool, cb: Callback)
    requires Tame(re) && Answers(cb, re, str)
    decreases |str|, re, 1
  {
    match re
    case Lit(lit) =>
      if lit <= str then cb(str[|lit|..], if lit == "" then bol else str[|lit| - 1] == '\n') else false
    case Seq(l, r) => Match(l, str, bol, Then(l, r, str, cb))
    case Alt(l, r) => Match(l, str, bol, cb) || Match(r, str, bol, cb)
    case Star(body) => cb(str, bol) || Match(body, str, bol, Again(body, str, cb))
    case CharSet(ranges, negated) =>
      if str != "" && Accepts(ranges, negated, str[0]) then cb(str[1..], str[0] == '\n') else false
    case LineStart => bol && cb(str, bol)
    case LineEnd => (str == "" || str[0] == '\n') && cb(str, bol)
    case Any => cb(str, bol)
  }

  // ----- Matcher and meaning agree -----

  lemma {:induction false} MatchEats(re: RE, text: string, bol: bool, i: nat, j: nat)
    requires Tame(re) && Matches(re, text, bol, i, j) && !Nullable(re)
    ensures i < j
  {
    match re
    case Seq(l, r) =>
      var m: nat :| Matches(l, text, bol, i, m) && Matches(r, text, bol, m, j);
      if Nullable(l) {
        MatchEats(r, text, bol, m, j);
      } else {
        MatchEats(l, text, bol, i, m);
      }
    case Alt(l, r) =>
      if Matches(l, text, bol, i, j) {
        MatchEats(l, text, bol, i, j);
      } else {
        MatchEats(r, text, bol, i, j);
      }
    case _ =>
  }

  /** The callback says yes to the rest after position `j`. */
  ghost predicate Says(cb: Callback, text: string, bol: bool, j: nat) {
    j <= |text| && cb.requires(text[j..], AtLineStart(text, bol, j)) && cb(text[j..], AtLineStart(text, bol, j))
  }

  /** Some match from `i` leaves a rest that the callback likes. */
  ghost predicate Leads(re: RE, text: string, bol: bool, i: nat, cb: Callback) {
    exists j: nat :: Matches(re, text, bol, i, j) && Says(cb, text, bol, j)
  }

  lemma {:induction false} MatchIsMeaning(re: RE, text: string, bol: bool, i: nat, cb: Callback)
    requires Tame(re) && i <= |text| && Answers(cb, re, text[i..])
    ensures Match(re, text[i..], AtLineStart(text, bol, i), cb) <==> Leads(re, text, bol, i, cb)
    decreases |text| - i, re
  {
    match re
    case Lit(lit) => LitIsMeaning(lit, text, bol, i, cb);
    case Seq(l, r) => SeqIsMeaning(l, r, text, bol, i, cb);
    case Alt(l, r) =>
      MatchIsMeaning(l, text, bol, i, cb);
      MatchIsMeaning(r, text, bol, i, cb);
      AltLeads(l, r, text, bol, i, cb);
    case Star(body) => StarIsMeaning(body, text, bol, i, cb);
    case CharSet(ranges, negated) => CharSetIsMeaning(ranges, negated, text, bol, i, cb);
    case _ => EmptyIsMeaning(re, text, bol, i, cb);
  }

  lemma LitIsMeaning(lit: string, text: string, bol: bool, i: nat, cb: Callback)
    requires i <= |text| && Answers(cb, Lit(lit), text[i..])
    ensures Match(Lit(lit), text[i..], AtLineStart(text, bol, i), cb) <==> Leads(Lit(lit), text, bol, i, cb)
  {
    var str, j := text[i..], i + |lit|;
    if lit <= str {
      assert text[i..j] == lit && str[|lit|..] == text[j..];
      assert Matches(Lit(lit), text, bol, i, j);
    }
    forall m: nat | Matches(Lit(lit), text, bol, i, m) ensures m == j && lit <= str {
      assert |text[i..m]| == m - i;
      assert str[..|lit|] == lit;
    }
  }

  lemma CharSetIsMeaning(ranges: seq<(char, char)>, negated: bool, text: string, bol: bool, i: nat, cb: Callback)
    requires i <= |text| && Answers(cb, CharSet(ranges, negated), text[i..])
    ensures Match(CharSet(ranges, negated), text[i..], AtLineStart(text, bol, i), cb)
            <==> Leads(CharSet(ranges, negated), text, bol, i, cb)
  {
    if i < |text| {
      assert text[i..][1..] == text[i + 1..];
      assert Accepts(ranges, negated, text[i]) ==> Matches(CharSet(ranges, negated), text, bol, i, i + 1);
    }
  }

  lemma EmptyIsMeaning(re: RE, text: string, bol: bool, i: nat, cb: Callback)
    requires re.LineStart? || re.LineEnd? || re.Any?
    requires i <= |text| && Answers(cb, re, text[i..])
    ensures Match(re, text[i..], AtLineStart(text, bol, i), cb) <==> Leads(re, text, bol, i, cb)
  {
    assert Says(cb, text, bol, i) <==> cb(text[i..], AtLineStart(text, bol, i));
  }

  lemma AltLeads(l: RE, r: RE, text: string, bol: bool, i: nat, cb: Callback)
    ensures Leads(Alt(l, r), text, bol, i, cb) <==> Leads(l, text, bol, i, cb) || Leads(r, text, bol, i, cb)
  {
    if Leads(l, text, bol, i, cb) {
      var j: nat :| Matches(l, text, bol, i, j) && Says(cb, text, bol, j);
      assert Matches(Alt(l, r), text, bol, i, j);
    } else if Leads(r, text, bol, i, cb) {
      var j: nat :| Matches(r, text, bol, i, j) && Says(cb, text, bol, j);
      assert Matches(Alt(l, r), text, bol, i, j);
    }
  }

  lemma SeqSplits(l: RE, r: RE, text: string, bol: bool, i: nat, j: nat) returns (m: nat)
    requires Matches(Seq(l, r), text, bol, i, j)
    ensures Matches(l, text, bol, i, m) && Matches(r, text, bol, m, j)
  {
    m :| Matches(l, text, bol, i, m) && Matches(r, text, bol, m, j);
  }

  lemma SeqIsMeaning(l: RE, r: RE, text: string, bol: bool, i: nat, cb: Callback)
    requires Tame(Seq(l, r)) && i <= |text| && Answers(cb, Seq(l, r), text[i..])
    ensures Match(Seq(l, r), text[i..], AtLineStart(text, bol, i), cb) <==> Leads(Seq(l, r), text, bol, i, cb)
    decreases |text| - i, Seq(l, r), 1
  {
    var k := Then(l, r, text[i..], cb);
    MatchIsMeaning(l, text, bol, i, k);
    forall m: nat | Matches(l, text, bol, i, m)
      ensures Says(k, text, bol, m) <==> Leads(r, text, bol, m, cb)
    {
      SeqStep(l, r, text, bol, i, m, cb);
    }
    if Leads(l, text, bol, i, k) {
      var m: nat :| Matches(l, text, bol, i, m) && Says(k, text, bol, m);
      var j: nat :| Matches(r, text, bol, m, j) && Says(cb, text, bol, j);
      assert Matches(Seq(l, r), text, bol, i, j);
    }
    if Leads(Seq(l, r), text, bol, i, cb) {
      var j: nat :| Matches(Seq(l, r), text, bol, i, j) && Says(cb, text, bol, j);
      var m := SeqSplits(l, r, text, bol, i, j);
      assert Leads(r, text, bol, m, cb);
    }
  }

  lemma SeqStep(l: RE, r: RE, text: string, bol: bool, i: nat, m: nat, cb: Callback)
    requires Tame(Seq(l, r)) && i <= |text| && Answers(cb, Seq(l, r), text[i..]) && Matches(l, text, bol, i, m)
    ensures Says(Then(l, r, text[i..], cb), text, bol, m) <==> Leads(r, text, bol, m, cb)
    decreases |text| - i, Seq(l, r), 0
  {
    if !Nullable(l) {
      MatchEats(l, text, bol, i, m);
    }
    MatchIsMeaning(r, text, bol, m, cb);
  }

  lemma StarIsMeaning(body: RE, text: string, bol: bool, i: nat, cb: Callback)
    requires Tame(Star(body)) && i <= |text| && Answers(cb, Star(body), text[i..])
    ensures Match(Star(body), text[i..], AtLineStart(text, bol, i), cb) <==> Leads(Star(body), text, bol, i, cb)
    decreases |text| - i, Star(body), 0
  {
    var k := Again(body, text[i..], cb);
    MatchIsMeaning(body, text, bol, i, k);
    forall m: nat | Matches(body, text, bol, i, m)
      ensures i < m && (Says(k, text, bol, m) <==> Leads(Star(body), text, bol, m, cb))
    {
      MatchEats(body, text, bol, i, m);
      MatchIsMeaning(Star(body), text, bol, m, cb);
    }
    StarUnfolds(body, text, bol, i, cb);
  }

  lemma StarStops(body: RE, text: string, bol: bool, i: nat, cb: Callback)
    requires i <= |text| && Says(cb, text, bol, i)
    ensures Leads(Star(body), text, bol, i, cb)
  {
    var stops: seq<nat> := [i];
    assert Chain(body, text, bol, stops);
    assert Matches(Star(body), text, bol, i, i);
  }

  lemma StarGoesOn(body: RE, text: string, bol: bool, i: nat, m: nat, cb: Callback)
    requires i <= |text| && Matches(body, text, bol, i, m) && Leads(Star(body), text, bol, m, cb)
    ensures Leads(Star(body), text, bol, i, cb)
  {
    hide Matches, Says;
    var j: nat :| Matches(Star(body), text, bol, m, j) && Says(cb, text, bol, j);
    StarPrepend(body, text, bol, i, m, j);
  }

  lemma StarComesFrom(body: RE, text: string, bol: bool, i: nat, cb: Callback)
    requires i <= |text| && Leads(Star(body), text, bol, i, cb)
    ensures Says(cb, text, bol, i) ||
            exists m: nat :: Matches(body, text, bol, i, m) && Leads(Star(body), text, bol, m, cb)
  {
    hide Says;
    var j: nat :| Matches(Star(body), text, bol, i, j) && Says(cb, text, bol, j);
    var stops: seq<nat> :| stops != [] && stops[0] == i && stops[|stops| - 1] == j && Chain(body, text, bol, stops);
    if |stops| > 1 {
      StarRest(body, text, bol, stops);
      assert Matches(body, text, bol, i, stops[1]) && Leads(Star(body), text, bol, stops[1], cb);
    }
  }

  /** No iteration, or one iteration and then some. */
  lemma StarUnfolds(body: RE, text: string, bol: bool, i: nat, cb: Callback)
    requires i <= |text|
    ensures Leads(Star(body), text, bol, i, cb) <==>
            Says(cb, text, bol, i) ||
            exists m: nat :: Matches(body, text, bol, i, m) && Leads(Star(body), text, bol, m, cb)
  {
    hide Leads, Matches, Says;
    if Says(cb, text, bol, i) {
      StarStops(body, text, bol, i, cb);
    }
    if m: nat :| Matches(body, text, bol, i, m) && Leads(Star(body), text, bol, m, cb) {
      StarGoesOn(body, text, bol, i, m, cb);
    }
    if Leads(Star(body), text, bol, i, cb) {
      StarComesFrom(body, text, bol, i, cb);
    }
  }

  lemma StarPrepend(body: RE, text: string, bol: bool, i: nat, m: nat, j: nat)
    requires Matches(body, text, bol, i, m) && Matches(Star(body), text, bol, m, j)
    ensures Matches(Star(body), text, bol, i, j)
  {
    var stops: seq<nat> :| stops != [] && stops[0] == m && stops[|stops| - 1] == j && Chain(body, text, bol, stops);
    var longer := [i] + stops;
    forall k | 0 < k < |longer| ensures Matches(body, text, bol, longer[k - 1], longer[k]) {
      assert k > 1 ==> Matches(body, text, bol, stops[k - 2], stops[k - 1]);
    }
    assert longer[|longer| - 1] == j;
  }

  lemma {:induction false} StarRest(body: RE, text: string, bol: bool, stops: seq<nat>)
    requires |stops| > 1 && Chain(body, text, bol, stops)
    ensures Matches(body, text, bol, stops[0], stops[1])
    ensures Matches(Star(body), text, bol, stops[1], stops[|stops| - 1])
  {
    var rest := stops[1..];
    forall k | 0 < k < |rest| ensures Matches(body, text, bol, rest[k - 1], rest[k]) {
      assert Matches(body, text, bol, stops[k], stops[k + 1]);
    }
    assert Chain(body, text, bol, rest);
    if |rest| > 1 {
      StarRest(body, text, bol, rest);
    }
  }
}
