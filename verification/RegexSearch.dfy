/**
 * The search for a substring, for every expression: its answers are right, and it ends exactly if
 * it ends within a recursion depth that is known beforehand.
 */
module RegexSearch {
  import opened Regex
  import opened RegexTermination

  // ----- Answers are right -----

  /** What a bounded callback says about the rest after position `j`. */
  ghost function At(cb: Bounded, text: string, bol: bool, j: nat): Verdict
    requires j <= |text|
  {
    cb(text[j..], AtLineStart(text, bol, j))
  }

  /** Yes only if some match leads to a yes, and no only if every match leads to a no. */
  ghost predicate Right(v: Verdict, re: RE, text: string, bol: bool, i: nat, cb: Bounded) {
    && (v == Yes ==> exists j: nat :: Matches(re, text, bol, i, j) && At(cb, text, bol, j) == Yes)
    && (v == No ==> forall j: nat :: Matches(re, text, bol, i, j) ==> At(cb, text, bol, j) == No)
  }

  /** Whenever the matcher answers, for any expression, the answer is right. */
  lemma {:induction false} AnswerIsRight(re: RE, text: string, bol: bool, i: nat, cb: Bounded, fuel: nat)
    requires i <= |text|
    ensures Right(Eval(re, text[i..], AtLineStart(text, bol, i), cb, fuel), re, text, bol, i, cb)
    decreases fuel, re, 1
  {
    match re
    case Lit(lit) => LitIsRight(lit, text, bol, i, cb, fuel);
    case Seq(l, r) => SeqIsRight(l, r, text, bol, i, cb, fuel);
    case Alt(l, r) =>
      AnswerIsRight(l, text, bol, i, cb, fuel);
      AnswerIsRight(r, text, bol, i, cb, fuel);
      AltIsRight(l, r, text, bol, i, cb, fuel);
    case Star(body) =>
      if fuel > 0 {
        StarIsRight(body, text, bol, i, cb, fuel);
      }
    case CharSet(ranges, negated) => CharSetIsRight(ranges, negated, text, bol, i, cb, fuel);
    case _ => EmptyIsRight(re, text, bol, i, cb, fuel);
  }

  lemma EmptyIsRight(re: RE, text: string, bol: bool, i: nat, cb: Bounded, fuel: nat)
    requires i <= |text| && (re.LineStart? || re.LineEnd? || re.Any?)
    ensures Right(Eval(re, text[i..], AtLineStart(text, bol, i), cb, fuel), re, text, bol, i, cb)
  {
    assert Matches(re, text, bol, i, i) ==> At(cb, text, bol, i) == Eval(re, text[i..], AtLineStart(text, bol, i), cb, fuel);
  }

  lemma LitIsRight(lit: string, text: string, bol: bool, i: nat, cb: Bounded, fuel: nat)
    requires i <= |text|
    ensures Right(Eval(Lit(lit), text[i..], AtLineStart(text, bol, i), cb, fuel), Lit(lit), text, bol, i, cb)
  {
    var str, j := text[i..], i + |lit|;
    if lit <= str {
      assert text[i..j] == lit && str[|lit|..] == text[j..];
      assert Matches(Lit(lit), text, bol, i, j);
    }
    forall m: nat | Matches(Lit(lit), text, bol, i, m) ensures m == j && lit <= str {
      assert |text[i..m]| == m - i;
      assert str[..|lit|] == lit;
    }
  }

  lemma CharSetIsRight(ranges: seq<(char, char)>, negated: bool, text: string, bol: bool, i: nat, cb: Bounded, fuel: nat)
    requires i <= |text|
    ensures var re := CharSet(ranges, negated);
      Right(Eval(re, text[i..], AtLineStart(text, bol, i), cb, fuel), re, text, bol, i, cb)
  {
    if i < |text| {
      assert text[i..][1..] == text[i + 1..];
      assert Accepts(ranges, negated, text[i]) ==> Matches(CharSet(ranges, negated), text, bol, i, i + 1);
    }
  }

  lemma AltIsRight(l: RE, r: RE, text: string, bol: bool, i: nat, cb: Bounded, fuel: nat)
    requires i <= |text|
    requires Right(Eval(l, text[i..], AtLineStart(text, bol, i), cb, fuel), l, text, bol, i, cb)
    requires Right(Eval(r, text[i..], AtLineStart(text, bol, i), cb, fuel), r, text, bol, i, cb)
    ensures Right(Eval(Alt(l, r), text[i..], AtLineStart(text, bol, i), cb, fuel), Alt(l, r), text, bol, i, cb)
  {
    forall j: nat ensures Matches(Alt(l, r), text, bol, i, j) <==> Matches(l, text, bol, i, j) || Matches(r, text, bol, i, j) {}
  }

  lemma SeqIsRight(l: RE, r: RE, text: string, bol: bool, i: nat, cb: Bounded, fuel: nat)
    requires i <= |text|
    ensures Right(Eval(Seq(l, r), text[i..], AtLineStart(text, bol, i), cb, fuel), Seq(l, r), text, bol, i, cb)
    decreases fuel, Seq(l, r), 0
  {
    var k := ThenBounded(r, cb, l, fuel);
    AnswerIsRight(l, text, bol, i, k, fuel);
    forall m: nat | m <= |text| ensures Right(At(k, text, bol, m), r, text, bol, m, cb) {
      AnswerIsRight(r, text, bol, m, cb, fuel);
    }
    SeqFollows(l, r, text, bol, i, cb, k, Eval(l, text[i..], AtLineStart(text, bol, i), k, fuel));
  }

  lemma SeqJoins(l: RE, r: RE, text: string, bol: bool, i: nat, m: nat, j: nat)
    requires Matches(l, text, bol, i, m) && Matches(r, text, bol, m, j)
    ensures Matches(Seq(l, r), text, bol, i, j)
  {
  }

  lemma InText(text: string, bol: bool)
    ensures forall re: RE, i: nat, j: nat | Matches(re, text, bol, i, j) :: i <= j <= |text|
  {
  }

  lemma SeqFollows(l: RE, r: RE, text: string, bol: bool, i: nat, cb: Bounded, k: Bounded, v: Verdict)
    requires Right(v, l, text, bol, i, k)
    requires forall m: nat | m <= |text| :: Right(At(k, text, bol, m), r, text, bol, m, cb)
    ensures Right(v, Seq(l, r), text, bol, i, cb)
  {
    InText(text, bol);
    hide Matches, At;
    if v == Yes {
      var m: nat :| Matches(l, text, bol, i, m) && At(k, text, bol, m) == Yes;
      var j: nat :| Matches(r, text, bol, m, j) && At(cb, text, bol, j) == Yes;
      SeqJoins(l, r, text, bol, i, m, j);
    } else if v == No {
      forall j: nat | Matches(Seq(l, r), text, bol, i, j) ensures At(cb, text, bol, j) == No {
        var m := SeqSplits(l, r, text, bol, i, j);
        assert At(k, text, bol, m) == No;
      }
    }
  }

  lemma StarIsRight(body: RE, text: string, bol: bool, i: nat, cb: Bounded, fuel: nat)
    requires i <= |text| && fuel > 0
    ensures Right(Eval(Star(body), text[i..], AtLineStart(text, bol, i), cb, fuel), Star(body), text, bol, i, cb)
    decreases fuel, Star(body), 0
  {
    var k := AgainBounded(body, cb, fuel - 1);
    AnswerIsRight(body, text, bol, i, k, fuel - 1);
    forall m: nat | m <= |text| ensures Right(At(k, text, bol, m), Star(body), text, bol, m, cb) {
      AnswerIsRight(Star(body), text, bol, m, cb, fuel - 1);
    }
    StarFollows(body, text, bol, i, cb, k, Eval(body, text[i..], AtLineStart(text, bol, i), k, fuel - 1));
  }

  lemma StarFollows(body: RE, text: string, bol: bool, i: nat, cb: Bounded, k: Bounded, v: Verdict)
    requires i <= |text| && Right(v, body, text, bol, i, k)
    requires forall m: nat | m <= |text| :: Right(At(k, text, bol, m), Star(body), text, bol, m, cb)
    ensures Right(if At(cb, text, bol, i) == No then v else At(cb, text, bol, i), Star(body), text, bol, i, cb)
  {
    StarMatchesNothing(body, text, bol, i);
    if At(cb, text, bol, i) == No && v == Yes {
      var m: nat :| Matches(body, text, bol, i, m) && At(k, text, bol, m) == Yes;
      var j: nat :| Matches(Star(body), text, bol, m, j) && At(cb, text, bol, j) == Yes;
      StarPrepend(body, text, bol, i, m, j);
    } else if At(cb, text, bol, i) == No && v == No {
      forall j: nat | Matches(Star(body), text, bol, i, j) ensures At(cb, text, bol, j) == No {
        StarSplits(body, text, bol, i, j);
      }
    }
  }

  lemma StarMatchesNothing(body: RE, text: string, bol: bool, i: nat)
    requires i <= |text|
    ensures Matches(Star(body), text, bol, i, i)
  {
    var stops: seq<nat> := [i];
    assert Chain(body, text, bol, stops);
  }

  /** A match of a star is empty, or one of the body and then one of the star. */
  lemma StarSplits(body: RE, text: string, bol: bool, i: nat, j: nat)
    requires Matches(Star(body), text, bol, i, j)
    ensures i == j || exists m: nat :: Matches(body, text, bol, i, m) && Matches(Star(body), text, bol, m, j)
  {
    var stops: seq<nat> :| stops != [] && stops[0] == i && stops[|stops| - 1] == j && Chain(body, text, bol, stops);
    if |stops| > 1 {
      StarRest(body, text, bol, stops);
      var m := stops[1];
      assert Matches(body, text, bol, i, m) && Matches(Star(body), text, bol, m, j);
    }
  }

  // ----- A matcher that notices when it goes round in circles -----

  /** `rest` can be asked about while `str` is matched: it is shorter, or nothing was matched. */
  predicate After(rest: string, b: bool, str: string, bol: bool) {
    |rest| < |str| || (rest == str && b == bol)
  }

  function ThenChecked(left: RE, right: RE, cb: Bounded, str: string, bol: bool): Bounded
    decreases |str|, Seq(left, right), 0
  {
    (rest: string, b: bool) => if After(rest, b, str, bol) then Check(right, rest, b, cb) else Deeper
  }

  function AgainChecked(body: RE, cb: Bounded, str: string): Bounded
    decreases |str|, Star(body), 0
  {
    (rest: string, b: bool) => if |rest| < |str| then Check(Star(body), rest, b, cb) else Deeper
  }

  /** The matcher with a check: a star that comes back to where it was is `Deeper`. */
  function Check(re: RE, str: string, bol: bool, cb: Bounded): Verdict
    decreases |str|, re, 1
  {
    match re
    case Lit(lit) =>
      if lit <= str then cb(str[|lit|..], if lit == "" then bol else str[|lit| - 1] == '\n') else No
    case Seq(l, r) => Check(l, str, bol, ThenChecked(l, r, cb, str, bol))
    case Alt(l, r) =>
      var first := Check(l, str, bol, cb);
      if first == No then Check(r, str, bol, cb) else first
    case Star(body) =>
      var first := cb(str, bol);
      if first == No then Check(body, str, bol, AgainChecked(body, cb, str)) else first
    case CharSet(ranges, negated) =>
      if str != "" && Accepts(ranges, negated, str[0]) then cb(str[1..], str[0] == '\n') else No
    case LineStart => if bol then cb(str, bol) else No
    case LineEnd => if str == "" || str[0] == '\n' then cb(str, bol) else No
    case Any => cb(str, bol)
  }

  /** `v` is `w`, or says nothing. */
  predicate Vaguer(v: Verdict, w: Verdict) {
    v == Deeper || v == w
  }

  ghost predicate VaguerOn(c: Bounded, d: Bounded, str: string, bol: bool) {
    forall rest: string, b: bool | After(rest, b, str, bol) :: Vaguer(c(rest, b), d(rest, b))
  }

  lemma VaguerLater(c: Bounded, d: Bounded, str: string, bol: bool, rest: string, b: bool)
    requires VaguerOn(c, d, str, bol) && After(rest, b, str, bol)
    ensures VaguerOn(c, d, rest, b)
  {
  }

  lemma LitAfter(lit: string, str: string, bol: bool)
    requires lit <= str
    ensures After(str[|lit|..], if lit == "" then bol else str[|lit| - 1] == '\n', str, bol)
  {
    assert str[0..] == str;
  }

  /** A vaguer callback makes the checked matcher vaguer. */
  lemma {:induction false} CheckIsMonotone(re: RE, str: string, bol: bool, c: Bounded, d: Bounded)
    requires VaguerOn(c, d, str, bol)
    ensures Vaguer(Check(re, str, bol, c), Check(re, str, bol, d))
    decreases |str|, re
  {
    match re
    case Lit(lit) =>
      if lit <= str {
        LitAfter(lit, str, bol);
      }
    case Seq(l, r) =>
      forall rest: string, b: bool | After(rest, b, str, bol)
        ensures Vaguer(ThenChecked(l, r, c, str, bol)(rest, b), ThenChecked(l, r, d, str, bol)(rest, b))
      {
        VaguerLater(c, d, str, bol, rest, b);
        CheckIsMonotone(r, rest, b, c, d);
      }
      CheckIsMonotone(l, str, bol, ThenChecked(l, r, c, str, bol), ThenChecked(l, r, d, str, bol));
    case Alt(l, r) =>
      CheckIsMonotone(l, str, bol, c, d);
      CheckIsMonotone(r, str, bol, c, d);
    case Star(body) =>
      assert Vaguer(c(str, bol), d(str, bol));
      forall rest: string, b: bool | After(rest, b, str, bol)
        ensures Vaguer(AgainChecked(body, c, str)(rest, b), AgainChecked(body, d, str)(rest, b))
      {
        if |rest| < |str| {
          VaguerLater(c, d, str, bol, rest, b);
          CheckIsMonotone(Star(body), rest, b, c, d);
        }
      }
      CheckIsMonotone(body, str, bol, AgainChecked(body, c, str), AgainChecked(body, d, str));
    case _ =>
      assert After(str, bol, str, bol);
  }

  /** Whatever the real matcher answers at any depth, the checked one answers. */
  lemma {:induction false} CheckCatchesAll(re: RE, str: string, bol: bool, e: Bounded, c: Bounded, fuel: nat)
    requires VaguerOn(e, c, str, bol)
    ensures Vaguer(Eval(re, str, bol, e, fuel), Check(re, str, bol, c))
    decreases fuel, re, 1
  {
    match re
    case Lit(lit) =>
      if lit <= str {
        LitAfter(lit, str, bol);
      }
    case Seq(l, r) =>
      forall rest: string, b: bool | After(rest, b, str, bol)
        ensures Vaguer(ThenBounded(r, e, l, fuel)(rest, b), ThenChecked(l, r, c, str, bol)(rest, b))
      {
        VaguerLater(e, c, str, bol, rest, b);
        CheckCatchesAll(r, rest, b, e, c, fuel);
      }
      CheckCatchesAll(l, str, bol, ThenBounded(r, e, l, fuel), ThenChecked(l, r, c, str, bol), fuel);
    case Alt(l, r) =>
      CheckCatchesAll(l, str, bol, e, c, fuel);
      CheckCatchesAll(r, str, bol, e, c, fuel);
    case Star(body) =>
      assert Vaguer(e(str, bol), c(str, bol));
      if fuel > 0 && e(str, bol) == No {
        StarCatchesAll(body, str, bol, e, c, fuel);
      }
    case _ =>
      assert After(str, bol, str, bol);
  }

  /** Coming back to the same place cannot change the answer. */
  lemma StarCatchesAll(body: RE, str: string, bol: bool, e: Bounded, c: Bounded, fuel: nat)
    requires VaguerOn(e, c, str, bol) && fuel > 0 && e(str, bol) == No == c(str, bol)
    ensures Vaguer(Eval(Star(body), str, bol, e, fuel), Check(Star(body), str, bol, c))
    decreases fuel, Star(body), 0
  {
    var e', c', d := AgainBounded(body, e, fuel - 1), AgainChecked(body, c, str), ThenChecked(Any, Star(body), c, str, bol);
    forall rest: string, b: bool | After(rest, b, str, bol)
      ensures Vaguer(e'(rest, b), d(rest, b))
    {
      VaguerLater(e, c, str, bol, rest, b);
      CheckCatchesAll(Star(body), rest, b, e, c, fuel - 1);
    }
    CheckCatchesAll(body, str, bol, e', d, fuel - 1);
    CheckIsMonotone(body, str, bol, c', d);
    if Check(Star(body), str, bol, c) == Deeper {
      CheckIsMonotone(body, str, bol, d, c');
    }
  }

  /** What the checked matcher answers, the real one answers within a known depth. */
  lemma {:induction false} DepthSuffices(re: RE, str: string, bol: bool, c: Bounded, e: Bounded, fuel: nat)
    requires VaguerOn(c, e, str, bol) && fuel >= |str| + Depth(re)
    ensures Vaguer(Check(re, str, bol, c), Eval(re, str, bol, e, fuel))
    decreases fuel, re
  {
    match re
    case Lit(lit) =>
      if lit <= str {
        LitAfter(lit, str, bol);
      }
    case Seq(l, r) =>
      forall rest: string, b: bool | After(rest, b, str, bol)
        ensures Vaguer(ThenChecked(l, r, c, str, bol)(rest, b), ThenBounded(r, e, l, fuel)(rest, b))
      {
        VaguerLater(c, e, str, bol, rest, b);
        DepthSuffices(r, rest, b, c, e, fuel);
      }
      DepthSuffices(l, str, bol, ThenChecked(l, r, c, str, bol), ThenBounded(r, e, l, fuel), fuel);
    case Alt(l, r) =>
      DepthSuffices(l, str, bol, c, e, fuel);
      DepthSuffices(r, str, bol, c, e, fuel);
    case Star(body) =>
      assert Vaguer(c(str, bol), e(str, bol));
      forall rest: string, b: bool | After(rest, b, str, bol)
        ensures Vaguer(AgainChecked(body, c, str)(rest, b), AgainBounded(body, e, fuel - 1)(rest, b))
      {
        if |rest| < |str| {
          VaguerLater(c, e, str, bol, rest, b);
          DepthSuffices(Star(body), rest, b, c, e, fuel - 1);
        }
      }
      DepthSuffices(body, str, bol, AgainChecked(body, c, str), AgainBounded(body, e, fuel - 1), fuel - 1);
    case _ =>
      assert After(str, bol, str, bol);
  }

  /** The answer within a depth of the length of the text and the nesting of stars. */
  function Answer(re: RE, str: string, bol: bool, cb: Bounded): Verdict {
    Eval(re, str, bol, cb, |str| + Depth(re))
  }

  /** Every expression, on every text and with every callback: the matcher ends exactly if it ends
      within that depth, and then it gives the same answer at any depth at which it gives one. */
  lemma EndsIff(re: RE, str: string, bol: bool, cb: Bounded)
    ensures Terminates(re, str, bol, cb) <==> Answer(re, str, bol, cb) != Deeper
    ensures forall fuel: nat :: Vaguer(Eval(re, str, bol, cb, fuel), Answer(re, str, bol, cb))
  {
    DepthSuffices(re, str, bol, cb, cb, |str| + Depth(re));
    forall fuel: nat ensures Vaguer(Eval(re, str, bol, cb, fuel), Answer(re, str, bol, cb)) {
      CheckCatchesAll(re, str, bol, cb, cb, fuel);
      CheckCatchesAll(re, str, bol, cb, cb, |str| + Depth(re));
    }
  }

  // ----- When it ends whatever the callback says -----

  /** Some way to match from `i` comes to a star whose body matches nothing there. */
  ghost predicate Loops(re: RE, text: string, bol: bool, i: nat)
    decreases re
  {
    match re
    case Seq(l, r) => Loops(l, text, bol, i) || exists m: nat :: Matches(l, text, bol, i, m) && Loops(r, text, bol, m)
    case Alt(l, r) => Loops(l, text, bol, i) || Loops(r, text, bol, i)
    case Star(body) =>
      exists m: nat :: Matches(Star(body), text, bol, i, m) && (Matches(body, text, bol, m, m) || Loops(body, text, bol, m))
    case _ => false
  }

  lemma StarLoopsLater(body: RE, text: string, bol: bool, i: nat, m: nat)
    requires Matches(body, text, bol, i, m) && Loops(Star(body), text, bol, m)
    ensures Loops(Star(body), text, bol, i)
  {
    var k: nat :| Matches(Star(body), text, bol, m, k) && (Matches(body, text, bol, k, k) || Loops(body, text, bol, k));
    StarPrepend(body, text, bol, i, m, k);
  }

  lemma StarLoopsFrom(body: RE, text: string, bol: bool, i: nat)
    requires Loops(Star(body), text, bol, i)
    ensures
      || Matches(body, text, bol, i, i) || Loops(body, text, bol, i)
      || exists m: nat :: Matches(body, text, bol, i, m) && Loops(Star(body), text, bol, m)
  {
    var k: nat :| Matches(Star(body), text, bol, i, k) && (Matches(body, text, bol, k, k) || Loops(body, text, bol, k));
    StarSplits(body, text, bol, i, k);
  }

  /** A matcher that says no has met no loop. */
  lemma {:induction false} NoMeansNoLoop(re: RE, text: string, bol: bool, i: nat, cb: Bounded, fuel: nat)
    requires i <= |text| && Eval(re, text[i..], AtLineStart(text, bol, i), cb, fuel) == No
    ensures !Loops(re, text, bol, i)
    decreases fuel, re
  {
    match re
    case Seq(l, r) =>
      var k := ThenBounded(r, cb, l, fuel);
      AnswerIsRight(l, text, bol, i, k, fuel);
      NoMeansNoLoop(l, text, bol, i, k, fuel);
      forall m: nat | Matches(l, text, bol, i, m) ensures !Loops(r, text, bol, m) {
        assert At(k, text, bol, m) == No;
        NoMeansNoLoop(r, text, bol, m, cb, fuel);
      }
    case Alt(l, r) =>
      NoMeansNoLoop(l, text, bol, i, cb, fuel);
      NoMeansNoLoop(r, text, bol, i, cb, fuel);
    case Star(body) =>
      var k := AgainBounded(body, cb, fuel - 1);
      AnswerIsRight(body, text, bol, i, k, fuel - 1);
      NoMeansNoLoop(body, text, bol, i, k, fuel - 1);
      forall m: nat | Matches(body, text, bol, i, m) ensures !Loops(Star(body), text, bol, m) {
        assert At(k, text, bol, m) == No;
        NoMeansNoLoop(Star(body), text, bol, m, cb, fuel - 1);
      }
      NoStarLoop(body, text, bol, i);
    case _ =>
  }

  lemma NoStarLoop(body: RE, text: string, bol: bool, i: nat)
    requires i <= |text| && !Loops(body, text, bol, i)
    requires forall m: nat | Matches(body, text, bol, i, m) :: !Loops(Star(body), text, bol, m)
    ensures !Loops(Star(body), text, bol, i)
  {
    if Loops(Star(body), text, bol, i) {
      StarLoopsFrom(body, text, bol, i);
      StarMatchesNothing(body, text, bol, i);
    }
  }

  /** Without a loop, and with a callback that answers after every match, the matcher ends. */
  lemma {:induction false} NoLoopEnds(re: RE, text: string, bol: bool, i: nat, cb: Bounded, fuel: nat)
    requires i <= |text| && !Loops(re, text, bol, i) && fuel >= |text| - i + Depth(re)
    requires forall j: nat | Matches(re, text, bol, i, j) :: At(cb, text, bol, j) != Deeper
    ensures Eval(re, text[i..], AtLineStart(text, bol, i), cb, fuel) != Deeper
    decreases fuel, re
  {
    match re
    case Lit(lit) =>
      if lit <= text[i..] {
        LitMatches(lit, text, bol, i);
      }
    case Seq(l, r) =>
      var k := ThenBounded(r, cb, l, fuel);
      forall m: nat | Matches(l, text, bol, i, m) ensures At(k, text, bol, m) != Deeper {
        SeqGoesOn(l, r, text, bol, i, m, cb);
        NoLoopEnds(r, text, bol, m, cb, fuel);
      }
      NoLoopEnds(l, text, bol, i, k, fuel);
    case Alt(l, r) =>
      forall j: nat ensures Matches(l, text, bol, i, j) || Matches(r, text, bol, i, j) ==> Matches(Alt(l, r), text, bol, i, j) {}
      NoLoopEnds(l, text, bol, i, cb, fuel);
      NoLoopEnds(r, text, bol, i, cb, fuel);
    case Star(body) =>
      StarMatchesNothing(body, text, bol, i);
      var k := AgainBounded(body, cb, fuel - 1);
      forall m: nat | Matches(body, text, bol, i, m) ensures At(k, text, bol, m) != Deeper {
        StarGoesFurther(body, text, bol, i, m, cb);
        NoLoopEnds(Star(body), text, bol, m, cb, fuel - 1);
      }
      NoLoopEnds(body, text, bol, i, k, fuel - 1);
    case CharSet(ranges, negated) => CharSetEnds(ranges, negated, text, bol, i, cb, fuel);
    case _ =>
      assert Matches(re, text, bol, i, i) ==> At(cb, text, bol, i) != Deeper;
  }

  lemma CharSetEnds(ranges: seq<(char, char)>, negated: bool, text: string, bol: bool, i: nat, cb: Bounded, fuel: nat)
    requires i <= |text|
    requires forall j: nat | Matches(CharSet(ranges, negated), text, bol, i, j) :: At(cb, text, bol, j) != Deeper
    ensures Eval(CharSet(ranges, negated), text[i..], AtLineStart(text, bol, i), cb, fuel) != Deeper
  {
    if i < |text| && Accepts(ranges, negated, text[i]) {
      assert text[i..][1..] == text[i + 1..];
      assert Matches(CharSet(ranges, negated), text, bol, i, i + 1);
    }
  }

  lemma SeqGoesOn(l: RE, r: RE, text: string, bol: bool, i: nat, m: nat, cb: Bounded)
    requires Matches(l, text, bol, i, m) && !Loops(Seq(l, r), text, bol, i)
    requires forall j: nat | Matches(Seq(l, r), text, bol, i, j) :: At(cb, text, bol, j) != Deeper
    ensures m <= |text| && !Loops(r, text, bol, m)
    ensures forall j: nat | Matches(r, text, bol, m, j) :: At(cb, text, bol, j) != Deeper
  {
    forall j: nat | Matches(r, text, bol, m, j) ensures At(cb, text, bol, j) != Deeper {
      SeqJoins(l, r, text, bol, i, m, j);
    }
  }

  lemma LitMatches(lit: string, text: string, bol: bool, i: nat)
    requires i <= |text| && lit <= text[i..]
    ensures Matches(Lit(lit), text, bol, i, i + |lit|) && text[i..][|lit|..] == text[i + |lit|..]
  {
    assert text[i..i + |lit|] == lit;
  }

  /** Without a loop each turn of a star gets further. */
  lemma StarGoesFurther(body: RE, text: string, bol: bool, i: nat, m: nat, cb: Bounded)
    requires i <= |text| && !Loops(Star(body), text, bol, i) && Matches(body, text, bol, i, m)
    requires forall j: nat | Matches(Star(body), text, bol, i, j) :: At(cb, text, bol, j) != Deeper
    ensures i < m <= |text| && !Loops(Star(body), text, bol, m)
    ensures forall j: nat | Matches(Star(body), text, bol, m, j) :: At(cb, text, bol, j) != Deeper
  {
    StarMatchesNothing(body, text, bol, i);
    if Loops(Star(body), text, bol, m) {
      StarLoopsLater(body, text, bol, i, m);
    }
    forall j: nat | Matches(Star(body), text, bol, m, j) ensures At(cb, text, bol, j) != Deeper {
      StarPrepend(body, text, bol, i, m, j);
    }
  }

  lemma LiftAt(cb: (string, bool) -> bool, text: string, bol: bool, j: nat)
    requires j <= |text|
    ensures At(Lift(cb), text, bol, j) == Told(cb(text[j..], AtLineStart(text, bol, j)))
  {
  }

  /** From a place in a text the matcher ends for every callback exactly if no way to match comes to a
      star whose body matches nothing there. */
  lemma EndsForAllIff(re: RE, text: string, bol: bool, i: nat)
    requires i <= |text|
    ensures !Loops(re, text, bol, i) <==>
            forall cb: (string, bool) -> bool :: Terminates(re, text[i..], AtLineStart(text, bol, i), Lift(cb))
  {
    if Loops(re, text, bol, i) {
      var no: (string, bool) -> bool := (rest: string, b: bool) => false;
      forall j: nat | Matches(re, text, bol, i, j) ensures At(Lift(no), text, bol, j) != Yes {
        LiftAt(no, text, bol, j);
      }
      LoopNeverEnds(re, text, bol, i, Lift(no));
    } else {
      forall cb: (string, bool) -> bool ensures Terminates(re, text[i..], AtLineStart(text, bol, i), Lift(cb)) {
        forall j: nat | Matches(re, text, bol, i, j) ensures At(Lift(cb), text, bol, j) != Deeper {
          LiftAt(cb, text, bol, j);
        }
        NoLoopEnds(re, text, bol, i, Lift(cb), |text| - i + Depth(re));
      }
    }
  }

  /** A loop is never left if no match leads to a yes. */
  lemma LoopNeverEnds(re: RE, text: string, bol: bool, i: nat, cb: Bounded)
    requires i <= |text| && Loops(re, text, bol, i)
    requires forall j: nat | Matches(re, text, bol, i, j) :: At(cb, text, bol, j) != Yes
    ensures !Terminates(re, text[i..], AtLineStart(text, bol, i), cb)
  {
    forall fuel: nat ensures Eval(re, text[i..], AtLineStart(text, bol, i), cb, fuel) == Deeper {
      AnswerIsRight(re, text, bol, i, cb, fuel);
      if Eval(re, text[i..], AtLineStart(text, bol, i), cb, fuel) == No {
        NoMeansNoLoop(re, text, bol, i, cb, fuel);
      }
    }
  }

  // ----- Searching for a substring -----

  /** The callback that takes the first match. */
  function Succeed(): Bounded {
    (rest: string, bol: bool) => Yes
  }

  ghost predicate MatchesAt(re: RE, text: string, i: nat) {
    exists j: nat :: Matches(re, text, true, i, j)
  }

  /** What the matcher answers at position `i` of a search. */
  ghost function AnswerAt(re: RE, text: string, i: nat): Verdict
    requires i <= |text|
  {
    Answer(re, text[i..], AtLineStart(text, true, i), Succeed())
  }

  ghost predicate EndsAt(re: RE, text: string, i: nat)
    requires i <= |text|
  {
    Terminates(re, text[i..], AtLineStart(text, true, i), Succeed())
  }

  ghost predicate NoneBefore(re: RE, text: string, i: nat) {
    forall m: nat | m < i :: !MatchesAt(re, text, m)
  }

  /** The search ends: the matcher ends at every position that no match starts before. */
  ghost predicate SearchEnds(re: RE, text: string) {
    forall i: nat | i <= |text| && NoneBefore(re, text, i) :: EndsAt(re, text, i)
  }

  lemma AnswerAtIs(re: RE, text: string, i: nat)
    requires i <= |text|
    ensures AnswerAt(re, text, i) == Yes ==> MatchesAt(re, text, i)
    ensures AnswerAt(re, text, i) == No ==> !MatchesAt(re, text, i)
    ensures AnswerAt(re, text, i) == Deeper <==> !EndsAt(re, text, i)
  {
    EndsIff(re, text[i..], AtLineStart(text, true, i), Succeed());
    AnswerIsRight(re, text, true, i, Succeed(), |text[i..]| + Depth(re));
  }

  /** Whether some substring matches, for every expression and text; `Deeper` exactly if the search
      does not end. */
  method MatchSubstring(re: RE, text: string) returns (found: Verdict)
    ensures found == Deeper <==> !SearchEnds(re, text)
    ensures found == Yes ==> exists i: nat :: MatchesAt(re, text, i)
    ensures found == No ==> forall i: nat :: !MatchesAt(re, text, i)
  {
    hide EndsAt, AnswerAt, MatchesAt;
    var str, bol, i := text, true, 0;
    NoneAfterEnd(re, text);
    while i < |text|
      invariant 0 <= i <= |text| && str == text[i..] && bol == AtLineStart(text, true, i)
      invariant forall m: nat | m < i :: !MatchesAt(re, text, m) && EndsAt(re, text, m)
    {
      assert NoneBefore(re, text, i);
      AnswerAtIs(re, text, i);
      AnswerAtHere(re, text, i);
      found := Answer(re, str, bol, Succeed());
      if found != No {
        return;
      }
      bol := str[0] == '\n';
      str := str[1..];
      i := i + 1;
    }
    assert NoneBefore(re, text, i);
    AnswerAtIs(re, text, i);
    AnswerAtHere(re, text, i);
    found := Answer(re, "", bol, Succeed());
  }

  lemma AnswerAtHere(re: RE, text: string, i: nat)
    requires i <= |text|
    ensures AnswerAt(re, text, i) == Answer(re, text[i..], AtLineStart(text, true, i), Succeed())
  {
  }

  lemma NoneAfterEnd(re: RE, text: string)
    ensures forall i: nat | i > |text| :: !MatchesAt(re, text, i)
  {
  }

  ghost predicate LoopsAt(re: RE, text: string, i: nat) {
    Loops(re, text, true, i)
  }

  lemma UnmatchedEndsAtIff(re: RE, text: string, i: nat)
    requires i <= |text| && !MatchesAt(re, text, i)
    ensures EndsAt(re, text, i) <==> !LoopsAt(re, text, i)
  {
    if Loops(re, text, true, i) {
      LoopNeverEnds(re, text, true, i, Succeed());
    } else {
      NoLoopEnds(re, text, true, i, Succeed(), |text| - i + Depth(re));
    }
  }

  /** In a text without a match the search ends exactly if nowhere a way to match comes to a loop. */
  lemma UnmatchedSearchEndsIff(re: RE, text: string)
    requires forall i: nat :: !MatchesAt(re, text, i)
    ensures SearchEnds(re, text) <==> forall i: nat | i <= |text| :: !LoopsAt(re, text, i)
  {
    hide LoopsAt, EndsAt, MatchesAt;
    if SearchEnds(re, text) {
      forall i: nat | i <= |text| ensures !LoopsAt(re, text, i) {
        assert NoneBefore(re, text, i);
        UnmatchedEndsAtIff(re, text, i);
      }
    }
    if forall i: nat | i <= |text| :: !LoopsAt(re, text, i) {
      forall i: nat | i <= |text| && NoneBefore(re, text, i) ensures EndsAt(re, text, i) {
        UnmatchedEndsAtIff(re, text, i);
      }
    }
  }

  /** Expressions without a star over a nullable body never loop. */
  lemma {:induction false} TameNeverLoops(re: RE, text: string, bol: bool, i: nat)
    requires Tame(re)
    ensures !Loops(re, text, bol, i)
    decreases re
  {
    match re
    case Seq(l, r) =>
      TameNeverLoops(l, text, bol, i);
      forall m: nat ensures !Loops(r, text, bol, m) {
        TameNeverLoops(r, text, bol, m);
      }
    case Alt(l, r) =>
      TameNeverLoops(l, text, bol, i);
      TameNeverLoops(r, text, bol, i);
    case Star(body) =>
      forall m: nat ensures !Loops(body, text, bol, m) && !Matches(body, text, bol, m, m) {
        TameNeverLoops(body, text, bol, m);
        if Matches(body, text, bol, m, m) {
          MatchEats(body, text, bol, m, m);
        }
      }
    case _ =>
  }

  /** The search for such an expression ends on every text. */
  lemma TameSearchEnds(re: RE, text: string)
    requires Tame(re)
    ensures SearchEnds(re, text)
  {
    forall i: nat | i <= |text| ensures EndsAt(re, text, i) {
      TameNeverLoops(re, text, true, i);
      NoLoopEnds(re, text, true, i, Succeed(), |text| - i + Depth(re));
    }
  }

  /** The search for a star ends on every text, whatever its body: `(a*)*` is found at once. */
  lemma StarSearchEnds(body: RE, text: string)
    ensures SearchEnds(Star(body), text)
  {
    forall i: nat | i <= |text| ensures EndsAt(Star(body), text, i) {
      assert Eval(Star(body), text[i..], AtLineStart(text, true, i), Succeed(), 1) == Yes;
    }
  }

  /** The search for `(a*)*b` in the empty text does not. */
  lemma NestedStarCanHang()
    ensures !SearchEnds(Seq(Star(Star(Lit("a"))), Lit("b")), "")
  {
    var inner := Star(Lit("a"));
    var re := Seq(Star(inner), Lit("b"));
    StarMatchesNothing(Lit("a"), "", true, 0);
    StarMatchesNothing(inner, "", true, 0);
    assert Loops(Star(inner), "", true, 0);
    forall i: nat ensures !MatchesAt(re, "", i) {
      forall j: nat ensures !Matches(re, "", true, i, j) {
        forall m: nat ensures !Matches(Lit("b"), "", true, m, j) {}
      }
    }
    UnmatchedSearchEndsIff(re, "");
    assert LoopsAt(re, "", 0);
  }
}
