/**
 * When the matcher terminates. The same matcher with a bound on the depth of its recursion
 * through stars: it runs out of the bound at every depth exactly when the real one would
 * recur for ever.
 */
module RegexTermination {
  import opened Regex

  /** `Deeper`: the bound was reached before there was an answer. */
  datatype Verdict = Yes | No | Deeper

  function Told(answer: bool): Verdict {
    if answer then Yes else No
  }

  type Bounded = (string, bool) -> Verdict

  function ThenBounded(right: RE, cb: Bounded, left: RE, fuel: nat): Bounded
    decreases fuel, Seq(left, right), 0
  {
    (rest: string, bol: bool) => Eval(right, rest, bol, cb, fuel)
  }

  function AgainBounded(body: RE, cb: Bounded, fuel: nat): Bounded
    decreases fuel + 1, Star(body), 0
  {
    (rest: string, bol: bool) => Eval(Star(body), rest, bol, cb, fuel)
  }

  function Eval(re: RE, str: string, bol: bool, cb: Bounded, fuel: nat): Verdict
    decreases fuel, re, 1
  {
    match re
    case Lit(lit) =>
      if lit <= str then cb(str[|lit|..], if lit == "" then bol else str[|lit| - 1] == '\n') else No
    case Seq(l, r) => Eval(l, str, bol, ThenBounded(r, cb, l, fuel), fuel)
    case Alt(l, r) =>
      var first := Eval(l, str, bol, cb, fuel);
      if first == No then Eval(r, str, bol, cb, fuel) else first
    case Star(body) =>
      if fuel == 0 then Deeper else
      var first := cb(str, bol);
      if first == No then Eval(body, str, bol, AgainBounded(body, cb, fuel - 1), fuel - 1) else first
    case CharSet(ranges, negated) =>
      if str != "" && Accepts(ranges, negated, str[0]) then cb(str[1..], str[0] == '\n') else No
    case LineStart => if bol then cb(str, bol) else No
    case LineEnd => if str == "" || str[0] == '\n' then cb(str, bol) else No
    case Any => cb(str, bol)
  }

  /** How deep stars are nested. */
  function Depth(re: RE): nat {
    match re
    case Seq(l, r) => if Depth(l) < Depth(r) then Depth(r) else Depth(l)
    case Alt(l, r) => if Depth(l) < Depth(r) then Depth(r) else Depth(l)
    case Star(body) => 1 + Depth(body)
    case _ => 0
  }

  /** The bounded callback answers as the real one wherever that can be asked. */
  ghost predicate Agrees(bounded: Bounded, cb: Callback, re: RE, str: string)
    requires Answers(cb, re, str)
  {
    forall rest: string, bol: bool :: |rest| + Eats(re) <= |str| ==> bounded(rest, bol) == Told(cb(rest, bol))
  }

  /** For tame expressions a bound of the text's length and the nesting of stars is never reached. */
  lemma {:induction false} TameTerminates(re: RE, str: string, bol: bool, cb: Callback, bounded: Bounded, fuel: nat)
    requires Tame(re) && Answers(cb, re, str) && Agrees(bounded, cb, re, str) && fuel >= |str| + Depth(re)
    ensures Eval(re, str, bol, bounded, fuel) == Told(Match(re, str, bol, cb))
    decreases fuel, re, 1
  {
    match re
    case Seq(l, r) =>
      SeqAgrees(l, r, str, cb, bounded, fuel);
      TameTerminates(l, str, bol, Then(l, r, str, cb), ThenBounded(r, bounded, l, fuel), fuel);
    case Alt(l, r) =>
      TameTerminates(l, str, bol, cb, bounded, fuel);
      TameTerminates(r, str, bol, cb, bounded, fuel);
    case Star(body) =>
      StarAgrees(body, str, cb, bounded, fuel - 1);
      TameTerminates(body, str, bol, Again(body, str, cb), AgainBounded(body, bounded, fuel - 1), fuel - 1);
    case _ =>
  }

  lemma SeqAgrees(l: RE, r: RE, str: string, cb: Callback, bounded: Bounded, fuel: nat)
    requires Tame(Seq(l, r)) && Answers(cb, Seq(l, r), str) && Agrees(bounded, cb, Seq(l, r), str)
    requires fuel >= |str| + Depth(Seq(l, r))
    ensures Agrees(ThenBounded(r, bounded, l, fuel), Then(l, r, str, cb), l, str)
    decreases fuel, Seq(l, r), 0
  {
    forall rest: string, bol: bool | |rest| + Eats(l) <= |str|
      ensures ThenBounded(r, bounded, l, fuel)(rest, bol) == Told(Then(l, r, str, cb)(rest, bol))
    {
      TameTerminates(r, rest, bol, cb, bounded, fuel);
    }
  }

  lemma StarAgrees(body: RE, str: string, cb: Callback, bounded: Bounded, fuel: nat)
    requires Tame(Star(body)) && Answers(cb, Star(body), str) && Agrees(bounded, cb, Star(body), str)
    requires fuel + 1 >= |str| + Depth(Star(body))
    ensures Agrees(AgainBounded(body, bounded, fuel), Again(body, str, cb), body, str)
    decreases fuel + 1, Star(body), 0
  {
    forall rest: string, bol: bool | |rest| < |str|
      ensures AgainBounded(body, bounded, fuel)(rest, bol) == Told(Again(body, str, cb)(rest, bol))
    {
      TameTerminates(Star(body), rest, bol, cb, bounded, fuel);
    }
  }

  /** At the end of the text only expressions that can match nothing get to ask, and all of them do. */
  lemma {:induction false} AtEndOfText(re: RE, cb: Bounded, fuel: nat)
    ensures !Nullable(re) ==> Eval(re, "", true, cb, fuel) != Yes
    ensures cb("", true) != Yes ==> Eval(re, "", true, cb, fuel) != Yes
    ensures cb("", true) == Deeper && Nullable(re) ==> Eval(re, "", true, cb, fuel) == Deeper
    decreases fuel, re
  {
    match re
    case Lit(lit) =>
      assert lit <= "" <==> lit == "";
      assert ""[0..] == "";
    case Seq(l, r) =>
      AtEndOfText(r, cb, fuel);
      AtEndOfText(l, ThenBounded(r, cb, l, fuel), fuel);
    case Alt(l, r) =>
      AtEndOfText(l, cb, fuel);
      AtEndOfText(r, cb, fuel);
    case Star(body) =>
      if fuel > 0 {
        AtEndOfText(Star(body), cb, fuel - 1);
        AtEndOfText(body, AgainBounded(body, cb, fuel - 1), fuel - 1);
      }
    case _ =>
  }

  function Lift(cb: (string, bool) -> bool): Bounded {
    (rest: string, bol: bool) => Told(cb(rest, bol))
  }

  /** A star over a body that can match nothing never comes back from the end of the text when it is refused. */
  lemma {:induction false} NullableStarDiverges(body: RE, no: (string, bool) -> bool, fuel: nat)
    requires Nullable(body) && !no("", true)
    ensures Eval(Star(body), "", true, Lift(no), fuel) == Deeper
  {
    if fuel > 0 {
      NullableStarDiverges(body, no, fuel - 1);
      AtEndOfText(body, AgainBounded(body, Lift(no), fuel - 1), fuel - 1);
    }
  }

  ghost predicate Terminates(re: RE, str: string, bol: bool, cb: Bounded) {
    exists fuel: nat :: Eval(re, str, bol, cb, fuel) != Deeper
  }

  /** A star terminates on every text, context and callback that answers exactly when its body
      cannot match the empty string. */
  lemma StarTerminatesIff(body: RE)
    requires Tame(body)
    ensures !Nullable(body) <==>
            forall str: string, bol: bool, cb: (string, bool) -> bool :: Terminates(Star(body), str, bol, Lift(cb))
  {
    if Nullable(body) {
      var no: (string, bool) -> bool := (rest: string, bol: bool) => false;
      forall fuel: nat ensures Eval(Star(body), "", true, Lift(no), fuel) == Deeper {
        NullableStarDiverges(body, no, fuel);
      }
      assert !Terminates(Star(body), "", true, Lift(no));
    } else {
      forall str: string, bol: bool, cb: (string, bool) -> bool ensures Terminates(Star(body), str, bol, Lift(cb)) {
        TameTerminates(Star(body), str, bol, cb, Lift(cb), |str| + Depth(Star(body)));
      }
    }
  }
}
