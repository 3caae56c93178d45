/** Which expressions can be written down, how to write them so that the parser reads them back, what a
    mark binds to, and the set that ends its run. */
module RegexPrinter {
  import opened Options
  import opened Regex
  import opened RegexParser
  import opened RegexSyntax

  // ----- What can be written -----

  /** A closing bracket cannot be an end of a longer range, nor a caret its start in front. */
  predicate WritableRanges(ranges: seq<(char, char)>, negated: bool) {
    && (forall i :: 0 <= i < |ranges| ==> ranges[i].0 == ranges[i].1 || (ranges[i].0 != ']' && ranges[i].1 != ']'))
    && (ranges != [] && ranges[0].0 == '^' ==> negated || ranges[0].1 == '^')
  }

  /** Literals do not mix plain and special characters, and the empty expression stands only alone or as
      an alternative. */
  predicate Writable(re: RE) {
    match re
    case Lit(text) => text != "" && (Plain(text) || |text| == 1)
    case Seq(l, r) => Writable(l) && Writable(r)
    case Alt(l, r) => (l.Any? || Writable(l)) && (r.Any? || Writable(r))
    case Star(body) => Writable(body)
    case CharSet(ranges, negated) => WritableRanges(ranges, negated)
    case Any => false
    case _ => true
  }

  // ----- Writing -----

  const NO_MARK := Mark(false, false, false, false, false)
  const STAR := Mark(true, false, false, false, false)

  function ItemOf(range: (char, char)): Item {
    if range == (']', ']') || range == ('^', '^') then Quoted(range.0) else Dash(range.0, range.1)
  }

  function ItemsOf(ranges: seq<(char, char)>): seq<Item> {
    if ranges == [] then [] else [ItemOf(ranges[0])] + ItemsOf(ranges[1..])
  }

  /** The expression as a run, with its parts in groups. */
  function RunOf(re: RE): Run {
    match re
    case Lit(text) =>
      Then(if |text| == 1 && text[0] in SPECIALS then Escape(text[0]) else Text(text), NO_MARK, End)
    case Seq(l, r) => Then(Paren(Last(RunOf(l))), NO_MARK, Then(Paren(Last(RunOf(r))), NO_MARK, End))
    case Alt(l, r) => Then(Paren(Bar(RunOf(l), Last(RunOf(r)))), NO_MARK, End)
    case Star(body) => Then(Paren(Last(RunOf(body))), STAR, End)
    case CharSet(ranges, negated) => Bracket(ItemsOf(ranges), negated)
    case LineStart => Then(Caret, NO_MARK, End)
    case LineEnd => Then(Dollar, NO_MARK, End)
    case Any => End
  }

  function Print(re: RE): string {
    ShowRun(RunOf(re))
  }

  lemma {:induction false} ItemsOfOk(ranges: seq<(char, char)>)
    requires forall i :: 0 <= i < |ranges| ==> ranges[i].0 == ranges[i].1 || (ranges[i].0 != ']' && ranges[i].1 != ']')
    ensures ItemsOk(ItemsOf(ranges)) && RangesOf(ItemsOf(ranges)) == ranges
  {
    if ranges != [] {
      ItemsOfOk(ranges[1..]);
      assert ItemsOf(ranges)[1..] == ItemsOf(ranges[1..]);
    }
  }

  lemma BracketOfOk(ranges: seq<(char, char)>, negated: bool)
    requires WritableRanges(ranges, negated)
    ensures BracketOk(ItemsOf(ranges), negated) && RangesOf(ItemsOf(ranges)) == ranges
  {
    ItemsOfOk(ranges);
    hide ItemsOk, RangesOf;
    if ranges != [] {
      assert ShowItems(ItemsOf(ranges))[0] == ShowItem(ItemOf(ranges[0]))[0];
    }
  }

  lemma GroupOk(alts: Alts, m: Mark, rest: Run)
    requires AltsOk(alts) && AltsMean(alts).Some? && MarkOk(m) && RunOk(rest)
    ensures RunOk(Then(Paren(alts), m, rest))
    ensures RunMeans(Then(Paren(alts), m, rest)) == Some(MaybeSeq(MarkMeans(m, AltsMean(alts).value), RunMeans(rest)))
  {
    hide MarkOk, MarkMeans;
  }

  lemma LastOk(run: Run)
    requires RunOk(run)
    ensures AltsOk(Last(run)) && AltsMean(Last(run)) == RunMeans(run)
  {
  }

  lemma {:induction false} RunOfOk(re: RE)
    requires Writable(re) || re.Any?
    ensures RunOk(RunOf(re)) && RunMeans(RunOf(re)) == if re.Any? then None else Some(re)
  {
    match re
    case Seq(l, r) =>
      RunOfOk(l);
      RunOfOk(r);
      LastOk(RunOf(l));
      LastOk(RunOf(r));
      GroupOk(Last(RunOf(r)), NO_MARK, End);
      GroupOk(Last(RunOf(l)), NO_MARK, Then(Paren(Last(RunOf(r))), NO_MARK, End));
    case Alt(l, r) =>
      RunOfOk(l);
      RunOfOk(r);
      LastOk(RunOf(r));
      GroupOk(Bar(RunOf(l), Last(RunOf(r))), NO_MARK, End);
    case Star(body) =>
      RunOfOk(body);
      LastOk(RunOf(body));
      GroupOk(Last(RunOf(body)), STAR, End);
    case CharSet(ranges, negated) => BracketOfOk(ranges, negated);
    case Lit(text) => LitOfOk(text);
    case _ =>
  }

  lemma LitOfOk(text: string)
    requires text != "" && (Plain(text) || |text| == 1)
    ensures RunOk(RunOf(Lit(text))) && RunMeans(RunOf(Lit(text))) == Some(Lit(text))
  {
    if |text| == 1 && text[0] in SPECIALS {
      assert text == [text[0]];
      assert 'n' !in SPECIALS && 't' !in SPECIALS;
    }
  }

  /** Every expression that can be written is what its printed form compiles to. */
  lemma CompileReadsBack(re: RE)
    requires Writable(re) || re.Any?
    ensures Compile(Print(re)) == Some(re)
  {
    hide RunOk, RunMeans, RunOf, ShowRun;
    RunOfOk(re);
    ShownCompiles(Last(RunOf(re)));
  }

  // ----- Nothing else can be written -----

  lemma {:induction false} RangesWritable(items: seq<Item>)
    requires ItemsOk(items)
    ensures |RangesOf(items)| == |items|
    ensures forall i :: 0 <= i < |items| ==>
      var range := RangesOf(items)[i]; range.0 == range.1 || (range.0 != ']' && range.1 != ']')
  {
    if items != [] {
      RangesWritable(items[1..]);
    }
  }

  lemma BracketWritable(items: seq<Item>, negated: bool)
    requires BracketOk(items, negated)
    ensures WritableRanges(RangesOf(items), negated)
  {
    RangesWritable(items);
    hide ItemsOk;
    if items != [] {
      assert RangesOf(items)[0] == RangeOf(items[0]);
      assert ShowItems(items)[0] == ShowItem(items[0])[0];
    }
  }

  lemma MarkWritable(m: Mark, re: RE)
    requires Writable(re)
    ensures Writable(MarkMeans(m, re))
  {
  }

  lemma {:induction false} AtomWritable(atom: Atom)
    requires AtomOk(atom)
    ensures Writable(AtomMeans(atom))
    decreases atom
  {
    match atom
    case Paren(inner) => AltsWritable(inner);
    case Period => assert WritableRanges(Dot.ranges, true);
    case _ =>
  }

  lemma {:induction false} RunWritable(run: Run)
    requires RunOk(run)
    ensures RunMeans(run).Some? ==> Writable(RunMeans(run).value)
    decreases run
  {
    hide MarkMeans, AtomMeans, WritableRanges, BracketOk;
    match run
    case End =>
    case Then(atom, mark, rest) =>
      AtomWritable(atom);
      MarkWritable(mark, AtomMeans(atom));
      RunWritable(rest);
    case Skip(_, _, more) => RunWritable(more);
    case Bracket(items, negated) => BracketWritable(items, negated);
  }

  lemma {:induction false} AltsWritable(alts: Alts)
    requires AltsOk(alts)
    ensures AltsMean(alts).Some? ==> Writable(AltsMean(alts).value)
    decreases alts
  {
    hide RunOk, RunMeans;
    match alts
    case Last(run) => RunWritable(run);
    case Bar(run, others) =>
      RunWritable(run);
      AltsWritable(others);
  }

  /** The results of compiling are exactly the expressions that can be written, and the empty one. */
  lemma WritableIff(re: RE)
    ensures (exists str :: Compile(str) == Some(re)) <==> Writable(re) || re.Any?
  {
    hide Compile, Writable, AltsOk, ShowAlts, AltsMean, Print;
    if str :| Compile(str) == Some(re) {
      CompileIff(str, re);
      var alts :| AltsOk(alts) && ShowAlts(alts) == str && OrEmpty(AltsMean(alts)) == re;
      AltsWritable(alts);
    }
    if Writable(re) || re.Any? {
      CompileReadsBack(re);
    }
  }

  // ----- What a mark binds to -----

  /** A text whose last character is marked, as two terms. */
  function LastMarked(text: string, m: Mark): Run
    requires |text| > 1
  {
    Then(Text(text[..|text| - 1]), NO_MARK, Then(Text(text[|text| - 1..]), m, End))
  }

  lemma Joined(a: string, b: string, c: string)
    ensures a + ("" + (b + (c + ""))) == (a + b) + c
  {
  }

  lemma LastMarkedShown(text: string, m: Mark)
    requires |text| > 1
    ensures ShowRun(LastMarked(text, m)) == text + ShowMark(m)
  {
    hide ShowMark, ShowRun;
    var n := |text| - 1;
    NoMarkShown();
    NothingShown();
    RunText(Then(Text(text[n..]), m, End));
    RunText(LastMarked(text, m));
    Joined(text[..n], text[n..], ShowMark(m));
    assert text[..n] + text[n..] == text;
  }

  lemma NothingShown()
    ensures ShowRun(End) == ""
  {
  }

  lemma LastMarkedMeans(text: string, m: Mark)
    requires |text| > 1 && Plain(text) && MarkOk(m) && !Unmarked(m)
    ensures RunOk(LastMarked(text, m))
    ensures var n := |text| - 1; RunMeans(LastMarked(text, m)) == Some(Seq(Lit(text[..n]), MarkMeans(m, Lit(text[n..]))))
  {
    hide MarkMeans;
    var n := |text| - 1;
    var last := Then(Text(text[n..]), m, End);
    assert RunOk(last) && RunMeans(last) == Some(MarkMeans(m, Lit(text[n..])));
    NoMarkMeans(Lit(text[..n]));
  }

  /** Marks after a text bind its last character only. */
  lemma MarkBindsLast(text: string, m: Mark)
    requires |text| > 1 && Plain(text) && MarkOk(m) && !Unmarked(m)
    ensures var n := |text| - 1; Compile(text + ShowMark(m)) == Some(Seq(Lit(text[..n]), MarkMeans(m, Lit(text[n..]))))
  {
    hide MarkMeans, ShowMark, ShowRun, RunOk, RunMeans, LastMarked, Compile;
    LastMarkedShown(text, m);
    LastMarkedMeans(text, m);
    LastOk(LastMarked(text, m));
    ShownCompiles(Last(LastMarked(text, m)));
  }

  lemma NoMarkShown()
    ensures ShowMark(NO_MARK) == "" && MarkOk(NO_MARK)
  {
  }

  lemma NoMarkMeans(re: RE)
    ensures MarkMeans(NO_MARK, re) == re
  {
  }

  /** The star, the plus and the question mark, and the lazy star and plus, after a text. */
  lemma EachMarkBindsLast(text: string)
    requires |text| > 1 && Plain(text)
    ensures var n := |text| - 1; var front, last := Lit(text[..n]), Lit(text[n..]);
      && Compile(text + "*") == Compile(text + "*?") == Some(Seq(front, Star(last)))
      && Compile(text + "+") == Compile(text + "+?") == Some(Seq(front, Seq(last, Star(last))))
      && Compile(text + "?") == Some(Seq(front, Alt(Any, last)))
  {
    hide Compile;
    var lazyStar, plus := Mark(true, true, false, false, false), Mark(false, false, true, false, false);
    var lazyPlus, option := Mark(false, false, true, true, false), Mark(false, false, false, false, true);
    assert ShowMark(STAR) == "*" && ShowMark(lazyStar) == "*?";
    assert ShowMark(plus) == "+" && ShowMark(lazyPlus) == "+?" && ShowMark(option) == "?";
    MarkBindsLast(text, STAR);
    MarkBindsLast(text, lazyStar);
    MarkBindsLast(text, plus);
    MarkBindsLast(text, lazyPlus);
    MarkBindsLast(text, option);
  }

  /** There is no lazy question mark: a second one is refused. */
  lemma NoLazyOption(text: string)
    requires text != "" && Plain(text)
    ensures Compile(text + "??") == None
  {
    var n := |text| - 1;
    var ch := text[n];
    var last := [ch] + "??";
    LoneMark();
    assert last[1..] == "??" && "??"[1..] == "?";
    TextLength([ch], "??");
    TextReads([ch], "??");
    assert ParseRun(last) == Parsed(Some(Alt(Any, Lit([ch]))), "?", false);
    if n == 0 {
      assert text + "??" == last;
    } else {
      assert text + "??" == text[..n] + last;
      TextBeforeMarked(text[..n], ch, "??");
      TextReads(text[..n], last);
      PlainHasNoMark(ch);
      assert Marks(Lit(text[..n]), last) == Marked(Lit(text[..n]), last);
    }
  }

  lemma LoneMark()
    ensures ParseRun("?") == Parsed(None, "?", false)
    ensures '?' in SPECIALS
  {
    MarkIsSpecial('?');
    SpecialIsSpecial("?");
  }

  lemma PlainHasNoMark(ch: char)
    requires ch !in SPECIALS
    ensures !IsMark(ch)
  {
    if IsMark(ch) {
      MarkIsSpecial(ch);
    }
  }

  // ----- A set of characters ends its run -----

  /** After a set nothing but a bar goes on: text that follows it is refused, in a sequence too. */
  lemma SetEndsRun(items: seq<Item>, negated: bool, tail: string)
    requires BracketOk(items, negated)
    ensures Compile(ShowRun(Bracket(items, negated)) + tail).Some? <==>
            tail == "" || (tail[0] == '|' && Compile(tail[1..]).Some?)
  {
    hide ShowRun, BracketOk;
    BracketReads(items, negated, tail);
  }

  lemma SetOfA()
    ensures var items := [One('a')];
      BracketOk(items, false) && ShowItems(items) == "a" && RangesOf(items) == [('a', 'a')]
  {
    assert [One('a')][1..] == [];
  }

  /** `[a]b` does not compile, `([a])b` does. */
  lemma SetNeedsGroup()
    ensures Compile("[a]b") == None
    ensures Compile("([a])b") == Some(Seq(CharSet([('a', 'a')], false), Lit("b")))
  {
    hide BracketOk, ShowItems, RangesOf, Compile;
    SetOfA();
    var letters, b := Bracket([One('a')], false), Then(Text("b"), NO_MARK, End);
    assert ShowRun(letters) == "[a]" && ShowRun(b) == "b";
    assert "[a]b" == ShowRun(letters) + "b";
    SetEndsRun([One('a')], false, "b");
    LastOk(letters);
    GroupOk(Last(letters), NO_MARK, b);
    var run := Then(Paren(Last(letters)), NO_MARK, b);
    assert ShowAtom(run.atom) == "([a])";
    assert ShowRun(run) == "([a])b";
    ShownCompiles(Last(run));
  }
}
