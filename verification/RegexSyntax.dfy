/** The language of regular expressions as a grammar, and that the parser accepts exactly its texts and
    gives each the meaning the grammar gives it (trivialre.h, ParseAlt, ParseRun and CompileCharSet). */
module RegexSyntax {
  import opened Options
  import opened Regex
  import opened RegexParser

  /** What can follow a term: a star, a plus, a question mark, in that order; a question mark right after
      a star or a plus says that it is lazy. */
  datatype Mark = Mark(star: bool, lazyStar: bool, plus: bool, lazyPlus: bool, option: bool)

  /** A member of a set: two characters with a dash, one behind a backslash, or one as it is. */
  datatype Item = Dash(a: char, b: char) | Quoted(ch: char) | One(ch: char)

  datatype Atom = Text(text: string) | Escape(ch: char) | Caret | Dollar | Period | Paren(inner: Alts)

  /** A group that means nothing is skipped, with a star behind it; a set ends its run. */
  datatype Run =
    | End
    | Then(atom: Atom, mark: Mark, rest: Run)
    | Skip(empty: Alts, starred: bool, more: Run)
    | Bracket(items: seq<Item>, negated: bool)

  datatype Alts = Last(run: Run) | Bar(run: Run, others: Alts)

  // ----- Marks -----

  function ShowStar(m: Mark): string {
    if m.star then (if m.lazyStar then "*?" else "*") else ""
  }

  function ShowPlus(m: Mark): string {
    if m.plus then (if m.lazyPlus then "+?" else "+") else ""
  }

  function ShowOption(m: Mark): string {
    if m.option then "?" else ""
  }

  function ShowMark(m: Mark): string {
    ShowStar(m) + (ShowPlus(m) + ShowOption(m))
  }

  predicate Unmarked(m: Mark) {
    !m.star && !m.plus && !m.option
  }

  /** A question mark that could be taken for laziness is laziness. */
  predicate MarkOk(m: Mark) {
    && (m.lazyStar ==> m.star) && (m.lazyPlus ==> m.plus)
    && (m.star && !m.lazyStar && !m.plus ==> !m.option)
    && (m.plus && !m.lazyPlus ==> !m.option)
  }

  function StarMeans(m: Mark, re: RE): RE {
    if m.star then Star(re) else re
  }

  function PlusMeans(m: Mark, re: RE): RE {
    if m.plus then Seq(re, Star(re)) else re
  }

  function OptionMeans(m: Mark, re: RE): RE {
    if m.option then Alt(Any, re) else re
  }

  /** Zero or more times, then one or more times, then perhaps not at all. */
  function MarkMeans(m: Mark, re: RE): RE {
    OptionMeans(m, PlusMeans(m, StarMeans(m, re)))
  }

  predicate IsMark(ch: char) {
    ch == '*' || ch == '+' || ch == '?'
  }

  predicate NoMark(str: string) {
    str == "" || !IsMark(str[0])
  }

  // ----- Sets -----

  function ShowItem(item: Item): string {
    match item
    case Dash(a, b) => [a, '-', b]
    case Quoted(ch) => ['\\', ch]
    case One(ch) => [ch]
  }

  function ShowItems(items: seq<Item>): string {
    if items == [] then "" else ShowItem(items[0]) + ShowItems(items[1..])
  }

  function RangeOf(item: Item): (char, char) {
    match item
    case Dash(a, b) => (a, b)
    case Quoted(ch) => (ch, ch)
    case One(ch) => (ch, ch)
  }

  function RangesOf(items: seq<Item>): seq<(char, char)> {
    if items == [] then [] else [RangeOf(items[0])] + RangesOf(items[1..])
  }

  /** The item cannot be taken for another, given what comes next. */
  predicate ItemOk(item: Item, next: string) {
    match item
    case Dash(a, b) => a != ']' && b != ']'
    case Quoted(ch) => ch == '-' ==> IsCharAt(next, 0, ']')
    case One(ch) => ch != ']' && ch != '\\' && (IsCharAt(next, 0, '-') ==> IsCharAt(next, 1, ']'))
  }

  predicate ItemsOk(items: seq<Item>) {
    items != [] ==> ItemOk(items[0], ShowItems(items[1..]) + "]") && ItemsOk(items[1..])
  }

  predicate BracketOk(items: seq<Item>, negated: bool) {
    ItemsOk(items) && (negated || !IsCharAt(ShowItems(items), 0, '^'))
  }

  // ----- Terms, runs and alternatives -----

  function ShowAtom(atom: Atom): string {
    match atom
    case Text(text) => text
    case Escape(ch) => ['\\', ch]
    case Caret => "^"
    case Dollar => "$"
    case Period => "."
    case Paren(inner) => "(" + ShowAlts(inner) + ")"
  }

  function ShowRun(run: Run): string {
    match run
    case End => ""
    case Then(atom, mark, rest) => ShowAtom(atom) + (ShowMark(mark) + ShowRun(rest))
    case Skip(empty, starred, more) => "(" + ShowAlts(empty) + ")" + ((if starred then "*" else "") + ShowRun(more))
    case Bracket(items, negated) => "[" + ((if negated then "^" else "") + (ShowItems(items) + "]"))
  }

  function ShowAlts(alts: Alts): string {
    match alts
    case Last(run) => ShowRun(run)
    case Bar(run, others) => ShowRun(run) + ("|" + ShowAlts(others))
  }

  /** What is not there matches the empty text. */
  function OrEmpty(re: Option<RE>): RE {
    if re.Some? then re.value else Any
  }

  function AtomMeans(atom: Atom): RE {
    match atom
    case Text(text) => Lit(text)
    case Escape(ch) => Lit([if ch == 'n' then '\n' else if ch == 't' then '\t' else ch])
    case Caret => LineStart
    case Dollar => LineEnd
    case Period => Dot
    case Paren(inner) => OrEmpty(AltsMean(inner))
  }

  function RunMeans(run: Run): Option<RE> {
    match run
    case End => None
    case Then(atom, mark, rest) =>
      var first := MarkMeans(mark, AtomMeans(atom));
      (match RunMeans(rest)
       case None => Some(first)
       case Some(second) => Some(Seq(first, second)))
    case Skip(_, _, more) => RunMeans(more)
    case Bracket(items, negated) => Some(CharSet(RangesOf(items), negated))
  }

  function AltsMean(alts: Alts): Option<RE> {
    match alts
    case Last(run) => RunMeans(run)
    case Bar(run, others) => Some(Alt(OrEmpty(RunMeans(run)), OrEmpty(AltsMean(others))))
  }

  lemma SpecialsAre(ch: char)
    ensures ch in SPECIALS <==> ch in {'(', ')', '[', ']', '{', '}', '.', '*', '|', '\\', '?', '+', '^', '$'}
  {
  }

  predicate Plain(text: string) {
    forall i :: 0 <= i < |text| ==> text[i] !in SPECIALS
  }

  predicate StartsText(run: Run) {
    run.Then? && run.atom.Text?
  }

  predicate AtomOk(atom: Atom) {
    match atom
    case Text(text) => text != "" && Plain(text)
    case Escape(ch) => ch == 'n' || ch == 't' || ch == ' ' || ch in SPECIALS
    case Paren(inner) => AltsOk(inner) && AltsMean(inner).Some?
    case _ => true
  }

  /** Marks bind one character of a text, and texts side by side are one text unless the second is marked. */
  predicate RunOk(run: Run) {
    match run
    case End => true
    case Then(atom, mark, rest) =>
      && AtomOk(atom) && MarkOk(mark) && RunOk(rest)
      && (atom.Text? && !Unmarked(mark) ==> |atom.text| == 1)
      && (atom.Text? && Unmarked(mark) && StartsText(rest) ==> !Unmarked(rest.mark))
    case Skip(empty, _, more) => AltsOk(empty) && AltsMean(empty).None? && RunOk(more)
    case Bracket(items, negated) => BracketOk(items, negated)
  }

  predicate AltsOk(alts: Alts) {
    match alts
    case Last(run) => RunOk(run)
    case Bar(run, others) => RunOk(run) && AltsOk(others)
  }

  // ----- Where things end -----

  /** Where a run ends: at the end of the text, a bar or a closing parenthesis. */
  predicate Stops(tail: string) {
    tail == "" || tail[0] == '|' || tail[0] == ')'
  }

  lemma StopParses(tail: string)
    requires Stops(tail)
    ensures ParseRun(tail) == Parsed(None, tail, false)
  {
    if tail != "" {
      assert SPECIALS[8] == '|' && SPECIALS[1] == ')';
      assert PlainPrefix(tail) == 0;
    }
  }

  lemma SpecialIsSpecial(str: string)
    requires str != "" && str[0] in SPECIALS
    ensures LitLength(str) == 0
  {
  }

  lemma {:induction false} PlainRead(text: string, tail: string)
    requires Plain(text) && (tail == "" || tail[0] in SPECIALS)
    ensures PlainPrefix(text + tail) == |text|
  {
    if text == "" {
      assert text + tail == tail;
    } else {
      assert text[0] !in SPECIALS;
      assert (text + tail)[1..] == text[1..] + tail;
      PlainRead(text[1..], tail);
    }
  }

  lemma MarkIsSpecial(ch: char)
    requires IsMark(ch)
    ensures ch in SPECIALS
  {
    assert SPECIALS[7] == '*' && SPECIALS[10] == '?' && SPECIALS[11] == '+';
  }

  // ----- Marks are read back -----

  lemma StarReads(m: Mark, re: RE, more: string)
    requires MarkOk(m) && !IsCharAt(more, 0, '*') && (m.star && !m.lazyStar ==> !IsCharAt(more, 0, '?'))
    ensures StarMark(Marked(re, ShowStar(m) + more)) == Marked(StarMeans(m, re), more)
  {
    var str := ShowStar(m) + more;
    if m.star {
      assert str[1..] == if m.lazyStar then "?" + more else more;
      assert ("?" + more)[1..] == more;
    } else {
      assert str == more;
    }
  }

  lemma PlusReads(m: Mark, re: RE, more: string)
    requires MarkOk(m) && !IsCharAt(more, 0, '+') && (m.plus && !m.lazyPlus ==> !IsCharAt(more, 0, '?'))
    ensures PlusMark(Marked(re, ShowPlus(m) + more)) == Marked(PlusMeans(m, re), more)
  {
    var str := ShowPlus(m) + more;
    if m.plus {
      assert str[1..] == if m.lazyPlus then "?" + more else more;
      assert ("?" + more)[1..] == more;
    } else {
      assert str == more;
    }
  }

  lemma OptionReads(m: Mark, re: RE, more: string)
    requires !IsCharAt(more, 0, '?')
    ensures OptionMark(Marked(re, ShowOption(m) + more)) == Marked(OptionMeans(m, re), more)
  {
    var str := ShowOption(m) + more;
    if m.option {
      assert str[1..] == more;
    } else {
      assert str == more;
    }
  }

  lemma MarksRead(m: Mark, re: RE, more: string)
    requires MarkOk(m) && NoMark(more)
    ensures Marks(re, ShowMark(m) + more) == Marked(MarkMeans(m, re), more)
  {
    var s2 := ShowOption(m) + more;
    var s1 := ShowPlus(m) + s2;
    assert ShowMark(m) + more == ShowStar(m) + s1;
    assert !IsCharAt(s2, 0, '+') && (m.plus && !m.lazyPlus ==> !IsCharAt(s2, 0, '?'));
    assert !IsCharAt(s1, 0, '*') && (m.star && !m.lazyStar ==> !IsCharAt(s1, 0, '?'));
    hide StarMark, PlusMark, OptionMark;
    StarReads(m, re, s1);
    PlusReads(m, StarMeans(m, re), s2);
    OptionReads(m, PlusMeans(m, StarMeans(m, re)), more);
  }

  lemma StarShown(m: Mark, re: RE, str: string)
    requires m.star == IsCharAt(str, 0, '*') && m.lazyStar == (m.star && IsCharAt(str, 1, '?'))
    ensures var more := StarMark(Marked(re, str)).rest;
      && str == ShowStar(m) + more && StarMark(Marked(re, str)).re == StarMeans(m, re)
      && (m.star && !m.lazyStar ==> !IsCharAt(more, 0, '?')) && (!m.star ==> more == str)
  {
  }

  lemma PlusShown(m: Mark, re: RE, str: string)
    requires m.plus == IsCharAt(str, 0, '+') && m.lazyPlus == (m.plus && IsCharAt(str, 1, '?'))
    ensures var more := PlusMark(Marked(re, str)).rest;
      && str == ShowPlus(m) + more && PlusMark(Marked(re, str)).re == PlusMeans(m, re)
      && (m.plus && !m.lazyPlus ==> !IsCharAt(more, 0, '?')) && (!m.plus ==> more == str)
  {
  }

  lemma OptionShown(m: Mark, re: RE, str: string)
    requires m.option == IsCharAt(str, 0, '?')
    ensures var more := OptionMark(Marked(re, str)).rest;
      str == ShowOption(m) + more && OptionMark(Marked(re, str)).re == OptionMeans(m, re) && (!m.option ==> more == str)
  {
  }

  /** Every text has marks at its start, if only none. */
  lemma ReadMarks(re: RE, str: string) returns (m: Mark)
    ensures MarkOk(m) && str == ShowMark(m) + Marks(re, str).rest && Marks(re, str).re == MarkMeans(m, re)
    ensures Unmarked(m) <==> NoMark(str)
    ensures Unmarked(m) ==> Marks(re, str).rest == str
  {
    hide StarMark, PlusMark, OptionMark, ShowStar, ShowPlus, ShowOption, StarMeans, PlusMeans, OptionMeans, IsCharAt;
    hide ShowMark, NoMark;
    NoMarkIff(str);
    var m1 := StarMark(Marked(re, str));
    var m2 := PlusMark(m1);
    var star, plus := IsCharAt(str, 0, '*'), IsCharAt(m1.rest, 0, '+');
    m := Mark(star, star && IsCharAt(str, 1, '?'), plus, plus && IsCharAt(m1.rest, 1, '?'), IsCharAt(m2.rest, 0, '?'));
    StarShown(m, re, str);
    PlusShown(m, m1.re, m1.rest);
    OptionShown(m, m2.re, m2.rest);
    MarkText(m, Marks(re, str).rest);
  }

  lemma NoMarkIff(str: string)
    ensures NoMark(str) <==> !IsCharAt(str, 0, '*') && !IsCharAt(str, 0, '+') && !IsCharAt(str, 0, '?')
  {
  }

  lemma MarkText(m: Mark, more: string)
    ensures ShowMark(m) + more == ShowStar(m) + (ShowPlus(m) + (ShowOption(m) + more))
  {
  }

  // ----- Sets are read back -----

  lemma ItemReads(item: Item, next: string)
    requires ItemOk(item, next) && next != ""
    ensures var str := ShowItem(item) + next;
      str != "" && str[0] != ']' && str != "\\" && FirstRange(str) == (RangeOf(item), next)
  {
    var str := ShowItem(item) + next;
    assert item.Dash? ==> str[3..] == next;
    assert item.Quoted? ==> str[2..] == next;
    assert item.One? ==> str[1..] == next;
  }

  /** The next item is judged by the text up to the closing bracket. */
  lemma SameNext(item: Item, next: string, tail: string)
    requires ItemOk(item, next + "]")
    ensures ItemOk(item, next + ("]" + tail))
  {
    var short, long := next + "]", next + ("]" + tail);
    assert long[..|short|] == short;
    if IsCharAt(long, 0, '-') {
      assert next != "" && next[0] == '-';
    }
  }

  lemma {:induction false} ItemsRead(items: seq<Item>, tail: string)
    requires ItemsOk(items)
    ensures Ranges(ShowItems(items) + ("]" + tail)) == Set(RangesOf(items), "]" + tail)
  {
    var str := ShowItems(items) + ("]" + tail);
    if items == [] {
      assert str == "]" + tail;
    } else {
      var next := ShowItems(items[1..]) + ("]" + tail);
      assert str == ShowItem(items[0]) + next;
      SameNext(items[0], ShowItems(items[1..]), tail);
      ItemReads(items[0], next);
      ItemsRead(items[1..], tail);
    }
  }

  lemma BracketBody(items: seq<Item>, negated: bool, inner: string, tail: string)
    requires BracketOk(items, negated) && inner == ShowItems(items) + ("]" + tail)
    ensures CharSetAt((if negated then "^" else "") + inner) == Parsed(Some(CharSet(RangesOf(items), negated)), tail, false)
  {
    hide Ranges, ItemsOk;
    ItemsRead(items, tail);
    assert ("]" + tail)[1..] == tail;
    if negated {
      assert ("^" + inner)[1..] == inner;
    } else {
      assert "" + inner == inner;
      assert inner[0] == if ShowItems(items) == "" then ']' else ShowItems(items)[0];
    }
  }

  lemma BracketReads(items: seq<Item>, negated: bool, tail: string)
    requires BracketOk(items, negated)
    ensures ParseRun(ShowRun(Bracket(items, negated)) + tail) == Parsed(Some(CharSet(RangesOf(items), negated)), tail, false)
  {
    hide BracketOk, CharSetAt, ShowItems, RangesOf;
    var inner := ShowItems(items) + ("]" + tail);
    var body := (if negated then "^" else "") + inner;
    var str := ShowRun(Bracket(items, negated)) + tail;
    BracketBody(items, negated, inner, tail);
    assert str == "[" + body;
    assert SPECIALS[2] == '[';
    SpecialIsSpecial(str);
    assert str[1..] == body;
  }

  /** The first term of a set as an item. */
  function FirstItem(str: string): Item
    requires str != "" && str[0] != ']' && str != "\\"
  {
    if |str| > 2 && str[1] == '-' && str[2] != ']' then Dash(str[0], str[2])
    else if str[0] == '\\' then Quoted(str[1])
    else One(str[0])
  }

  lemma FirstItemShown(str: string)
    requires str != "" && str[0] != ']' && str != "\\"
    ensures str == ShowItem(FirstItem(str)) + FirstRange(str).1 && RangeOf(FirstItem(str)) == FirstRange(str).0
  {
  }

  lemma RangesStep(str: string)
    ensures str == "" || str[0] == ']' || str == "\\" ==> Ranges(str) == Set([], str)
    ensures !(str == "" || str[0] == ']' || str == "\\") ==>
      var more := Ranges(FirstRange(str).1); Ranges(str) == Set([FirstRange(str).0] + more.ranges, more.rest)
  {
  }

  lemma MoreItems(item: Item, more: seq<Item>)
    ensures ShowItems([item] + more) == ShowItem(item) + ShowItems(more)
    ensures RangesOf([item] + more) == [RangeOf(item)] + RangesOf(more)
    ensures ItemsOk([item] + more) <==> ItemOk(item, ShowItems(more) + "]") && ItemsOk(more)
  {
    assert ([item] + more)[1..] == more;
  }

  lemma {:induction false} ReadItems(str: string) returns (items: seq<Item>)
    requires IsCharAt(Ranges(str).rest, 0, ']')
    ensures ItemsOk(items) && str == ShowItems(items) + Ranges(str).rest && RangesOf(items) == Ranges(str).ranges
    decreases |str|
  {
    RangesStep(str);
    hide Ranges, ItemOk, ShowItem, RangeOf, FirstItem, IsCharAt, FirstRange;
    if str == "" || str[0] == ']' || str == "\\" {
      items := [];
      assert "" + str == str;
    } else {
      var item, next := FirstItem(str), FirstRange(str).1;
      FirstItemShown(str);
      var more := ReadItems(next);
      hide ItemsOk, ShowItems, RangesOf;
      FirstItemOk(str, ShowItems(more), Ranges(str).rest);
      MoreItems(item, more);
      items := [item] + more;
      assert ShowItem(item) + (ShowItems(more) + Ranges(str).rest) == (ShowItem(item) + ShowItems(more)) + Ranges(str).rest;
    }
  }

  lemma FirstItemOk(str: string, next: string, rest: string)
    requires str != "" && str[0] != ']' && str != "\\" && FirstRange(str).1 == next + rest && IsCharAt(rest, 0, ']')
    ensures ItemOk(FirstItem(str), next + "]")
  {
    var item := FirstItem(str);
    assert str == ShowItem(item) + (next + rest) by { FirstItemShown(str); }
    assert item.Quoted? ==> str[2..] == next + rest;
    assert item.One? ==> str[1..] == next + rest;
    assert (next + rest)[..|next| + 1] == next + "]";
  }

  lemma ReadBracket(str: string) returns (items: seq<Item>, negated: bool)
    requires !CharSetAt(str).noted
    ensures BracketOk(items, negated)
    ensures str == (if negated then "^" else "") + (ShowItems(items) + ("]" + CharSetAt(str).rest))
    ensures CharSetAt(str).re == Some(CharSet(RangesOf(items), negated))
  {
    hide Ranges, ItemsOk, ShowItems, RangesOf;
    negated := IsCharAt(str, 0, '^');
    var inner := if negated then str[1..] else str;
    items := ReadItems(inner);
    var rest := Ranges(inner).rest;
    assert rest == "]" + rest[1..];
    assert ShowItems(items) != "" ==> inner[0] == ShowItems(items)[0];
  }

  // ----- Texts are read back -----

  /** A text is one literal, up to where its last character has marks of its own. */
  lemma TextLength(text: string, after: string)
    requires text != "" && Plain(text) && (after == "" || after[0] in SPECIALS) && (|text| > 1 ==> NoMark(after))
    ensures LitLength(text + after) == |text|
  {
    hide PlainPrefix;
    PlainRead(text, after);
  }

  lemma TextBeforeMarked(text: string, ch: char, after: string)
    requires text != "" && Plain(text) && ch !in SPECIALS && after != "" && IsMark(after[0])
    ensures LitLength(text + ([ch] + after)) == |text|
  {
    hide PlainPrefix;
    MarkIsSpecial(after[0]);
    PlainRead(text + [ch], after);
    assert (text + [ch]) + after == text + ([ch] + after);
  }

  lemma TextReads(text: string, after: string)
    requires text != "" && LitLength(text + after) == |text|
    ensures ParseRun(text + after) == MaybeStar(Lit(text), after)
  {
    hide MaybeStar, LitLength;
    assert (text + after)[..|text|] == text && (text + after)[|text|..] == after;
  }

  lemma EscapeReads(ch: char, after: string)
    requires AtomOk(Escape(ch))
    ensures ParseRun("\\" + [ch] + after) == MaybeStar(AtomMeans(Escape(ch)), after)
  {
    hide MaybeStar;
    var str := "\\" + [ch] + after;
    assert SPECIALS[9] == '\\';
    SpecialIsSpecial(str);
    assert str[2..] == after;
    assert 'n' !in SPECIALS && 't' !in SPECIALS;
  }

  lemma SignReads(atom: Atom, after: string)
    requires atom.Caret? || atom.Dollar? || atom.Period?
    ensures ParseRun(ShowAtom(atom) + after) == MaybeStar(AtomMeans(atom), after)
  {
    hide MaybeStar;
    var str := ShowAtom(atom) + after;
    assert SPECIALS[12] == '^' && SPECIALS[13] == '$' && SPECIALS[6] == '.';
    SpecialIsSpecial(str);
    assert str[1..] == after;
  }

  lemma GroupReads(str: string)
    ensures ParseRun("(" + str) == ParseGroup(str)
  {
    hide ParseGroup;
    assert SPECIALS[0] == '(';
    SpecialIsSpecial("(" + str);
    assert ("(" + str)[1..] == str;
  }

  // ----- Every text of the grammar is read with its meaning -----

  /** No run starts with a mark; and it starts with a plain character exactly if it starts with a text. */
  lemma RunStart(run: Run, tail: string)
    requires RunOk(run) && Stops(tail)
    ensures NoMark(ShowRun(run) + tail)
    ensures StartsText(run) ==> ShowRun(run) != "" && ShowRun(run)[0] !in SPECIALS
    ensures !StartsText(run) ==> ShowRun(run) + tail == "" || (ShowRun(run) + tail)[0] in SPECIALS
  {
    hide ShowAlts, ShowItems, ShowMark, RunOk, AltsOk, BracketOk;
    RunParts(run);
    assert SPECIALS[9] == '\\' && SPECIALS[12] == '^' && SPECIALS[13] == '$' && SPECIALS[6] == '.';
    assert SPECIALS[0] == '(' && SPECIALS[1] == ')' && SPECIALS[2] == '[' && SPECIALS[8] == '|';
    MarkIsSpecial('*');
    MarkIsSpecial('+');
    MarkIsSpecial('?');
  }

  lemma RunParts(run: Run)
    requires RunOk(run)
    ensures run.Then? ==> AtomOk(run.atom) && MarkOk(run.mark) && RunOk(run.rest)
    ensures run.Then? && run.atom.Text? && !Unmarked(run.mark) ==> |run.atom.text| == 1
    ensures run.Then? && run.atom.Text? && Unmarked(run.mark) && StartsText(run.rest) ==> !Unmarked(run.rest.mark)
    ensures run.Skip? ==> AltsOk(run.empty) && AltsMean(run.empty).None? && RunOk(run.more)
    ensures run.Bracket? ==> BracketOk(run.items, run.negated)
  {
  }

  lemma MarkedText(run: Run)
    requires RunOk(run) && StartsText(run) && !Unmarked(run.mark)
    ensures var text := ShowRun(run); |text| > 1 && text[0] !in SPECIALS && IsMark(text[1])
  {
    hide RunOk, ShowRun;
    RunParts(run);
    RunText(run);
    assert ShowMark(run.mark) != "" && IsMark(ShowMark(run.mark)[0]);
  }

  lemma RunText(run: Run)
    ensures run.Then? ==> ShowRun(run) == ShowAtom(run.atom) + (ShowMark(run.mark) + ShowRun(run.rest))
  {
  }

  lemma ThenText(run: Run, tail: string)
    requires run.Then?
    ensures ShowRun(run) + tail == ShowAtom(run.atom) + (ShowMark(run.mark) + (ShowRun(run.rest) + tail))
  {
    hide ShowAtom, ShowMark, ShowAlts;
  }

  lemma TextFits(run: Run, tail: string)
    requires RunOk(run) && StartsText(run) && Stops(tail)
    ensures var after := ShowMark(run.mark) + (ShowRun(run.rest) + tail); LitLength(run.atom.text + after) == |run.atom.text|
  {
    hide RunOk, ShowRun, LitLength;
    RunParts(run);
    RunStart(run.rest, tail);
    var text, more := run.atom.text, ShowRun(run.rest) + tail;
    var after := ShowMark(run.mark) + more;
    if Unmarked(run.mark) {
      assert ShowMark(run.mark) == "" && after == more;
      if StartsText(run.rest) {
        MarkedText(run.rest);
        assert more == [more[0]] + more[1..];
        TextBeforeMarked(text, more[0], more[1..]);
      } else {
        TextLength(text, after);
      }
    } else {
      assert IsMark(after[0]);
      MarkIsSpecial(after[0]);
      TextLength(text, after);
    }
  }

  lemma ParenReads(inner: Alts, after: string)
    requires ParseAlt(ShowAlts(inner) + (")" + after)) == Parsed(AltsMean(inner), ")" + after, false)
    ensures AltsMean(inner).Some? ==> ParseRun("(" + ShowAlts(inner) + ")" + after) == MaybeStar(OrEmpty(AltsMean(inner)), after)
    ensures AltsMean(inner).None? ==>
      ParseRun("(" + ShowAlts(inner) + ")" + after) == ParseRun(if IsCharAt(after, 0, '*') then after[1..] else after)
  {
    hide ParseAlt, MaybeStar, ShowAlts, AltsMean, ParseRun;
    assert "(" + ShowAlts(inner) + ")" + after == "(" + (ShowAlts(inner) + (")" + after));
    GroupReads(ShowAlts(inner) + (")" + after));
    assert (")" + after)[1..] == after;
  }

  /** A term is read up to its marks. */
  lemma {:induction false} AtomReads(run: Run, tail: string)
    requires RunOk(run) && run.Then? && Stops(tail)
    ensures ParseRun(ShowRun(run) + tail) == MaybeStar(AtomMeans(run.atom), ShowMark(run.mark) + (ShowRun(run.rest) + tail))
    decreases run, 0
  {
    var atom, after := run.atom, ShowMark(run.mark) + (ShowRun(run.rest) + tail);
    ThenText(run, tail);
    RunParts(run);
    hide MaybeStar, ParseRun, ShowRun, ShowMark, RunOk, ParseAlt, LitLength;
    match atom
    case Text(text) =>
      TextFits(run, tail);
      TextReads(text, after);
    case Escape(ch) =>
      assert ShowAtom(atom) + after == "\\" + [ch] + after;
      EscapeReads(ch, after);
    case Paren(inner) =>
      AltsRead(inner, ")" + after);
      ParenReads(inner, after);
    case _ => SignReads(atom, after);
  }

  lemma {:induction false} RunReads(run: Run, tail: string)
    requires RunOk(run) && Stops(tail)
    ensures ParseRun(ShowRun(run) + tail) == Parsed(RunMeans(run), tail, false)
    decreases run, 1
  {
    hide ParseAlt, ShowAlts, ShowAtom, ShowMark, AtomMeans, MarkMeans, Marks;
    RunParts(run);
    match run
    case End =>
      assert "" + tail == tail;
      StopParses(tail);
    case Then(atom, mark, rest) =>
      AtomReads(run, tail);
      RunStart(rest, tail);
      MarksRead(mark, AtomMeans(atom), ShowRun(rest) + tail);
      RunReads(rest, tail);
    case Skip(_, _, _) => SkipReads(run, tail);
    case Bracket(items, negated) => BracketReads(items, negated, tail);
  }

  lemma {:induction false} SkipReads(run: Run, tail: string)
    requires RunOk(run) && run.Skip? && Stops(tail)
    ensures ParseRun(ShowRun(run) + tail) == Parsed(RunMeans(run), tail, false)
    decreases run, 0
  {
    var after := (if run.starred then "*" else "") + (ShowRun(run.more) + tail);
    RunParts(run);
    SkipText(run, tail);
    hide ParseRun, ParseAlt, ShowRun, ShowAlts, RunOk, AltsOk;
    AltsRead(run.empty, ")" + after);
    ParenReads(run.empty, after);
    RunStart(run.more, tail);
    RunReads(run.more, tail);
    if run.starred {
      assert after[1..] == ShowRun(run.more) + tail;
    } else {
      assert after == ShowRun(run.more) + tail;
    }
  }

  lemma SkipText(run: Run, tail: string)
    requires run.Skip?
    ensures ShowRun(run) + tail ==
      "(" + ShowAlts(run.empty) + ")" + ((if run.starred then "*" else "") + (ShowRun(run.more) + tail))
  {
    hide ShowAlts;
  }

  lemma {:induction false} AltsRead(alts: Alts, tail: string)
    requires AltsOk(alts) && (tail == "" || tail[0] == ')')
    ensures ParseAlt(ShowAlts(alts) + tail) == Parsed(AltsMean(alts), tail, false)
    decreases alts, 2
  {
    hide ParseRun, ShowRun, RunOk, RunMeans;
    match alts
    case Last(run) => RunReads(run, tail);
    case Bar(run, others) =>
      var rest := "|" + (ShowAlts(others) + tail);
      assert ShowAlts(alts) + tail == ShowRun(run) + rest;
      RunReads(run, rest);
      assert rest[1..] == ShowAlts(others) + tail;
      AltsRead(others, tail);
  }

  /** Every text of the grammar compiles to its meaning; one without any means the empty expression. */
  lemma ShownCompiles(alts: Alts)
    requires AltsOk(alts)
    ensures Compile(ShowAlts(alts)) == Some(OrEmpty(AltsMean(alts)))
  {
    AltsRead(alts, "");
    assert ShowAlts(alts) + "" == ShowAlts(alts);
  }

  // ----- Whatever compiles is a text of the grammar -----

  lemma {:induction false} PrefixIsPlain(str: string)
    ensures Plain(str[..PlainPrefix(str)])
    ensures PlainPrefix(str) < |str| ==> str[PlainPrefix(str)] in SPECIALS
  {
    if str != "" && str[0] !in SPECIALS {
      PrefixIsPlain(str[1..]);
      var n := PlainPrefix(str[1..]);
      assert str[..n + 1] == [str[0]] + str[1..][..n];
    }
  }

  lemma {:induction false} DropPlain(str: string, k: nat)
    requires k <= PlainPrefix(str)
    ensures PlainPrefix(str[k..]) == PlainPrefix(str) - k
  {
    if k == 0 {
      assert str[0..] == str;
    } else {
      DropPlain(str[1..], k - 1);
      assert str[1..][k - 1..] == str[k..];
    }
  }

  /** The text starts with a literal. */
  predicate PlainStart(str: string) {
    str != "" && str[0] !in SPECIALS
  }

  /** The literal at the start of a text has a mark. */
  predicate MarkedStart(str: string) {
    LitLength(str) < |str| && IsMark(str[LitLength(str)])
  }

  lemma LitIsText(str: string)
    ensures LitLength(str) > 0 <==> PlainStart(str)
    ensures Plain(str[..LitLength(str)])
    ensures PlainStart(str) && MarkedStart(str) ==> LitLength(str) == 1
    ensures var rest := str[LitLength(str)..]; PlainStart(str) && PlainStart(rest) ==> MarkedStart(rest)
  {
    PrefixIsPlain(str);
    var n, plain := LitLength(str), PlainPrefix(str);
    assert str[..n] == str[..plain][..n];
    forall k | 0 <= k < plain
      ensures str[k] !in SPECIALS
    {
      assert str[..plain][k] == str[k];
    }
    if n < |str| && IsMark(str[n]) {
      MarkIsSpecial(str[n]);
    }
    DropPlain(str, n);
  }

  /** Its first run, if the text starts with a literal, starts with it. */
  ghost predicate Starts(run: Run, str: string) {
    && (StartsText(run) <==> PlainStart(str))
    && (StartsText(run) ==> (Unmarked(run.mark) <==> !MarkedStart(str)))
  }

  /** The parser has read `run` off `str`. */
  ghost predicate HasRead(run: Run, str: string, p: Parsed) {
    RunOk(run) && str == ShowRun(run) + p.rest && RunMeans(run) == p.re && Starts(run, str)
  }

  lemma ThenIsRead(run: Run, str: string, shown: string, after: string, next: string, p: Parsed)
    requires run.Then? && shown == ShowAtom(run.atom) && str == shown + after && after == ShowMark(run.mark) + next
    requires next == ShowRun(run.rest) + p.rest
    ensures str == ShowRun(run) + p.rest
  {
    hide ShowAtom, ShowMark;
    RunText(run);
    hide ShowRun;
  }

  /** A term and its marks, read off `str` up to `after`. */
  lemma {:induction false} ReadTerm(atom: Atom, str: string, after: string) returns (run: Run)
    requires |after| < |str| && str == ShowAtom(atom) + after && AtomOk(atom) && !MaybeStar(AtomMeans(atom), after).noted
    requires atom.Text? ==> PlainStart(str) && |atom.text| == LitLength(str)
    requires !atom.Text? ==> !PlainStart(str)
    ensures HasRead(run, str, MaybeStar(AtomMeans(atom), after))
    decreases |str|, 0
  {
    var re := AtomMeans(atom);
    var p := MaybeStar(re, after);
    var m := ReadMarks(re, after);
    var next := Marks(re, after).rest;
    hide ParseRun, RunOk, ShowRun, ShowMark, ShowAtom, AtomOk, Marks, AtomMeans, LitLength, MarkMeans, HasRead;
    var rest := ReadRun(next);
    HasReadMeans(rest, next, ParseRun(next));
    run := Then(atom, m, rest);
    ThenIsRead(run, str, ShowAtom(atom), after, next, p);
    TermOk(run, str, after, next);
    TermMeans(run, re, next, p);
    HasReadIf(run, str, p);
  }

  lemma TermMeans(run: Run, re: RE, next: string, p: Parsed)
    requires run.Then? && re == AtomMeans(run.atom) && RunMeans(run.rest) == ParseRun(next).re
    requires p.re == Some(MaybeSeq(MarkMeans(run.mark, re), ParseRun(next).re))
    ensures RunMeans(run) == p.re
  {
    hide ParseRun, AtomMeans, MarkMeans;
  }

  lemma HasReadMeans(run: Run, str: string, p: Parsed)
    requires HasRead(run, str, p)
    ensures RunOk(run) && str == ShowRun(run) + p.rest && RunMeans(run) == p.re && Starts(run, str)
  {
  }

  lemma HasReadIf(run: Run, str: string, p: Parsed)
    requires RunOk(run) && str == ShowRun(run) + p.rest && RunMeans(run) == p.re && Starts(run, str)
    ensures HasRead(run, str, p)
  {
  }

  lemma TermOk(run: Run, str: string, after: string, next: string)
    requires run.Then? && AtomOk(run.atom) && MarkOk(run.mark) && RunOk(run.rest) && Starts(run.rest, next)
    requires (Unmarked(run.mark) <==> NoMark(after)) && (Unmarked(run.mark) ==> next == after)
    requires str == ShowAtom(run.atom) + after
    requires run.atom.Text? ==> PlainStart(str) && |run.atom.text| == LitLength(str)
    requires !run.atom.Text? ==> !PlainStart(str)
    ensures RunOk(run) && Starts(run, str)
  {
    hide LitLength, AtomOk, MarkOk;
    if run.atom.Text? {
      LitIsText(str);
      assert str[|run.atom.text|..] == after;
      assert after != "" ==> str[|run.atom.text|] == after[0];
    }
  }

  lemma {:induction false} ReadRun(str: string) returns (run: Run)
    requires !ParseRun(str).noted
    ensures HasRead(run, str, ParseRun(str))
    decreases |str|, 3
  {
    hide HasRead, MaybeStar;
    LitIsText(str);
    var n := LitLength(str);
    hide LitLength;
    if n > 0 {
      assert str == str[..n] + str[n..];
      run := ReadTerm(Text(str[..n]), str, str[n..]);
    } else if str == "" {
      run := NothingRead(str);
    } else if str[0] == '\\' && |str| > 1 {
      run := ReadEscape(str);
    } else {
      run := ReadSpecial(str);
    }
  }

  lemma NothingRead(str: string) returns (run: Run)
    requires !PlainStart(str)
    ensures HasRead(run, str, Parsed(None, str, false))
  {
    run := End;
    assert "" + str == str;
  }

  lemma {:induction false} ReadEscape(str: string) returns (run: Run)
    requires |str| > 1 && str[0] == '\\' && !PlainStart(str) && !ParseEscape(str).noted
    ensures HasRead(run, str, ParseEscape(str))
    decreases |str|, 1
  {
    hide HasRead, MaybeStar;
    if Escaped(str[1]).Some? {
      assert str == ['\\', str[1]] + str[2..];
      run := ReadTerm(Escape(str[1]), str, str[2..]);
    } else {
      run := NothingRead(str);
    }
  }

  lemma {:induction false} ReadSpecial(str: string) returns (run: Run)
    requires str != "" && !PlainStart(str) && !ParseSpecial(str).noted
    ensures HasRead(run, str, ParseSpecial(str))
    decreases |str|, 2
  {
    hide HasRead, MaybeStar, ParseGroup, CharSetAt;
    assert str == [str[0]] + str[1..];
    if str[0] == '^' {
      run := ReadTerm(Caret, str, str[1..]);
    } else if str[0] == '$' {
      run := ReadTerm(Dollar, str, str[1..]);
    } else if str[0] == '.' {
      run := ReadTerm(Period, str, str[1..]);
    } else if str[0] == '[' {
      run := ReadSet(str);
    } else if str[0] == '(' {
      run := ReadGroup(str);
    } else {
      run := NothingRead(str);
    }
  }

  lemma ReadSet(str: string) returns (run: Run)
    requires str != "" && str[0] == '[' && !PlainStart(str) && !CharSetAt(str[1..]).noted
    ensures HasRead(run, str, CharSetAt(str[1..]))
  {
    hide CharSetAt, ShowItems, RangesOf, BracketOk;
    var items, negated := ReadBracket(str[1..]);
    run := Bracket(items, negated);
    assert str == "[" + str[1..];
    var rest := CharSetAt(str[1..]).rest;
    var sign := if negated then "^" else "";
    assert "[" + (sign + (ShowItems(items) + ("]" + rest))) == "[" + (sign + (ShowItems(items) + "]")) + rest;
  }

  lemma {:induction false} ReadGroup(str: string) returns (run: Run)
    requires str != "" && str[0] == '(' && !PlainStart(str) && !ParseGroup(str[1..]).noted
    ensures HasRead(run, str, ParseGroup(str[1..]))
    decreases |str|, 1
  {
    hide HasRead, MaybeStar, ParseAlt, ParseRun, AltsOk, ShowAlts, AltsMean;
    var nested := ParseAlt(str[1..]);
    var alts := ReadAlts(str[1..]);
    var after := nested.rest[1..];
    assert str == "(" + ShowAlts(alts) + ")" + after by {
      assert str == "(" + str[1..] && nested.rest == ")" + after;
    }
    if nested.re.Some? {
      run := ReadTerm(Paren(alts), str, after);
    } else {
      run := ReadSkip(alts, str, after);
    }
  }

  lemma SkipOk(alts: Alts, starred: bool, more: Run)
    requires AltsOk(alts) && AltsMean(alts).None? && RunOk(more)
    ensures RunOk(Skip(alts, starred, more)) && RunMeans(Skip(alts, starred, more)) == RunMeans(more)
  {
  }

  lemma {:induction false} ReadSkip(alts: Alts, str: string, after: string) returns (run: Run)
    requires |after| < |str| && str == "(" + ShowAlts(alts) + ")" + after && AltsOk(alts) && AltsMean(alts).None?
    requires !ParseRun(if IsCharAt(after, 0, '*') then after[1..] else after).noted && !PlainStart(str)
    ensures HasRead(run, str, ParseRun(if IsCharAt(after, 0, '*') then after[1..] else after))
    decreases |str|, 0
  {
    hide HasRead, ParseRun, AltsOk, ShowAlts, AltsMean, ShowRun, RunOk, RunMeans, PlainStart;
    var starred := IsCharAt(after, 0, '*');
    var next := if starred then after[1..] else after;
    var more := ReadRun(next);
    run := Skip(alts, starred, more);
    HasReadMeans(more, next, ParseRun(next));
    assert after == (if starred then "*" else "") + next;
    SkipText(run, ParseRun(next).rest);
    SkipOk(alts, starred, more);
    HasReadIf(run, str, ParseRun(next));
  }

  lemma {:induction false} ReadAlts(str: string) returns (alts: Alts)
    requires !ParseAlt(str).noted
    ensures AltsOk(alts) && str == ShowAlts(alts) + ParseAlt(str).rest && AltsMean(alts) == ParseAlt(str).re
    decreases |str|, 4
  {
    hide HasRead, ParseRun, RunOk, ShowRun, RunMeans;
    var l := ParseRun(str);
    var run := ReadRun(str);
    HasReadMeans(run, str, l);
    if IsCharAt(l.rest, 0, '|') {
      var others := ReadAlts(l.rest[1..]);
      alts := Bar(run, others);
      assert l.rest == "|" + l.rest[1..];
    } else {
      alts := Last(run);
    }
  }

  /** A text compiles exactly if it is a text of the grammar, and then to what the grammar says. */
  lemma CompileIff(str: string, re: RE)
    ensures Compile(str) == Some(re) <==> exists alts :: AltsOk(alts) && ShowAlts(alts) == str && OrEmpty(AltsMean(alts)) == re
  {
    hide ParseAlt, AltsOk, ShowAlts, AltsMean;
    if Compile(str) == Some(re) {
      var alts := ReadAlts(str);
      assert ShowAlts(alts) + "" == ShowAlts(alts);
    }
    if alts :| AltsOk(alts) && ShowAlts(alts) == str && OrEmpty(AltsMean(alts)) == re {
      ShownCompiles(alts);
    }
  }
}
