/** The recursive-descent parser of regular expressions. */
module RegexParser {
  import opened Options
  import opened Regex

  /** What was parsed, if anything, the text left over, and whether an error was noted. */
  datatype Parsed = Parsed(re: Option<RE>, rest: string, noted: bool)

  const SPECIALS := "()[]{}.*|\\?+^$"

  predicate IsCharAt(str: string, i: nat, ch: char) {
    i < |str| && str[i] == ch
  }

  ghost predicate Suffix(rest: string, str: string) {
    |rest| <= |str| && rest == str[|str| - |rest|..]
  }

  lemma SuffixOf(rest: string, middle: string, str: string)
    requires Suffix(rest, middle) && Suffix(middle, str)
    ensures Suffix(rest, str)
  {
    var k, m := |middle| - |rest|, |str| - |middle|;
    assert str[m..][k..] == str[m + k..];
  }

  lemma DropSuffix(str: string, k: nat)
    ensures k <= |str| ==> Suffix(str[k..], str)
  {
  }

  function OrAny(re: Option<RE>): RE {
    match re
    case None => Any
    case Some(r) => r
  }

  function MaybeSeq(left: RE, right: Option<RE>): RE {
    match right
    case None => left
    case Some(r) => Seq(left, r)
  }

  /** The number of characters before the first special one. */
  function PlainPrefix(str: string): (n: nat)
    ensures n <= |str|
  {
    if str == "" || str[0] in SPECIALS then 0 else 1 + PlainPrefix(str[1..])
  }

  // ----- Sets of characters -----

  /** The first term of a set and what follows it. */
  function FirstRange(str: string): (r: ((char, char), string))
    requires str != "" && str[0] != ']' && str != "\\"
    ensures |r.1| < |str|
  {
    if |str| > 2 && str[1] == '-' && str[2] != ']' then ((str[0], str[2]), str[3..])
    else if str[0] == '\\' then ((str[1], str[1]), str[2..])
    else ((str[0], str[0]), str[1..])
  }

  datatype Set = Set(ranges: seq<(char, char)>, rest: string)

  /** The ranges up to a closing bracket, or up to where the text ends too early. */
  function Ranges(str: string): (r: Set)
    ensures |r.rest| <= |str|
  {
    if str == "" || str[0] == ']' || str == "\\" then Set([], str) else
    var more := Ranges(FirstRange(str).1);
    Set([FirstRange(str).0] + more.ranges, more.rest)
  }

  /** The text just past an opening bracket. */
  function CharSetAt(str: string): (p: Parsed)
    ensures |p.rest| <= |str|
  {
    var negated := IsCharAt(str, 0, '^');
    var found := Ranges(if negated then str[1..] else str);
    if IsCharAt(found.rest, 0, ']') then Parsed(Some(CharSet(found.ranges, negated)), found.rest[1..], false)
    else Parsed(None, "", true)
  }

  /** The loop that collects the ranges of a set. */
  method CollectRanges(text: string) returns (ranges: seq<(char, char)>, rest: string)
    ensures Ranges(text) == Set(ranges, rest)
  {
    ranges, rest := [], text;
    while rest != "" && rest[0] != ']'
      invariant Ranges(text) == Set(ranges + Ranges(rest).ranges, Ranges(rest).rest)
      decreases |rest|
    {
      if rest == "\\" {
        break;
      }
      var range := FirstRange(rest);
      assert ranges + ([range.0] + Ranges(range.1).ranges) == (ranges + [range.0]) + Ranges(range.1).ranges;
      ranges, rest := ranges + [range.0], range.1;
    }
    assert ranges + [] == ranges;
  }

  // ----- Runs and alternatives -----

  function ParseAlt(str: string): (p: Parsed)
    ensures |p.rest| <= |str|
    decreases |str|, 2
  {
    var l := ParseRun(str);
    if IsCharAt(l.rest, 0, '|') then
      var r := ParseAlt(l.rest[1..]);
      Parsed(Some(Alt(OrAny(l.re), OrAny(r.re))), r.rest, l.noted || r.noted)
    else l
  }

  /** How much of a plain stretch becomes one literal: a star binds only its last character. */
  function LitLength(str: string): (n: nat)
    ensures n <= |str|
  {
    var plain := PlainPrefix(str);
    var starred := IsCharAt(str, plain, '*') || IsCharAt(str, plain, '+') || IsCharAt(str, plain, '?');
    if plain > 1 && starred then plain - 1 else plain
  }

  /** The character that an escape stands for. */
  function Escaped(ch: char): Option<char> {
    if ch == 'n' then Some('\n')
    else if ch == 't' then Some('\t')
    else if ch == ' ' || ch in SPECIALS then Some(ch)
    else None
  }

  function ParseRun(str: string): (p: Parsed)
    ensures |p.rest| <= |str|
    decreases |str|, 1
  {
    var n := LitLength(str);
    if n > 0 then MaybeStar(Lit(str[..n]), str[n..])
    else if str == "" then Parsed(None, str, false)
    else if str[0] == '\\' && |str| > 1 then ParseEscape(str)
    else ParseSpecial(str)
  }

  function ParseSpecial(str: string): (p: Parsed)
    requires str != ""
    ensures |p.rest| <= |str|
    decreases |str|, 0
  {
    if str[0] == '^' then MaybeStar(LineStart, str[1..])
    else if str[0] == '$' then MaybeStar(LineEnd, str[1..])
    else if str[0] == '.' then MaybeStar(Dot, str[1..])
    else if str[0] == '[' then CharSetAt(str[1..])
    else if str[0] == '(' then ParseGroup(str[1..])
    else Parsed(None, str, false)
  }

  function ParseEscape(str: string): (p: Parsed)
    requires |str| > 1
    ensures |p.rest| <= |str|
    decreases |str|, 0
  {
    match Escaped(str[1])
    case Some(ch) => MaybeStar(Lit([ch]), str[2..])
    case None => Parsed(None, str, false)
  }

  /** The text just past an opening parenthesis. An empty group is skipped, with its star. */
  function ParseGroup(str: string): (p: Parsed)
    ensures |p.rest| <= |str|
    decreases |str|, 3
  {
    var nested := ParseAlt(str);
    if !IsCharAt(nested.rest, 0, ')') then Parsed(None, "", true) else
    var after := nested.rest[1..];
    var p := match nested.re
      case Some(re) => MaybeStar(re, after)
      case None => ParseRun(if IsCharAt(after, 0, '*') then after[1..] else after);
    Parsed(p.re, p.rest, p.noted || nested.noted)
  }

  /** Laziness makes no difference to what is matched, so its mark is skipped. */
  function SkipLazy(str: string): string {
    if IsCharAt(str, 0, '?') then str[1..] else str
  }

  datatype Marked = Marked(re: RE, rest: string)

  function StarMark(m: Marked): Marked {
    if IsCharAt(m.rest, 0, '*') then Marked(Star(m.re), SkipLazy(m.rest[1..])) else m
  }

  function PlusMark(m: Marked): Marked {
    if IsCharAt(m.rest, 0, '+') then Marked(Seq(m.re, Star(m.re)), SkipLazy(m.rest[1..])) else m
  }

  function OptionMark(m: Marked): Marked {
    if IsCharAt(m.rest, 0, '?') then Marked(Alt(Any, m.re), m.rest[1..]) else m
  }

  /** The expression with the marks that follow it. */
  function Marks(left: RE, str: string): (m: Marked)
    ensures |m.rest| <= |str|
  {
    OptionMark(PlusMark(StarMark(Marked(left, str))))
  }

  function MaybeStar(left: RE, str: string): (p: Parsed)
    ensures |p.rest| <= |str|
    decreases |str|, 2
  {
    var m := Marks(left, str);
    var right := ParseRun(m.rest);
    Parsed(Some(MaybeSeq(m.re, right.re)), right.rest, right.noted)
  }

  /** The whole text must be an expression; anything else is an error. */
  function Compile(str: string): Option<RE> {
    var p := ParseAlt(str);
    if p.noted || p.rest != "" then None else Some(OrAny(p.re))
  }

  // ----- What is left over is a suffix of the input -----

  lemma FirstLeavesSuffix(str: string)
    requires str != "" && str[0] != ']' && str != "\\"
    ensures Suffix(FirstRange(str).1, str)
  {
    hide Suffix;
    DropSuffix(str, 1);
    DropSuffix(str, 2);
    DropSuffix(str, 3);
  }

  lemma {:induction false} RangesLeaveSuffix(str: string)
    ensures Suffix(Ranges(str).rest, str)
    decreases |str|
  {
    hide FirstRange, Suffix;
    if str != "" && str[0] != ']' && str != "\\" {
      FirstLeavesSuffix(str);
      RangesLeaveSuffix(FirstRange(str).1);
      SuffixOf(Ranges(str).rest, FirstRange(str).1, str);
    } else {
      DropSuffix(str, 0);
    }
  }

  lemma CharSetLeavesSuffix(str: string)
    ensures Suffix(CharSetAt(str).rest, str)
  {
    hide Suffix, Ranges;
    var inner := if IsCharAt(str, 0, '^') then str[1..] else str;
    var found := Ranges(inner);
    DropSuffix(str, 0);
    DropSuffix(str, 1);
    RangesLeaveSuffix(inner);
    SuffixOf(found.rest, inner, str);
    if IsCharAt(found.rest, 0, ']') {
      DropSuffix(found.rest, 1);
      SuffixOf(found.rest[1..], found.rest, str);
    } else {
      DropSuffix(str, |str|);
    }
  }

  lemma {:induction false} AltLeavesSuffix(str: string)
    ensures Suffix(ParseAlt(str).rest, str)
    decreases |str|, 2
  {
    hide Suffix, ParseRun;
    RunLeavesSuffix(str);
    var l := ParseRun(str);
    if IsCharAt(l.rest, 0, '|') {
      DropSuffix(l.rest, 1);
      AltLeavesSuffix(l.rest[1..]);
      SuffixOf(l.rest[1..], l.rest, str);
      SuffixOf(ParseAlt(l.rest[1..]).rest, l.rest[1..], str);
    }
  }

  lemma LazyLeavesSuffix(str: string)
    requires str != ""
    ensures Suffix(SkipLazy(str[1..]), str)
  {
    hide Suffix;
    DropSuffix(str, 1);
    DropSuffix(str[1..], 0);
    DropSuffix(str[1..], 1);
    SuffixOf(SkipLazy(str[1..]), str[1..], str);
  }

  lemma MarkLeavesSuffix(m: Marked)
    ensures Suffix(StarMark(m).rest, m.rest) && Suffix(PlusMark(m).rest, m.rest) && Suffix(OptionMark(m).rest, m.rest)
  {
    hide Suffix, SkipLazy;
    DropSuffix(m.rest, 0);
    DropSuffix(m.rest, 1);
    if m.rest != "" {
      LazyLeavesSuffix(m.rest);
    }
  }

  lemma MarksLeaveSuffix(left: RE, str: string)
    ensures Suffix(Marks(left, str).rest, str)
  {
    hide StarMark, PlusMark, OptionMark, Suffix;
    var m0 := Marked(left, str);
    var m1 := StarMark(m0);
    var m2 := PlusMark(m1);
    MarkLeavesSuffix(m0);
    MarkLeavesSuffix(m1);
    MarkLeavesSuffix(m2);
    SuffixOf(m2.rest, m1.rest, str);
    SuffixOf(OptionMark(m2).rest, m2.rest, str);
  }

  lemma StarLeavesSuffix(left: RE, str: string, whole: string)
    requires Suffix(str, whole)
    ensures Suffix(MaybeStar(left, str).rest, whole)
    decreases |str|, 2
  {
    hide Suffix, Marks, ParseRun;
    var m := Marks(left, str);
    MarksLeaveSuffix(left, str);
    RunLeavesSuffix(m.rest);
    SuffixOf(m.rest, str, whole);
    SuffixOf(ParseRun(m.rest).rest, m.rest, whole);
  }

  lemma GroupLeavesSuffix(str: string)
    ensures Suffix(ParseGroup(str).rest, str)
    decreases |str|, 3
  {
    hide Suffix, ParseAlt, ParseRun, MaybeStar;
    AltLeavesSuffix(str);
    var nested := ParseAlt(str);
    if IsCharAt(nested.rest, 0, ')') {
      var after := nested.rest[1..];
      DropSuffix(nested.rest, 1);
      SuffixOf(after, nested.rest, str);
      if nested.re.Some? {
        StarLeavesSuffix(nested.re.value, after, str);
      } else {
        var skipped := if IsCharAt(after, 0, '*') then after[1..] else after;
        DropSuffix(after, 0);
        DropSuffix(after, 1);
        SuffixOf(skipped, after, str);
        RunLeavesSuffix(skipped);
        SuffixOf(ParseRun(skipped).rest, skipped, str);
      }
    } else {
      DropSuffix(str, |str|);
    }
  }

  lemma EscapeLeavesSuffix(str: string)
    requires |str| > 1
    ensures Suffix(ParseEscape(str).rest, str)
    decreases |str|, 0
  {
    hide Suffix, MaybeStar;
    DropSuffix(str, 0);
    DropSuffix(str, 2);
    match Escaped(str[1])
    case Some(ch) => StarLeavesSuffix(Lit([ch]), str[2..], str);
    case None =>
  }

  lemma TermLeavesSuffix(re: RE, str: string)
    requires str != ""
    ensures Suffix(MaybeStar(re, str[1..]).rest, str)
    decreases |str|, 0, 0
  {
    hide Suffix, MaybeStar;
    DropSuffix(str, 1);
    StarLeavesSuffix(re, str[1..], str);
  }

  lemma BracketLeavesSuffix(str: string)
    requires str != ""
    ensures Suffix(CharSetAt(str[1..]).rest, str) && Suffix(ParseGroup(str[1..]).rest, str)
    decreases |str|, 0, 0
  {
    hide Suffix, CharSetAt, ParseGroup;
    DropSuffix(str, 1);
    CharSetLeavesSuffix(str[1..]);
    SuffixOf(CharSetAt(str[1..]).rest, str[1..], str);
    GroupLeavesSuffix(str[1..]);
    SuffixOf(ParseGroup(str[1..]).rest, str[1..], str);
  }

  lemma SpecialLeavesSuffix(str: string)
    requires str != ""
    ensures Suffix(ParseSpecial(str).rest, str)
    decreases |str|, 0, 1
  {
    hide Suffix, MaybeStar, CharSetAt, ParseGroup;
    DropSuffix(str, 0);
    TermLeavesSuffix(LineStart, str);
    TermLeavesSuffix(LineEnd, str);
    TermLeavesSuffix(Dot, str);
    BracketLeavesSuffix(str);
  }

  /** What a run leaves over is a suffix of its input. */
  lemma RunLeavesSuffix(str: string)
    ensures Suffix(ParseRun(str).rest, str)
    decreases |str|, 1
  {
    hide Suffix, MaybeStar, LitLength, ParseEscape, ParseSpecial;
    var n := LitLength(str);
    if n > 0 {
      DropSuffix(str, n);
      StarLeavesSuffix(Lit(str[..n]), str[n..], str);
    } else if str == "" {
      DropSuffix(str, 0);
    } else if str[0] == '\\' && |str| > 1 {
      EscapeLeavesSuffix(str);
    } else {
      SpecialLeavesSuffix(str);
    }
  }
}
