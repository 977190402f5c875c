/**
 Spelling tokens as source text, with any white space that keeps them apart, and the proof that lexing
 undoes it. With the grammar this gives the result of `parse_expression`: every source text of a written
 expression parses to its tree.
 */
module ExpressionText {
  import opened Text
  import opened Expressions
  import opened ExpressionGrammar
  import opened Lexer
  import J = JsonNumbers
  import NumberLexing

  // ----- spelling

  /** A string literal's contents, with every quote doubled. */
  function Quoted(text: string): string {
    if text == [] then [] else (if text[0] == '\'' then "''" else [text[0]]) + Quoted(text[1..])
  }

  function OperatorText(op: Operator): string {
    match op
    case Less => "<"
    case LessOrEqual => "<="
    case Greater => ">"
    case GreaterOrEqual => ">="
    case Equal => "=="
    case NotEqual => "!="
    case And => "&&"
    case Or => "||"
  }

  function TokenText(t: Token): string {
    match t
    case Identifier(name) => name
    case StringToken(text) => "'" + Quoted(text) + "'"
    case NumberToken(Whole(n)) => Numeral(n)
    case NumberToken(OtherNumber(text)) => text
    case OperatorToken(op) => OperatorText(op)
    case Bang => "!"
    case LeftParen => "("
    case RightParen => ")"
    case LeftBracket => "["
    case RightBracket => "]"
    case Dot => "."
    case Star => "*"
    case Comma => ","
    case End => ""
  }

  predicate Blank(gap: string) {
    forall i | 0 <= i < |gap| :: Space(gap[i])
  }

  /** The tokens' texts, each followed by its gap. */
  function Spell(ts: seq<Token>, gaps: seq<string>): string
    requires |gaps| == |ts|
  {
    if ts == [] then "" else TokenText(ts[0]) + gaps[0] + Spell(ts[1..], gaps[1..])
  }

  /** A character that could belong to a number. */
  predicate NumberTail(c: char) {
    Digit(c) || c == '.' || c == 'e' || c == 'E'
  }

  /** A token followed directly by this character stays the same token. */
  predicate Separates(t: Token, c: char) {
    match t
    case Identifier(_) => !WordChar(c)
    case NumberToken(_) => !NumberTail(c)
    case StringToken(_) => c != '\''
    case OperatorToken(op) => op.Less? || op.Greater? ==> c != '='
    case Bang => c != '='
    case _ => true
  }

  /** Gaps of white space that may be empty where the two texts do not run together. */
  predicate Spaced(ts: seq<Token>, gaps: seq<string>)
    decreases |ts|
  {
    |gaps| == |ts|
    && (ts != [] ==>
          Blank(gaps[0])
          && (gaps[0] == "" && 1 < |ts| ==> TokenText(ts[1]) != "" && Separates(ts[0], TokenText(ts[1])[0]))
          && Spaced(ts[1..], gaps[1..]))
  }

  predicate StartsNumber(text: string) {
    text != [] && (Digit(text[0]) || (text[0] == '-' && 1 < |text| && Digit(text[1])))
  }

  /** The lexer reads the whole text as one number that is no index. */
  predicate NumberText(text: string, finite: string -> bool) {
    StartsNumber(text) && NumberAt(text, 0, finite) == Took(NumberToken(OtherNumber(text)), |text|)
  }

  ghost predicate NumberTexts(numbers: set<string>, finite: string -> bool) {
    forall text | text in numbers :: NumberText(text, finite)
  }

  /** These are exactly the finite texts of the number grammar that are no indexes. */
  lemma {:induction false} NumberTextsAreWritten(text: string, finite: string -> bool)
    ensures NumberText(text, finite) <==>
      NumberOf(text, finite) == Some(OtherNumber(text)) && exists n :: J.Grammatical(n) && J.Written(n) == text
  {
    if n :| J.Grammatical(n) && J.Written(n) == text { WrittenIsNumber(n, finite); }
    if NumberText(text, finite) { NumberIsWritten(text, finite); }
  }

  lemma {:induction false} WrittenIsNumber(n: J.JsonNumber, finite: string -> bool)
    requires J.Grammatical(n)
    ensures NumberText(J.Written(n), finite) <==> NumberOf(J.Written(n), finite) == Some(OtherNumber(J.Written(n)))
  {
    var text := J.Written(n);
    assert text[0..|text|] == text;
    assert J.Longest(text, 0, n);
    NumberLexing.TakesLongestNumber(text, 0, n, finite);
  }

  lemma {:induction false} NumberIsWritten(text: string, finite: string -> bool)
    requires NumberText(text, finite)
    ensures exists n :: J.Grammatical(n) && J.Written(n) == text
  {
    NumberLexing.LongestExists(text, 0);
    var n :| J.Longest(text, 0, n);
    NumberLexing.TakesLongestNumber(text, 0, n, finite);
    assert |J.Written(n)| == |text| && text[0..|text|] == text;
  }

  /** A token that some source text spells; `numbers` are texts of numbers that are no indexes. */
  predicate Spellable(t: Token, numbers: set<string>) {
    match t
    case Identifier(name) => Word(name)
    case NumberToken(Whole(n)) => n < MAX_INDEX
    case NumberToken(OtherNumber(text)) => text in numbers
    case End => false
    case _ => true
  }

  // ----- lexing one spelled token

  /** A token's text at a position of the source, and after it nothing that would change the token. */
  predicate SpelledAt(source: string, i: nat, t: Token) {
    var end := i + |TokenText(t)|;
    TextAt(source, i, TokenText(t)) && (end < |source| ==> Separates(t, source[end]))
  }

  /** A number's text at a position, and after it nothing that could belong to a number. */
  predicate NumberTextAt(source: string, i: nat, text: string) {
    TextAt(source, i, text) && (i + |text| < |source| ==> !NumberTail(source[i + |text|]))
  }

  lemma {:induction false} WordEndIs(source: string, i: nat, n: nat)
    requires i <= n <= |source| && (n < |source| ==> !WordChar(source[n])) && forall j | i <= j < n :: WordChar(source[j])
    ensures WordEnd(source, i) == n
    decreases n - i
  {
    if i < n { WordEndIs(source, i + 1, n); }
  }

  lemma {:induction false} DigitsEndShifts(source: string, i: nat, text: string, k: nat)
    requires NumberTextAt(source, i, text) && k <= |text|
    ensures DigitsEnd(source, i + k) == i + DigitsEnd(text, k)
    decreases |text| - k
  {
    if k < |text| { CharAt(source, i, text, k); }
    if k < |text| && Digit(text[k]) {
      DigitsEndShifts(source, i, text, k + 1);
    }
  }

  lemma {:induction false} HasShifts(source: string, i: nat, text: string, k: nat, c: char)
    requires NumberTextAt(source, i, text) && k <= |text| && (NumberTail(c) || k < |text|)
    ensures Has(source, i + k, c) <==> Has(text, k, c)
  {
    if k < |text| { CharAt(source, i, text, k); }
  }

  lemma {:induction false} WholeEndShifts(source: string, i: nat, text: string)
    requires NumberTextAt(source, i, text) && StartsNumber(text)
    ensures (Digit(source[i]) || (source[i] == '-' && i + 1 < |source| && Digit(source[i + 1])))
    ensures WholeEnd(source, i) == i + WholeEnd(text, 0)
  {
    CharAt(source, i, text, 0);
    if text[0] == '-' { CharAt(source, i, text, 1); }
    var start := if text[0] == '-' then 1 else 0;
    DigitsEndShifts(source, i, text, start);
  }

  lemma {:induction false} FractionEndShifts(source: string, i: nat, text: string, k: nat)
    requires NumberTextAt(source, i, text) && k <= |text|
    ensures FractionEnd(text, k).Some? ==> FractionEnd(source, i + k) == Some(i + FractionEnd(text, k).value)
  {
    HasShifts(source, i, text, k, '.');
    if Has(text, k, '.') { DigitsEndShifts(source, i, text, k + 1); }
  }

  lemma {:induction false} ExponentEndShifts(source: string, i: nat, text: string, k: nat)
    requires NumberTextAt(source, i, text) && k <= |text|
    ensures ExponentEnd(text, k).Some? ==> ExponentEnd(source, i + k) == Some(i + ExponentEnd(text, k).value)
  {
    HasShifts(source, i, text, k, 'e');
    HasShifts(source, i, text, k, 'E');
    if (Has(text, k, 'e') || Has(text, k, 'E')) && ExponentEnd(text, k).Some? {
      HasShifts(source, i, text, k + 1, '+');
      HasShifts(source, i, text, k + 1, '-');
      var start := if Has(text, k + 1, '+') || Has(text, k + 1, '-') then k + 2 else k + 1;
      DigitsEndShifts(source, i, text, start);
    }
  }

  /** The lexer's steps over a number end in the source where they end in its text. */
  lemma {:induction false} ScanEndShifts(source: string, i: nat, text: string, k: nat)
    requires NumberTextAt(source, i, text) && k <= |text| && NumberLexing.ScanEnd(text, k).Some?
    ensures NumberLexing.ScanEnd(source, i + k) == Some(i + NumberLexing.ScanEnd(text, k).value)
  {
    FractionEndShifts(source, i, text, k);
    ExponentEndShifts(source, i, text, FractionEnd(text, k).value);
  }

  lemma {:induction false} ScanShifts(source: string, i: nat, text: string)
    requires NumberTextAt(source, i, text) && StartsNumber(text)
    requires NumberLexing.ScanEnd(text, WholeEnd(text, 0)) == Some(|text|)
    ensures NumberLexing.NumberStart(source, i) && NumberLexing.ScanEnd(source, WholeEnd(source, i)) == Some(i + |text|)
  {
    WholeEndShifts(source, i, text);
    ScanEndShifts(source, i, text, WholeEnd(text, 0));
  }

  lemma {:induction false} ScannedNumber(source: string, i: nat, text: string, t: Token, finite: string -> bool)
    requires NumberLexing.NumberStart(source, i) && TextAt(source, i, text)
    requires NumberLexing.ScanEnd(source, WholeEnd(source, i)) == Some(i + |text|)
    requires NumberLexing.NumberTaken(text, |text|, finite) == Took(t, |text|)
    ensures NumberAt(source, i, finite) == Took(t, i + |text|)
  {
    NumberLexing.NumberAtEnds(source, i, Some(i + |text|), text, finite);
  }

  lemma {:induction false} NumberShifts(source: string, i: nat, text: string, t: Token, finite: string -> bool)
    requires NumberTextAt(source, i, text) && StartsNumber(text) && NumberAt(text, 0, finite) == Took(t, |text|)
    ensures NumberLexing.NumberStart(source, i) && NumberAt(source, i, finite) == Took(t, i + |text|)
  {
    NumberEnds(text, t, finite);
    ScanShifts(source, i, text);
    ScannedNumber(source, i, text, t, finite);
  }

  lemma {:induction false} NumberEnds(text: string, t: Token, finite: string -> bool)
    requires StartsNumber(text) && NumberAt(text, 0, finite) == Took(t, |text|)
    ensures NumberLexing.ScanEnd(text, WholeEnd(text, 0)) == Some(|text|)
    ensures NumberLexing.NumberTaken(text, |text|, finite) == Took(t, |text|)
  {
    assert text[0..|text|] == text;
  }

  lemma {:induction false} DigitsToEnd(text: string, i: nat)
    requires i <= |text| && forall j | i <= j < |text| :: Digit(text[j])
    ensures DigitsEnd(text, i) == |text|
    decreases |text| - i
  {
    if i < |text| { DigitsToEnd(text, i + 1); }
  }

  /** A numeral is a number text. */
  lemma {:induction false} NumeralIsNumber(n: nat, finite: string -> bool)
    requires n < MAX_INDEX
    ensures StartsNumber(Numeral(n)) && NumberAt(Numeral(n), 0, finite) == Took(NumberToken(Whole(n)), |Numeral(n)|)
  {
    var text := Numeral(n);
    NumeralDigits(n);
    DigitsToEnd(text, 0);
    if text[0] == '0' { assert |text| == 1; }
    assert WholeEnd(text, 0) == |text|;
    assert text[0..|text|] == text;
  }

  lemma {:induction false} StringShifts(source: string, i: nat, text: string)
    requires TextAt(source, i, Quoted(text) + "'") && !Has(source, i + |Quoted(text)| + 1, '\'')
    ensures StringAt(source, i) == Took(StringToken(text), i + |Quoted(text)| + 1)
    decreases |text|
  {
    var whole := Quoted(text) + "'";
    CharAt(source, i, whole, 0);
    if text != [] {
      var first := if text[0] == '\'' then "''" else [text[0]];
      var rest := Quoted(text[1..]) + "'";
      assert whole == first + rest;
      CharAt(source, i, whole, 1);
      TextAtSplits(source, i, first, rest);
      StringShifts(source, i + |first|, text[1..]);
      assert [text[0]] + text[1..] == text;
    }
  }

  /** A spelled token lexes to itself. */
  ghost predicate LexesAt(source: string, i: nat, t: Token, finite: string -> bool) {
    TextAt(source, i, TokenText(t)) && i < |source| && !Space(source[i])
    && TokenAt(source, i, finite) == Took(t, i + |TokenText(t)|)
  }

  lemma {:induction false} WordLexes(source: string, i: nat, name: string, finite: string -> bool)
    requires Word(name) && SpelledAt(source, i, Identifier(name))
    ensures LexesAt(source, i, Identifier(name), finite)
  {
    CharAt(source, i, name, 0);
    forall j | i <= j < i + |name| ensures WordChar(source[j]) { CharAt(source, i, name, j - i); }
    WordEndIs(source, i, i + |name|);
  }

  lemma {:induction false} PunctuationLexes(source: string, i: nat, t: Token, finite: string -> bool)
    requires SpelledAt(source, i, t) && !t.Identifier? && !t.StringToken? && !t.NumberToken? && !t.End?
    ensures LexesAt(source, i, t, finite)
  {
    var text := TokenText(t);
    CharAt(source, i, text, 0);
    if t.OperatorToken? {
      if |text| == 2 { CharAt(source, i, text, 1); }
      OperatorLexes(source, i, t.operator, finite);
    } else {
      assert |text| == 1 && (i + 1 < |source| ==> Separates(t, source[i + 1]));
      assert PunctuationAt(source, i) == Took(t, i + 1);
    }
  }

  lemma {:induction false} OperatorLexes(source: string, i: nat, op: Operator, finite: string -> bool)
    requires var text := OperatorText(op);
      i + |text| <= |source| && source[i] == text[0] && (|text| == 2 ==> source[i + 1] == text[1])
    requires OperatorText(op) == "<" || OperatorText(op) == ">" ==> !Has(source, i + 1, '=')
    ensures !Space(source[i]) && TokenAt(source, i, finite) == Took(OperatorToken(op), i + |OperatorText(op)|)
  {
    assert PunctuationAt(source, i) == Took(OperatorToken(op), i + |OperatorText(op)|) by {
      match op
      case Less =>
      case LessOrEqual =>
      case Greater =>
      case GreaterOrEqual =>
      case Equal =>
      case NotEqual =>
      case And =>
      case Or =>
    }
  }

  lemma {:induction false} NumberLexes(source: string, i: nat, t: Token, finite: string -> bool)
    requires t.NumberToken? && SpelledAt(source, i, t)
    requires StartsNumber(TokenText(t)) && NumberAt(TokenText(t), 0, finite) == Took(t, |TokenText(t)|)
    ensures LexesAt(source, i, t, finite)
  {
    NumberShifts(source, i, TokenText(t), t, finite);
    CharAt(source, i, TokenText(t), 0);
  }

  lemma {:induction false} StringLexes(source: string, i: nat, text: string, finite: string -> bool)
    requires SpelledAt(source, i, StringToken(text))
    ensures LexesAt(source, i, StringToken(text), finite)
  {
    var whole := TokenText(StringToken(text));
    assert whole == "'" + (Quoted(text) + "'");
    CharAt(source, i, whole, 0);
    TextAtSplits(source, i, "'", Quoted(text) + "'");
    StringShifts(source, i + 1, text);
  }

  lemma {:induction false} TokenLexes(source: string, i: nat, t: Token, numbers: set<string>, finite: string -> bool)
    requires NumberTexts(numbers, finite) && Spellable(t, numbers) && SpelledAt(source, i, t)
    ensures LexesAt(source, i, t, finite)
  {
    if t.Identifier? {
      WordLexes(source, i, t.name, finite);
    } else if t.NumberToken? {
      if t.number.Whole? { NumeralIsNumber(t.number.n, finite); } else { assert NumberText(t.number.text, finite); }
      NumberLexes(source, i, t, finite);
    } else if t.StringToken? {
      StringLexes(source, i, t.text, finite);
    } else {
      PunctuationLexes(source, i, t, finite);
    }
  }

  // ----- lexing undoes spelling

  predicate AllSpellable(ts: seq<Token>, numbers: set<string>) {
    forall k | 0 <= k < |ts| :: Spellable(ts[k], numbers)
  }

  lemma {:induction false} FirstIsPlaced(source: string, i: nat, ts: seq<Token>, gaps: seq<string>)
    requires |gaps| == |ts| && ts != [] && i <= |source| && source[i..] == Spell(ts, gaps)
    ensures TextAt(source, i, TokenText(ts[0])) && TextAt(source, i + |TokenText(ts[0])|, gaps[0])
    ensures var next := i + |TokenText(ts[0])| + |gaps[0]|;
      next <= |source| && source[next..] == Spell(ts[1..], gaps[1..])
  {
    SplitTail(source, i, TokenText(ts[0]), gaps[0], Spell(ts[1..], gaps[1..]));
  }

  /** A token is followed by a gap, by the next token's first character, or by nothing. */
  lemma {:induction false} FirstIsSpelled(source: string, i: nat, ts: seq<Token>, gaps: seq<string>)
    requires ts != [] && Spaced(ts, gaps) && i <= |source| && source[i..] == Spell(ts, gaps)
    ensures SpelledAt(source, i, ts[0])
  {
    var rest := Spell(ts[1..], gaps[1..]);
    FirstIsPlaced(source, i, ts, gaps);
    if rest != "" && gaps[0] == "" { SpellStarts(ts[1..], gaps[1..]); }
    GapSeparates(source, i + |TokenText(ts[0])|, ts[0], gaps[0], rest);
  }

  lemma {:induction false} SpellStarts(ts: seq<Token>, gaps: seq<string>)
    requires |gaps| == |ts| && ts != [] && TokenText(ts[0]) != ""
    ensures Spell(ts, gaps) != "" && Spell(ts, gaps)[0] == TokenText(ts[0])[0]
  {}

  /** What stands after the token's text separates it. */
  lemma {:induction false} GapSeparates(source: string, end: nat, t: Token, gap: string, rest: string)
    requires TextAt(source, end, gap) && end + |gap| <= |source| && source[end + |gap|..] == rest && Blank(gap)
    requires gap == "" && rest != "" ==> Separates(t, rest[0])
    ensures end < |source| ==> Separates(t, source[end])
  {
    if gap != "" {
      CharAt(source, end, gap, 0);
      BlankSeparates(t, gap[0]);
    } else if end < |source| {
      assert source[end..][0] == source[end];
    }
  }

  lemma {:induction false} BlankSeparates(t: Token, c: char)
    requires Space(c)
    ensures Separates(t, c)
  {}

  lemma {:induction false} SplitTail(source: string, i: nat, text: string, gap: string, rest: string)
    requires i <= |source| && source[i..] == text + gap + rest
    ensures TextAt(source, i, text) && TextAt(source, i + |text|, gap)
    ensures i + |text| + |gap| <= |source| && source[i + |text| + |gap|..] == rest
  {
    assert source[i..i + |text + gap + rest|] == source[i..];
    TextAtSplits(source, i, text + gap, rest);
    TextAtSplits(source, i, text, gap);
    var next := i + |text| + |gap|;
    assert source[next..next + |rest|] == source[next..];
  }

  lemma {:induction false} LexSpaces(source: string, i: nat, end: nat, finite: string -> bool)
    requires i <= end <= |source| && forall j | i <= j < end :: Space(source[j])
    ensures LexFrom(source, i, finite) == LexFrom(source, end, finite)
    decreases end - i
  {
    if i < end { LexSpaces(source, i + 1, end, finite); }
  }

  lemma {:induction false} LexGap(source: string, i: nat, gap: string, finite: string -> bool)
    requires TextAt(source, i, gap) && Blank(gap)
    ensures LexFrom(source, i, finite) == LexFrom(source, i + |gap|, finite)
  {
    forall j | i <= j < i + |gap| ensures Space(source[j]) { CharAt(source, i, gap, j - i); }
    LexSpaces(source, i, i + |gap|, finite);
  }

  lemma {:induction false} LexFirst(source: string, i: nat, t: Token, next: nat, finite: string -> bool)
    requires i < next <= |source| && !Space(source[i]) && TokenAt(source, i, finite) == Took(t, next)
    ensures LexFrom(source, i, finite) == Joined([t], LexFrom(source, next, finite))
  {}

  /** A token that lexes, and the gap after it. */
  lemma {:induction false} LexedThenGap(source: string, i: nat, t: Token, end: nat, gap: string, finite: string -> bool)
    requires i < |source| && !Space(source[i]) && TokenAt(source, i, finite) == Took(t, end)
    requires TextAt(source, end, gap) && Blank(gap)
    ensures end + |gap| <= |source| && LexFrom(source, i, finite) == Joined([t], LexFrom(source, end + |gap|, finite))
  {
    TokenAdvances(source, i, finite);
    LexFirst(source, i, t, end, finite);
    LexGap(source, end, gap, finite);
  }

  /** From a position on, the source holds these tokens, each with its gap. */
  ghost predicate HoldsTokens(source: string, i: nat, ts: seq<Token>, gaps: seq<string>, finite: string -> bool)
    requires |gaps| == |ts|
    decreases |ts|
  {
    if ts == [] then i == |source|
    else
      var end := i + |TokenText(ts[0])|;
      i < |source| && !Space(source[i]) && TokenAt(source, i, finite) == Took(ts[0], end)
      && TextAt(source, end, gaps[0]) && Blank(gaps[0])
      && HoldsTokens(source, end + |gaps[0]|, ts[1..], gaps[1..], finite)
  }

  /** From a position on, the source spells these tokens, each with its gap. */
  predicate SpelledFrom(source: string, i: nat, ts: seq<Token>, gaps: seq<string>)
    requires |gaps| == |ts|
    decreases |ts|
  {
    if ts == [] then i == |source|
    else
      var end := i + |TokenText(ts[0])|;
      SpelledAt(source, i, ts[0]) && TextAt(source, end, gaps[0]) && Blank(gaps[0])
      && SpelledFrom(source, end + |gaps[0]|, ts[1..], gaps[1..])
  }

  lemma {:induction false} SpellIsSpelled(source: string, i: nat, ts: seq<Token>, gaps: seq<string>)
    requires Spaced(ts, gaps) && i <= |source| && source[i..] == Spell(ts, gaps)
    ensures SpelledFrom(source, i, ts, gaps)
    decreases |ts|
  {
    if ts != [] {
      FirstIsPlaced(source, i, ts, gaps);
      FirstIsSpelled(source, i, ts, gaps);
      SpellIsSpelled(source, i + |TokenText(ts[0])| + |gaps[0]|, ts[1..], gaps[1..]);
    }
  }

  lemma {:induction false} SpelledHoldsTokens(
      source: string, i: nat, ts: seq<Token>, gaps: seq<string>, numbers: set<string>, finite: string -> bool)
    requires NumberTexts(numbers, finite) && AllSpellable(ts, numbers)
    requires |gaps| == |ts| && SpelledFrom(source, i, ts, gaps)
    ensures HoldsTokens(source, i, ts, gaps, finite)
    decreases |ts|
  {
    if ts != [] {
      SpelledHoldsTokens(source, i + |TokenText(ts[0])| + |gaps[0]|, ts[1..], gaps[1..], numbers, finite);
      TokenLexes(source, i, ts[0], numbers, finite);
      HoldsFirst(source, i, ts, gaps, finite);
    }
  }

  lemma {:induction false} HoldsFirst(source: string, i: nat, ts: seq<Token>, gaps: seq<string>, finite: string -> bool)
    requires ts != [] && |gaps| == |ts| && LexesAt(source, i, ts[0], finite)
    requires TextAt(source, i + |TokenText(ts[0])|, gaps[0]) && Blank(gaps[0])
    requires HoldsTokens(source, i + |TokenText(ts[0])| + |gaps[0]|, ts[1..], gaps[1..], finite)
    ensures HoldsTokens(source, i, ts, gaps, finite)
  {}

  lemma {:induction false} HeldTokensLex(source: string, i: nat, ts: seq<Token>, gaps: seq<string>, finite: string -> bool)
    requires |gaps| == |ts| && i <= |source| && HoldsTokens(source, i, ts, gaps, finite)
    ensures LexFrom(source, i, finite) == Some(ts + [End])
    decreases |ts|
  {
    if ts == [] {
      assert ts + [End] == [End];
    } else {
      var end := i + |TokenText(ts[0])|;
      LexedThenGap(source, i, ts[0], end, gaps[0], finite);
      HeldTokensLex(source, end + |gaps[0]|, ts[1..], gaps[1..], finite);
      JoinedFirst(ts);
    }
  }

  lemma {:induction false} JoinedFirst(ts: seq<Token>)
    requires ts != []
    ensures Joined([ts[0]], Some(ts[1..] + [End])) == Some(ts + [End])
  {
    assert [ts[0]] + (ts[1..] + [End]) == ts + [End];
  }

  /** Lexing any spelling of tokens gives the tokens back. */
  lemma {:induction false} LexingUndoesSpelling(ts: seq<Token>, lead: string, gaps: seq<string>, numbers: set<string>, finite: string -> bool)
    requires NumberTexts(numbers, finite) && AllSpellable(ts, numbers) && Blank(lead) && Spaced(ts, gaps)
    ensures Lex(lead + Spell(ts, gaps), finite) == Some(ts + [End])
  {
    var source := lead + Spell(ts, gaps);
    assert source[..|lead|] == lead && source[0..|lead|] == lead && source[|lead|..] == Spell(ts, gaps);
    LexGap(source, 0, lead, finite);
    SpellIsSpelled(source, |lead|, ts, gaps);
    SpelledHoldsTokens(source, |lead|, ts, gaps, numbers, finite);
    HeldTokensLex(source, |lead|, ts, gaps, finite);
  }

  // ----- the whole of parsing

  /** Lexes and parses a source. */
  function ParseSource(source: string, finite: string -> bool): Parsed {
    var ts := Lex(source, finite);
    if ts.None? then Failed(InvalidSyntax)
    else
      LexedIsEnded(source, 0, finite);
      ParseTokens(ts.value)
  }

  /** Every spelling of a written expression parses to its tree, with the written height as the depth, exactly
      within the limits. */
  lemma {:induction false} ParsingUndoesWriting(
      d: Source, lead: string, gaps: seq<string>, numbers: set<string>, finite: string -> bool)
    requires IsDisjunction(d) && NumberTexts(numbers, finite) && AllSpellable(TokensOf(d), numbers)
    requires Blank(lead) && Spaced(TokensOf(d), gaps)
    ensures ParseSource(lead + Spell(TokensOf(d), gaps), finite)
         == ExpressionGrammar.Outcome(Fits(d, LevelsOf(d)), d, |TokensOf(d)|)
  {
    LexingUndoesSpelling(TokensOf(d), lead, gaps, numbers, finite);
    SentencesAreAccepted(d);
  }
}
