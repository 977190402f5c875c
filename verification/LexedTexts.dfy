/** Every source that the lexer accepts is a spelling of its tokens. */
module LexedTexts {
  import opened Text
  import opened Expressions
  import opened Lexer
  import opened ExpressionText
  import J = JsonNumbers
  import NumberLexing

  /** A token that the lexer may return: words, indexes below the limit, and other finite numbers. */
  ghost predicate Proper(t: Token, finite: string -> bool) {
    match t
    case Identifier(name) => Word(name)
    case NumberToken(Whole(n)) => n < 0x1_0000_0000_0000_0000
    case NumberToken(OtherNumber(text)) => finite(text) && exists n :: J.Grammatical(n) && J.Written(n) == text
    case End => false
    case _ => true
  }

  /** The characters that separate tokens: space, tab, line feed, form feed, and carriage return. */
  predicate OnlyBlanks(gap: string) {
    forall i | 0 <= i < |gap| :: gap[i] as int in {0x20, 0x09, 0x0A, 0x0C, 0x0D}
  }

  /** The source is these tokens' texts, each followed by its gap. */
  ghost predicate IsSpelling(source: string, lead: string, ts: seq<Token>, gaps: seq<string>) {
    |gaps| == |ts| && OnlyBlanks(lead) && (forall i | 0 <= i < |gaps| :: OnlyBlanks(gaps[i]))
    && source == lead + Spell(ts, gaps)
  }

  // ----- single tokens

  lemma {:induction false} StringIsQuoted(source: string, i: nat)
    requires i <= |source| && StringAt(source, i).Took?
    ensures var r := StringAt(source, i);
      r.token.StringToken? && i < r.next <= |source| && source[i..r.next] == Quoted(r.token.text) + "'"
    decreases |source| - i
  {
    StringAtBounds(source, i);
    var r := StringAt(source, i);
    if source[i] == '\'' && !Has(source, i + 1, '\'') {
      assert source[i..i + 1] == "'";
    } else {
      var j := if source[i] == '\'' then i + 2 else i + 1;
      StringIsQuoted(source, j);
      var rest := StringAt(source, j).token.text;
      var text := [source[i]] + rest;
      assert text[0] == source[i] && text[1..] == rest;
      assert source[i..r.next] == source[i..j] + source[j..r.next];
      assert source[i..j] == if source[i] == '\'' then "''" else [source[i]];
    }
  }

  /** Digits without a leading zero are the numeral of their value. */
  lemma {:induction false} DigitsAreNumeral(s: string)
    requires s != [] && AllDigits(s) && (s[0] == '0' ==> |s| == 1)
    ensures s == Numeral(NumeralValue(s)) && (s[0] != '0' ==> NumeralValue(s) > 0)
    decreases |s|
  {
    var front, last := s[..|s| - 1], s[|s| - 1];
    var d := last as int - '0' as int;
    DigitValue(d);
    assert s == front + [DIGITS[d]];
    OneMoreDigit(front, d);
    if front == [] {
      assert NumeralValue(front) == 0;
    } else {
      DigitsAreNumeral(front);
    }
  }

  /** A sign, a point, and an exponent marker are no digits. */
  lemma {:induction false} MarkedNumber(n: J.JsonNumber)
    requires J.Grammatical(n) && (n.negative || n.fraction.Some? || n.exponent.Some?)
    ensures !AllDigits(J.Written(n))
  {
    var text, m := J.Written(n), J.WholeText(n) + J.FractionText(n);
    assert text == m + J.ExponentText(n);
    if n.negative {
      assert text[0] == '-';
    } else if n.fraction.Some? {
      assert text[|J.WholeText(n)|] == '.';
    } else {
      assert text[|m|] == J.ExponentText(n)[0] == n.exponent.value.marker;
    }
  }

  lemma {:induction false} PlainDigits(n: J.JsonNumber)
    requires J.Grammatical(n) && AllDigits(J.Written(n))
    ensures J.Written(n) == n.whole
  {
    if n.negative || n.fraction.Some? || n.exponent.Some? { MarkedNumber(n); }
  }

  lemma {:induction false} NumberIsSpelled(source: string, i: nat, finite: string -> bool)
    requires NumberLexing.NumberStart(source, i) && NumberAt(source, i, finite).Took?
    ensures var r := NumberAt(source, i, finite);
      i < r.next <= |source| && source[i..r.next] == TokenText(r.token) && Proper(r.token, finite)
  {
    NumberLexing.LongestExists(source, i);
    var n :| J.Longest(source, i, n);
    NumberLexing.TakesLongestNumber(source, i, n, finite);
    var text := J.Written(n);
    if text != [] && AllDigits(text) && NumeralValue(text) < MAX_INDEX {
      PlainDigits(n);
      DigitsAreNumeral(text);
    }
  }

  lemma {:induction false} PunctuationIsSpelled(source: string, i: nat)
    requires i < |source| && PunctuationAt(source, i).Took?
    ensures var r := PunctuationAt(source, i);
      i < r.next <= |source| && source[i..r.next] == TokenText(r.token)
      && !r.token.Identifier? && !r.token.NumberToken? && !r.token.End?
  {
    var r := PunctuationAt(source, i);
    assert source[i..i + 1] == [source[i]];
    if r.next == i + 2 { assert source[i..i + 2] == [source[i], source[i + 1]]; }
  }

  lemma {:induction false} TokenIsSpelled(source: string, i: nat, finite: string -> bool)
    requires i < |source| && TokenAt(source, i, finite).Took?
    ensures var r := TokenAt(source, i, finite);
      i < r.next <= |source| && source[i..r.next] == TokenText(r.token) && Proper(r.token, finite)
  {
    var r := TokenAt(source, i, finite);
    if source[i] == '\'' {
      StringIsQuoted(source, i + 1);
      assert source[i..r.next] == ['\''] + source[i + 1..r.next];
      assert "'" + Quoted(r.token.text) + "'" == "'" + (Quoted(r.token.text) + "'");
    } else if NumberLexing.NumberStart(source, i) {
      NumberIsSpelled(source, i, finite);
    } else if WordStart(source[i]) {
      var end := WordEnd(source, i);
      assert WordChar(source[i]) && end == WordEnd(source, i + 1);
      assert source[i..end][0] == source[i];
      assert forall j | 0 <= j < end - i :: source[i..end][j] == source[i + j];
    } else {
      PunctuationIsSpelled(source, i);
    }
  }

  // ----- whole sources

  lemma {:induction false} SpacesAreBlanks(c: char)
    ensures Space(c) <==> c as int in {0x20, 0x09, 0x0A, 0x0C, 0x0D}
  {}

  lemma {:induction false} RestIsSpelled(source: string, i: nat, finite: string -> bool) returns (lead: string, gaps: seq<string>)
    requires i <= |source| && LexFrom(source, i, finite).Some?
    ensures var ts := LexFrom(source, i, finite).value;
      ts != [] && ts[|ts| - 1] == End && (forall k | 0 <= k < |ts| - 1 :: Proper(ts[k], finite))
      && IsSpelling(source[i..], lead, ts[..|ts| - 1], gaps)
    decreases |source| - i, 1
  {
    if i == |source| {
      lead, gaps := "", [];
    } else if Space(source[i]) {
      var rest;
      rest, gaps := RestIsSpelled(source, i + 1, finite);
      lead := [source[i]] + rest;
      var ts := LexFrom(source, i, finite).value;
      SpaceJoins(source, i, rest, ts[..|ts| - 1], gaps);
    } else {
      gaps := FirstIsSpelled(source, i, finite);
      lead := "";
    }
  }

  lemma {:induction false} SpaceJoins(source: string, i: nat, rest: string, ts: seq<Token>, gaps: seq<string>)
    requires i < |source| && Space(source[i]) && IsSpelling(source[i + 1..], rest, ts, gaps)
    ensures IsSpelling(source[i..], [source[i]] + rest, ts, gaps)
  {
    SpacesAreBlanks(source[i]);
    assert source[i..] == [source[i]] + source[i + 1..];
    assert [source[i]] + rest + Spell(ts, gaps) == [source[i]] + (rest + Spell(ts, gaps));
  }

  lemma {:induction false} FirstIsSpelled(source: string, i: nat, finite: string -> bool) returns (gaps: seq<string>)
    requires i < |source| && !Space(source[i]) && LexFrom(source, i, finite).Some?
    ensures var ts := LexFrom(source, i, finite).value;
      ts != [] && ts[|ts| - 1] == End && (forall k | 0 <= k < |ts| - 1 :: Proper(ts[k], finite))
      && IsSpelling(source[i..], "", ts[..|ts| - 1], gaps)
    decreases |source| - i, 0
  {
    var r := TokenAt(source, i, finite);
    TokenAdvances(source, i, finite);
    TokenIsSpelled(source, i, finite);
    var gap, more := RestIsSpelled(source, r.next, finite);
    gaps := [gap] + more;
    TokenJoins(source, i, r.next, r.token, gap, more, LexFrom(source, r.next, finite).value);
  }

  lemma {:induction false} TokenJoins(source: string, i: nat, next: nat, t: Token, gap: string, more: seq<string>, rest: seq<Token>)
    requires i < next <= |source| && source[i..next] == TokenText(t) && rest != []
    requires IsSpelling(source[next..], gap, rest[..|rest| - 1], more)
    ensures var ts := [t] + rest;
      ts[..|ts| - 1] == [t] + rest[..|rest| - 1] && IsSpelling(source[i..], "", ts[..|ts| - 1], [gap] + more)
  {
    var ts, front := [t] + rest, rest[..|rest| - 1];
    assert ts[..|ts| - 1] == [t] + front;
    assert ([t] + front)[1..] == front && ([gap] + more)[1..] == more;
    assert Spell([t] + front, [gap] + more) == TokenText(t) + gap + Spell(front, more);
    assert source[i..] == source[i..next] + source[next..];
    assert TokenText(t) + gap + Spell(front, more) == TokenText(t) + (gap + Spell(front, more));
    assert "" + Spell([t] + front, [gap] + more) == Spell([t] + front, [gap] + more);
  }

  /** Whatever the lexer accepts is its tokens' texts with nothing but white space between them, and the
      tokens are proper. */
  lemma {:induction false} LexedIsSpelled(source: string, finite: string -> bool) returns (lead: string, gaps: seq<string>)
    requires Lex(source, finite).Some?
    ensures var ts := Lex(source, finite).value;
      ts != [] && ts[|ts| - 1] == End && (forall k | 0 <= k < |ts| - 1 :: Proper(ts[k], finite))
      && IsSpelling(source, lead, ts[..|ts| - 1], gaps)
  {
    lead, gaps := RestIsSpelled(source, 0, finite);
    assert source[0..] == source;
  }
}
