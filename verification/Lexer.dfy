/** The lexer: what a source text spells, and the index loop that reads it. */
module Lexer {
  import opened Text
  import opened Expressions

  // ----- characters

  predicate Space(c: char) {
    c == ' ' || c == '\t' || c == '\n' || c == '\r' || c as int == 0x0C
  }

  predicate Has(source: string, i: nat, c: char) {
    i < |source| && source[i] == c
  }

  // ----- tokens in a source

  /** A token and the position after it. */
  datatype Taken = Took(token: Token, next: nat) | Rejected

  function DigitsEnd(source: string, i: nat): (end: nat)
    requires i <= |source|
    ensures i <= end <= |source| && (end < |source| ==> !Digit(source[end])) && forall j | i <= j < end :: Digit(source[j])
    decreases |source| - i
  {
    if i < |source| && Digit(source[i]) then DigitsEnd(source, i + 1) else i
  }

  function WordEnd(source: string, i: nat): (end: nat)
    requires i <= |source|
    ensures i <= end <= |source| && (end < |source| ==> !WordChar(source[end])) && forall j | i <= j < end :: WordChar(source[j])
    decreases |source| - i
  {
    if i < |source| && WordChar(source[i]) then WordEnd(source, i + 1) else i
  }

  /** The contents of a string literal after its opening quote; two quotes stand for one. */
  function StringAt(source: string, i: nat): Taken
    requires i <= |source|
    decreases |source| - i
  {
    if i == |source| then Rejected
    else if source[i] == '\'' && !Has(source, i + 1, '\'') then Took(StringToken(""), i + 1)
    else
      var rest := StringAt(source, if source[i] == '\'' then i + 2 else i + 1);
      if rest.Rejected? then Rejected else Took(StringToken([source[i]] + rest.token.text), rest.next)
  }

  lemma {:induction false} StringAtBounds(source: string, i: nat)
    requires i <= |source| && StringAt(source, i).Took?
    ensures StringAt(source, i).token.StringToken? && i < StringAt(source, i).next <= |source|
    decreases |source| - i
  {
    if !(source[i] == '\'' && !Has(source, i + 1, '\'')) { StringAtBounds(source, if source[i] == '\'' then i + 2 else i + 1); }
  }

  function WholeEnd(source: string, i: nat): (end: nat)
    requires i < |source| && (Digit(source[i]) || (source[i] == '-' && i + 1 < |source| && Digit(source[i + 1])))
    ensures i < end <= |source| && forall j | i <= j < end :: Digit(source[j]) || source[j] == '-'
  {
    var start := if source[i] == '-' then i + 1 else i;
    if source[start] == '0' then start + 1 else DigitsEnd(source, start)
  }

  predicate NumberChar(c: char) {
    Digit(c) || c == '-' || c == '+' || c == '.' || c == 'e' || c == 'E'
  }

  function FractionEnd(source: string, i: nat): (end: Option<nat>)
    requires i <= |source|
    ensures end.Some? ==> i <= end.value <= |source| && forall j | i <= j < end.value :: NumberChar(source[j])
  {
    if !Has(source, i, '.') then Some(i)
    else
      var end := DigitsEnd(source, i + 1);
      if end == i + 1 then None else Some(end)
  }

  function ExponentEnd(source: string, i: nat): (end: Option<nat>)
    requires i <= |source|
    ensures end.Some? ==> i <= end.value <= |source| && forall j | i <= j < end.value :: NumberChar(source[j])
  {
    if !(Has(source, i, 'e') || Has(source, i, 'E')) then Some(i)
    else
      var start := if Has(source, i + 1, '+') || Has(source, i + 1, '-') then i + 2 else i + 1;
      var end := DigitsEnd(source, start);
      if end == start then None else Some(end)
  }

  /** The value of a number text: an index if it is short digits, and otherwise what the JSON library
      accepts as finite. */
  function NumberOf(text: string, finite: string -> bool): Option<Number> {
    if text != [] && AllDigits(text) && NumeralValue(text) < MAX_INDEX then Some(Whole(NumeralValue(text)))
    else if finite(text) then Some(OtherNumber(text))
    else None
  }

  function NumberAt(source: string, i: nat, finite: string -> bool): Taken
    requires i < |source| && (Digit(source[i]) || (source[i] == '-' && i + 1 < |source| && Digit(source[i + 1])))
  {
    var fraction := FractionEnd(source, WholeEnd(source, i));
    if fraction.None? then Rejected
    else
      var end := ExponentEnd(source, fraction.value);
      if end.None? then Rejected
      else
        var number := NumberOf(source[i..end.value], finite);
        if number.None? then Rejected else Took(NumberToken(number.value), end.value)
  }

  /** Punctuation, one or two characters. */
  function PunctuationAt(source: string, i: nat): (r: Taken)
    requires i < |source|
    ensures r.Took? ==> i < r.next <= |source| && forall j | i <= j < r.next :: source[j] != '\'' && source[j] != '}'
  {
    match source[i]
    case '&' => if Has(source, i + 1, '&') then Took(OperatorToken(And), i + 2) else Rejected
    case '|' => if Has(source, i + 1, '|') then Took(OperatorToken(Or), i + 2) else Rejected
    case '=' => if Has(source, i + 1, '=') then Took(OperatorToken(Equal), i + 2) else Rejected
    case '!' => if Has(source, i + 1, '=') then Took(OperatorToken(NotEqual), i + 2) else Took(Bang, i + 1)
    case '<' => if Has(source, i + 1, '=') then Took(OperatorToken(LessOrEqual), i + 2) else Took(OperatorToken(Less), i + 1)
    case '>' => if Has(source, i + 1, '=') then Took(OperatorToken(GreaterOrEqual), i + 2) else Took(OperatorToken(Greater), i + 1)
    case '(' => Took(LeftParen, i + 1)
    case ')' => Took(RightParen, i + 1)
    case '[' => Took(LeftBracket, i + 1)
    case ']' => Took(RightBracket, i + 1)
    case '.' => Took(Dot, i + 1)
    case '*' => Took(Star, i + 1)
    case ',' => Took(Comma, i + 1)
    case _ => Rejected
  }

  function TokenAt(source: string, i: nat, finite: string -> bool): Taken
    requires i < |source|
  {
    if source[i] == '\'' then StringAt(source, i + 1)
    else if Digit(source[i]) || (source[i] == '-' && i + 1 < |source| && Digit(source[i + 1])) then NumberAt(source, i, finite)
    else if WordStart(source[i]) then Took(Identifier(source[i..WordEnd(source, i)]), WordEnd(source, i))
    else PunctuationAt(source, i)
  }

  /** Outside string literals a token has neither a quote nor a brace. */
  lemma {:induction false} TokenAdvances(source: string, i: nat, finite: string -> bool)
    requires i < |source| && TokenAt(source, i, finite).Took?
    ensures i < TokenAt(source, i, finite).next <= |source| && !TokenAt(source, i, finite).token.End?
    ensures source[i] != '\'' ==>
      forall j | i <= j < TokenAt(source, i, finite).next :: source[j] != '\'' && source[j] != '}'
  {
    if source[i] == '\'' { StringAtBounds(source, i + 1); }
  }

  /** The tokens from a position on, with the final `End`; nothing if a token is rejected. */
  function LexFrom(source: string, i: nat, finite: string -> bool): Option<seq<Token>>
    requires i <= |source|
    decreases |source| - i
  {
    if i == |source| then Some([End])
    else if Space(source[i]) then LexFrom(source, i + 1, finite)
    else
      var t := TokenAt(source, i, finite);
      if t.Rejected? then None
      else
        TokenAdvances(source, i, finite);
        var rest := LexFrom(source, t.next, finite);
        if rest.None? then None else Some([t.token] + rest.value)
  }

  function Lex(source: string, finite: string -> bool): Option<seq<Token>> {
    LexFrom(source, 0, finite)
  }

  /** The lexer ends every stream with one `End`, so the parser never runs past it. */
  lemma {:induction false} LexedIsEnded(source: string, i: nat, finite: string -> bool)
    requires i <= |source| && LexFrom(source, i, finite).Some?
    ensures Ended(LexFrom(source, i, finite).value)
    decreases |source| - i
  {
    if i < |source| {
      if Space(source[i]) {
        LexedIsEnded(source, i + 1, finite);
      } else {
        var t := TokenAt(source, i, finite);
        TokenAdvances(source, i, finite);
        LexedIsEnded(source, t.next, finite);
        var ts, rest := LexFrom(source, i, finite).value, LexFrom(source, t.next, finite).value;
        assert forall k | 0 < k < |ts| :: ts[k] == rest[k - 1];
      }
    }
  }

  // ----- the loops

  /** Reads the whole source. */
  method LexSource(source: string, finite: string -> bool) returns (r: Option<seq<Token>>)
    ensures r == Lex(source, finite)
  {
    var tokens: seq<Token> := [];
    var index := 0;
    JoinedEmpty(Lex(source, finite));
    while index < |source|
      invariant index <= |source|
      invariant Lex(source, finite) == Joined(tokens, LexFrom(source, index, finite))
      decreases |source| - index
    {
      if Space(source[index]) {
        index := index + 1;
      } else {
        var t := LexToken(source, index, finite);
        if t.Rejected? {
          return None;
        }
        TokenAdvances(source, index, finite);
        JoinedStep(tokens, t.token, LexFrom(source, t.next, finite));
        tokens := tokens + [t.token];
        index := t.next;
      }
    }
    r := Some(tokens + [End]);
  }

  function Joined(done: seq<Token>, rest: Option<seq<Token>>): Option<seq<Token>> {
    if rest.None? then None else Some(done + rest.value)
  }

  lemma {:induction false} JoinedEmpty(rest: Option<seq<Token>>)
    ensures Joined([], rest) == rest
  {
    if rest.Some? { assert [] + rest.value == rest.value; }
  }

  lemma {:induction false} JoinedStep(done: seq<Token>, t: Token, rest: Option<seq<Token>>)
    ensures Joined(done, if rest.None? then None else Some([t] + rest.value)) == Joined(done + [t], rest)
  {
    if rest.Some? { assert done + ([t] + rest.value) == (done + [t]) + rest.value; }
  }

  method LexToken(source: string, start: nat, finite: string -> bool) returns (t: Taken)
    requires start < |source|
    ensures t == TokenAt(source, start, finite)
  {
    if source[start] == '\'' {
      t := LexString(source, start);
    } else if Digit(source[start]) || (source[start] == '-' && start + 1 < |source| && Digit(source[start + 1])) {
      t := LexNumber(source, start, finite);
    } else if WordStart(source[start]) {
      var index := start + 1;
      while index < |source| && WordChar(source[index])
        invariant start < index <= |source| && WordEnd(source, index) == WordEnd(source, start)
      {
        index := index + 1;
      }
      t := Took(Identifier(source[start..index]), index);
    } else {
      t := PunctuationAt(source, start);
    }
  }

  method LexString(source: string, start: nat) returns (t: Taken)
    requires start < |source| && source[start] == '\''
    ensures t == StringAt(source, start + 1)
  {
    var index := start + 1;
    var value := "";
    while index < |source|
      invariant start < index <= |source|
      invariant StringAt(source, start + 1) == Prefixed(value, StringAt(source, index))
      decreases |source| - index
    {
      if source[index] == '\'' {
        if index + 1 < |source| && source[index + 1] == '\'' {
          PrefixedStep(value, '\'', StringAt(source, index + 2));
          value := value + ['\''];
          index := index + 2;
          continue;
        }
        return Took(StringToken(value), index + 1);
      }
      PrefixedStep(value, source[index], StringAt(source, index + 1));
      value := value + [source[index]];
      index := index + 1;
    }
    t := Rejected;
  }

  function Prefixed(value: string, t: Taken): Taken {
    if t.Took? && t.token.StringToken? then Took(StringToken(value + t.token.text), t.next) else t
  }

  lemma {:induction false} PrefixedStep(value: string, c: char, t: Taken)
    ensures t.Took? && t.token.StringToken? ==>
      Prefixed(value, Took(StringToken([c] + t.token.text), t.next)) == Prefixed(value + [c], t)
  {
    if t.Took? && t.token.StringToken? { assert value + ([c] + t.token.text) == (value + [c]) + t.token.text; }
  }

  method LexDigits(source: string, start: nat) returns (index: nat)
    requires start <= |source|
    ensures index == DigitsEnd(source, start)
  {
    index := start;
    while index < |source| && Digit(source[index])
      invariant start <= index <= |source| && DigitsEnd(source, index) == DigitsEnd(source, start)
    {
      index := index + 1;
    }
  }

  method LexNumber(source: string, start: nat, finite: string -> bool) returns (t: Taken)
    requires start < |source| && (Digit(source[start]) || (source[start] == '-' && start + 1 < |source| && Digit(source[start + 1])))
    ensures t == NumberAt(source, start, finite)
  {
    var index := start;
    if source[index] == '-' {
      index := index + 1;
    }
    if source[index] == '0' {
      index := index + 1;
    } else {
      index := LexDigits(source, index);
    }
    var fraction := LexFraction(source, index);
    if fraction.None? {
      return Rejected;
    }
    var end := LexExponent(source, fraction.value);
    if end.None? {
      return Rejected;
    }
    var number := NumberOf(source[start..end.value], finite);
    t := if number.None? then Rejected else Took(NumberToken(number.value), end.value);
  }

  method LexFraction(source: string, start: nat) returns (r: Option<nat>)
    requires start <= |source|
    ensures r == FractionEnd(source, start)
  {
    if start == |source| || source[start] != '.' {
      return Some(start);
    }
    var end := LexDigits(source, start + 1);
    r := if end == start + 1 then None else Some(end);
  }

  method LexExponent(source: string, start: nat) returns (r: Option<nat>)
    requires start <= |source|
    ensures r == ExponentEnd(source, start)
  {
    if start == |source| || (source[start] != 'e' && source[start] != 'E') {
      return Some(start);
    }
    var index := start + 1;
    if index < |source| && (source[index] == '+' || source[index] == '-') {
      index := index + 1;
    }
    var end := LexDigits(source, index);
    r := if end == index then None else Some(end);
  }
}
