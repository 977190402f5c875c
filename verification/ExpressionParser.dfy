/** The recursive parser over a token vector with a mutable cursor. */
module ExpressionParser {
  import opened Text
  import opened Expressions

  datatype Outcome = Success(expression: Expression, depth: nat) | Failure(error: ParseError)

  /** A parse that ends at `cursor` is the one that the functions on positions describe. */
  ghost predicate Agrees(r: Outcome, cursor: nat, expected: Parsed) {
    if expected.Parsed? then r == Success(expected.expression, expected.depth) && cursor == expected.next
    else r == Failure(expected.error)
  }

  class Parser {
    const tokens: seq<Token>
    var cursor: nat

    ghost predicate Valid()
      reads this
    {
      Ended(tokens) && cursor < |tokens|
    }

    constructor (tokens: seq<Token>)
      requires Ended(tokens)
      ensures Valid() && this.tokens == tokens && cursor == 0
    {
      this.tokens := tokens;
      cursor := 0;
    }

    /** Parses a whole token stream. */
    method ParseExpression() returns (r: Outcome)
      requires Valid() && cursor == 0
      modifies this`cursor
      ensures Valid()
      ensures var expected := ParseTokens(tokens);
        if expected.Parsed? then r == Success(expected.expression, expected.depth) else r == Failure(expected.error)
    {
      r := ParseBinary(0, 0);
      if r.Success? && !tokens[cursor].End? {
        r := Failure(InvalidSyntax);
      }
    }

    /** Takes one token; the end is never passed. */
    method Advance() returns (t: Token)
      requires Valid()
      modifies this`cursor
      ensures Valid() && t == tokens[old(cursor)]
      ensures cursor == if t.End? then old(cursor) else old(cursor) + 1
    {
      t := tokens[cursor];
      if !t.End? {
        cursor := cursor + 1;
      }
    }

    method ParseBinary(minimum: nat, depth: nat) returns (r: Outcome)
      requires Valid()
      modifies this`cursor
      ensures Valid() && Agrees(r, cursor, Expressions.ParseBinary(tokens, old(cursor), minimum, depth))
      decreases Room(depth), 2, 0
    {
      if depth > MAX_EXPRESSION_PARSE_DEPTH {
        return Failure(InvalidSyntax);
      }
      var start := cursor;
      r := ParseUnary(depth + 1);
      if r.Failure? {
        return;
      }
      while tokens[cursor].OperatorToken? && Precedence(tokens[cursor].operator) >= minimum
        invariant Valid() && cursor > start && r.Success?
        invariant Expressions.ParseBinary(tokens, start, minimum, depth)
               == BinaryLoop(tokens, cursor, r.expression, r.depth, minimum, depth)
        decreases |tokens| - cursor
      {
        var operator := tokens[cursor].operator;
        var _ := Advance();
        var right := ParseBinary(Precedence(operator) + 1, depth + 1);
        if right.Failure? {
          return right;
        }
        var expressionDepth := Max(r.depth, right.depth) + 1;
        if expressionDepth > MAX_EXPRESSION_DEPTH {
          return Failure(InvalidSyntax);
        }
        r := Success(Binary(operator, r.expression, right.expression), expressionDepth);
      }
    }

    method ParseUnary(depth: nat) returns (r: Outcome)
      requires Valid()
      modifies this`cursor
      ensures Valid() && Agrees(r, cursor, Expressions.ParseUnary(tokens, old(cursor), depth))
      decreases Room(depth), 2, 0
    {
      if depth > MAX_EXPRESSION_PARSE_DEPTH {
        return Failure(InvalidSyntax);
      }
      if tokens[cursor].Bang? {
        var _ := Advance();
        r := ParseUnary(depth + 1);
        if r.Success? {
          if r.depth + 1 > MAX_EXPRESSION_DEPTH {
            return Failure(InvalidSyntax);
          }
          r := Success(Not(r.expression), r.depth + 1);
        }
        return;
      }
      r := ParsePrimary(depth + 1);
    }

    method ParsePrimary(depth: nat) returns (r: Outcome)
      requires Valid()
      modifies this`cursor
      ensures Valid() && Agrees(r, cursor, Expressions.ParsePrimary(tokens, old(cursor), depth))
      decreases Room(depth), 2, 0
    {
      if depth > MAX_EXPRESSION_PARSE_DEPTH {
        return Failure(InvalidSyntax);
      }
      var start := cursor;
      var grouped := tokens[cursor].LeftParen?;
      r := ParseHead(depth);
      if r.Failure? {
        return;
      }
      r := ParsePostfix(r.expression, r.depth, grouped, depth);
      if r.Success? && r.depth > MAX_EXPRESSION_DEPTH {
        return Failure(InvalidSyntax);
      }
    }

    /** The accesses after a value. */
    method ParsePostfix(value: Expression, valueDepth: nat, group: bool, depth: nat) returns (r: Outcome)
      requires Valid() && depth <= MAX_EXPRESSION_PARSE_DEPTH
      modifies this`cursor
      ensures Valid() && Agrees(r, cursor, PostfixLoop(tokens, old(cursor), value, valueDepth, group, depth))
      decreases Room(depth), 1, 0
    {
      var expression, expressionDepth, grouped := value, valueDepth, group;
      ghost var expected := PostfixLoop(tokens, cursor, expression, expressionDepth, grouped, depth);
      while tokens[cursor].Dot? || tokens[cursor].LeftBracket? || tokens[cursor].LeftParen?
        invariant Valid() && old(cursor) <= cursor
        invariant expected == PostfixLoop(tokens, cursor, expression, expressionDepth, grouped, depth)
        decreases |tokens| - cursor
      {
        var first := Advance();
        var step: Step;
        if first.LeftParen? {
          return Failure(UnsupportedFeature);
        } else if first.Dot? {
          var name := Advance();
          if name.Identifier? {
            step := KeyStep(name.name);
          } else if name.Star? {
            step := Projection;
          } else {
            return Failure(InvalidSyntax);
          }
        } else {
          var selector := ParseBinary(0, depth + 1);
          if selector.Failure? {
            return selector;
          }
          expressionDepth := Max(expressionDepth, selector.depth + 1);
          step := StepOf(selector.expression);
          var close := Advance();
          if !close.RightBracket? {
            return Failure(InvalidSyntax);
          }
        }
        expression, grouped := PushAccess(expression, step, grouped), false;
      }
      r := Success(expression, expressionDepth);
    }

    /** The value that starts a primary. */
    method ParseHead(depth: nat) returns (r: Outcome)
      requires Valid() && depth <= MAX_EXPRESSION_PARSE_DEPTH
      modifies this`cursor
      ensures Valid() && Agrees(r, cursor, Expressions.ParseHead(tokens, old(cursor), depth))
      decreases Room(depth), 1, 1
    {
      var first := Advance();
      match first
      case Identifier(name) =>
        if name == "true" {
          r := Success(Literal(BooleanLiteral(true)), 1);
        } else if name == "false" {
          r := Success(Literal(BooleanLiteral(false)), 1);
        } else if name == "null" {
          r := Success(Literal(NullLiteral), 1);
        } else if tokens[cursor].LeftParen? {
          r := ParseCall(name, depth);
        } else {
          r := Success(Path([Property(name)]), 1);
        }
      case StringToken(text) =>
        r := Success(Literal(StringLiteral(text)), 1);
      case NumberToken(number) =>
        r := Success(Literal(NumberLiteral(number)), 1);
      case LeftParen =>
        r := ParseBinary(0, depth + 1);
        if r.Success? {
          var close := Advance();
          if !close.RightParen? {
            r := Failure(InvalidSyntax);
          }
        }
      case _ =>
        r := Failure(InvalidSyntax);
    }

    /** A call whose opening parenthesis is the current token. */
    method ParseCall(name: string, depth: nat) returns (r: Outcome)
      requires Valid() && tokens[cursor].LeftParen? && depth <= MAX_EXPRESSION_PARSE_DEPTH
      modifies this`cursor
      ensures Valid() && Agrees(r, cursor, Expressions.ParseCall(tokens, old(cursor), name, depth))
      decreases Room(depth), 1, 0
    {
      var f := FunctionOf(name);
      if f.None? {
        return Failure(UnsupportedFeature);
      }
      var _ := Advance();
      var arguments: seq<Expression>, expressionDepth := [], 1;
      if !tokens[cursor].RightParen? {
        ghost var expected := ArgumentLoop(tokens, cursor, arguments, expressionDepth, depth);
        ghost var start := cursor;
        var more := true;
        while more
          invariant Valid() && cursor >= start
          invariant more ==> expected == ArgumentLoop(tokens, cursor, arguments, expressionDepth, depth)
          invariant !more ==> expected == Arguments(arguments, expressionDepth, cursor)
          decreases more, |tokens| - cursor
        {
          var argument := ParseBinary(0, depth + 1);
          if argument.Failure? {
            return argument;
          }
          expressionDepth := Max(expressionDepth, argument.depth + 1);
          arguments := arguments + [argument.expression];
          if tokens[cursor].Comma? {
            var _ := Advance();
          } else {
            more := false;
          }
        }
      }
      var close := Advance();
      if !close.RightParen? {
        return Failure(InvalidSyntax);
      }
      if !AcceptsArity(f.value, |arguments|) {
        return Failure(InvalidSyntax);
      }
      r := Success(Call(f.value, arguments), expressionDepth);
    }
  }
}
