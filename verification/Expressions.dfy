/** Expressions, their tokens, and the precedence-climbing parser as functions on positions. */
module Expressions {
  import opened Text

  const MAX_EXPRESSION_PARSE_DEPTH: nat := 128
  const MAX_EXPRESSION_DEPTH: nat := 32

  /** A finite JSON number; `Whole` is one that fits an array index. */
  datatype Number = Whole(n: nat) | OtherNumber(text: string)

  datatype Literal = StringLiteral(text: string) | NumberLiteral(number: Number) | BooleanLiteral(b: bool) | NullLiteral

  datatype Segment = Property(name: string) | Index(n: nat)

  datatype Function =
    | StrictEquals | Contains | StartsWith | EndsWith | Join | Format | ToJSON | FromJSON

  datatype Operator = Less | LessOrEqual | Greater | GreaterOrEqual | Equal | NotEqual | And | Or

  datatype Step = KeyStep(name: string) | IndexStep(n: nat) | Dynamic(selector: Expression) | Projection

  datatype Expression =
    | Literal(value: Literal)
    | Path(segments: seq<Segment>)
    | Access(base: Expression, steps: seq<Step>)
    | Call(function_: Function, arguments: seq<Expression>)
    | Not(operand: Expression)
    | Binary(operator: Operator, left: Expression, right: Expression)

  datatype Token =
    | Identifier(name: string)
    | StringToken(text: string)
    | NumberToken(number: Number)
    | OperatorToken(operator: Operator)
    | Bang
    | LeftParen
    | RightParen
    | LeftBracket
    | RightBracket
    | Dot
    | Star
    | Comma
    | End

  datatype ParseError = InvalidSyntax | UnsupportedFeature

  /** An expression with its depth, and the position after it. */
  datatype Parsed = Parsed(expression: Expression, depth: nat, next: nat) | Failed(error: ParseError)

  // ----- the vocabulary

  function LowerChar(c: char): char {
    if 'A' <= c <= 'Z' then c - 'A' + 'a' else c
  }

  function AsciiLower(text: string): string {
    seq(|text|, i requires 0 <= i < |text| => LowerChar(text[i]))
  }

  function FunctionOf(name: string): Option<Function> {
    var lower := AsciiLower(name);
    if lower == "strictequals" then Some(StrictEquals)
    else if lower == "contains" then Some(Contains)
    else if lower == "startswith" then Some(StartsWith)
    else if lower == "endswith" then Some(EndsWith)
    else if lower == "join" then Some(Join)
    else if lower == "format" then Some(Format)
    else if lower == "tojson" then Some(ToJSON)
    else if lower == "fromjson" then Some(FromJSON)
    else None
  }

  predicate AcceptsArity(f: Function, count: nat) {
    match f
    case Join => 1 <= count <= 2
    case Format => count >= 2
    case ToJSON => count == 1
    case FromJSON => count == 1
    case _ => count == 2
  }

  function Precedence(op: Operator): nat {
    match op
    case Or => 1
    case And => 2
    case Equal => 3
    case NotEqual => 3
    case _ => 4
  }

  // ----- token streams

  /** What the lexer returns: one `End`, at the end. */
  predicate Ended(ts: seq<Token>) {
    |ts| > 0 && ts[|ts| - 1].End? && forall i | 0 <= i < |ts| - 1 :: !ts[i].End?
  }

  /** The position after one token; the end is never passed. */
  function Advance(ts: seq<Token>, pos: nat): (next: nat)
    requires pos < |ts| && Ended(ts)
    ensures next < |ts| && pos <= next
  {
    if ts[pos].End? then pos else pos + 1
  }

  function Max(a: nat, b: nat): nat {
    if a < b then b else a
  }

  // ----- the parser

  function Room(depth: nat): nat {
    if depth > MAX_EXPRESSION_PARSE_DEPTH then 0 else MAX_EXPRESSION_PARSE_DEPTH + 1 - depth
  }

  ghost predicate Progress(ts: seq<Token>, pos: nat, r: Parsed) {
    r.Parsed? ==> pos < r.next < |ts|
  }

  function ParseBinary(ts: seq<Token>, pos: nat, minimum: nat, depth: nat): (r: Parsed)
    requires Ended(ts) && pos < |ts|
    ensures Progress(ts, pos, r)
    decreases Room(depth), 2, 0
  {
    if depth > MAX_EXPRESSION_PARSE_DEPTH then Failed(InvalidSyntax)
    else
      var left := ParseUnary(ts, pos, depth + 1);
      if left.Failed? then left else BinaryLoop(ts, left.next, left.expression, left.depth, minimum, depth)
  }

  /** Extends `left` by operators of at least the minimum precedence. */
  function BinaryLoop(ts: seq<Token>, pos: nat, left: Expression, leftDepth: nat, minimum: nat, depth: nat): (r: Parsed)
    requires Ended(ts) && pos < |ts| && depth <= MAX_EXPRESSION_PARSE_DEPTH
    ensures r.Parsed? ==> pos <= r.next < |ts|
    decreases Room(depth), 1, |ts| - pos
  {
    if !ts[pos].OperatorToken? || Precedence(ts[pos].operator) < minimum then Parsed(left, leftDepth, pos)
    else
      var op := ts[pos].operator;
      var right := ParseBinary(ts, Advance(ts, pos), Precedence(op) + 1, depth + 1);
      if right.Failed? then right
      else if Max(leftDepth, right.depth) + 1 > MAX_EXPRESSION_DEPTH then Failed(InvalidSyntax)
      else BinaryLoop(ts, right.next, Binary(op, left, right.expression), Max(leftDepth, right.depth) + 1, minimum, depth)
  }

  function ParseUnary(ts: seq<Token>, pos: nat, depth: nat): (r: Parsed)
    requires Ended(ts) && pos < |ts|
    ensures Progress(ts, pos, r)
    decreases Room(depth), 2, 0
  {
    if depth > MAX_EXPRESSION_PARSE_DEPTH then Failed(InvalidSyntax)
    else if ts[pos].Bang? then
      var nested := ParseUnary(ts, Advance(ts, pos), depth + 1);
      if nested.Failed? then nested
      else if nested.depth + 1 > MAX_EXPRESSION_DEPTH then Failed(InvalidSyntax)
      else Parsed(Not(nested.expression), nested.depth + 1, nested.next)
    else ParsePrimary(ts, pos, depth + 1)
  }

  function ParsePrimary(ts: seq<Token>, pos: nat, depth: nat): (r: Parsed)
    requires Ended(ts) && pos < |ts|
    ensures Progress(ts, pos, r)
    decreases Room(depth), 2, 0
  {
    if depth > MAX_EXPRESSION_PARSE_DEPTH then Failed(InvalidSyntax)
    else
      var head := ParseHead(ts, pos, depth);
      if head.Failed? then head
      else
        var whole := PostfixLoop(ts, head.next, head.expression, head.depth, ts[pos].LeftParen?, depth);
        if whole.Parsed? && whole.depth > MAX_EXPRESSION_DEPTH then Failed(InvalidSyntax) else whole
  }

  /** A literal, a path root, a call, or a parenthesized expression. */
  function ParseHead(ts: seq<Token>, pos: nat, depth: nat): (r: Parsed)
    requires Ended(ts) && pos < |ts| && depth <= MAX_EXPRESSION_PARSE_DEPTH
    ensures Progress(ts, pos, r)
    decreases Room(depth), 1, |ts| + 1
  {
    var next := Advance(ts, pos);
    match ts[pos]
    case Identifier(name) =>
      if name == "true" then Parsed(Literal(BooleanLiteral(true)), 1, next)
      else if name == "false" then Parsed(Literal(BooleanLiteral(false)), 1, next)
      else if name == "null" then Parsed(Literal(NullLiteral), 1, next)
      else if ts[next].LeftParen? then ParseCall(ts, next, name, depth)
      else Parsed(Path([Property(name)]), 1, next)
    case StringToken(text) => Parsed(Literal(StringLiteral(text)), 1, next)
    case NumberToken(number) => Parsed(Literal(NumberLiteral(number)), 1, next)
    case LeftParen =>
      var nested := ParseBinary(ts, next, 0, depth + 1);
      if nested.Failed? then nested
      else if !ts[nested.next].RightParen? then Failed(InvalidSyntax)
      else nested.(next := Advance(ts, nested.next))
    case _ => Failed(InvalidSyntax)
  }

  /** A call whose opening parenthesis is at `pos`. */
  function ParseCall(ts: seq<Token>, pos: nat, name: string, depth: nat): (r: Parsed)
    requires Ended(ts) && pos < |ts| && ts[pos].LeftParen? && depth <= MAX_EXPRESSION_PARSE_DEPTH
    ensures Progress(ts, pos, r)
    decreases Room(depth), 1, |ts|
  {
    var f := FunctionOf(name);
    if f.None? then Failed(UnsupportedFeature)
    else
      var first := Advance(ts, pos);
      var arguments := if ts[first].RightParen? then Arguments([], 1, first) else ArgumentLoop(ts, first, [], 1, depth);
      if arguments.NoArguments? then Failed(arguments.error)
      else if !ts[arguments.next].RightParen? then Failed(InvalidSyntax)
      else if !AcceptsArity(f.value, |arguments.items|) then Failed(InvalidSyntax)
      else Parsed(Call(f.value, arguments.items), arguments.depth, Advance(ts, arguments.next))
  }

  datatype ArgumentList = Arguments(items: seq<Expression>, depth: nat, next: nat) | NoArguments(error: ParseError)

  function ArgumentLoop(ts: seq<Token>, pos: nat, items: seq<Expression>, itemDepth: nat, depth: nat): (r: ArgumentList)
    requires Ended(ts) && pos < |ts| && depth <= MAX_EXPRESSION_PARSE_DEPTH
    ensures r.Arguments? ==> pos < r.next < |ts|
    decreases Room(depth), 0, |ts| - pos
  {
    var argument := ParseBinary(ts, pos, 0, depth + 1);
    if argument.Failed? then NoArguments(argument.error)
    else
      var more := items + [argument.expression];
      var moreDepth := Max(itemDepth, argument.depth + 1);
      if ts[argument.next].Comma? then ArgumentLoop(ts, Advance(ts, argument.next), more, moreDepth, depth)
      else Arguments(more, moreDepth, argument.next)
  }

  /** Property access, projection and bracket access after a value. */
  function PostfixLoop(ts: seq<Token>, pos: nat, value: Expression, valueDepth: nat, grouped: bool, depth: nat): (r: Parsed)
    requires Ended(ts) && pos < |ts| && depth <= MAX_EXPRESSION_PARSE_DEPTH
    ensures r.Parsed? ==> pos <= r.next < |ts|
    decreases Room(depth), 0, |ts| - pos
  {
    match ts[pos]
    case Dot =>
      var name := Advance(ts, pos);
      if ts[name].Identifier? then
        PostfixLoop(ts, Advance(ts, name), PushAccess(value, KeyStep(ts[name].name), grouped), valueDepth, false, depth)
      else if ts[name].Star? then
        PostfixLoop(ts, Advance(ts, name), PushAccess(value, Projection, grouped), valueDepth, false, depth)
      else Failed(InvalidSyntax)
    case LeftBracket =>
      var selector := ParseBinary(ts, Advance(ts, pos), 0, depth + 1);
      if selector.Failed? then selector
      else if !ts[selector.next].RightBracket? then Failed(InvalidSyntax)
      else
        PostfixLoop(ts, Advance(ts, selector.next), PushAccess(value, StepOf(selector.expression), grouped),
                    Max(valueDepth, selector.depth + 1), false, depth)
    case LeftParen => Failed(UnsupportedFeature)
    case _ => Parsed(value, valueDepth, pos)
  }

  /** A literal key or index is fixed; any other selector is evaluated at run time. */
  function StepOf(selector: Expression): Step {
    match selector
    case Literal(StringLiteral(name)) => KeyStep(name)
    case Literal(NumberLiteral(Whole(n))) => IndexStep(n)
    case _ => Dynamic(selector)
  }

  /** A path grows by fixed steps; any other value becomes the base of an access. A parenthesized
      access starts a new one. */
  function PushAccess(value: Expression, step: Step, grouped: bool): Expression {
    if grouped && value.Access? then Access(value, [step])
    else if value.Path? && step.KeyStep? then Path(value.segments + [Property(step.name)])
    else if value.Path? && step.IndexStep? then Path(value.segments + [Index(step.n)])
    else if value.Access? then Access(value.base, value.steps + [step])
    else Access(value, [step])
  }

  /** Parses a whole token stream. */
  function ParseTokens(ts: seq<Token>): Parsed
    requires Ended(ts)
  {
    var r := ParseBinary(ts, 0, 0, 0);
    if r.Parsed? && !ts[r.next].End? then Failed(InvalidSyntax) else r
  }
}
