/**
 The grammar of expressions, level by level with the operators of each level named, and the proof that the
 parser accepts exactly its sentences within the two limits and returns their trees.
 */
module ExpressionGrammar {
  import opened Text
  import opened Expressions

  // ----- written expressions

  /** An expression as it is written: parentheses and the suffixes of a value are kept. */
  datatype Source =
    | Leaf(value: Literal)
    | Root(name: string)
    | Postfix(base: Source, suffix: Suffix)
    | CallOf(function_: Function, name: string, arguments: seq<Source>)
    | Group(inner: Source)
    | Negation(operand: Source)
    | Operation(operator: Operator, left: Source, right: Source)

  datatype Suffix = Named(name: string) | Starred | Bracketed(selector: Source)

  predicate Reserved(name: string) {
    name == "true" || name == "false" || name == "null"
  }

  // ----- the grammar

  /** A function may be written in any mixture of cases. */
  function LowerName(f: Function): string {
    match f
    case StrictEquals => "strictequals"
    case Contains => "contains"
    case StartsWith => "startswith"
    case EndsWith => "endswith"
    case Join => "join"
    case Format => "format"
    case ToJSON => "tojson"
    case FromJSON => "fromjson"
  }

  /** The numbers of arguments that a function takes. */
  predicate Takes(f: Function, count: nat) {
    match f
    case StrictEquals => count == 2
    case Contains => count == 2
    case StartsWith => count == 2
    case EndsWith => count == 2
    case Join => count == 1 || count == 2
    case Format => count != 0 && count != 1
    case ToJSON => count == 1
    case FromJSON => count == 1
  }

  lemma {:induction false} FunctionsExactly(name: string, f: Function, count: nat)
    ensures FunctionOf(name) == Some(f) <==> AsciiLower(name) == LowerName(f)
    ensures AcceptsArity(f, count) <==> Takes(f, count)
    ensures AsciiLower(name) == LowerName(f) ==> !Reserved(name)
  {
    if Reserved(name) {
      assert AsciiLower("true") == "true" && AsciiLower("false") == "false" && AsciiLower("null") == "null";
    }
  }

  /** Alternatives of conjunctions, grouped to the left. */
  predicate IsDisjunction(d: Source)
    decreases d, 5
  {
    if d.Operation? && d.operator == Or then IsDisjunction(d.left) && IsConjunction(d.right) else IsConjunction(d)
  }

  predicate IsConjunction(d: Source)
    decreases d, 4
  {
    if d.Operation? && d.operator == And then IsConjunction(d.left) && IsEquality(d.right) else IsEquality(d)
  }

  predicate IsEquality(d: Source)
    decreases d, 3
  {
    if d.Operation? && (d.operator == Equal || d.operator == NotEqual) then IsEquality(d.left) && IsRelation(d.right)
    else IsRelation(d)
  }

  predicate IsRelation(d: Source)
    decreases d, 2
  {
    if d.Operation? && (d.operator == Less || d.operator == LessOrEqual || d.operator == Greater || d.operator == GreaterOrEqual)
    then IsRelation(d.left) && IsUnary(d.right)
    else IsUnary(d)
  }

  predicate IsUnary(d: Source)
    decreases d, 1
  {
    if d.Negation? then IsUnary(d.operand) else IsPrimary(d)
  }

  /** A literal, a property of the context, a call, an expression in parentheses, or one of these with suffixes. */
  predicate IsPrimary(d: Source)
    decreases d, 0
  {
    match d
    case Leaf(_) => true
    case Root(name) => !Reserved(name)
    case Postfix(base, suffix) => IsPrimary(base) && (suffix.Bracketed? ==> IsDisjunction(suffix.selector))
    case CallOf(f, name, arguments) =>
      AsciiLower(name) == LowerName(f) && Takes(f, |arguments|)
      && forall a | a in arguments :: IsDisjunction(a)
    case Group(inner) => IsDisjunction(inner)
    case _ => false
  }

  // ----- tokens, trees, and sizes

  function LiteralToken(value: Literal): Token {
    match value
    case StringLiteral(text) => StringToken(text)
    case NumberLiteral(number) => NumberToken(number)
    case BooleanLiteral(b) => Identifier(if b then "true" else "false")
    case NullLiteral => Identifier("null")
  }

  function TokensOf(d: Source): seq<Token>
    decreases d
  {
    match d
    case Leaf(value) => [LiteralToken(value)]
    case Root(name) => [Identifier(name)]
    case Postfix(base, suffix) => TokensOf(base) + SuffixTokens(suffix)
    case CallOf(_, name, arguments) => [Identifier(name)] + ([LeftParen] + (ArgumentTokens(arguments) + [RightParen]))
    case Group(inner) => [LeftParen] + (TokensOf(inner) + [RightParen])
    case Negation(operand) => [Bang] + TokensOf(operand)
    case Operation(op, left, right) => TokensOf(left) + ([OperatorToken(op)] + TokensOf(right))
  }

  function SuffixTokens(s: Suffix): seq<Token>
    decreases s
  {
    match s
    case Named(name) => [Dot] + [Identifier(name)]
    case Starred => [Dot] + [Star]
    case Bracketed(selector) => [LeftBracket] + (TokensOf(selector) + [RightBracket])
  }

  function ArgumentTokens(arguments: seq<Source>): seq<Token>
    decreases arguments
  {
    if arguments == [] then []
    else if |arguments| == 1 then TokensOf(arguments[0])
    else TokensOf(arguments[0]) + ([Comma] + ArgumentTokens(arguments[1..]))
  }

  /** The tree of a written expression. */
  function TreeOf(d: Source): Expression
    decreases d
  {
    match d
    case Leaf(value) => Literal(value)
    case Root(name) => Path([Property(name)])
    case Postfix(base, suffix) => PushAccess(TreeOf(base), StepFor(suffix), base.Group?)
    case CallOf(f, _, arguments) => Call(f, TreesOf(arguments))
    case Group(inner) => TreeOf(inner)
    case Negation(operand) => Not(TreeOf(operand))
    case Operation(op, left, right) => Binary(op, TreeOf(left), TreeOf(right))
  }

  function StepFor(s: Suffix): Step
    decreases s
  {
    match s
    case Named(name) => KeyStep(name)
    case Starred => Projection
    case Bracketed(selector) => StepOf(TreeOf(selector))
  }

  function TreesOf(arguments: seq<Source>): (trees: seq<Expression>)
    ensures |trees| == |arguments|
    decreases arguments
  {
    if arguments == [] then [] else [TreeOf(arguments[0])] + TreesOf(arguments[1..])
  }

  /** The height as written: a bracket and an argument are one above what they contain. */
  function HeightOf(d: Source): (h: nat)
    ensures h >= 1
    decreases d
  {
    match d
    case Leaf(_) => 1
    case Root(_) => 1
    case Postfix(base, suffix) => Max(HeightOf(base), SuffixHeight(suffix))
    case CallOf(_, _, arguments) => ArgumentsHeightOf(arguments, 1)
    case Group(inner) => HeightOf(inner)
    case Negation(operand) => HeightOf(operand) + 1
    case Operation(_, left, right) => Max(HeightOf(left), HeightOf(right)) + 1
  }

  function SuffixHeight(s: Suffix): nat
    decreases s
  {
    if s.Bracketed? then HeightOf(s.selector) + 1 else 0
  }

  function ArgumentsHeightOf(arguments: seq<Source>, below: nat): (h: nat)
    ensures h >= below
    decreases arguments
  {
    if arguments == [] then below else ArgumentsHeightOf(arguments[1..], Max(below, HeightOf(arguments[0]) + 1))
  }

  /** Nested calls of the parser below the one that reads the expression. */
  function LevelsOf(d: Source): nat
    decreases d, 2
  {
    if d.Operation? then Max(LevelsOf(d.left), 1 + LevelsOf(d.right)) else 1 + UnaryLevelsOf(d)
  }

  function UnaryLevelsOf(d: Source): nat
    decreases d, 1
  {
    if d.Negation? then 1 + UnaryLevelsOf(d.operand) else 1 + PrimaryLevelsOf(d)
  }

  function PrimaryLevelsOf(d: Source): nat
    decreases d, 0
  {
    match d
    case Postfix(base, suffix) => Max(PrimaryLevelsOf(base), SuffixLevels(suffix))
    case CallOf(_, _, arguments) => ArgumentsLevelsOf(arguments)
    case Group(inner) => 1 + LevelsOf(inner)
    case _ => 0
  }

  function SuffixLevels(s: Suffix): nat
    decreases s
  {
    if s.Bracketed? then 1 + LevelsOf(s.selector) else 0
  }

  function ArgumentsLevelsOf(arguments: seq<Source>): nat
    decreases arguments
  {
    if arguments == [] then 0 else Max(1 + LevelsOf(arguments[0]), ArgumentsLevelsOf(arguments[1..]))
  }

  /** The two limits: on the height, and on the deepest parser level. */
  predicate Fits(d: Source, deepest: nat) {
    HeightOf(d) <= 32 && deepest <= 128
  }

  function Outcome(fits: bool, d: Source, next: nat): Parsed {
    if fits then Parsed(TreeOf(d), HeightOf(d), next) else Failed(InvalidSyntax)
  }

  // ----- places in a token stream

  predicate Spells(ts: seq<Token>, pos: nat, toks: seq<Token>) {
    pos + |toks| <= |ts| && ts[pos..pos + |toks|] == toks
  }

  lemma {:induction false} SpellsSplit(ts: seq<Token>, pos: nat, first: seq<Token>, second: seq<Token>)
    requires Spells(ts, pos, first + second)
    ensures Spells(ts, pos, first) && Spells(ts, pos + |first|, second)
  {
    assert ts[pos..pos + |first|] == (first + second)[..|first|];
    assert ts[pos + |first|..pos + |first| + |second|] == (first + second)[|first|..];
  }

  lemma {:induction false} SpellsOne(ts: seq<Token>, pos: nat, tok: Token, rest: seq<Token>)
    requires Ended(ts) && Spells(ts, pos, [tok] + rest) && pos + 1 + |rest| < |ts|
    ensures ts[pos] == tok && Advance(ts, pos) == pos + 1 && Spells(ts, pos + 1, rest)
  {
    SpellsSplit(ts, pos, [tok], rest);
    assert ts[pos..pos + 1][0] == tok;
  }

  /** A token that continues a value. */
  predicate Continues(t: Token) {
    t.Dot? || t.LeftBracket? || t.LeftParen?
  }

  // ----- the levels as numbers

  /** The expression belongs to this level or a tighter one. */
  predicate InTier(d: Source, q: nat) {
    if q <= 1 then IsDisjunction(d)
    else if q == 2 then IsConjunction(d)
    else if q == 3 then IsEquality(d)
    else if q == 4 then IsRelation(d)
    else if q == 5 then IsUnary(d)
    else IsPrimary(d)
  }

  function TierOf(d: Source): nat {
    match d
    case Operation(op, _, _) => Precedence(op)
    case Negation(_) => 5
    case _ => 6
  }

  /** Which operators each level admits at the root. */
  lemma {:induction false} RootsOfTiers(d: Source)
    ensures IsPrimary(d) ==> IsUnary(d) && TierOf(d) == 6
    ensures IsUnary(d) ==> IsRelation(d) && TierOf(d) >= 5
    ensures IsRelation(d) ==> IsEquality(d) && TierOf(d) >= 4
    ensures IsEquality(d) ==> IsConjunction(d) && TierOf(d) >= 3
    ensures IsConjunction(d) ==> IsDisjunction(d) && TierOf(d) >= 2
    ensures TierOf(d) >= 1
  {
    assert d.Operation? ==> !IsPrimary(d) && !IsUnary(d);
    if d.Operation? && TierOf(d) < 4 { assert !IsRelation(d); }
    if d.Operation? && TierOf(d) < 3 { assert !IsEquality(d); }
    if d.Operation? && TierOf(d) < 2 { assert !IsConjunction(d); }
  }

  lemma {:induction false} TiersNest(d: Source, q: nat, r: nat)
    requires InTier(d, q) && r <= q
    ensures InTier(d, r)
  {
    RootsOfTiers(d);
  }

  lemma {:induction false} OwnTier(d: Source, q: nat)
    requires InTier(d, q) && q <= 6
    ensures q <= TierOf(d) && InTier(d, TierOf(d))
  {
    RootsOfTiers(d);
    if d.Operation? && TierOf(d) == 4 { assert IsEquality(d) ==> IsRelation(d); }
    assert q <= TierOf(d);
    assert TierOf(d) >= 2 && IsDisjunction(d) ==> IsConjunction(d);
    assert TierOf(d) >= 3 && IsConjunction(d) ==> IsEquality(d);
    assert TierOf(d) >= 4 && IsEquality(d) ==> IsRelation(d);
  }

  lemma {:induction false} OperandTiers(d: Source, q: nat)
    requires InTier(d, q) && q <= 6 && d.Operation?
    ensures q <= Precedence(d.operator) <= 4
    ensures InTier(d.left, Precedence(d.operator)) && InTier(d.right, Precedence(d.operator) + 1)
  {
    RootsOfTiers(d);
    OwnTier(d, q);
  }

  lemma {:induction false} JoinedTier(op: Operator, left: Source, right: Source)
    requires InTier(left, Precedence(op)) && InTier(right, Precedence(op) + 1)
    ensures InTier(Operation(op, left, right), Precedence(op))
  {}

  // ----- sentences are accepted within the limits

  /** What may follow an expression of this level: no suffix, and no operator that binds more tightly. */
  predicate Follows(t: Token, tier: nat) {
    !Continues(t) && (t.OperatorToken? ==> Precedence(t.operator) <= tier)
  }

  /** The next token is no operator that the loop would take. */
  predicate Stops(t: Token, minimum: nat) {
    t.OperatorToken? ==> Precedence(t.operator) < minimum
  }

  /** The access loop after the head of a primary. */
  function AfterHead(ts: seq<Token>, pos: nat, depth: nat): Parsed
    requires Ended(ts) && pos < |ts| && depth <= MAX_EXPRESSION_PARSE_DEPTH
  {
    var head := ParseHead(ts, pos, depth);
    if head.Failed? then head
    else PostfixLoop(ts, head.next, head.expression, head.depth, ts[pos].LeftParen?, depth)
  }

  /** `r` is the loop's result, and certainly so if the expression keeps the limits; otherwise it may be a
      rejection. The height limit is left to the caller. */
  ghost predicate Leads(r: Parsed, d: Source, deepest: nat, then_: Parsed) {
    (r == Failed(InvalidSyntax) || (deepest <= 128 && r == then_)) && (Fits(d, deepest) ==> r == then_)
  }

  lemma {:induction false} BinaryAccepts(d: Source, q: nat, ts: seq<Token>, pos: nat, next: nat, minimum: nat, depth: nat)
    requires Ended(ts) && InTier(d, q) && minimum <= q <= 5
    requires Spells(ts, pos, TokensOf(d)) && next == pos + |TokensOf(d)| < |ts| && Follows(ts[next], TierOf(d)) && pos < |ts|
    ensures ParseBinary(ts, pos, minimum, depth)
         == if Fits(d, depth + LevelsOf(d)) then BinaryLoop(ts, next, TreeOf(d), HeightOf(d), minimum, depth)
            else Failed(InvalidSyntax)
    decreases d, 5
  {
    if depth <= MAX_EXPRESSION_PARSE_DEPTH {
      if d.Operation? {
        OperationAccepts(d, q, ts, pos, next, minimum, depth);
      } else {
        OwnTier(d, q);
        TiersNest(d, TierOf(d), 5);
        UnaryAccepts(d, ts, pos, next, depth + 1);
      }
    }
  }

  /** An operand that nothing extends. */
  lemma {:induction false} OperandAccepts(d: Source, q: nat, ts: seq<Token>, pos: nat, next: nat, depth: nat)
    requires Ended(ts) && InTier(d, q) && q <= 5
    requires Spells(ts, pos, TokensOf(d)) && next == pos + |TokensOf(d)| < |ts| && pos < |ts|
    requires !Continues(ts[next]) && Stops(ts[next], q)
    ensures ParseBinary(ts, pos, q, depth) == Outcome(Fits(d, depth + LevelsOf(d)), d, next)
    decreases d, 6
  {
    OwnTier(d, q);
    BinaryAccepts(d, q, ts, pos, next, q, depth);
  }

  lemma {:induction false} TokensStart(d: Source)
    ensures TokensOf(d) != []
    decreases d
  {
    match d
    case Postfix(base, _) => TokensStart(base);
    case Operation(_, left, _) => TokensStart(left);
    case _ =>
  }

  lemma {:induction false} OperationPlaces(d: Source, ts: seq<Token>, pos: nat, next: nat)
    requires Ended(ts) && d.Operation? && Spells(ts, pos, TokensOf(d)) && next == pos + |TokensOf(d)| < |ts|
    ensures var at := pos + |TokensOf(d.left)|;
      Spells(ts, pos, TokensOf(d.left)) && at + 1 < next && ts[at] == OperatorToken(d.operator) && Advance(ts, at) == at + 1
      && Spells(ts, at + 1, TokensOf(d.right)) && next == at + 1 + |TokensOf(d.right)|
  {
    SpellsSplit(ts, pos, TokensOf(d.left), [OperatorToken(d.operator)] + TokensOf(d.right));
    SpellsOne(ts, pos + |TokensOf(d.left)|, OperatorToken(d.operator), TokensOf(d.right));
    TokensStart(d.right);
  }

  lemma {:induction false} OperationAccepts(d: Source, q: nat, ts: seq<Token>, pos: nat, next: nat, minimum: nat, depth: nat)
    requires Ended(ts) && InTier(d, q) && minimum <= q <= 5 && d.Operation? && depth <= MAX_EXPRESSION_PARSE_DEPTH
    requires Spells(ts, pos, TokensOf(d)) && next == pos + |TokensOf(d)| < |ts| && Follows(ts[next], TierOf(d)) && pos < |ts|
    ensures ParseBinary(ts, pos, minimum, depth)
         == if Fits(d, depth + LevelsOf(d)) then BinaryLoop(ts, next, TreeOf(d), HeightOf(d), minimum, depth)
            else Failed(InvalidSyntax)
    decreases d, 4
  {
    var at := pos + |TokensOf(d.left)|;
    OperandTiers(d, q);
    OperationPlaces(d, ts, pos, next);
    LeftAccepts(d, ts, pos, at, minimum, depth);
    RightAccepts(d, ts, pos, at, next, minimum, depth);
  }

  lemma {:induction false} LeftAccepts(d: Source, ts: seq<Token>, pos: nat, at: nat, minimum: nat, depth: nat)
    requires Ended(ts) && d.Operation? && InTier(d.left, Precedence(d.operator)) && minimum <= Precedence(d.operator) <= 4
    requires Spells(ts, pos, TokensOf(d.left)) && at == pos + |TokensOf(d.left)| < |ts| && ts[at] == OperatorToken(d.operator) && pos < |ts|
    ensures ParseBinary(ts, pos, minimum, depth)
         == if Fits(d.left, depth + LevelsOf(d.left)) then BinaryLoop(ts, at, TreeOf(d.left), HeightOf(d.left), minimum, depth)
            else Failed(InvalidSyntax)
    decreases d, 3
  {
    OwnTier(d.left, Precedence(d.operator));
    assert Follows(ts[at], TierOf(d.left));
    BinaryAccepts(d.left, Precedence(d.operator), ts, pos, at, minimum, depth);
  }

  lemma {:induction false} RightAccepts(d: Source, ts: seq<Token>, pos: nat, at: nat, next: nat, minimum: nat, depth: nat)
    requires Ended(ts) && d.Operation? && InTier(d.right, Precedence(d.operator) + 1) && minimum <= Precedence(d.operator) <= 4
    requires pos < |ts| && at + 1 < |ts| && ts[at] == OperatorToken(d.operator) && Advance(ts, at) == at + 1 && depth <= MAX_EXPRESSION_PARSE_DEPTH
    requires Spells(ts, at + 1, TokensOf(d.right)) && next == at + 1 + |TokensOf(d.right)| < |ts| && Follows(ts[next], TierOf(d))
    requires ParseBinary(ts, pos, minimum, depth)
          == if Fits(d.left, depth + LevelsOf(d.left)) then BinaryLoop(ts, at, TreeOf(d.left), HeightOf(d.left), minimum, depth)
             else Failed(InvalidSyntax)
    ensures ParseBinary(ts, pos, minimum, depth)
         == if Fits(d, depth + LevelsOf(d)) then BinaryLoop(ts, next, TreeOf(d), HeightOf(d), minimum, depth)
            else Failed(InvalidSyntax)
    decreases d, 3
  {
    OperandAccepts(d.right, Precedence(d.operator) + 1, ts, at + 1, next, depth + 1);
    OperationJoins(d, ts, pos, at, next, minimum, depth);
  }

  lemma {:induction false} OperationJoins(d: Source, ts: seq<Token>, pos: nat, at: nat, next: nat, minimum: nat, depth: nat)
    requires Ended(ts) && d.Operation? && minimum <= Precedence(d.operator) && depth <= MAX_EXPRESSION_PARSE_DEPTH
    requires pos < |ts| && at + 1 < |ts| && next < |ts| && ts[at] == OperatorToken(d.operator) && Advance(ts, at) == at + 1
    requires ParseBinary(ts, pos, minimum, depth)
          == if Fits(d.left, depth + LevelsOf(d.left)) then BinaryLoop(ts, at, TreeOf(d.left), HeightOf(d.left), minimum, depth)
             else Failed(InvalidSyntax)
    requires ParseBinary(ts, at + 1, Precedence(d.operator) + 1, depth + 1)
          == Outcome(Fits(d.right, depth + 1 + LevelsOf(d.right)), d.right, next)
    ensures ParseBinary(ts, pos, minimum, depth)
         == if Fits(d, depth + LevelsOf(d)) then BinaryLoop(ts, next, TreeOf(d), HeightOf(d), minimum, depth)
            else Failed(InvalidSyntax)
  {}

  lemma {:induction false} UnaryAccepts(d: Source, ts: seq<Token>, pos: nat, next: nat, depth: nat)
    requires Ended(ts) && IsUnary(d) && pos < |ts|
    requires Spells(ts, pos, TokensOf(d)) && next == pos + |TokensOf(d)| < |ts| && !Continues(ts[next])
    ensures ParseUnary(ts, pos, depth) == Outcome(Fits(d, depth + UnaryLevelsOf(d)), d, next)
    decreases d, 3
  {
    if depth <= MAX_EXPRESSION_PARSE_DEPTH {
      if d.Negation? {
        SpellsOne(ts, pos, Bang, TokensOf(d.operand));
        UnaryAccepts(d.operand, ts, pos + 1, next, depth + 1);
        NegationJoins(d, ts, pos, next, depth);
      } else {
        PrimaryStart(d, ts, pos);
        PrimaryAccepts(d, ts, pos, next, depth + 1);
        PrimaryJoins(d, ts, pos, next, depth);
      }
    }
  }

  lemma {:induction false} NegationJoins(d: Source, ts: seq<Token>, pos: nat, next: nat, depth: nat)
    requires Ended(ts) && d.Negation? && pos + 1 < |ts| && ts[pos] == Bang && Advance(ts, pos) == pos + 1 && depth <= MAX_EXPRESSION_PARSE_DEPTH
    requires ParseUnary(ts, pos + 1, depth + 1) == Outcome(Fits(d.operand, depth + 1 + UnaryLevelsOf(d.operand)), d.operand, next)
    ensures ParseUnary(ts, pos, depth) == Outcome(Fits(d, depth + UnaryLevelsOf(d)), d, next)
  {}

  lemma {:induction false} PrimaryJoins(d: Source, ts: seq<Token>, pos: nat, next: nat, depth: nat)
    requires Ended(ts) && !d.Negation? && pos < |ts| && !ts[pos].Bang? && depth <= MAX_EXPRESSION_PARSE_DEPTH
    requires ParsePrimary(ts, pos, depth + 1) == Outcome(Fits(d, depth + 1 + PrimaryLevelsOf(d)), d, next)
    ensures ParseUnary(ts, pos, depth) == Outcome(Fits(d, depth + UnaryLevelsOf(d)), d, next)
  {}

  lemma {:induction false} PrimaryStart(d: Source, ts: seq<Token>, pos: nat)
    requires IsPrimary(d) && Spells(ts, pos, TokensOf(d))
    ensures pos < |ts| && !ts[pos].Bang? && !ts[pos].RightParen?
    decreases d
  {
    TokensStart(d);
    assert ts[pos] == TokensOf(d)[0];
    if d.Postfix? {
      SpellsSplit(ts, pos, TokensOf(d.base), SuffixTokens(d.suffix));
      PrimaryStart(d.base, ts, pos);
    }
  }

  lemma {:induction false} PrimaryAccepts(d: Source, ts: seq<Token>, pos: nat, next: nat, depth: nat)
    requires Ended(ts) && IsPrimary(d) && pos < |ts|
    requires Spells(ts, pos, TokensOf(d)) && next == pos + |TokensOf(d)| < |ts| && !Continues(ts[next])
    ensures ParsePrimary(ts, pos, depth) == Outcome(Fits(d, depth + PrimaryLevelsOf(d)), d, next)
    decreases d, 2
  {
    if depth <= MAX_EXPRESSION_PARSE_DEPTH {
      SuffixesLead(d, ts, pos, next, depth);
      assert PostfixLoop(ts, next, TreeOf(d), HeightOf(d), d.Group?, depth) == Parsed(TreeOf(d), HeightOf(d), next);
    }
  }

  /** A primary leads the access loop to its end. */
  lemma {:induction false} SuffixesLead(d: Source, ts: seq<Token>, pos: nat, next: nat, depth: nat)
    requires Ended(ts) && IsPrimary(d) && pos < |ts| && depth <= MAX_EXPRESSION_PARSE_DEPTH
    requires Spells(ts, pos, TokensOf(d)) && next == pos + |TokensOf(d)| < |ts| && !ts[next].LeftParen?
    ensures Leads(AfterHead(ts, pos, depth), d, depth + PrimaryLevelsOf(d),
                  PostfixLoop(ts, next, TreeOf(d), HeightOf(d), d.Group?, depth))
    decreases d, 1
  {
    match d
    case Leaf(value) => SpellsOne(ts, pos, LiteralToken(value), []);
    case Root(name) => SpellsOne(ts, pos, Identifier(name), []);
    case Group(_) => GroupLeads(d, ts, pos, next, depth);
    case CallOf(_, _, _) => CallLeads(d, ts, pos, next, depth);
    case Postfix(_, _) => PostfixLeads(d, ts, pos, next, depth);
  }

  lemma {:induction false} PostfixLeads(d: Source, ts: seq<Token>, pos: nat, next: nat, depth: nat)
    requires Ended(ts) && IsPrimary(d) && d.Postfix? && pos < |ts| && depth <= MAX_EXPRESSION_PARSE_DEPTH
    requires Spells(ts, pos, TokensOf(d)) && next == pos + |TokensOf(d)| < |ts|
    ensures Leads(AfterHead(ts, pos, depth), d, depth + PrimaryLevelsOf(d),
                  PostfixLoop(ts, next, TreeOf(d), HeightOf(d), false, depth))
    decreases d, 0
  {
    var base, suffix := d.base, d.suffix;
    var at := pos + |TokensOf(base)|;
    SpellsSplit(ts, pos, TokensOf(base), SuffixTokens(suffix));
    SuffixStart(suffix, ts, at);
    SuffixesLead(base, ts, pos, at, depth);
    SuffixTurn(suffix, ts, at, next, TreeOf(base), HeightOf(base), base.Group?, depth);
    SuffixJoins(d, AfterHead(ts, pos, depth), PostfixLoop(ts, at, TreeOf(base), HeightOf(base), base.Group?, depth),
                PostfixLoop(ts, next, TreeOf(d), HeightOf(d), false, depth), depth);
  }

  lemma {:induction false} SuffixStart(s: Suffix, ts: seq<Token>, at: nat)
    requires Spells(ts, at, SuffixTokens(s))
    ensures at < |ts| && !ts[at].LeftParen?
  {
    assert ts[at] == SuffixTokens(s)[0];
  }

  predicate SuffixFits(s: Suffix, depth: nat) {
    s.Bracketed? ==> Fits(s.selector, depth + 1 + LevelsOf(s.selector))
  }

  lemma {:induction false} SuffixJoins(d: Source, r: Parsed, atBase: Parsed, after: Parsed, depth: nat)
    requires d.Postfix? && Leads(r, d.base, depth + PrimaryLevelsOf(d.base), atBase)
    requires atBase == if SuffixFits(d.suffix, depth) then after else Failed(InvalidSyntax)
    requires depth <= 128
    ensures Leads(r, d, depth + PrimaryLevelsOf(d), after)
  {
    assert HeightOf(d) == Max(HeightOf(d.base), SuffixHeight(d.suffix));
    assert PrimaryLevelsOf(d) == Max(PrimaryLevelsOf(d.base), SuffixLevels(d.suffix));
  }

  /** One turn of the access loop. */
  lemma {:induction false} SuffixTurn(s: Suffix, ts: seq<Token>, pos: nat, next: nat, value: Expression, below: nat, grouped: bool, depth: nat)
    requires Ended(ts) && pos < |ts| && depth <= MAX_EXPRESSION_PARSE_DEPTH && (s.Bracketed? ==> IsDisjunction(s.selector))
    requires Spells(ts, pos, SuffixTokens(s)) && next == pos + |SuffixTokens(s)| < |ts|
    ensures PostfixLoop(ts, pos, value, below, grouped, depth)
         == if SuffixFits(s, depth)
            then PostfixLoop(ts, next, PushAccess(value, StepFor(s), grouped), Max(below, SuffixHeight(s)), false, depth)
            else Failed(InvalidSyntax)
    decreases s
  {
    match s
    case Named(name) => NameTurn(ts, pos, Identifier(name), KeyStep(name), value, below, grouped, depth);
    case Starred => NameTurn(ts, pos, Star, Projection, value, below, grouped, depth);
    case Bracketed(selector) =>
      SelectorTurn(selector, ts, pos, next, value, below, grouped, depth);
  }

  lemma {:induction false} SelectorTurn(selector: Source, ts: seq<Token>, pos: nat, next: nat, value: Expression, below: nat, grouped: bool, depth: nat)
    requires Ended(ts) && pos < |ts| && depth <= MAX_EXPRESSION_PARSE_DEPTH && IsDisjunction(selector)
    requires Spells(ts, pos, SuffixTokens(Bracketed(selector))) && next == pos + |SuffixTokens(Bracketed(selector))| < |ts|
    ensures PostfixLoop(ts, pos, value, below, grouped, depth)
         == if Fits(selector, depth + 1 + LevelsOf(selector))
            then PostfixLoop(ts, next, PushAccess(value, StepOf(TreeOf(selector)), grouped), Max(below, HeightOf(selector) + 1), false, depth)
            else Failed(InvalidSyntax)
    decreases selector, 8
  {
    EnclosedPlaces(ts, pos, next, LeftBracket, TokensOf(selector), RightBracket);
    TokensStart(selector);
    WholeAccepts(selector, ts, pos + 1, next - 1, depth + 1);
    BracketTurn(selector, ts, pos, next - 1, value, below, grouped, depth);
  }

  lemma {:induction false} NameTurn(ts: seq<Token>, pos: nat, name: Token, step: Step, value: Expression, below: nat, grouped: bool, depth: nat)
    requires Ended(ts) && depth <= MAX_EXPRESSION_PARSE_DEPTH && pos + 2 < |ts| && Spells(ts, pos, [Dot] + [name])
    requires (step.KeyStep? && name == Identifier(step.name)) || (step.Projection? && name == Star)
    ensures PostfixLoop(ts, pos, value, below, grouped, depth)
         == PostfixLoop(ts, pos + 2, PushAccess(value, step, grouped), below, false, depth)
  {
    SpellsOne(ts, pos, Dot, [name]);
    SpellsOne(ts, pos + 1, name, []);
  }

  lemma {:induction false} BracketTurn(selector: Source, ts: seq<Token>, pos: nat, close: nat, value: Expression, below: nat, grouped: bool, depth: nat)
    requires Ended(ts) && pos + 1 < |ts| && close + 1 < |ts| && depth <= MAX_EXPRESSION_PARSE_DEPTH
    requires ts[pos] == LeftBracket && ts[close] == RightBracket && Advance(ts, pos) == pos + 1 && Advance(ts, close) == close + 1
    requires ParseBinary(ts, pos + 1, 0, depth + 1) == Outcome(Fits(selector, depth + 1 + LevelsOf(selector)), selector, close)
    ensures PostfixLoop(ts, pos, value, below, grouped, depth)
         == if Fits(selector, depth + 1 + LevelsOf(selector))
            then PostfixLoop(ts, close + 1, PushAccess(value, StepOf(TreeOf(selector)), grouped), Max(below, HeightOf(selector) + 1), false, depth)
            else Failed(InvalidSyntax)
  {}

  lemma {:induction false} GroupLeads(d: Source, ts: seq<Token>, pos: nat, next: nat, depth: nat)
    requires Ended(ts) && IsPrimary(d) && d.Group? && pos < |ts| && depth <= MAX_EXPRESSION_PARSE_DEPTH
    requires Spells(ts, pos, TokensOf(d)) && next == pos + |TokensOf(d)| < |ts|
    ensures Leads(AfterHead(ts, pos, depth), d, depth + PrimaryLevelsOf(d),
                  PostfixLoop(ts, next, TreeOf(d), HeightOf(d), true, depth))
    decreases d, 0
  {
    EnclosedPlaces(ts, pos, next, LeftParen, TokensOf(d.inner), RightParen);
    TokensStart(d.inner);
    WholeAccepts(d.inner, ts, pos + 1, next - 1, depth + 1);
    GroupCloses(d.inner, ts, pos, next - 1, depth);
  }

  /** An expression between other tokens, which is read from the lowest level. */
  lemma {:induction false} WholeAccepts(d: Source, ts: seq<Token>, pos: nat, next: nat, depth: nat)
    requires Ended(ts) && IsDisjunction(d) && pos < |ts| && Spells(ts, pos, TokensOf(d)) && next == pos + |TokensOf(d)| < |ts|
    requires !Continues(ts[next]) && !ts[next].OperatorToken?
    ensures ParseBinary(ts, pos, 0, depth) == Outcome(Fits(d, depth + LevelsOf(d)), d, next)
    decreases d, 7
  {
    OperandAccepts(d, 0, ts, pos, next, depth);
  }

  /** The tokens between an opening and a closing one. */
  lemma {:induction false} EnclosedPlaces(ts: seq<Token>, pos: nat, next: nat, open: Token, toks: seq<Token>, close: Token)
    requires Ended(ts) && Spells(ts, pos, [open] + (toks + [close])) && next == pos + |toks| + 2 < |ts|
    ensures ts[pos] == open && Spells(ts, pos + 1, toks) && ts[next - 1] == close
    ensures Advance(ts, pos) == pos + 1 && Advance(ts, next - 1) == next
  {
    SpellsOne(ts, pos, open, toks + [close]);
    SpellsSplit(ts, pos + 1, toks, [close]);
    SpellsOne(ts, next - 1, close, []);
  }

  lemma {:induction false} GroupCloses(inner: Source, ts: seq<Token>, pos: nat, close: nat, depth: nat)
    requires Ended(ts) && pos + 1 < |ts| && close + 1 < |ts| && depth <= MAX_EXPRESSION_PARSE_DEPTH
    requires ts[pos] == LeftParen && ts[close] == RightParen && Advance(ts, pos) == pos + 1 && Advance(ts, close) == close + 1
    requires ParseBinary(ts, pos + 1, 0, depth + 1) == Outcome(Fits(inner, depth + 1 + LevelsOf(inner)), inner, close)
    ensures var d := Group(inner);
      Leads(AfterHead(ts, pos, depth), d, depth + PrimaryLevelsOf(d), PostfixLoop(ts, close + 1, TreeOf(d), HeightOf(d), true, depth))
  {}

  // ----- calls

  lemma {:induction false} CallLeads(d: Source, ts: seq<Token>, pos: nat, next: nat, depth: nat)
    requires Ended(ts) && IsPrimary(d) && d.CallOf? && pos < |ts| && depth <= MAX_EXPRESSION_PARSE_DEPTH
    requires Spells(ts, pos, TokensOf(d)) && next == pos + |TokensOf(d)| < |ts|
    ensures Leads(AfterHead(ts, pos, depth), d, depth + PrimaryLevelsOf(d),
                  PostfixLoop(ts, next, TreeOf(d), HeightOf(d), false, depth))
    decreases d, 0
  {
    var toks := ArgumentTokens(d.arguments);
    SpellsOne(ts, pos, Identifier(d.name), [LeftParen] + (toks + [RightParen]));
    EnclosedPlaces(ts, pos + 1, next, LeftParen, toks, RightParen);
    assert |d.arguments| > 0 && d.arguments[0] in d.arguments;
    FunctionsExactly(d.name, d.function_, |d.arguments|);
    ArgumentsStart(d.arguments, ts, pos + 2);
    ArgumentsLead(d.arguments, ts, pos + 2, next - 1, [], 1, depth);
    CallCloses(d, ts, pos, next - 1, depth);
  }

  /** The first token of an argument does not close the list. */
  lemma {:induction false} ArgumentsStart(arguments: seq<Source>, ts: seq<Token>, pos: nat)
    requires arguments != [] && IsDisjunction(arguments[0]) && Spells(ts, pos, ArgumentTokens(arguments))
    ensures pos < |ts| && !ts[pos].RightParen?
  {
    FirstToken(arguments[0]);
    assert ts[pos] == ArgumentTokens(arguments)[0] == TokensOf(arguments[0])[0];
  }

  lemma {:induction false} FirstToken(d: Source)
    ensures TokensOf(d) != [] && !TokensOf(d)[0].RightParen?
    decreases d
  {
    match d
    case Postfix(base, _) => FirstToken(base);
    case Operation(_, left, _) => FirstToken(left);
    case _ =>
  }

  /** What the argument loop may return. */
  ghost predicate LeadsArguments(r: ArgumentList, height: nat, deepest: nat, then_: ArgumentList) {
    (r == NoArguments(InvalidSyntax) || (deepest <= 128 && r == then_)) && (height <= 32 && deepest <= 128 ==> r == then_)
  }

  lemma {:induction false} ArgumentsLead(
      arguments: seq<Source>, ts: seq<Token>, pos: nat, close: nat, items: seq<Expression>, below: nat, depth: nat)
    requires Ended(ts) && arguments != [] && pos < |ts| && depth <= MAX_EXPRESSION_PARSE_DEPTH
    requires forall a | a in arguments :: IsDisjunction(a)
    requires Spells(ts, pos, ArgumentTokens(arguments)) && close == pos + |ArgumentTokens(arguments)| < |ts| - 1 && ts[close] == RightParen
    ensures LeadsArguments(ArgumentLoop(ts, pos, items, below, depth), ArgumentsHeightOf(arguments, below),
                           depth + ArgumentsLevelsOf(arguments),
                           Arguments(items + TreesOf(arguments), ArgumentsHeightOf(arguments, below), close))
    decreases arguments, 1
  {
    var first := arguments[0];
    var at := pos + |TokensOf(first)|;
    assert first in arguments && IsDisjunction(first);
    ArgumentPlaces(arguments, ts, pos, close);
    WholeAccepts(first, ts, pos, at, depth + 1);
    if |arguments| == 1 {
      LastLeads(arguments, ts, pos, close, items, below, depth);
    } else {
      MoreLead(arguments, ts, pos, at, close, items, below, depth);
    }
  }

  lemma {:induction false} MoreLead(
      arguments: seq<Source>, ts: seq<Token>, pos: nat, at: nat, close: nat, items: seq<Expression>, below: nat, depth: nat)
    requires Ended(ts) && |arguments| > 1 && pos < |ts| && at + 1 < |ts| && depth <= MAX_EXPRESSION_PARSE_DEPTH
    requires forall a | a in arguments :: IsDisjunction(a)
    requires ParseBinary(ts, pos, 0, depth + 1) == Outcome(Fits(arguments[0], depth + 1 + LevelsOf(arguments[0])), arguments[0], at)
    requires ts[at] == Comma && Spells(ts, at + 1, ArgumentTokens(arguments[1..]))
    requires close == at + 1 + |ArgumentTokens(arguments[1..])| < |ts| - 1 && ts[close] == RightParen
    ensures LeadsArguments(ArgumentLoop(ts, pos, items, below, depth), ArgumentsHeightOf(arguments, below),
                           depth + ArgumentsLevelsOf(arguments),
                           Arguments(items + TreesOf(arguments), ArgumentsHeightOf(arguments, below), close))
    decreases arguments, 0
  {
    var more, height := items + [TreeOf(arguments[0])], Max(below, HeightOf(arguments[0]) + 1);
    ArgumentTurn(arguments[0], ts, pos, at, items, below, depth);
    ArgumentsLead(arguments[1..], ts, at + 1, close, more, height, depth);
    ArgumentsJoin(arguments, ArgumentLoop(ts, pos, items, below, depth), ArgumentLoop(ts, at + 1, more, height, depth), items, close, below, depth);
  }

  lemma {:induction false} LastLeads(
      arguments: seq<Source>, ts: seq<Token>, pos: nat, close: nat, items: seq<Expression>, below: nat, depth: nat)
    requires Ended(ts) && |arguments| == 1 && pos < |ts| && close < |ts| - 1 && depth <= MAX_EXPRESSION_PARSE_DEPTH
    requires ParseBinary(ts, pos, 0, depth + 1) == Outcome(Fits(arguments[0], depth + 1 + LevelsOf(arguments[0])), arguments[0], close)
    requires ts[close] == RightParen
    ensures LeadsArguments(ArgumentLoop(ts, pos, items, below, depth), ArgumentsHeightOf(arguments, below),
                           depth + ArgumentsLevelsOf(arguments),
                           Arguments(items + TreesOf(arguments), ArgumentsHeightOf(arguments, below), close))
  {
    ArgumentTurn(arguments[0], ts, pos, close, items, below, depth);
    OneArgument(arguments, items);
  }

  lemma {:induction false} TreesJoin(arguments: seq<Source>, items: seq<Expression>)
    requires arguments != []
    ensures items + TreesOf(arguments) == items + [TreeOf(arguments[0])] + TreesOf(arguments[1..])
  {}

  lemma {:induction false} OneArgument(arguments: seq<Source>, items: seq<Expression>)
    requires |arguments| == 1
    ensures items + TreesOf(arguments) == items + [TreeOf(arguments[0])]
    ensures ArgumentsLevelsOf(arguments) == 1 + LevelsOf(arguments[0])
    ensures forall below: nat :: ArgumentsHeightOf(arguments, below) == Max(below, HeightOf(arguments[0]) + 1)
  {
    assert arguments[1..] == [];
  }

  lemma {:induction false} ArgumentsJoin(
      arguments: seq<Source>, r: ArgumentList, after: ArgumentList, items: seq<Expression>, close: nat, below: nat, depth: nat)
    requires arguments != []
    requires r == if Fits(arguments[0], depth + 1 + LevelsOf(arguments[0])) then after else NoArguments(InvalidSyntax)
    requires var height := ArgumentsHeightOf(arguments[1..], Max(below, HeightOf(arguments[0]) + 1));
      LeadsArguments(after, height, depth + ArgumentsLevelsOf(arguments[1..]),
                     Arguments(items + [TreeOf(arguments[0])] + TreesOf(arguments[1..]), height, close))
    ensures LeadsArguments(r, ArgumentsHeightOf(arguments, below), depth + ArgumentsLevelsOf(arguments),
                           Arguments(items + TreesOf(arguments), ArgumentsHeightOf(arguments, below), close))
  {
    TreesJoin(arguments, items);
  }

  lemma {:induction false} ArgumentPlaces(arguments: seq<Source>, ts: seq<Token>, pos: nat, close: nat)
    requires Ended(ts) && arguments != []
    requires Spells(ts, pos, ArgumentTokens(arguments)) && close == pos + |ArgumentTokens(arguments)| < |ts| - 1
    ensures var at := pos + |TokensOf(arguments[0])|;
      Spells(ts, pos, TokensOf(arguments[0])) && at < |ts| - 1
      && if |arguments| == 1 then at == close
         else ts[at] == Comma && Advance(ts, at) == at + 1 && Spells(ts, at + 1, ArgumentTokens(arguments[1..]))
              && close == at + 1 + |ArgumentTokens(arguments[1..])|
  {
    if |arguments| > 1 {
      var first, rest := TokensOf(arguments[0]), ArgumentTokens(arguments[1..]);
      SpellsSplit(ts, pos, first, [Comma] + rest);
      SpellsOne(ts, pos + |first|, Comma, rest);
    }
  }

  /** The argument loop reads one argument. */
  lemma {:induction false} ArgumentTurn(d: Source, ts: seq<Token>, pos: nat, at: nat, items: seq<Expression>, below: nat, depth: nat)
    requires Ended(ts) && pos < |ts| && at < |ts| - 1 && depth <= MAX_EXPRESSION_PARSE_DEPTH
    requires ParseBinary(ts, pos, 0, depth + 1) == Outcome(Fits(d, depth + 1 + LevelsOf(d)), d, at)
    ensures ArgumentLoop(ts, pos, items, below, depth)
         == if !Fits(d, depth + 1 + LevelsOf(d)) then NoArguments(InvalidSyntax)
            else if ts[at].Comma? then ArgumentLoop(ts, at + 1, items + [TreeOf(d)], Max(below, HeightOf(d) + 1), depth)
            else Arguments(items + [TreeOf(d)], Max(below, HeightOf(d) + 1), at)
  {
    assert Advance(ts, at) == at + 1;
  }

  lemma {:induction false} CallCloses(d: Source, ts: seq<Token>, pos: nat, close: nat, depth: nat)
    requires Ended(ts) && IsPrimary(d) && d.CallOf? && !Reserved(d.name) && FunctionOf(d.name) == Some(d.function_) && depth <= MAX_EXPRESSION_PARSE_DEPTH
    requires pos + 2 < |ts| && ts[pos] == Identifier(d.name) && ts[pos + 1] == LeftParen && !ts[pos + 2].RightParen?
    requires close + 1 < |ts| && ts[close] == RightParen
    requires LeadsArguments(ArgumentLoop(ts, pos + 2, [], 1, depth), ArgumentsHeightOf(d.arguments, 1), depth + ArgumentsLevelsOf(d.arguments),
                            Arguments([] + TreesOf(d.arguments), ArgumentsHeightOf(d.arguments, 1), close))
    ensures Leads(AfterHead(ts, pos, depth), d, depth + PrimaryLevelsOf(d),
                  PostfixLoop(ts, close + 1, TreeOf(d), HeightOf(d), false, depth))
  {
    FunctionsExactly(d.name, d.function_, |d.arguments|);
    assert [] + TreesOf(d.arguments) == TreesOf(d.arguments);
    assert Advance(ts, pos) == pos + 1 && Advance(ts, pos + 1) == pos + 2 && Advance(ts, close) == close + 1;
    assert ParseHead(ts, pos, depth) == ParseCall(ts, pos + 1, d.name, depth);
  }

  // ----- what is accepted is a sentence

  /** The parser's result for the tokens from `pos` is what the written expression `d` gives. */
  predicate Derives(ts: seq<Token>, pos: nat, d: Source, r: Parsed) {
    r.Parsed? && pos <= r.next <= |ts| && ts[pos..r.next] == TokensOf(d) && r.expression == TreeOf(d) && r.depth == HeightOf(d)
  }

  lemma {:induction false} BinaryDerives(ts: seq<Token>, pos: nat, minimum: nat, depth: nat) returns (d: Source)
    requires Ended(ts) && pos < |ts| && minimum <= 5 && ParseBinary(ts, pos, minimum, depth).Parsed?
    ensures var r := ParseBinary(ts, pos, minimum, depth);
      Derives(ts, pos, d, r) && InTier(d, minimum) && Fits(d, depth + LevelsOf(d)) && Stops(ts[r.next], minimum)
    decreases Room(depth), 2, 0
  {
    var left := ParseUnary(ts, pos, depth + 1);
    var first := UnaryDerives(ts, pos, depth + 1);
    RootsOfTiers(first);
    d := LoopDerives(ts, pos, left.next, first, minimum, depth);
  }

  lemma {:induction false} LoopDerives(ts: seq<Token>, start: nat, pos: nat, first: Source, minimum: nat, depth: nat) returns (d: Source)
    requires Ended(ts) && start <= pos < |ts| && depth <= MAX_EXPRESSION_PARSE_DEPTH && minimum <= 5
    requires ts[start..pos] == TokensOf(first) && Fits(first, depth + LevelsOf(first))
    requires InTier(first, minimum) && (ts[pos].OperatorToken? && Precedence(ts[pos].operator) >= minimum ==> InTier(first, Precedence(ts[pos].operator)))
    requires BinaryLoop(ts, pos, TreeOf(first), HeightOf(first), minimum, depth).Parsed?
    ensures var r := BinaryLoop(ts, pos, TreeOf(first), HeightOf(first), minimum, depth);
      Derives(ts, start, d, r) && InTier(d, minimum) && Fits(d, depth + LevelsOf(d)) && Stops(ts[r.next], minimum)
    decreases Room(depth), 1, |ts| - pos
  {
    d := first;
    if ts[pos].OperatorToken? && Precedence(ts[pos].operator) >= minimum {
      var next, joined := OneOperation(ts, start, pos, first, minimum, depth);
      d := LoopDerives(ts, start, next, joined, minimum, depth);
    }
  }

  lemma {:induction false} OneOperation(ts: seq<Token>, start: nat, pos: nat, first: Source, minimum: nat, depth: nat) returns (next: nat, d: Source)
    requires Ended(ts) && start <= pos < |ts| && depth <= MAX_EXPRESSION_PARSE_DEPTH && minimum <= 5
    requires ts[start..pos] == TokensOf(first) && Fits(first, depth + LevelsOf(first))
    requires ts[pos].OperatorToken? && Precedence(ts[pos].operator) >= minimum && InTier(first, Precedence(ts[pos].operator))
    requires BinaryLoop(ts, pos, TreeOf(first), HeightOf(first), minimum, depth).Parsed?
    ensures pos < next < |ts| && ts[start..next] == TokensOf(d) && Fits(d, depth + LevelsOf(d)) && InTier(d, minimum)
    ensures ts[next].OperatorToken? ==> InTier(d, Precedence(ts[next].operator))
    ensures BinaryLoop(ts, pos, TreeOf(first), HeightOf(first), minimum, depth)
         == BinaryLoop(ts, next, TreeOf(d), HeightOf(d), minimum, depth)
    decreases Room(depth), 0, |ts| - pos
  {
    var p := Precedence(ts[pos].operator);
    LoopTurn(ts, pos, TreeOf(first), HeightOf(first), minimum, depth);
    var right := ParseBinary(ts, pos + 1, p + 1, depth + 1);
    var second := BinaryDerives(ts, pos + 1, p + 1, depth + 1);
    next, d := right.next, Operation(ts[pos].operator, first, second);
    OperationDerives(ts, start, pos, first, second, next, minimum);
    OperationIs(ts[pos].operator, first, second);
  }

  lemma {:induction false} OperationIs(op: Operator, left: Source, right: Source)
    ensures var d := Operation(op, left, right);
      HeightOf(d) == Max(HeightOf(left), HeightOf(right)) + 1 && LevelsOf(d) == Max(LevelsOf(left), 1 + LevelsOf(right))
      && TreeOf(d) == Binary(op, TreeOf(left), TreeOf(right))
  {}

  lemma {:induction false} LoopTurn(ts: seq<Token>, pos: nat, left: Expression, leftDepth: nat, minimum: nat, depth: nat)
    requires Ended(ts) && pos < |ts| && depth <= MAX_EXPRESSION_PARSE_DEPTH
    requires ts[pos].OperatorToken? && Precedence(ts[pos].operator) >= minimum
    requires BinaryLoop(ts, pos, left, leftDepth, minimum, depth).Parsed?
    ensures pos + 1 < |ts|
    ensures var op := ts[pos].operator;
      var right := ParseBinary(ts, pos + 1, Precedence(op) + 1, depth + 1);
      right.Parsed? && Max(leftDepth, right.depth) + 1 <= 32
      && BinaryLoop(ts, pos, left, leftDepth, minimum, depth)
         == BinaryLoop(ts, right.next, Binary(op, left, right.expression), Max(leftDepth, right.depth) + 1, minimum, depth)
  {
    assert Advance(ts, pos) == pos + 1;
  }

  lemma {:induction false} OperationDerives(ts: seq<Token>, start: nat, pos: nat, left: Source, right: Source, next: nat, minimum: nat)
    requires start <= pos < next < |ts| && ts[pos].OperatorToken? && minimum <= Precedence(ts[pos].operator)
    requires ts[start..pos] == TokensOf(left) && ts[pos + 1..next] == TokensOf(right)
    requires InTier(left, Precedence(ts[pos].operator)) && InTier(right, Precedence(ts[pos].operator) + 1)
    requires Stops(ts[next], Precedence(ts[pos].operator) + 1)
    ensures var d := Operation(ts[pos].operator, left, right);
      ts[start..next] == TokensOf(d) && InTier(d, minimum)
      && (ts[next].OperatorToken? ==> InTier(d, Precedence(ts[next].operator)))
  {
    var op := ts[pos].operator;
    var d := Operation(op, left, right);
    assert ts[pos] == OperatorToken(op);
    assert ts[start..next] == ts[start..pos] + ([ts[pos]] + ts[pos + 1..next]);
    JoinedTier(op, left, right);
    TiersNest(d, Precedence(op), minimum);
    if ts[next].OperatorToken? { TiersNest(d, Precedence(op), Precedence(ts[next].operator)); }
  }

  lemma {:induction false} UnaryDerives(ts: seq<Token>, pos: nat, depth: nat) returns (d: Source)
    requires Ended(ts) && pos < |ts| && ParseUnary(ts, pos, depth).Parsed?
    ensures Derives(ts, pos, d, ParseUnary(ts, pos, depth)) && IsUnary(d) && Fits(d, depth + UnaryLevelsOf(d))
    decreases Room(depth), 2, 0
  {
    if ts[pos].Bang? {
      assert Advance(ts, pos) == pos + 1;
      var operand := UnaryDerives(ts, pos + 1, depth + 1);
      d := Negation(operand);
      var next := ParseUnary(ts, pos, depth).next;
      assert ts[pos..next] == [ts[pos]] + ts[pos + 1..next];
    } else {
      d := PrimaryDerives(ts, pos, depth + 1);
    }
  }

  lemma {:induction false} PrimaryDerives(ts: seq<Token>, pos: nat, depth: nat) returns (d: Source)
    requires Ended(ts) && pos < |ts| && ParsePrimary(ts, pos, depth).Parsed?
    ensures Derives(ts, pos, d, ParsePrimary(ts, pos, depth)) && IsPrimary(d) && Fits(d, depth + PrimaryLevelsOf(d))
    decreases Room(depth), 2, 0
  {
    var head := ParseHead(ts, pos, depth);
    var first := HeadDerives(ts, pos, depth);
    d := SuffixesDerive(ts, pos, head.next, first, depth);
  }

  lemma {:induction false} HeadDerives(ts: seq<Token>, pos: nat, depth: nat) returns (d: Source)
    requires Ended(ts) && pos < |ts| && depth <= MAX_EXPRESSION_PARSE_DEPTH && ParseHead(ts, pos, depth).Parsed?
    ensures Derives(ts, pos, d, ParseHead(ts, pos, depth)) && IsPrimary(d) && depth + PrimaryLevelsOf(d) <= 128
    ensures d.Group? <==> ts[pos].LeftParen?
    decreases Room(depth), 1, |ts| + 1
  {
    assert Advance(ts, pos) == pos + 1;
    match ts[pos]
    case LeftParen =>
      d := GroupDerives(ts, pos, depth);
    case Identifier(name) =>
      assert ts[pos..pos + 1] == [Identifier(name)];
      if name == "true" {
        d := Leaf(BooleanLiteral(true));
      } else if name == "false" {
        d := Leaf(BooleanLiteral(false));
      } else if name == "null" {
        d := Leaf(NullLiteral);
      } else if ts[pos + 1].LeftParen? {
        d := CallDerives(ts, pos, name, depth);
      } else {
        d := Root(name);
      }
    case StringToken(text) =>
      d := Leaf(StringLiteral(text));
      assert ts[pos..pos + 1] == [ts[pos]];
    case NumberToken(number) =>
      d := Leaf(NumberLiteral(number));
      assert ts[pos..pos + 1] == [ts[pos]];
  }

  lemma {:induction false} GroupDerives(ts: seq<Token>, pos: nat, depth: nat) returns (d: Source)
    requires Ended(ts) && pos < |ts| && ts[pos] == LeftParen && depth <= MAX_EXPRESSION_PARSE_DEPTH && ParseHead(ts, pos, depth).Parsed?
    ensures Derives(ts, pos, d, ParseHead(ts, pos, depth)) && IsPrimary(d) && depth + PrimaryLevelsOf(d) <= 128 && d.Group?
    decreases Room(depth), 1, |ts|
  {
    assert Advance(ts, pos) == pos + 1;
    var nested := ParseBinary(ts, pos + 1, 0, depth + 1);
    var inner := BinaryDerives(ts, pos + 1, 0, depth + 1);
    d := Group(inner);
    assert ts[pos..nested.next + 1] == [ts[pos]] + (ts[pos + 1..nested.next] + [ts[nested.next]]);
  }

  lemma {:induction false} CallDerives(ts: seq<Token>, pos: nat, name: string, depth: nat) returns (d: Source)
    requires Ended(ts) && pos + 1 < |ts| && ts[pos] == Identifier(name) && ts[pos + 1] == LeftParen && depth <= MAX_EXPRESSION_PARSE_DEPTH
    requires ParseCall(ts, pos + 1, name, depth).Parsed?
    ensures Derives(ts, pos, d, ParseCall(ts, pos + 1, name, depth)) && IsPrimary(d) && d.CallOf? && depth + PrimaryLevelsOf(d) <= 128
    decreases Room(depth), 1, |ts|
  {
    assert Advance(ts, pos + 1) == pos + 2;
    var next := ParseCall(ts, pos + 1, name, depth).next;
    var arguments: seq<Source> := [];
    if !ts[pos + 2].RightParen? { arguments := ArgumentsDerive(ts, pos + 2, [], 1, depth); }
    d := CallOf(FunctionOf(name).value, name, arguments);
    FunctionsExactly(name, d.function_, |arguments|);
    CallTokens(ts, pos, next, d);
    assert [] + TreesOf(arguments) == TreesOf(arguments);
  }

  lemma {:induction false} CallTokens(ts: seq<Token>, pos: nat, next: nat, d: Source)
    requires d.CallOf? && pos + 2 < next <= |ts| && ts[pos] == Identifier(d.name) && ts[pos + 1] == LeftParen
    requires ts[pos + 2..next - 1] == ArgumentTokens(d.arguments) && ts[next - 1] == RightParen
    ensures ts[pos..next] == TokensOf(d)
  {
    assert ts[pos..next] == [ts[pos]] + ([ts[pos + 1]] + (ts[pos + 2..next - 1] + [ts[next - 1]]));
  }

  lemma {:induction false} ArgumentsDerive(ts: seq<Token>, pos: nat, items: seq<Expression>, below: nat, depth: nat) returns (arguments: seq<Source>)
    requires Ended(ts) && pos < |ts| && depth <= MAX_EXPRESSION_PARSE_DEPTH && ArgumentLoop(ts, pos, items, below, depth).Arguments?
    ensures var r := ArgumentLoop(ts, pos, items, below, depth);
      arguments != [] && (forall a | a in arguments :: IsDisjunction(a))
      && ts[pos..r.next] == ArgumentTokens(arguments) && r.items == items + TreesOf(arguments)
      && r.depth == ArgumentsHeightOf(arguments, below) && depth + ArgumentsLevelsOf(arguments) <= 128
    decreases Room(depth), 0, |ts| - pos
  {
    var argument := ParseBinary(ts, pos, 0, depth + 1);
    var more, height := items + [argument.expression], Max(below, argument.depth + 1);
    NextArgument(ts, pos, items, below, depth);
    var first := BinaryDerives(ts, pos, 0, depth + 1);
    if ts[argument.next].Comma? {
      var rest := ArgumentsDerive(ts, argument.next + 1, more, height, depth);
      arguments := [first] + rest;
      MoreDerive(ts, pos, argument.next, ArgumentLoop(ts, argument.next + 1, more, height, depth).next, first, rest, items, below);
    } else {
      arguments := [first];
      OneArgument(arguments, items);
    }
  }

  lemma {:induction false} NextArgument(ts: seq<Token>, pos: nat, items: seq<Expression>, below: nat, depth: nat)
    requires Ended(ts) && pos < |ts| && depth <= MAX_EXPRESSION_PARSE_DEPTH && ArgumentLoop(ts, pos, items, below, depth).Arguments?
    ensures var argument := ParseBinary(ts, pos, 0, depth + 1);
      argument.Parsed? && argument.next < |ts|
      && var more, height := items + [argument.expression], Max(below, argument.depth + 1);
      ArgumentLoop(ts, pos, items, below, depth)
      == (if ts[argument.next].Comma? then ArgumentLoop(ts, Advance(ts, argument.next), more, height, depth)
          else Arguments(more, height, argument.next))
    ensures var next := ParseBinary(ts, pos, 0, depth + 1).next; ts[next].Comma? ==> Advance(ts, next) == next + 1
  {}

  lemma {:induction false} MoreDerive(ts: seq<Token>, pos: nat, comma: nat, next: nat, first: Source, rest: seq<Source>, items: seq<Expression>, below: nat)
    requires pos <= comma < next < |ts| && ts[pos..comma] == TokensOf(first) && ts[comma] == Comma
    requires rest != [] && ts[comma + 1..next] == ArgumentTokens(rest)
    ensures var arguments := [first] + rest;
      ts[pos..next] == ArgumentTokens(arguments) && items + TreesOf(arguments) == items + [TreeOf(first)] + TreesOf(rest)
      && ArgumentsHeightOf(arguments, below) == ArgumentsHeightOf(rest, Max(below, HeightOf(first) + 1))
      && ArgumentsLevelsOf(arguments) == Max(1 + LevelsOf(first), ArgumentsLevelsOf(rest))
  {
    var arguments := [first] + rest;
    assert arguments[1..] == rest;
    TreesJoin(arguments, items);
    assert ts[pos..next] == ts[pos..comma] + ([ts[comma]] + ts[comma + 1..next]);
  }

  lemma {:induction false} SuffixesDerive(ts: seq<Token>, start: nat, pos: nat, first: Source, depth: nat) returns (d: Source)
    requires Ended(ts) && start <= pos < |ts| && depth <= MAX_EXPRESSION_PARSE_DEPTH
    requires ts[start..pos] == TokensOf(first) && IsPrimary(first) && depth + PrimaryLevelsOf(first) <= 128
    requires PostfixLoop(ts, pos, TreeOf(first), HeightOf(first), first.Group?, depth).Parsed?
    ensures Derives(ts, start, d, PostfixLoop(ts, pos, TreeOf(first), HeightOf(first), first.Group?, depth))
    ensures IsPrimary(d) && depth + PrimaryLevelsOf(d) <= 128
    decreases Room(depth), 0, |ts| - pos, 1
  {
    if ts[pos].Dot? {
      var named := NameDerives(ts, start, pos, first, depth);
      d := SuffixesDerive(ts, start, pos + 2, named, depth);
    } else if ts[pos].LeftBracket? {
      var close, selector := BracketDerives(ts, start, pos, first, depth);
      d := SuffixesDerive(ts, start, close + 1, Postfix(first, Bracketed(selector)), depth);
    } else {
      d := first;
      NoSuffix(ts, pos, TreeOf(first), HeightOf(first), first.Group?, depth);
    }
  }

  lemma {:induction false} NameDerives(ts: seq<Token>, start: nat, pos: nat, first: Source, depth: nat) returns (d: Source)
    requires Ended(ts) && start <= pos < |ts| && depth <= MAX_EXPRESSION_PARSE_DEPTH && ts[pos].Dot?
    requires ts[start..pos] == TokensOf(first) && IsPrimary(first)
    requires PostfixLoop(ts, pos, TreeOf(first), HeightOf(first), first.Group?, depth).Parsed?
    ensures pos + 2 < |ts| && ts[start..pos + 2] == TokensOf(d) && IsPrimary(d) && !d.Group? && PrimaryLevelsOf(d) == PrimaryLevelsOf(first)
    ensures PostfixLoop(ts, pos, TreeOf(first), HeightOf(first), first.Group?, depth)
         == PostfixLoop(ts, pos + 2, TreeOf(d), HeightOf(d), false, depth)
  {
    DotDerives(ts, pos, first, depth);
    var suffix := if ts[pos + 1].Identifier? then Named(ts[pos + 1].name) else Starred;
    JoinNamed(ts, start, pos, first, suffix);
    d := Postfix(first, suffix);
  }

  lemma {:induction false} NoSuffix(ts: seq<Token>, pos: nat, value: Expression, valueDepth: nat, grouped: bool, depth: nat)
    requires Ended(ts) && pos < |ts| && depth <= MAX_EXPRESSION_PARSE_DEPTH && !ts[pos].Dot? && !ts[pos].LeftBracket?
    ensures var r := PostfixLoop(ts, pos, value, valueDepth, grouped, depth); r.Parsed? ==> r == Parsed(value, valueDepth, pos)
  {}

  lemma {:induction false} JoinNamed(ts: seq<Token>, start: nat, pos: nat, first: Source, suffix: Suffix)
    requires start <= pos < |ts| - 2 && ts[start..pos] == TokensOf(first) && ts[pos] == Dot
    requires (suffix.Named? && ts[pos + 1] == Identifier(suffix.name)) || (suffix.Starred? && ts[pos + 1] == Star)
    ensures ts[start..pos + 2] == TokensOf(Postfix(first, suffix))
    ensures PrimaryLevelsOf(Postfix(first, suffix)) == PrimaryLevelsOf(first) && HeightOf(Postfix(first, suffix)) == HeightOf(first)
  {
    assert ts[start..pos + 2] == ts[start..pos] + ([ts[pos]] + [ts[pos + 1]]);
  }

  lemma {:induction false} BracketDerives(ts: seq<Token>, start: nat, pos: nat, first: Source, depth: nat) returns (close: nat, selector: Source)
    requires Ended(ts) && start <= pos < |ts| && depth <= MAX_EXPRESSION_PARSE_DEPTH && ts[pos].LeftBracket?
    requires ts[start..pos] == TokensOf(first) && depth + PrimaryLevelsOf(first) <= 128
    requires PostfixLoop(ts, pos, TreeOf(first), HeightOf(first), first.Group?, depth).Parsed?
    ensures pos < close < |ts| - 1 && IsDisjunction(selector)
    ensures var d := Postfix(first, Bracketed(selector));
      ts[start..close + 1] == TokensOf(d) && depth + PrimaryLevelsOf(d) <= 128
      && PostfixLoop(ts, pos, TreeOf(first), HeightOf(first), first.Group?, depth)
         == PostfixLoop(ts, close + 1, TreeOf(d), HeightOf(d), false, depth)
    decreases Room(depth), 0, |ts| - pos, 0
  {
    SelectorCloses(ts, pos, TreeOf(first), HeightOf(first), first.Group?, depth);
    close, selector := SelectorDerives(ts, pos, depth);
    BracketJoins(ts, start, pos, close, first, selector, depth);
  }

  lemma {:induction false} BracketJoins(ts: seq<Token>, start: nat, pos: nat, close: nat, first: Source, selector: Source, depth: nat)
    requires Ended(ts) && start <= pos < close < |ts| - 1 && depth <= MAX_EXPRESSION_PARSE_DEPTH
    requires ts[start..pos] == TokensOf(first) && ts[pos] == LeftBracket && depth + PrimaryLevelsOf(first) <= 128
    requires ts[pos + 1..close] == TokensOf(selector) && ts[close] == RightBracket && depth + 1 + LevelsOf(selector) <= 128
    requires PostfixLoop(ts, pos, TreeOf(first), HeightOf(first), first.Group?, depth)
          == PostfixLoop(ts, close + 1, PushAccess(TreeOf(first), StepOf(TreeOf(selector)), first.Group?),
                         Max(HeightOf(first), HeightOf(selector) + 1), false, depth)
    ensures var d := Postfix(first, Bracketed(selector));
      ts[start..close + 1] == TokensOf(d) && depth + PrimaryLevelsOf(d) <= 128
      && PostfixLoop(ts, pos, TreeOf(first), HeightOf(first), first.Group?, depth)
         == PostfixLoop(ts, close + 1, TreeOf(d), HeightOf(d), false, depth)
  {
    JoinBracketed(ts, start, pos, close, first, selector);
  }

  lemma {:induction false} SelectorDerives(ts: seq<Token>, pos: nat, depth: nat) returns (close: nat, selector: Source)
    requires Ended(ts) && pos + 1 < |ts| && depth <= MAX_EXPRESSION_PARSE_DEPTH && ParseBinary(ts, pos + 1, 0, depth + 1).Parsed?
    ensures ParseBinary(ts, pos + 1, 0, depth + 1) == Parsed(TreeOf(selector), HeightOf(selector), close) && pos < close < |ts|
    ensures ts[pos + 1..close] == TokensOf(selector) && IsDisjunction(selector) && depth + 1 + LevelsOf(selector) <= 128
    decreases Room(depth), 0, 0
  {
    close := ParseBinary(ts, pos + 1, 0, depth + 1).next;
    selector := BinaryDerives(ts, pos + 1, 0, depth + 1);
  }

  lemma {:induction false} JoinBracketed(ts: seq<Token>, start: nat, pos: nat, close: nat, first: Source, selector: Source)
    requires start <= pos < close < |ts| && ts[start..pos] == TokensOf(first) && ts[pos] == LeftBracket
    requires ts[pos + 1..close] == TokensOf(selector) && ts[close] == RightBracket
    ensures var d := Postfix(first, Bracketed(selector));
      ts[start..close + 1] == TokensOf(d) && PrimaryLevelsOf(d) == Max(PrimaryLevelsOf(first), 1 + LevelsOf(selector))
      && HeightOf(d) == Max(HeightOf(first), HeightOf(selector) + 1)
      && TreeOf(d) == PushAccess(TreeOf(first), StepOf(TreeOf(selector)), first.Group?)
  {
    assert ts[start..close + 1] == ts[start..pos] + ([ts[pos]] + (ts[pos + 1..close] + [ts[close]]));
  }

  lemma {:induction false} SelectorCloses(ts: seq<Token>, pos: nat, value: Expression, valueDepth: nat, grouped: bool, depth: nat)
    requires Ended(ts) && pos < |ts| && depth <= MAX_EXPRESSION_PARSE_DEPTH && ts[pos].LeftBracket?
    requires PostfixLoop(ts, pos, value, valueDepth, grouped, depth).Parsed?
    ensures pos + 1 < |ts|
    ensures var r := ParseBinary(ts, pos + 1, 0, depth + 1);
      r.Parsed? && ts[r.next].RightBracket? && r.next + 1 < |ts|
      && PostfixLoop(ts, pos, value, valueDepth, grouped, depth)
         == PostfixLoop(ts, r.next + 1, PushAccess(value, StepOf(r.expression), grouped), Max(valueDepth, r.depth + 1), false, depth)
  {
    assert Advance(ts, pos) == pos + 1;
  }

  lemma {:induction false} DotDerives(ts: seq<Token>, pos: nat, first: Source, depth: nat)
    requires Ended(ts) && pos < |ts| && depth <= MAX_EXPRESSION_PARSE_DEPTH && ts[pos].Dot?
    requires PostfixLoop(ts, pos, TreeOf(first), HeightOf(first), first.Group?, depth).Parsed?
    ensures pos + 2 < |ts| && (ts[pos + 1].Identifier? || ts[pos + 1].Star?)
    ensures PostfixLoop(ts, pos, TreeOf(first), HeightOf(first), first.Group?, depth)
         == PostfixLoop(ts, pos + 2, PushAccess(TreeOf(first), if ts[pos + 1].Identifier? then KeyStep(ts[pos + 1].name) else Projection, first.Group?),
                        HeightOf(first), false, depth)
  {
    assert Advance(ts, pos) == pos + 1 && Advance(ts, pos + 1) == pos + 2;
  }

  // ----- the main results

  lemma {:induction false} SentenceEnds(d: Source)
    ensures TokensOf(d) != [] && Ended(TokensOf(d) + [End]) && Spells(TokensOf(d) + [End], 0, TokensOf(d))
  {
    var toks := TokensOf(d);
    var ts := toks + [End];
    NoEnd(d);
    TokensStart(d);
    assert forall i | 0 <= i < |ts| - 1 :: ts[i] == toks[i] && toks[i] in toks;
    assert ts[0..0 + |toks|] == toks;
  }

  /** A written expression is accepted exactly within the two limits, and the result is its tree with its height
      as the depth. */
  lemma {:induction false} SentencesAreAccepted(d: Source)
    requires IsDisjunction(d)
    ensures Ended(TokensOf(d) + [End])
    ensures ParseTokens(TokensOf(d) + [End]) == Outcome(Fits(d, LevelsOf(d)), d, |TokensOf(d)|)
  {
    SentenceEnds(d);
    StreamAccepts(d, TokensOf(d) + [End], |TokensOf(d)|);
  }

  lemma {:induction false} StreamAccepts(d: Source, ts: seq<Token>, next: nat)
    requires IsDisjunction(d) && Ended(ts) && Spells(ts, 0, TokensOf(d)) && next == |TokensOf(d)| < |ts| && ts[next] == End
    ensures ParseTokens(ts) == Outcome(Fits(d, LevelsOf(d)), d, next)
  {
    WholeAccepts(d, ts, 0, next, 0);
    StreamEnds(d, ts, next, Fits(d, LevelsOf(d)));
  }

  lemma {:induction false} StreamEnds(d: Source, ts: seq<Token>, next: nat, fits: bool)
    requires Ended(ts) && next < |ts| && ts[next] == End && ParseBinary(ts, 0, 0, 0) == Outcome(fits, d, next)
    ensures ParseTokens(ts) == Outcome(fits, d, next)
  {}

  /** Whatever is accepted is a written expression within the limits. */
  lemma {:induction false} AcceptedAreSentences(ts: seq<Token>) returns (d: Source)
    requires Ended(ts) && ParseTokens(ts).Parsed?
    ensures IsDisjunction(d) && ts == TokensOf(d) + [End] && Fits(d, LevelsOf(d))
    ensures ParseTokens(ts) == Parsed(TreeOf(d), HeightOf(d), |TokensOf(d)|)
  {
    var r := ParseTokens(ts);
    d := BinaryDerives(ts, 0, 0, 0);
    assert r.next == |ts| - 1;
    assert ts == ts[0..r.next] + [ts[r.next]];
  }

  /** The parser accepts exactly the sentences of the grammar that keep the two limits. */
  lemma {:induction false} AcceptsExactlySentences(ts: seq<Token>)
    requires Ended(ts)
    ensures ParseTokens(ts).Parsed? <==> exists d :: IsDisjunction(d) && ts == TokensOf(d) + [End] && Fits(d, LevelsOf(d))
  {
    if ParseTokens(ts).Parsed? {
      var d := AcceptedAreSentences(ts);
    }
    forall d | IsDisjunction(d) && ts == TokensOf(d) + [End] && Fits(d, LevelsOf(d)) ensures ParseTokens(ts).Parsed? {
      SentencesAreAccepted(d);
    }
  }

  lemma {:induction false} NoEnd(d: Source)
    ensures End !in TokensOf(d)
    decreases d
  {
    match d
    case Leaf(_) =>
    case Root(_) =>
    case Postfix(base, suffix) =>
      NoEnd(base);
      if suffix.Bracketed? { NoEnd(suffix.selector); }
    case CallOf(_, _, arguments) => ArgumentsNoEnd(arguments);
    case Group(inner) => NoEnd(inner);
    case Negation(operand) => NoEnd(operand);
    case Operation(_, left, right) =>
      NoEnd(left);
      NoEnd(right);
  }

  lemma {:induction false} ArgumentsNoEnd(arguments: seq<Source>)
    ensures End !in ArgumentTokens(arguments)
    decreases arguments
  {
    if arguments != [] {
      NoEnd(arguments[0]);
      ArgumentsNoEnd(arguments[1..]);
    }
  }
}
