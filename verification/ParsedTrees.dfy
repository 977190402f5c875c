/**
 What the parser returns, for any tokens that it accepts: a normal tree that fits both limits when it is
 printed. Its height is the depth, except where a key stands between brackets.
 */
module ParsedTrees {
  import opened Text
  import opened Expressions
  import opened ExpressionGrammar
  import opened ExpressionPrinting

  // ----- bracketed keys

  /** The tokens from `pos` to `next` are one string literal, in parentheses or not. */
  predicate GroupedString(ts: seq<Token>, pos: nat, next: nat)
    decreases next
  {
    pos < next <= |ts|
    && if ts[pos].LeftParen? then ts[next - 1].RightParen? && GroupedString(ts, pos + 1, next - 1)
       else next == pos + 1 && ts[pos].StringToken?
  }

  predicate KeyBracket(ts: seq<Token>, pos: nat, next: nat) {
    0 < pos && GroupedString(ts, pos, next) && next < |ts| && ts[pos - 1].LeftBracket? && ts[next].RightBracket?
  }

  /** No bracket holds a string literal alone. */
  ghost predicate NoKeyBrackets(ts: seq<Token>) {
    forall pos, next :: !KeyBracket(ts, pos, next)
  }

  predicate IsString(e: Expression) {
    e.Literal? && e.value.StringLiteral?
  }

  /** No bracket of the written expression holds a string literal alone. */
  predicate KeyFree(d: Source) {
    match d
    case Leaf(_) => true
    case Root(_) => true
    case Postfix(base, suffix) => KeyFree(base) && KeyFreeSuffix(suffix)
    case CallOf(_, _, arguments) => forall a | a in arguments :: KeyFree(a)
    case Group(inner) => KeyFree(inner)
    case Negation(operand) => KeyFree(operand)
    case Operation(_, left, right) => KeyFree(left) && KeyFree(right)
  }

  predicate KeyFreeSuffix(s: Suffix) {
    s.Bracketed? ==> KeyFree(s.selector) && !IsString(TreeOf(s.selector))
  }

  /** A written string literal is a string token in parentheses. */
  lemma {:induction false} StringIsGrouped(d: Source, ts: seq<Token>, pos: nat)
    requires IsDisjunction(d) && IsString(TreeOf(d)) && Spells(ts, pos, TokensOf(d))
    ensures GroupedString(ts, pos, pos + |TokensOf(d)|)
    decreases d
  {
    OwnTier(d, 0);
    match d
    case Leaf(value) => assert ts[pos] == TokensOf(d)[0];
    case Group(inner) =>
      InnerSpells(ts, pos, LeftParen, TokensOf(inner), RightParen);
      StringIsGrouped(inner, ts, pos + 1);
    case Postfix(base, suffix) => PushedKind(TreeOf(base), StepFor(suffix), base.Group?);
    case _ =>
  }

  lemma {:induction false} PushedKind(value: Expression, step: Step, grouped: bool)
    ensures PushAccess(value, step, grouped).Access? || PushAccess(value, step, grouped).Path?
  {}

  lemma {:induction false} TokensAreKeyFree(d: Source, ts: seq<Token>, pos: nat)
    requires IsDisjunction(d) && Spells(ts, pos, TokensOf(d)) && pos + |TokensOf(d)| < |ts| && NoKeyBrackets(ts)
    ensures KeyFree(d)
    decreases d, 1
  {
    OwnTier(d, 0);
    match d
    case Leaf(_) =>
    case Root(_) =>
    case Postfix(base, suffix) =>
      SpellsSplit(ts, pos, TokensOf(base), SuffixTokens(suffix));
      TiersNest(base, 6, 0);
      TokensAreKeyFree(base, ts, pos);
      if suffix.Bracketed? { BracketIsKeyFree(suffix.selector, ts, pos + |TokensOf(base)|); }
    case CallOf(_, name, arguments) =>
      var toks := ArgumentTokens(arguments);
      SpellsSplit(ts, pos, [Identifier(name)], [LeftParen] + (toks + [RightParen]));
      InnerSpells(ts, pos + 1, LeftParen, toks, RightParen);
      ArgumentsAreKeyFree(arguments, ts, pos + 2);
    case Group(inner) =>
      InnerSpells(ts, pos, LeftParen, TokensOf(inner), RightParen);
      TokensAreKeyFree(inner, ts, pos + 1);
    case Negation(operand) =>
      SpellsSplit(ts, pos, [Bang], TokensOf(operand));
      TiersNest(operand, 5, 0);
      TokensAreKeyFree(operand, ts, pos + 1);
    case Operation(_, _, _) => OperandsAreKeyFree(d, ts, pos);
  }

  lemma {:induction false} InnerSpells(ts: seq<Token>, pos: nat, open: Token, toks: seq<Token>, close: Token)
    requires Spells(ts, pos, [open] + (toks + [close]))
    ensures Spells(ts, pos + 1, toks) && pos + 1 + |toks| < |ts| && ts[pos] == open && ts[pos + 1 + |toks|] == close
  {
    SpellsSplit(ts, pos, [open], toks + [close]);
    SpellsSplit(ts, pos + 1, toks, [close]);
    assert ts[pos] == ts[pos..pos + 1][0] && ts[pos + 1 + |toks|] == ts[pos + 1 + |toks|..pos + 2 + |toks|][0];
  }

  lemma {:induction false} OperandsAreKeyFree(d: Source, ts: seq<Token>, pos: nat)
    requires d.Operation? && IsDisjunction(d) && Spells(ts, pos, TokensOf(d)) && pos + |TokensOf(d)| < |ts| && NoKeyBrackets(ts)
    ensures KeyFree(d)
    decreases d, 0
  {
    var left, right := d.left, d.right;
    OperandTiers(d, 0);
    TiersNest(left, Precedence(d.operator), 0);
    TiersNest(right, Precedence(d.operator) + 1, 0);
    SpellsSplit(ts, pos, TokensOf(left), [OperatorToken(d.operator)] + TokensOf(right));
    SpellsSplit(ts, pos + |TokensOf(left)|, [OperatorToken(d.operator)], TokensOf(right));
    TokensAreKeyFree(left, ts, pos);
    TokensAreKeyFree(right, ts, pos + |TokensOf(left)| + 1);
  }

  lemma {:induction false} BracketIsKeyFree(selector: Source, ts: seq<Token>, pos: nat)
    requires IsDisjunction(selector) && Spells(ts, pos, SuffixTokens(Bracketed(selector))) && NoKeyBrackets(ts)
    requires pos + 2 + |TokensOf(selector)| < |ts|
    ensures KeyFreeSuffix(Bracketed(selector))
    decreases selector, 2
  {
    InnerSpells(ts, pos, LeftBracket, TokensOf(selector), RightBracket);
    TokensAreKeyFree(selector, ts, pos + 1);
    if IsString(TreeOf(selector)) { StringMakesKey(selector, ts, pos); }
  }

  lemma {:induction false} StringMakesKey(selector: Source, ts: seq<Token>, pos: nat)
    requires IsDisjunction(selector) && IsString(TreeOf(selector)) && Spells(ts, pos, SuffixTokens(Bracketed(selector)))
    ensures KeyBracket(ts, pos + 1, pos + 1 + |TokensOf(selector)|)
  {
    InnerSpells(ts, pos, LeftBracket, TokensOf(selector), RightBracket);
    StringIsGrouped(selector, ts, pos + 1);
  }

  lemma {:induction false} ArgumentsAreKeyFree(arguments: seq<Source>, ts: seq<Token>, pos: nat)
    requires (forall a | a in arguments :: IsDisjunction(a)) && NoKeyBrackets(ts)
    requires Spells(ts, pos, ArgumentTokens(arguments)) && pos + |ArgumentTokens(arguments)| < |ts|
    ensures forall a | a in arguments :: KeyFree(a)
    decreases arguments, 0
  {
    if arguments != [] {
      var first := arguments[0];
      assert first in arguments;
      if |arguments| > 1 {
        SpellsSplit(ts, pos, TokensOf(first), [Comma] + ArgumentTokens(arguments[1..]));
        SpellsSplit(ts, pos + |TokensOf(first)|, [Comma], ArgumentTokens(arguments[1..]));
        ArgumentsAreKeyFree(arguments[1..], ts, pos + |TokensOf(first)| + 1);
      }
      TokensAreKeyFree(first, ts, pos);
      assert forall a | a in arguments :: a == first || a in arguments[1..];
    }
  }

  // ----- heights

  /** A height that folding lowers by nothing, or by one if there is a bracketed key. */
  predicate FoldsTo(written: nat, folded: nat, keyFree: bool) {
    folded <= written <= folded + 1 && (keyFree ==> written == folded)
  }

  lemma {:induction false} SegmentsAppend(segments: seq<Segment>, s: Segment)
    ensures SegmentsHeight(segments + [s]) == Max(SegmentsHeight(segments), if s.Index? then 2 else 0)
  {
    if segments == [] {
      assert [s][1..] == [];
    } else {
      assert (segments + [s])[1..] == segments[1..] + [s];
      SegmentsAppend(segments[1..], s);
    }
  }

  lemma {:induction false} StepsAppend(steps: seq<Step>, s: Step, below: nat)
    ensures StepsHeight(steps + [s], below) == Max(StepsHeight(steps, below), StepHeight(s))
    ensures StepsLevels(steps + [s]) == Max(StepsLevels(steps), StepLevels(s))
    decreases |steps|
  {
    if steps == [] {
      assert [s][1..] == [] && [] + [s] == [s];
    } else {
      assert (steps + [s])[1..] == steps[1..] + [s];
      StepsAppend(steps[1..], s, Max(below, StepHeight(steps[0])));
    }
  }

  lemma {:induction false} PushedHeight(value: Expression, step: Step, grouped: bool)
    ensures Height(PushAccess(value, step, grouped)) == Max(Height(value), StepHeight(step))
  {
    if value.Path? && step.KeyStep? {
      SegmentsAppend(value.segments, Property(step.name));
    } else if value.Path? && step.IndexStep? {
      SegmentsAppend(value.segments, Index(step.n));
    } else if value.Access? && !grouped {
      StepsAppend(value.steps, step, Height(value.base));
    } else {
      StepsAppend([], step, Height(value));
      assert [] + [step] == [step];
    }
  }

  lemma {:induction false} PushedNormal(value: Expression, step: Step, grouped: bool)
    requires Normal(value) && NormalStep(step)
    ensures Normal(PushAccess(value, step, grouped))
  {}

  /** A written expression gives a normal tree, whose height is the written one, or one less with bracketed
      keys. */
  lemma {:induction false} TreeHeight(d: Source)
    requires IsDisjunction(d)
    ensures Normal(TreeOf(d)) && FoldsTo(HeightOf(d), Height(TreeOf(d)), KeyFree(d))
    ensures TreeOf(d).Literal? ==> HeightOf(d) == 1
    decreases d, 1
  {
    OwnTier(d, 0);
    match d
    case Leaf(_) =>
    case Root(name) => assert [Property(name)][1..] == [] && SegmentsHeight([Property(name)]) == 1;
    case Postfix(base, suffix) =>
      TiersNest(base, 6, 0);
      TreeHeight(base);
      SuffixFolds(suffix);
      PushedHeight(TreeOf(base), StepFor(suffix), base.Group?);
      PushedNormal(TreeOf(base), StepFor(suffix), base.Group?);
      PushedKind(TreeOf(base), StepFor(suffix), base.Group?);
    case CallOf(f, name, arguments) =>
      FunctionsExactly(name, f, |arguments|);
      ArgumentTrees(arguments, 1, 1);
    case Group(inner) => TreeHeight(inner);
    case Negation(operand) =>
      TiersNest(operand, 5, 0);
      TreeHeight(operand);
    case Operation(op, left, right) =>
      OperandTiers(d, 0);
      TiersNest(left, Precedence(op), 0);
      TiersNest(right, Precedence(op) + 1, 0);
      TreeHeight(left);
      TreeHeight(right);
  }

  lemma {:induction false} SuffixFolds(s: Suffix)
    requires s.Bracketed? ==> IsDisjunction(s.selector)
    ensures NormalStep(StepFor(s))
    ensures StepHeight(StepFor(s)) <= SuffixHeight(s)
    ensures SuffixHeight(s) <= StepHeight(StepFor(s)) + 1 || SuffixHeight(s) <= 2
    ensures KeyFreeSuffix(s) ==> SuffixHeight(s) == StepHeight(StepFor(s))
    decreases s, 0
  {
    if s.Bracketed? { TreeHeight(s.selector); }
  }

  lemma {:induction false} ArgumentTrees(arguments: seq<Source>, below: nat, foldedBelow: nat)
    requires forall x | x in arguments :: IsDisjunction(x)
    requires foldedBelow <= below <= foldedBelow + 1
    ensures forall e | e in TreesOf(arguments) :: Normal(e)
    ensures FoldsTo(ArgumentsHeightOf(arguments, below), ArgumentsHeight(TreesOf(arguments), foldedBelow),
                    below == foldedBelow && forall x | x in arguments :: KeyFree(x))
    decreases arguments, 0
  {
    if arguments != [] {
      var trees := TreesOf(arguments);
      assert arguments[0] in arguments && trees[1..] == TreesOf(arguments[1..]);
      TreeHeight(arguments[0]);
      ArgumentTrees(arguments[1..], Max(below, HeightOf(arguments[0]) + 1), Max(foldedBelow, Height(trees[0]) + 1));
    }
  }

  // ----- parser levels

  /** The parser levels of a tree's print fit into `room`. */
  predicate FitsBinary(e: Expression, minimum: nat, room: int) {
    Levels(e, minimum) <= room
  }

  predicate FitsUnary(e: Expression, room: int) {
    UnaryLevels(e, 5) <= room
  }

  /** As a parenthesized expression. */
  predicate FitsGroup(e: Expression, room: int) {
    1 + Levels(e, 0) <= room
  }

  /** As a value without parentheses. */
  predicate FitsOpen(e: Expression, room: int) {
    Level(e) >= 6 && PrimaryLevels(e, 6) <= room
  }

  predicate FitsPrimary(e: Expression, grouped: bool, room: int) {
    if grouped then FitsGroup(e, room) else FitsOpen(e, room)
  }

  lemma {:induction false} PrimaryFitsUnary(e: Expression, grouped: bool, room: int)
    requires FitsPrimary(e, grouped, room - 1)
    ensures FitsUnary(e, room)
  {
    if Wrapped(e, 5) {
      WrappedLevels(e, 5);
    } else {
      UnwrappedLevels(e, 5);
      if !Wrapped(e, 6) { UnwrappedLevels(e, 6); }
    }
  }

  lemma {:induction false} UnaryFitsBinary(e: Expression, q: nat, room: int)
    requires FitsUnary(e, room - 1) && q <= 5
    ensures FitsBinary(e, q, room)
  {
    if Wrapped(e, 5) {
      WrappedLevels(e, 5);
      if Wrapped(e, q) { WrappedLevels(e, q); } else { UnwrappedLevels(e, q); }
    } else {
      UnwrappedLevels(e, q);
      UnwrappedLevels(e, 5);
      assert Levels(e, 0) == 1 + UnaryLevels(e, 0);
    }
  }

  lemma {:induction false} SegmentsLevelsAppend(segments: seq<Segment>, s: Segment)
    ensures SegmentsLevels(segments + [s]) == Max(SegmentsLevels(segments), if s.Index? then 3 else 0)
  {
    var all := segments + [s];
    assert forall x :: x in all <==> x in segments || x == s;
    if exists x :: x in segments && x.Index? { assert exists x :: x in all && x.Index?; }
    if s.Index? { assert s in all; }
  }

  lemma {:induction false} PushedFits(value: Expression, step: Step, grouped: bool, room: int)
    requires FitsPrimary(value, grouped, room) && StepLevels(step) <= room
    ensures FitsOpen(PushAccess(value, step, grouped), room)
  {
    BaseFits(value, grouped, room);
    if value.Path? && step.KeyStep? {
      SegmentsLevelsAppend(value.segments, Property(step.name));
    } else if value.Path? && step.IndexStep? {
      SegmentsLevelsAppend(value.segments, Index(step.n));
    } else if value.Access? && !grouped {
      StepsAppend(value.steps, step, Height(value.base));
    } else {
      OneStep(step);
    }
  }

  lemma {:induction false} OneStep(step: Step)
    ensures StepsLevels([step]) == StepLevels(step)
  {
    assert [step][1..] == [];
  }

  /** A value that no loop extends, as the base of an access. */
  lemma {:induction false} BaseFits(value: Expression, grouped: bool, room: int)
    requires FitsPrimary(value, grouped, room)
    ensures !value.Access? || grouped ==> PrimaryLevels(value, 7) <= room
  {
    if Wrapped(value, 7) {
      WrappedLevels(value, 7);
    } else {
      UnwrappedLevels(value, 7);
      UnwrappedLevels(value, 6);
    }
  }

  /** The print of a tree needs no more levels than the written expression. */
  lemma {:induction false} PrimaryLevelsShrink(d: Source)
    requires IsPrimary(d)
    ensures FitsPrimary(TreeOf(d), d.Group?, PrimaryLevelsOf(d))
    decreases d, 1
  {
    match d
    case Leaf(_) =>
    case Root(name) => RootLevels(name);
    case Group(inner) => BinaryLevelsShrink(inner, 0);
    case CallOf(_, _, arguments) => ArgumentLevelsShrink(arguments);
    case Postfix(base, suffix) =>
      PrimaryLevelsShrink(base);
      SuffixLevelsShrink(suffix);
      PushedFits(TreeOf(base), StepFor(suffix), base.Group?, PrimaryLevelsOf(d));
  }

  lemma {:induction false} RootLevels(name: string)
    ensures FitsOpen(Path([Property(name)]), 0)
  {
    SegmentsLevelsAppend([], Property(name));
    assert [] + [Property(name)] == [Property(name)];
  }

  lemma {:induction false} SuffixLevelsShrink(s: Suffix)
    requires s.Bracketed? ==> IsDisjunction(s.selector)
    ensures StepLevels(StepFor(s)) <= SuffixLevels(s)
    decreases s, 0
  {
    if s.Bracketed? {
      BinaryLevelsShrink(s.selector, 0);
      if TreeOf(s.selector).Literal? { LiteralLevels(TreeOf(s.selector)); }
    }
  }

  lemma {:induction false} LiteralLevels(e: Expression)
    requires e.Literal?
    ensures Levels(e, 0) == 2
  {
    assert PrimaryLevels(e, 0) == 0;
    assert UnaryLevels(e, 0) == 1;
  }

  lemma {:induction false} ArgumentLevelsShrink(arguments: seq<Source>)
    requires forall x | x in arguments :: IsDisjunction(x)
    ensures ArgumentsLevels(TreesOf(arguments)) <= ArgumentsLevelsOf(arguments)
    decreases arguments, 0
  {
    if arguments != [] {
      assert arguments[0] in arguments && TreesOf(arguments)[1..] == TreesOf(arguments[1..]);
      BinaryLevelsShrink(arguments[0], 0);
      ArgumentLevelsShrink(arguments[1..]);
    }
  }

  lemma {:induction false} UnaryLevelsShrink(d: Source)
    requires IsUnary(d)
    ensures FitsUnary(TreeOf(d), UnaryLevelsOf(d))
    decreases d, 2
  {
    if d.Negation? {
      UnaryLevelsShrink(d.operand);
    } else {
      PrimaryLevelsShrink(d);
      PrimaryFitsUnary(TreeOf(d), d.Group?, UnaryLevelsOf(d));
    }
  }

  lemma {:induction false} BinaryLevelsShrink(d: Source, q: nat)
    requires q <= 5 && InTier(d, q)
    ensures FitsBinary(TreeOf(d), q, LevelsOf(d))
    decreases d, 3
  {
    OwnTier(d, q);
    if d.Operation? {
      OperandTiers(d, q);
      BinaryLevelsShrink(d.left, Precedence(d.operator));
      BinaryLevelsShrink(d.right, Precedence(d.operator) + 1);
      UnwrappedLevels(TreeOf(d), q);
    } else {
      TiersNest(d, TierOf(d), 5);
      UnaryLevelsShrink(d);
      UnaryFitsBinary(TreeOf(d), q, LevelsOf(d));
    }
  }

  // ----- the main results

  /** The tree is normal and fits both limits. Its depth is its height, or one more where a bracket holds a
      string literal alone. */
  lemma {:induction false} ParsedTreesAreNormal(ts: seq<Token>)
    requires Ended(ts) && ParseTokens(ts).Parsed?
    ensures var r := ParseTokens(ts);
      Normal(r.expression) && Allowed(r.expression, Levels(r.expression, 0))
      && Height(r.expression) <= r.depth <= Height(r.expression) + 1
      && (NoKeyBrackets(ts) ==> r.depth == Height(r.expression))
  {
    var d := AcceptedAreSentences(ts);
    TreeHeight(d);
    BinaryLevelsShrink(d, 0);
    if NoKeyBrackets(ts) {
      assert ts[0..0 + |TokensOf(d)|] == TokensOf(d);
      TokensAreKeyFree(d, ts, 0);
    }
  }

  /** So what was parsed, printed and parsed again is the same tree. */
  lemma {:induction false} ReprintingIsStable(ts: seq<Token>)
    requires Ended(ts) && ParseTokens(ts).Parsed?
    ensures var e := ParseTokens(ts).expression;
      Ended(Print(e, 0) + [End]) && ParseTokens(Print(e, 0) + [End]) == Parsed(e, Height(e), |Print(e, 0)|)
  {
    ParsedTreesAreNormal(ts);
    ParsingUndoesPrinting(ParseTokens(ts).expression);
  }

  // ----- a key in brackets can cost the last level

  function Negated(d: Source, n: nat): Source {
    if n == 0 then d else Negation(Negated(d, n - 1))
  }

  const DOTTED := Postfix(Root("a"), Named("b"))
  const BRACKETED := Postfix(Root("a"), Bracketed(Leaf(StringLiteral("b"))))

  /** A key in brackets makes the depth larger than the height: it is lost in the tree. */
  lemma {:induction false} BracketedKeyCounts()
    ensures IsPrimary(DOTTED) && PlainAt(DOTTED, 0) && HeightOf(DOTTED) == 1
    ensures IsPrimary(BRACKETED) && PlainAt(BRACKETED, 0) && HeightOf(BRACKETED) == 2
    ensures TreeOf(BRACKETED) == TreeOf(DOTTED) == Path([Property("a"), Property("b")])
    ensures Height(TreeOf(DOTTED)) == 1
    ensures TokensOf(BRACKETED) == [Identifier("a"), LeftBracket, StringToken("b"), RightBracket]
  {
    var key := Leaf(StringLiteral("b"));
    RootsOfTiers(key);
    assert [Property("a")] + [Property("b")] == [Property("a"), Property("b")];
    assert [Property("a"), Property("b")][1..] == [Property("b")] && [Property("b")][1..] == [];
    assert TokensOf(key) == [StringToken("b")];
    assert [Identifier("a")] + ([LeftBracket] + ([StringToken("b")] + [RightBracket])) == [Identifier("a"), LeftBracket, StringToken("b"), RightBracket];
  }

  lemma {:induction false} NegatedIs(d: Source, n: nat)
    requires IsPrimary(d) && PlainAt(d, 0)
    ensures IsUnary(Negated(d, n)) && PlainAt(Negated(d, n), 0) && PlainAt(Negated(d, n), 5)
    ensures HeightOf(Negated(d, n)) == HeightOf(d) + n
    decreases n
  {
    if n > 0 { NegatedIs(d, n - 1); }
  }

  lemma {:induction false} NegatedTrees(d: Source, e: Source, n: nat)
    requires TreeOf(d) == TreeOf(e)
    ensures TreeOf(Negated(d, n)) == TreeOf(Negated(e, n)) && Height(TreeOf(Negated(d, n))) == Height(TreeOf(d)) + n
  {
    if n > 0 { NegatedTrees(d, e, n - 1); }
  }

  /** Both spellings of a key give the same tree under any number of negations, but the bracketed one is
      rejected one negation earlier: at 31, where the tree has just the greatest height. */
  lemma {:induction false} BracketedKeyIsRejected(n: nat)
    ensures TreeOf(Negated(BRACKETED, n)) == TreeOf(Negated(DOTTED, n)) && Height(TreeOf(Negated(DOTTED, n))) == n + 1
    ensures Ended(TokensOf(Negated(DOTTED, n)) + [End]) && Ended(TokensOf(Negated(BRACKETED, n)) + [End])
    ensures ParseTokens(TokensOf(Negated(DOTTED, n)) + [End]).Parsed? <==> n <= 31
    ensures ParseTokens(TokensOf(Negated(BRACKETED, n)) + [End]).Parsed? <==> n <= 30
  {
    BracketedKeyCounts();
    NegatedTrees(BRACKETED, DOTTED, n);
    NegatedIs(DOTTED, n);
    NegatedIs(BRACKETED, n);
    RootsOfTiers(Negated(DOTTED, n));
    RootsOfTiers(Negated(BRACKETED, n));
    PlainExpressionsParse(Negated(DOTTED, n));
    PlainExpressionsParse(Negated(BRACKETED, n));
  }
}
