/**
 Printing of expressions with minimal parentheses: the written expression of a tree, and the proof that
 parsing it gives the tree back, with its height as the depth, exactly within the two limits.
 */
module ExpressionPrinting {
  import opened Text
  import opened Expressions
  import opened ExpressionGrammar

  function NameOf(f: Function): string {
    match f
    case StrictEquals => "strictEquals"
    case Contains => "contains"
    case StartsWith => "startsWith"
    case EndsWith => "endsWith"
    case Join => "join"
    case Format => "format"
    case ToJSON => "toJSON"
    case FromJSON => "fromJSON"
  }

  lemma {:induction false} FunctionNames(f: Function)
    ensures FunctionOf(NameOf(f)) == Some(f)
    ensures NameOf(f) != "true" && NameOf(f) != "false" && NameOf(f) != "null"
  {
    match f
    case StrictEquals => assert AsciiLower("strictEquals") == "strictequals";
    case Contains => assert AsciiLower("contains") == "contains";
    case StartsWith => assert AsciiLower("startsWith") == "startswith";
    case EndsWith => assert AsciiLower("endsWith") == "endswith";
    case Join => assert AsciiLower("join") == "join";
    case Format => assert AsciiLower("format") == "format";
    case ToJSON => assert AsciiLower("toJSON") == "tojson";
    case FromJSON => assert AsciiLower("fromJSON") == "fromjson";
  }

  // ----- trees that the parser can return

  /** A selector that is a literal key or index is a fixed step instead. */
  predicate FixedSelector(e: Expression) {
    e.Literal? && (e.value.StringLiteral? || (e.value.NumberLiteral? && e.value.number.Whole?))
  }

  predicate Normal(e: Expression) {
    match e
    case Literal(_) => true
    case Path(segments) => segments != [] && segments[0].Property? && !Reserved(segments[0].name)
    case Access(base, steps) =>
      Normal(base) && steps != []
      && (base.Path? ==> steps[0].Dynamic? || steps[0].Projection?)
      && forall s | s in steps :: NormalStep(s)
    case Call(f, arguments) => AcceptsArity(f, |arguments|) && forall a | a in arguments :: Normal(a)
    case Not(operand) => Normal(operand)
    case Binary(_, left, right) => Normal(left) && Normal(right)
  }

  predicate NormalStep(s: Step) {
    s.Dynamic? ==> Normal(s.selector) && !FixedSelector(s.selector)
  }

  function Height(e: Expression): (h: nat)
    ensures h >= 1
  {
    match e
    case Literal(_) => 1
    case Path(segments) => SegmentsHeight(segments)
    case Access(base, steps) => StepsHeight(steps, Height(base))
    case Call(_, arguments) => ArgumentsHeight(arguments, 1)
    case Not(operand) => Height(operand) + 1
    case Binary(_, left, right) => Max(Height(left), Height(right)) + 1
  }

  /** A bracketed index counts as a literal below the path. */
  function SegmentsHeight(segments: seq<Segment>): (h: nat)
    ensures h >= 1
  {
    if segments == [] then 1
    else if segments[0].Index? then Max(SegmentsHeight(segments[1..]), 2)
    else SegmentsHeight(segments[1..])
  }

  function ArgumentsHeight(arguments: seq<Expression>, below: nat): (h: nat)
    ensures h >= below
  {
    if arguments == [] then below else ArgumentsHeight(arguments[1..], Max(below, Height(arguments[0]) + 1))
  }

  function StepHeight(s: Step): nat {
    match s
    case IndexStep(_) => 2
    case Dynamic(selector) => Height(selector) + 1
    case _ => 0
  }

  function StepsHeight(steps: seq<Step>, below: nat): (h: nat)
    ensures h >= below
  {
    if steps == [] then below else StepsHeight(steps[1..], Max(below, StepHeight(steps[0])))
  }

  // ----- printing

  /** How tightly a tree binds: binary operators by precedence, then negation, access, and the rest. */
  function Level(e: Expression): nat {
    match e
    case Binary(op, _, _) => Precedence(op)
    case Not(_) => 5
    case Access(_, _) => 6
    case _ => 7
  }

  predicate Wrapped(e: Expression, q: nat) {
    Level(e) < q
  }

  /** The written expression of a tree for a place that needs level `q`, in parentheses only where they are
      needed. */
  function Written(e: Expression, q: nat): Source
    decreases e, 1
  {
    if Wrapped(e, q) then Group(Bare(e)) else Bare(e)
  }

  function Bare(e: Expression): Source
    decreases e, 0
  {
    match e
    case Literal(value) => Leaf(value)
    case Path(segments) =>
      if segments == [] || segments[0].Index? then Root("")
      else WithSegments(Root(segments[0].name), segments[1..])
    case Access(base, steps) => WithSteps(Written(base, 7), steps)
    case Call(f, arguments) => CallOf(f, NameOf(f), WrittenAll(arguments))
    case Not(operand) => Negation(Written(operand, 5))
    case Binary(op, left, right) => Operation(op, Written(left, Precedence(op)), Written(right, Precedence(op) + 1))
  }

  function SegmentSuffix(s: Segment): Suffix {
    match s
    case Property(name) => Named(name)
    case Index(n) => Bracketed(Leaf(NumberLiteral(Whole(n))))
  }

  function WithSegments(base: Source, segments: seq<Segment>): Source
    decreases |segments|
  {
    if segments == [] then base else WithSegments(Postfix(base, SegmentSuffix(segments[0])), segments[1..])
  }

  function StepSuffix(s: Step): Suffix
    decreases s
  {
    match s
    case KeyStep(name) => Named(name)
    case IndexStep(n) => Bracketed(Leaf(NumberLiteral(Whole(n))))
    case Dynamic(selector) => Bracketed(Written(selector, 0))
    case Projection => Starred
  }

  function WithSteps(base: Source, steps: seq<Step>): Source
    decreases steps
  {
    if steps == [] then base else WithSteps(Postfix(base, StepSuffix(steps[0])), steps[1..])
  }

  function WrittenAll(arguments: seq<Expression>): (all: seq<Source>)
    ensures |all| == |arguments|
    decreases arguments
  {
    if arguments == [] then [] else [Written(arguments[0], 0)] + WrittenAll(arguments[1..])
  }

  function Print(e: Expression, q: nat): seq<Token> {
    TokensOf(Written(e, q))
  }

  // ----- the parser levels that a printed tree uses

  /** Levels below `ParseBinary` for a tree printed for level `q`. */
  function Levels(e: Expression, q: nat): nat
    decreases e, if Wrapped(e, q) then 1 else 0, 2
  {
    if e.Binary? && !Wrapped(e, q) then
      Max(Levels(e.left, Precedence(e.operator)), 1 + Levels(e.right, Precedence(e.operator) + 1))
    else 1 + UnaryLevels(e, q)
  }

  function UnaryLevels(e: Expression, q: nat): nat
    decreases e, if Wrapped(e, q) then 1 else 0, 1
  {
    if e.Not? && !Wrapped(e, q) then 1 + UnaryLevels(e.operand, 5) else 1 + PrimaryLevels(e, q)
  }

  function PrimaryLevels(e: Expression, q: nat): nat
    decreases e, if Wrapped(e, q) then 1 else 0, 0
  {
    if Wrapped(e, q) then 1 + Levels(e, 0)
    else
      match e
      case Path(segments) => SegmentsLevels(segments)
      case Access(base, steps) => Max(PrimaryLevels(base, 7), StepsLevels(steps))
      case Call(_, arguments) => ArgumentsLevels(arguments)
      case _ => 0
  }

  /** A bracketed index is an expression three levels down. */
  function SegmentsLevels(segments: seq<Segment>): nat {
    if exists s :: s in segments && s.Index? then 3 else 0
  }

  function ArgumentsLevels(arguments: seq<Expression>): nat
    decreases arguments
  {
    if arguments == [] then 0 else Max(1 + Levels(arguments[0], 0), ArgumentsLevels(arguments[1..]))
  }

  function StepLevels(s: Step): nat {
    match s
    case IndexStep(_) => 3
    case Dynamic(selector) => 1 + Levels(selector, 0)
    case _ => 0
  }

  function StepsLevels(steps: seq<Step>): nat
    decreases steps
  {
    if steps == [] then 0 else Max(StepLevels(steps[0]), StepsLevels(steps[1..]))
  }

  /** The two limits: on the tree, and on the deepest parser level. */
  predicate Allowed(e: Expression, deepest: nat) {
    Height(e) <= MAX_EXPRESSION_DEPTH && deepest <= MAX_EXPRESSION_PARSE_DEPTH
  }

  // ----- the written expression of a tree

  lemma {:induction false} PathIsWritten(segments: seq<Segment>, base: Source, done: seq<Segment>)
    requires IsPrimary(base) && !base.Group? && done != [] && TreeOf(base) == Path(done)
    ensures var d := WithSegments(base, segments);
      IsPrimary(d) && !d.Group? && TreeOf(d) == Path(done + segments)
      && HeightOf(d) == (if segments == [] then HeightOf(base) else Max(HeightOf(base), SegmentsHeight(segments)))
      && PrimaryLevelsOf(d) == Max(PrimaryLevelsOf(base), SegmentsLevels(segments))
    decreases |segments|
  {
    if segments == [] {
      assert done + segments == done;
    } else {
      var s := segments[0];
      var next := Postfix(base, SegmentSuffix(s));
      assert done + [s] + segments[1..] == done + segments;
      SegmentIsWritten(base, done, s);
      SegmentsLevelsFrom(segments);
      PathIsWritten(segments[1..], next, done + [s]);
    }
  }

  lemma {:induction false} SegmentIsWritten(base: Source, done: seq<Segment>, s: Segment)
    requires IsPrimary(base) && !base.Group? && TreeOf(base) == Path(done)
    ensures var d := Postfix(base, SegmentSuffix(s));
      IsPrimary(d) && TreeOf(d) == Path(done + [s])
      && HeightOf(d) == Max(HeightOf(base), if s.Index? then 2 else 0)
      && PrimaryLevelsOf(d) == Max(PrimaryLevelsOf(base), if s.Index? then 3 else 0)
  {
    if s.Index? {
      IndexIsLiteral(s.n);
    }
  }

  lemma {:induction false} IndexIsLiteral(n: nat)
    ensures var d := Leaf(NumberLiteral(Whole(n)));
      IsDisjunction(d) && TreeOf(d) == Literal(NumberLiteral(Whole(n))) && HeightOf(d) == 1 && LevelsOf(d) == 2
  {
    var d := Leaf(NumberLiteral(Whole(n)));
    RootsOfTiers(d);
    assert PrimaryLevelsOf(d) == 0 && UnaryLevelsOf(d) == 1;
  }

  lemma {:induction false} SegmentsLevelsFrom(segments: seq<Segment>)
    requires segments != []
    ensures SegmentsLevels(segments) == if segments[0].Index? then 3 else SegmentsLevels(segments[1..])
    ensures SegmentsLevels(segments[1..]) <= 3
  {
    assert segments == [segments[0]] + segments[1..];
    assert segments[0] in segments;
  }

  lemma {:induction false} UnwrappedLevels(e: Expression, q: nat)
    requires !Wrapped(e, q)
    ensures Levels(e, q) == Levels(e, 0) && UnaryLevels(e, q) == UnaryLevels(e, 0) && PrimaryLevels(e, q) == PrimaryLevels(e, 0)
  {
    assert !Wrapped(e, 0);
    assert PrimaryLevels(e, q) == PrimaryLevels(e, 0) by {
      match e
      case Literal(_) =>
      case Path(_) =>
      case Access(_, _) =>
      case Call(_, _) =>
      case Not(_) =>
      case Binary(_, _, _) =>
    }
    assert UnaryLevels(e, q) == UnaryLevels(e, 0);
  }

  lemma {:induction false} WrappedLevels(e: Expression, q: nat)
    requires Wrapped(e, q)
    ensures PrimaryLevels(e, q) == 1 + Levels(e, 0)
    ensures UnaryLevels(e, q) == 2 + Levels(e, 0)
    ensures Levels(e, q) == 3 + Levels(e, 0)
  {
    assert UnaryLevels(e, q) == 1 + PrimaryLevels(e, q);
  }

  /** The source writes the tree without parentheses around the whole. */
  predicate Writes(d: Source, e: Expression) {
    TreeOf(d) == e && HeightOf(d) == Height(e) && !d.Group? && TierOf(d) == Least(Level(e), 6) && InTier(d, TierOf(d))
    && LevelsOf(d) == Levels(e, 0)
    && (Level(e) >= 5 ==> UnaryLevelsOf(d) == UnaryLevels(e, 0))
    && (Level(e) >= 6 ==> PrimaryLevelsOf(d) == PrimaryLevels(e, 0))
  }

  function Least(x: nat, y: nat): nat {
    if x <= y then x else y
  }

  /** The source writes the tree where level `q` is needed. */
  predicate WritesAt(d: Source, e: Expression, q: nat) {
    TreeOf(d) == e && HeightOf(d) == Height(e) && (d.Group? <==> Wrapped(e, q)) && InTier(d, Least(q, 6))
    && LevelsOf(d) == Levels(e, q)
    && (q >= 5 ==> UnaryLevelsOf(d) == UnaryLevels(e, q))
    && (q >= 6 ==> PrimaryLevelsOf(d) == PrimaryLevels(e, q))
  }

  lemma {:induction false} TreeIsWritten(e: Expression, q: nat)
    requires Normal(e) && q <= 7
    ensures WritesAt(Written(e, q), e, q)
    decreases e, 1
  {
    var d := Bare(e);
    BareIsWritten(e);
    if Wrapped(e, q) {
      WrappedLevels(e, q);
      RootsOfTiers(Group(d));
      TiersNest(d, TierOf(d), 0);
      GroupLevels(d);
    } else {
      UnwrappedLevels(e, q);
      TiersNest(d, TierOf(d), Least(q, 6));
    }
  }

  lemma {:induction false} GroupLevels(d: Source)
    ensures LevelsOf(Group(d)) == 3 + LevelsOf(d) && UnaryLevelsOf(Group(d)) == 2 + LevelsOf(d) && PrimaryLevelsOf(Group(d)) == 1 + LevelsOf(d)
  {
    assert PrimaryLevelsOf(Group(d)) == 1 + LevelsOf(d);
  }

  lemma {:induction false} BareIsWritten(e: Expression)
    requires Normal(e)
    ensures Writes(Bare(e), e)
    decreases e, 0
  {
    match e
    case Literal(_) => PrimaryIsWritten(Bare(e), e);
    case Path(segments) =>
      BarePath(segments);
      PrimaryIsWritten(Bare(e), e);
    case Access(base, steps) =>
      TreeIsWritten(base, 7);
      StepsAreWritten(steps, Written(base, 7), base, []);
      assert [] + steps == steps;
      PrimaryIsWritten(Bare(e), e);
    case Call(f, arguments) =>
      FunctionNames(f);
      FunctionsExactly(NameOf(f), f, |arguments|);
      ArgumentsAreWritten(arguments, 1);
      PrimaryIsWritten(Bare(e), e);
    case Not(operand) =>
      TreeIsWritten(operand, 5);
    case Binary(op, left, right) =>
      TreeIsWritten(left, Precedence(op));
      TreeIsWritten(right, Precedence(op) + 1);
      BareOperation(op, left, right);
  }

  lemma {:induction false} BareOperation(op: Operator, left: Expression, right: Expression)
    requires WritesAt(Written(left, Precedence(op)), left, Precedence(op))
    requires WritesAt(Written(right, Precedence(op) + 1), right, Precedence(op) + 1)
    ensures Writes(Bare(Binary(op, left, right)), Binary(op, left, right))
  {
    JoinedTier(op, Written(left, Precedence(op)), Written(right, Precedence(op) + 1));
  }

  lemma {:induction false} BarePath(segments: seq<Segment>)
    requires Normal(Path(segments))
    ensures var e, d := Path(segments), Bare(Path(segments));
      IsPrimary(d) && !d.Group? && TreeOf(d) == e && HeightOf(d) == Height(e) && PrimaryLevelsOf(d) == PrimaryLevels(e, 0)
  {
    PathIsWritten(segments[1..], Root(segments[0].name), segments[..1]);
    assert segments[..1] + segments[1..] == segments && segments[..1] == [segments[0]];
    RootedPath(segments);
  }

  lemma {:induction false} RootedPath(segments: seq<Segment>)
    requires segments != [] && segments[0].Property?
    ensures SegmentsHeight(segments) == SegmentsHeight(segments[1..]) && SegmentsLevels(segments) == SegmentsLevels(segments[1..])
    ensures segments[1..] == [] ==> SegmentsHeight(segments) == 1
  {
    SegmentsLevelsFrom(segments);
  }

  lemma {:induction false} PrimaryIsWritten(d: Source, e: Expression)
    requires IsPrimary(d) && !d.Group? && Level(e) >= 6 && TreeOf(d) == e && HeightOf(d) == Height(e) && PrimaryLevelsOf(d) == PrimaryLevels(e, 0)
    ensures Writes(d, e)
  {
    RootsOfTiers(d);
    assert UnaryLevelsOf(d) == 1 + PrimaryLevelsOf(d) && UnaryLevels(e, 0) == 1 + PrimaryLevels(e, 0);
  }

  lemma {:induction false} ArgumentsAreWritten(arguments: seq<Expression>, below: nat)
    requires forall a | a in arguments :: Normal(a)
    ensures var all := WrittenAll(arguments);
      (forall d | d in all :: IsDisjunction(d)) && TreesOf(all) == arguments
      && ArgumentsHeightOf(all, below) == ArgumentsHeight(arguments, below) && ArgumentsLevelsOf(all) == ArgumentsLevels(arguments)
    decreases arguments, 0
  {
    if arguments != [] {
      TreeIsWritten(arguments[0], 0);
      ArgumentsAreWritten(arguments[1..], Max(below, Height(arguments[0]) + 1));
      MoreAreWritten(arguments, below);
    }
  }

  lemma {:induction false} MoreAreWritten(arguments: seq<Expression>, below: nat)
    requires arguments != [] && IsDisjunction(Written(arguments[0], 0)) && WritesAt(Written(arguments[0], 0), arguments[0], 0)
    requires var all, height := WrittenAll(arguments[1..]), Max(below, Height(arguments[0]) + 1);
      (forall d | d in all :: IsDisjunction(d)) && TreesOf(all) == arguments[1..]
      && ArgumentsHeightOf(all, height) == ArgumentsHeight(arguments[1..], height) && ArgumentsLevelsOf(all) == ArgumentsLevels(arguments[1..])
    ensures var all := WrittenAll(arguments);
      (forall d | d in all :: IsDisjunction(d)) && TreesOf(all) == arguments
      && ArgumentsHeightOf(all, below) == ArgumentsHeight(arguments, below) && ArgumentsLevelsOf(all) == ArgumentsLevels(arguments)
  {
    assert WrittenAll(arguments) == [Written(arguments[0], 0)] + WrittenAll(arguments[1..]);
    assert WrittenAll(arguments)[1..] == WrittenAll(arguments[1..]);
  }

  lemma {:induction false} StepIsWritten(s: Step)
    requires NormalStep(s)
    ensures var suffix := StepSuffix(s);
      StepFor(suffix) == s && SuffixHeight(suffix) == StepHeight(s) && SuffixLevels(suffix) == StepLevels(s)
      && (suffix.Bracketed? ==> IsDisjunction(suffix.selector))
    decreases s, 0
  {
    match s
    case KeyStep(_) =>
    case IndexStep(n) => IndexIsLiteral(n);
    case Dynamic(selector) => TreeIsWritten(selector, 0);
    case Projection =>
  }

  /** The steps of an access, after those already written. */
  lemma {:induction false} StepsAreWritten(steps: seq<Step>, d: Source, base: Expression, done: seq<Step>)
    requires (forall s | s in steps :: NormalStep(s)) && IsPrimary(d)
    requires if done == []
             then TreeOf(d) == base && (base.Access? ==> d.Group?) && (base.Path? && steps != [] ==> steps[0].Dynamic? || steps[0].Projection?)
             else TreeOf(d) == Access(base, done) && !d.Group?
    ensures var all := WithSteps(d, steps);
      IsPrimary(all) && (steps != [] ==> !all.Group? && TreeOf(all) == Access(base, done + steps))
      && HeightOf(all) == StepsHeight(steps, HeightOf(d)) && PrimaryLevelsOf(all) == Max(PrimaryLevelsOf(d), StepsLevels(steps))
      && (steps == [] ==> all == d)
    decreases steps, 0
  {
    if steps != [] {
      var s := steps[0];
      var next := Postfix(d, StepSuffix(s));
      assert s in steps;
      StepIsWritten(s);
      assert TreeOf(next) == Access(base, done + [s]);
      assert done + [s] + steps[1..] == done + steps;
      StepsAreWritten(steps[1..], next, base, done + [s]);
      if steps[1..] == [] { assert done + [s] == done + steps; }
    }
  }

  // ----- the main results

  /** Parsing a printed tree gives that tree back, with its height as the depth, exactly within the limits. */
  lemma {:induction false} ParsingUndoesPrinting(e: Expression)
    requires Normal(e)
    ensures Ended(Print(e, 0) + [End])
    ensures ParseTokens(Print(e, 0) + [End])
         == if Allowed(e, Levels(e, 0)) then Parsed(e, Height(e), |Print(e, 0)|) else Failed(InvalidSyntax)
  {
    TreeIsWritten(e, 0);
    SentencesAreAccepted(Written(e, 0));
  }

  // ----- when the syntax limit does not matter

  /** Parentheses stand only where the level needs them, and no suffix follows a parenthesis. */
  predicate PlainAt(d: Source, q: nat)
    decreases d
  {
    match d
    case Leaf(_) => true
    case Root(_) => true
    case Postfix(base, suffix) => !base.Group? && PlainAt(base, 6) && (suffix.Bracketed? ==> PlainAt(suffix.selector, 0))
    case CallOf(_, _, arguments) => forall a | a in arguments :: PlainAt(a, 0)
    case Group(inner) => TierOf(inner) < q && PlainAt(inner, 0)
    case Negation(operand) => PlainAt(operand, 5)
    case Operation(op, left, right) => PlainAt(left, Precedence(op)) && PlainAt(right, Precedence(op) + 1)
  }

  /** In plain expressions every step of the height takes at most four parser levels. */
  lemma {:induction false} PlainLevels(d: Source, q: nat)
    requires q <= 6 && InTier(d, q) && PlainAt(d, q)
    ensures var slack := if d.Group? then 3 else 0;
      LevelsOf(d) <= 4 * HeightOf(d) - 2 + slack
      && (d.Operation? || UnaryLevelsOf(d) <= 4 * HeightOf(d) - 3 + slack)
      && (d.Operation? || d.Negation? || PrimaryLevelsOf(d) <= 4 * HeightOf(d) - 4 + slack)
    decreases d, 1
  {
    OwnTier(d, q);
    if d.Operation? {
      OperandTiers(d, q);
      PlainLevels(d.left, Precedence(d.operator));
      PlainLevels(d.right, Precedence(d.operator) + 1);
    } else if d.Negation? {
      PlainLevels(d.operand, 5);
      OwnTier(d.operand, 5);
    } else {
      PlainPrimary(d, q);
      PrimaryRoots(d);
    }
  }

  lemma {:induction false} PrimaryRoots(d: Source)
    requires !d.Operation? && !d.Negation?
    ensures UnaryLevelsOf(d) == 1 + PrimaryLevelsOf(d) && LevelsOf(d) == 2 + PrimaryLevelsOf(d)
  {
    assert UnaryLevelsOf(d) == 1 + PrimaryLevelsOf(d);
  }

  lemma {:induction false} PlainPrimary(d: Source, q: nat)
    requires !d.Operation? && !d.Negation? && IsPrimary(d) && PlainAt(d, q)
    ensures PrimaryLevelsOf(d) <= 4 * HeightOf(d) - 4 + if d.Group? then 3 else 0
    decreases d, 0
  {
    match d
    case Group(inner) =>
      PlainLevels(inner, 0);
      GroupLevels(inner);
    case Postfix(base, suffix) =>
      PlainLevels(base, 6);
      RootsOfTiers(base);
      if suffix.Bracketed? {
        PlainLevels(suffix.selector, 0);
        assert !suffix.selector.Group?;
      }
    case CallOf(_, _, arguments) => PlainArgumentsLevels(arguments, 1);
    case _ =>
  }

  lemma {:induction false} PlainArgumentsLevels(arguments: seq<Source>, below: nat)
    requires below >= 1 && forall a | a in arguments :: PlainAt(a, 0) && IsDisjunction(a)
    ensures ArgumentsLevelsOf(arguments) <= 4 * ArgumentsHeightOf(arguments, below) - 4
    decreases arguments, 0
  {
    if arguments != [] {
      assert arguments[0] in arguments;
      PlainLevels(arguments[0], 0);
      PlainArgumentsLevels(arguments[1..], Max(below, HeightOf(arguments[0]) + 1));
    }
  }

  /** So a plain expression is rejected only for its height: the syntax limit never rejects it. */
  lemma {:induction false} PlainExpressionsParse(d: Source)
    requires IsDisjunction(d) && PlainAt(d, 0)
    ensures Ended(TokensOf(d) + [End])
    ensures ParseTokens(TokensOf(d) + [End]) == Outcome(HeightOf(d) <= 32, d, |TokensOf(d)|)
  {
    SentencesAreAccepted(d);
    PlainLevels(d, 0);
  }

  /** Nested accesses have height 1, but every one needs a pair of parentheses. */
  function Nested(n: nat): Expression {
    Access(if n == 0 then Literal(NullLiteral) else Nested(n - 1), [KeyStep("x")])
  }

  /** Without the restriction to plain expressions the syntax limit rejects trees of any height. */
  lemma {:induction false} NestedAccessIsRejected(n: nat)
    ensures Normal(Nested(n)) && Height(Nested(n)) == 1 && Levels(Nested(n), 0) == 2 + 3 * n
    ensures Ended(Print(Nested(n), 0) + [End])
    ensures ParseTokens(Print(Nested(n), 0) + [End]).Parsed? <==> n <= 42
  {
    NestedLevels(n);
    ParsingUndoesPrinting(Nested(n));
  }

  lemma {:induction false} NestedShape(n: nat)
    ensures Normal(Nested(n)) && Height(Nested(n)) == 1
  {
    if n > 0 { NestedShape(n - 1); }
    assert StepsHeight([KeyStep("x")], 1) == 1;
  }

  lemma {:induction false} AccessLevels(base: Expression)
    ensures var e := Access(base, [KeyStep("x")]);
      PrimaryLevels(e, 0) == PrimaryLevels(base, 7) && Levels(e, 0) == 2 + PrimaryLevels(base, 7)
  {
    var e := Access(base, [KeyStep("x")]);
    assert StepsLevels([KeyStep("x")]) == 0;
    assert Levels(e, 0) == 1 + UnaryLevels(e, 0) == 2 + PrimaryLevels(e, 0);
  }

  lemma {:induction false} NestedLevels(n: nat)
    ensures Normal(Nested(n)) && Height(Nested(n)) == 1 && Levels(Nested(n), 0) == 2 + 3 * n
  {
    NestedShape(n);
    AccessLevels(Nested(n).base);
    if n > 0 {
      NestedLevels(n - 1);
      assert PrimaryLevels(Nested(n - 1), 7) == 1 + Levels(Nested(n - 1), 0);
    } else {
      assert PrimaryLevels(Literal(NullLiteral), 7) == 0;
    }
  }
}
