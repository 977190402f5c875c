/**
 Evaluation of expressions against a frozen context. A missing value is unavailable, which is not null.
 Evaluation is monotone in evidence: when object fields are added, what was available stays available,
 and scalar results stay the same.
 */
module Evaluation {
  import opened Text
  import opened Json
  import E = Expressions
  import D = Decimals

  /** Where a container comes from: a path of the context, or a path inside a generated value. */
  datatype Identity = Frozen(path: seq<E.Segment>) | Generated(root: nat, path: seq<E.Segment>)

  datatype Metadata = Metadata(identity: Option<Identity>, items: seq<Metadata>)

  const NO_METADATA := Metadata(None, [])

  /** A value that may be unavailable. */
  datatype Runtime = Runtime(value: Option<Json>, metadata: Metadata)

  datatype Environment = Environment(context: Json, bindings: map<string, Runtime>)

  /** Library functions on texts: lower case, the number that a text spells, and the two encodings. */
  datatype Library = Library(lower: Bytes -> Bytes, number: Bytes -> Option<string>, decode: Bytes -> string, encode: string -> Bytes)

  // ----- scalars

  function IsTruthy(v: Json): bool {
    match v
    case Null => false
    case Boolean(b) => b
    case Number(digits) => D.Parse(digits).Some? && !D.IsZero(D.Parse(digits).value)
    case String(text) => text != []
    case _ => true
  }

  function Coerced(v: Json, lib: Library): Option<D.Decimal> {
    match v
    case Null => D.Parse("0")
    case Boolean(b) => D.Parse(if b then "1" else "0")
    case Number(digits) => D.Parse(digits)
    case String(text) =>
      if text == [] then D.Parse("0")
      else if lib.number(text).Some? then D.Parse(lib.number(text).value)
      else None
    case _ => None
  }

  predicate Container(v: Json) {
    v.Array? || v.Object?
  }

  function EqualValues(left: Json, right: Json, sameOrigin: bool, lib: Library): bool {
    match (left, right)
    case (Null, Null) => true
    case (Boolean(a), Boolean(b)) => a == b
    case (Number(a), Number(b)) => D.Parse(a) == D.Parse(b)
    case (String(a), String(b)) => lib.lower(a) == lib.lower(b)
    case _ =>
      if Container(left) && Container(right) then sameOrigin
      else
        var x, y := Coerced(left, lib), Coerced(right, lib);
        x.Some? && y.Some? && x == y
  }

  function CompareBytes(a: Bytes, b: Bytes): D.Ordering {
    if a == [] && b == [] then D.Equal
    else if a == [] then D.Less
    else if b == [] then D.Greater
    else if a[0] != b[0] then (if a[0] < b[0] then D.Less else D.Greater)
    else CompareBytes(a[1..], b[1..])
  }

  function CompareDecimals(a: Option<D.Decimal>, b: Option<D.Decimal>): Option<D.Ordering> {
    if a.Some? && b.Some? then Some(D.Cmp(a.value, b.value)) else None
  }

  predicate SameKind(a: Json, b: Json) {
    (a.Null? && b.Null?) || (a.Boolean? && b.Boolean?) || (a.Number? && b.Number?) || (a.String? && b.String?)
    || (a.Array? && b.Array?) || (a.Object? && b.Object?)
  }

  function Ordered(left: Json, right: Json, lib: Library): Option<D.Ordering> {
    match (left, right)
    case (String(a), String(b)) => Some(CompareBytes(lib.lower(a), lib.lower(b)))
    case (Number(a), Number(b)) => CompareDecimals(D.Parse(a), D.Parse(b))
    case (Boolean(a), Boolean(b)) => Some(if a == b then D.Equal else if b then D.Less else D.Greater)
    case _ => if SameKind(left, right) then None else CompareDecimals(Coerced(left, lib), Coerced(right, lib))
  }

  // ----- selection

  function IdentityChild(identity: Option<Identity>, s: E.Segment): Option<Identity> {
    match identity
    case None => None
    case Some(Frozen(path)) => Some(Frozen(path + [s]))
    case Some(Generated(root, path)) => Some(Generated(root, path + [s]))
  }

  function MetadataChild(m: Metadata, s: E.Segment): Metadata {
    if s.Index? && s.n < |m.items| then m.items[s.n] else Metadata(IdentityChild(m.identity, s), [])
  }

  function StepOf(s: E.Segment): Step {
    match s
    case Property(name) => Key(name)
    case Index(n) => Item(n)
  }

  function Unavailable(m: Metadata): Runtime {
    Runtime(None, m)
  }

  function Owned(v: Json): Runtime {
    Runtime(Some(v), NO_METADATA)
  }

  /** A property of an object, an item of an array, or an array's length. */
  function Select(r: Runtime, s: E.Segment): Runtime {
    if r.value.None? then Unavailable(r.metadata)
    else if s.Property? && s.name == "length" && r.value.value.Array? then
      Owned(Number(Numeral(|r.value.value.items|)))
    else Runtime(Child(r.value.value, StepOf(s)), MetadataChild(r.metadata, s))
  }

  function SelectAll(r: Runtime, path: seq<E.Segment>): Runtime
    decreases |path|
  {
    if path == [] then r else SelectAll(Select(r, path[0]), path[1..])
  }

  /** A name in scope: a binding hides the context, even when it is unavailable. */
  function Root(name: string, env: Environment): Runtime {
    if name in env.bindings then env.bindings[name]
    else Runtime(Child(env.context, Key(name)), Metadata(Some(Frozen([E.Property(name)])), []))
  }

  function PathValue(path: seq<E.Segment>, env: Environment): Runtime {
    if path == [] || path[0].Index? then Unavailable(NO_METADATA) else SelectAll(Root(path[0].name, env), path[1..])
  }

  /** The loop over the rest of a path. */
  method EvaluatePath(path: seq<E.Segment>, env: Environment) returns (r: Runtime)
    ensures r == PathValue(path, env)
  {
    if path == [] || path[0].Index? {
      return Unavailable(NO_METADATA);
    }
    r := Root(path[0].name, env);
    var i := 1;
    while i < |path|
      invariant 1 <= i <= |path| && PathValue(path, env) == SelectAll(r, path[i..])
    {
      assert path[i..][0] == path[i] && path[i..][1..] == path[i + 1..];
      r := Select(r, path[i]);
      i := i + 1;
    }
    assert path[i..] == [];
  }

  // ----- evaluation

  /** Literals, paths, access by key, index or selector, negation and binary operators. */
  predicate Supported(e: E.Expression) {
    match e
    case Literal(_) => true
    case Path(_) => true
    case Access(base, steps) => Supported(base) && forall s | s in steps :: SupportedStep(s)
    case Call(_, _) => false
    case Not(operand) => Supported(operand)
    case Binary(_, left, right) => Supported(left) && Supported(right)
  }

  predicate SupportedStep(s: E.Step) {
    match s
    case Dynamic(selector) => Supported(selector)
    case Projection => false
    case _ => true
  }

  function LiteralValue(l: E.Literal, lib: Library): Json {
    match l
    case StringLiteral(text) => String(lib.encode(text))
    case NumberLiteral(Whole(n)) => Number(Numeral(n))
    case NumberLiteral(OtherNumber(text)) => Number(text)
    case BooleanLiteral(b) => Boolean(b)
    case NullLiteral => Null
  }

  function SameOrigin(left: Metadata, right: Metadata): bool {
    left.identity.Some? && right.identity.Some? && left.identity == right.identity
  }

  function CompareValues(op: E.Operator, left: Runtime, right: Runtime, lib: Library): Runtime
    requires !op.And? && !op.Or?
  {
    if left.value.None? || right.value.None? then Unavailable(NO_METADATA)
    else
      var x, y := left.value.value, right.value.value;
      var equal := EqualValues(x, y, SameOrigin(left.metadata, right.metadata), lib);
      var order := Ordered(x, y, lib);
      Owned(Boolean(
              match op
              case Equal => equal
              case NotEqual => !equal
              case Less => order == Some(D.Less)
              case LessOrEqual => order.Some? && order.value != D.Greater
              case Greater => order == Some(D.Greater)
              case GreaterOrEqual => order.Some? && order.value != D.Less))
  }

  /** The segment that a selector's value names, if it names one. */
  function SelectorSegment(v: Json, lib: Library): Option<E.Segment> {
    match v
    case String(key) => Some(E.Property(lib.decode(key)))
    case Number(digits) =>
      var d := D.Parse(digits);
      if d.Some? && D.IndexOf(d.value).Some? then Some(E.Index(D.IndexOf(d.value).value)) else None
    case _ => None
  }

  function Evaluate(e: E.Expression, env: Environment, lib: Library): Runtime
    requires Supported(e)
    decreases e
  {
    match e
    case Literal(l) => Owned(LiteralValue(l, lib))
    case Path(path) => PathValue(path, env)
    case Access(base, steps) => AccessAll(Evaluate(base, env, lib), steps, env, lib)
    case Not(operand) =>
      var r := Evaluate(operand, env, lib);
      if r.value.None? then Unavailable(NO_METADATA) else Owned(Boolean(!IsTruthy(r.value.value)))
    case Binary(op, left, right) =>
      var x := Evaluate(left, env, lib);
      if x.value.None? then x
      else if (op.And? && !IsTruthy(x.value.value)) || (op.Or? && IsTruthy(x.value.value)) then x
      else
        var y := Evaluate(right, env, lib);
        if op.And? || op.Or? then y else CompareValues(op, x, y, lib)
  }

  function AccessAll(r: Runtime, steps: seq<E.Step>, env: Environment, lib: Library): Runtime
    requires forall s | s in steps :: SupportedStep(s)
    decreases steps
  {
    if steps == [] || r.value.None? then r else AccessAll(AccessOne(r, steps[0], env, lib), steps[1..], env, lib)
  }

  function AccessOne(r: Runtime, s: E.Step, env: Environment, lib: Library): Runtime
    requires SupportedStep(s)
    decreases s
  {
    match s
    case KeyStep(name) => Select(r, E.Property(name))
    case IndexStep(n) => Select(r, E.Index(n))
    case Dynamic(selector) =>
      var key := Evaluate(selector, env, lib);
      if key.value.None? || SelectorSegment(key.value.value, lib).None? then Unavailable(NO_METADATA)
      else Select(r, SelectorSegment(key.value.value, lib).value)
  }

  // ----- more evidence

  /** The same value, apart from object members that the first does not have. */
  predicate Extends(a: Json, b: Json)
    decreases a
  {
    match a
    case Array(items) => b.Array? && |b.items| == |items| && forall i | 0 <= i < |items| :: Extends(items[i], b.items[i])
    case Object(members) =>
      b.Object?
      && forall i | 0 <= i < |members| ::
           MemberIndex(members, members[i].name) == i ==>
             Child(b, Key(members[i].name)).Some? && Extends(members[i].value, Child(b, Key(members[i].name)).value)
    case _ => a == b
  }

  /** What was available stays available, with the same origin. */
  predicate Refines(x: Runtime, y: Runtime) {
    x.value.Some? ==> y.value.Some? && Extends(x.value.value, y.value.value) && x.metadata == y.metadata
  }

  /** More evidence in the context or in the bindings, for the same names. */
  predicate MoreEvidence(before: Environment, after: Environment) {
    Extends(before.context, after.context) && before.bindings.Keys == after.bindings.Keys
    && forall name | name in before.bindings :: Refines(before.bindings[name], after.bindings[name])
  }

  lemma {:induction false} MemberIndexIsOwn(members: seq<Member>, name: string)
    ensures var i := MemberIndex(members, name); i < |members| ==> MemberIndex(members, members[i].name) == i
  {}

  lemma {:induction false} ChildExtends(a: Json, b: Json, s: Step)
    requires Extends(a, b) && Child(a, s).Some?
    ensures Child(b, s).Some? && Extends(Child(a, s).value, Child(b, s).value)
  {
    if s.Key? { MemberIndexIsOwn(a.members, s.name); }
  }

  lemma {:induction false} ScalarsExtend(a: Json, b: Json)
    requires Extends(a, b)
    ensures SameKind(a, b) && (!Container(a) ==> a == b) && IsTruthy(a) == IsTruthy(b)
  {}

  lemma {:induction false} ExtendsItself(a: Json)
    ensures Extends(a, a)
    decreases a
  {
    if a.Array? {
      forall i | 0 <= i < |a.items| ensures Extends(a.items[i], a.items[i]) { ExtendsItself(a.items[i]); }
    } else if a.Object? {
      forall i | 0 <= i < |a.members| ensures Extends(a.members[i].value, a.members[i].value) {
        ExtendsItself(a.members[i].value);
      }
    }
  }

  /** The value with a new field in the object at a place. */
  function WithField(v: Json, loc: Location, name: string, x: Json): Json
    requires Follow(v, loc).Some? && Follow(v, loc).value.Object?
  {
    Put(v, loc, Object(Follow(v, loc).value.members + [Member(name, x)]))
  }

  lemma {:induction false} LastMemberIsNew(members: seq<Member>, last: Member, name: string)
    ensures MemberIndex(members, name) < |members| ==> MemberIndex(members + [last], name) == MemberIndex(members, name)
    decreases |members|
  {
    if members != [] {
      assert (members + [last])[1..] == members[1..] + [last];
      LastMemberIsNew(members[1..], last, name);
    }
  }

  /** A field that an object of the value did not have is added evidence. */
  lemma {:induction false} AddedFieldExtends(v: Json, loc: Location, name: string, x: Json)
    requires Follow(v, loc).Some? && Follow(v, loc).value.Object?
    ensures Extends(v, WithField(v, loc, name, x))
    decreases |loc|
  {
    if loc == [] {
      var last := Member(name, x);
      forall i | 0 <= i < |v.members| && MemberIndex(v.members, v.members[i].name) == i
        ensures Child(Object(v.members + [last]), Key(v.members[i].name)) == Some(v.members[i].value)
                && Extends(v.members[i].value, v.members[i].value)
      {
        LastMemberIsNew(v.members, last, v.members[i].name);
        ExtendsItself(v.members[i].value);
      }
    } else {
      var child := Child(v, loc[0]).value;
      AddedFieldExtends(child, loc[1..], name, x);
      ChildIsExtended(v, loc[0], WithField(child, loc[1..], name, x));
    }
  }

  lemma {:induction false} ChildIsExtended(v: Json, s: Step, child: Json)
    requires Child(v, s).Some? && Extends(Child(v, s).value, child)
    ensures Extends(v, WithChild(v, s, child))
  {
    var w := WithChild(v, s, child);
    if s.Item? {
      forall i | 0 <= i < |v.items| ensures Extends(v.items[i], w.items[i]) {
        if i != s.index { ExtendsItself(v.items[i]); }
      }
    } else {
      forall i | 0 <= i < |v.members| && MemberIndex(v.members, v.members[i].name) == i
        ensures Child(w, Key(v.members[i].name)).Some? && Extends(v.members[i].value, Child(w, Key(v.members[i].name)).value)
      {
        WithChildChanges(v, s, child, Key(v.members[i].name));
        ExtendsItself(v.members[i].value);
      }
    }
  }

  lemma {:induction false} SelectRefines(x: Runtime, y: Runtime, s: E.Segment)
    requires Refines(x, y)
    ensures Refines(Select(x, s), Select(y, s))
  {
    if x.value.Some? && Select(x, s).value.Some? {
      if s.Property? && s.name == "length" && x.value.value.Array? {
      } else {
        ChildExtends(x.value.value, y.value.value, StepOf(s));
      }
    }
  }

  lemma {:induction false} SelectAllRefines(x: Runtime, y: Runtime, path: seq<E.Segment>)
    requires Refines(x, y)
    ensures Refines(SelectAll(x, path), SelectAll(y, path))
    decreases |path|
  {
    if path != [] {
      SelectRefines(x, y, path[0]);
      SelectAllRefines(Select(x, path[0]), Select(y, path[0]), path[1..]);
    }
  }

  lemma {:induction false} RootRefines(name: string, before: Environment, after: Environment)
    requires MoreEvidence(before, after)
    ensures Refines(Root(name, before), Root(name, after))
  {
    if name !in before.bindings && Child(before.context, Key(name)).Some? {
      ChildExtends(before.context, after.context, Key(name));
    }
    assert name in before.bindings.Keys <==> name in after.bindings.Keys;
  }

  lemma {:induction false} ComparisonRefines(op: E.Operator, a: Runtime, b: Runtime, x: Runtime, y: Runtime, lib: Library)
    requires !op.And? && !op.Or? && Refines(a, x) && Refines(b, y)
    ensures Refines(CompareValues(op, a, b, lib), CompareValues(op, x, y, lib))
  {
    if a.value.Some? && b.value.Some? {
      ScalarsExtend(a.value.value, x.value.value);
      ScalarsExtend(b.value.value, y.value.value);
      SameComparison(a.value.value, b.value.value, x.value.value, y.value.value, SameOrigin(a.metadata, b.metadata), lib);
    }
  }

  lemma {:induction false} SameComparison(a: Json, b: Json, x: Json, y: Json, sameOrigin: bool, lib: Library)
    requires SameKind(a, x) && SameKind(b, y) && (!Container(a) ==> a == x) && (!Container(b) ==> b == y)
    ensures EqualValues(a, b, sameOrigin, lib) == EqualValues(x, y, sameOrigin, lib) && Ordered(a, b, lib) == Ordered(x, y, lib)
  {
    if Container(a) {
      assert Coerced(a, lib) == None == Coerced(x, lib);
    }
    if Container(b) {
      assert Coerced(b, lib) == None == Coerced(y, lib);
    }
  }

  lemma {:induction false} SelectorRefines(a: Json, b: Json, lib: Library)
    requires Extends(a, b)
    ensures SelectorSegment(a, lib) == SelectorSegment(b, lib)
  {}

  /** With more evidence, whatever was available stays available, extended by the added members only. */
  lemma {:induction false} EvaluationIsMonotone(e: E.Expression, before: Environment, after: Environment, lib: Library)
    requires Supported(e) && MoreEvidence(before, after)
    ensures Refines(Evaluate(e, before, lib), Evaluate(e, after, lib))
    decreases e
  {
    match e
    case Literal(l) =>
      ExtendsItself(LiteralValue(l, lib));
    case Path(path) =>
      if path != [] && path[0].Property? {
        RootRefines(path[0].name, before, after);
        SelectAllRefines(Root(path[0].name, before), Root(path[0].name, after), path[1..]);
      }
    case Access(base, steps) =>
      EvaluationIsMonotone(base, before, after, lib);
      AccessIsMonotone(Evaluate(base, before, lib), Evaluate(base, after, lib), steps, before, after, lib);
    case Not(operand) =>
      EvaluationIsMonotone(operand, before, after, lib);
      var x, y := Evaluate(operand, before, lib), Evaluate(operand, after, lib);
      if x.value.Some? { ScalarsExtend(x.value.value, y.value.value); }
    case Binary(op, left, right) =>
      EvaluationIsMonotone(left, before, after, lib);
      EvaluationIsMonotone(right, before, after, lib);
      BinaryIsMonotone(op, left, right, before, after, lib);
  }

  lemma {:induction false} BinaryIsMonotone(op: E.Operator, left: E.Expression, right: E.Expression, before: Environment, after: Environment, lib: Library)
    requires Supported(left) && Supported(right)
    requires Refines(Evaluate(left, before, lib), Evaluate(left, after, lib)) && Refines(Evaluate(right, before, lib), Evaluate(right, after, lib))
    ensures Refines(Evaluate(E.Binary(op, left, right), before, lib), Evaluate(E.Binary(op, left, right), after, lib))
  {
    var a, x := Evaluate(left, before, lib), Evaluate(left, after, lib);
    if a.value.Some? { ScalarsExtend(a.value.value, x.value.value); }
    if !op.And? && !op.Or? { ComparisonRefines(op, a, Evaluate(right, before, lib), x, Evaluate(right, after, lib), lib); }
  }

  lemma {:induction false} AccessIsMonotone(x: Runtime, y: Runtime, steps: seq<E.Step>, before: Environment, after: Environment, lib: Library)
    requires (forall s | s in steps :: SupportedStep(s)) && MoreEvidence(before, after) && Refines(x, y)
    ensures Refines(AccessAll(x, steps, before, lib), AccessAll(y, steps, after, lib))
    decreases steps
  {
    if steps != [] && x.value.Some? {
      var s := steps[0];
      assert s in steps && SupportedStep(s);
      StepIsMonotone(x, y, s, before, after, lib);
      AccessIsMonotone(AccessOne(x, s, before, lib), AccessOne(y, s, after, lib), steps[1..], before, after, lib);
    }
  }

  lemma {:induction false} StepIsMonotone(x: Runtime, y: Runtime, s: E.Step, before: Environment, after: Environment, lib: Library)
    requires SupportedStep(s) && MoreEvidence(before, after) && Refines(x, y)
    ensures Refines(AccessOne(x, s, before, lib), AccessOne(y, s, after, lib))
    decreases s
  {
    match s
    case KeyStep(name) => SelectRefines(x, y, E.Property(name));
    case IndexStep(n) => SelectRefines(x, y, E.Index(n));
    case Dynamic(selector) =>
      EvaluationIsMonotone(selector, before, after, lib);
      var key := Evaluate(selector, before, lib);
      if key.value.Some? && SelectorSegment(key.value.value, lib).Some? {
        SelectorRefines(key.value.value, Evaluate(selector, after, lib).value.value, lib);
        SelectRefines(x, y, SelectorSegment(key.value.value, lib).value);
      }
  }

  /** So a scalar result does not change, and nothing becomes unavailable. */
  lemma {:induction false} ScalarResultsStay(e: E.Expression, before: Environment, after: Environment, lib: Library)
    requires Supported(e) && MoreEvidence(before, after) && Evaluate(e, before, lib).value.Some?
    ensures Evaluate(e, after, lib).value.Some?
    ensures !Container(Evaluate(e, before, lib).value.value) ==> Evaluate(e, after, lib).value == Evaluate(e, before, lib).value
  {
    EvaluationIsMonotone(e, before, after, lib);
    ScalarsExtend(Evaluate(e, before, lib).value.value, Evaluate(e, after, lib).value.value);
  }

  /** What a scalar answer does not need, it does not read: an answer that is given without a field is the
      same for every value that the field could have, null among them. */
  lemma {:induction false} MissingFieldIsNotRead(
      e: E.Expression, env: Environment, loc: Location, name: string, x: Json, lib: Library)
    requires Supported(e) && Follow(env.context, loc).Some? && Follow(env.context, loc).value.Object?
    requires Evaluate(e, env, lib).value.Some? && !Container(Evaluate(e, env, lib).value.value)
    ensures Evaluate(e, env.(context := WithField(env.context, loc, name, x)), lib).value == Evaluate(e, env, lib).value
  {
    AddedFieldExtends(env.context, loc, name, x);
    forall binding | binding in env.bindings ensures Refines(env.bindings[binding], env.bindings[binding]) {
      if env.bindings[binding].value.Some? { ExtendsItself(env.bindings[binding].value.value); }
    }
    ScalarResultsStay(e, env, env.(context := WithField(env.context, loc, name, x)), lib);
  }

  /** So an expression whose answer depends on whether a missing field is null or something else has no
      answer. */
  lemma {:induction false} MissingIsNotNull(
      e: E.Expression, env: Environment, loc: Location, name: string, x: Json, lib: Library)
    requires Supported(e) && Follow(env.context, loc).Some? && Follow(env.context, loc).value.Object?
    requires Evaluate(e, env.(context := WithField(env.context, loc, name, Null)), lib).value
          != Evaluate(e, env.(context := WithField(env.context, loc, name, x)), lib).value
    ensures Evaluate(e, env, lib).value.None? || Container(Evaluate(e, env, lib).value.value)
  {
    if Evaluate(e, env, lib).value.Some? && !Container(Evaluate(e, env, lib).value.value) {
      MissingFieldIsNotRead(e, env, loc, name, Null, lib);
      MissingFieldIsNotRead(e, env, loc, name, x, lib);
    }
  }

  /** Whether the left operand decides alone. */
  predicate Decides(op: E.Operator, left: Json) {
    (op.And? && !IsTruthy(left)) || (op.Or? && IsTruthy(left))
  }

  /** A missing operand, on either side, leaves every comparison and every negation without an answer, and
      `and` and `or` unless the left one decides; nothing else does. A null operand is equal to null. */
  lemma {:induction false} AnswersExactly(op: E.Operator, left: E.Expression, right: E.Expression, env: Environment, lib: Library)
    requires Supported(left) && Supported(right)
    ensures var x, y := Evaluate(left, env, lib).value, Evaluate(right, env, lib).value;
      (Evaluate(E.Binary(op, left, right), env, lib).value.None? <==> (x.None? || (!Decides(op, x.value) && y.None?)))
      && (Evaluate(E.Not(left), env, lib).value.None? <==> x.None?)
      && (op.Equal? && x == Some(Null) && y == Some(Null) ==>
            Evaluate(E.Binary(op, left, right), env, lib).value == Some(Boolean(true)))
  {}
}
