/**
 What expressions answer, stated on the numbers that values denote, on folded texts, and on the places of
 the context that paths name and containers come from.
 */
module Comparisons {
  import opened Text
  import opened Json
  import opened Evaluation
  import opened JsonNumbers
  import E = Expressions
  import D = Decimals

  // ----- what values denote

  /** A number text that denotes a number. */
  ghost predicate TextDenotes(text: string, x: real) {
    exists n :: Grammatical(n) && D.ModerateNumber(n) && text == Written(n) && x == D.NumberValue(n)
  }

  /** The value counts as this number. */
  ghost predicate Denotes(v: Json, x: real, lib: Library) {
    match v
    case Null => x == 0.0
    case Boolean(b) => x == if b then 1.0 else 0.0
    case Number(digits) => TextDenotes(digits, x)
    case String(text) =>
      if text == [] then x == 0.0 else lib.number(text).Some? && TextDenotes(lib.number(text).value, x)
    case _ => false
  }

  /** The value counts as no number. */
  predicate NoNumber(v: Json, lib: Library) {
    v.Array? || v.Object? || (v.String? && v.text != [] && lib.number(v.text).None?)
  }

  predicate Holds(op: E.Operator, x: real, y: real) {
    match op
    case Equal => x == y
    case NotEqual => x != y
    case Less => x < y
    case LessOrEqual => x <= y
    case Greater => x > y
    case GreaterOrEqual => x >= y
    case _ => false
  }

  /** The first text ends where the second goes on, or has the smaller byte where they first differ. */
  ghost predicate Before(a: Bytes, b: Bytes) {
    exists i :: 0 <= i <= |a| && i < |b| && a[..i] == b[..i] && (i == |a| || a[i] < b[i])
  }

  ghost predicate TextHolds(op: E.Operator, a: Bytes, b: Bytes) {
    match op
    case Equal => a == b
    case NotEqual => a != b
    case Less => Before(a, b)
    case LessOrEqual => Before(a, b) || a == b
    case Greater => Before(b, a)
    case GreaterOrEqual => Before(b, a) || a == b
    case _ => false
  }

  // ----- comparisons

  lemma {:induction false} ZeroAndOne()
    ensures TextDenotes("0", 0.0) && TextDenotes("1", 1.0)
  {
    var zero, one := JsonNumber(false, "0", None, None), JsonNumber(false, "1", None, None);
    assert Written(zero) == "0" && Written(one) == "1";
    assert D.NumberValue(zero) == 0.0 && D.NumberValue(one) == 1.0;
  }

  lemma {:induction false} DenotedCompare(s: string, u: string, x: real, y: real)
    requires TextDenotes(s, x) && TextDenotes(u, y)
    ensures var a, b := D.Parse(s), D.Parse(u);
      a.Some? && b.Some? && (a == b <==> x == y) && D.Cmp(a.value, b.value) == D.CompareReals(x, y)
  {
    var m :| Grammatical(m) && D.ModerateNumber(m) && s == Written(m) && x == D.NumberValue(m);
    var n :| Grammatical(n) && D.ModerateNumber(n) && u == Written(n) && y == D.NumberValue(n);
    D.TextsCompareExactly(m, n);
  }

  /** The number text that a value stands for in a comparison with another kind. */
  function StandsFor(v: Json, lib: Library): Option<string> {
    match v
    case Null => Some("0")
    case Boolean(b) => Some(if b then "1" else "0")
    case Number(digits) => Some(digits)
    case String(text) => if text == [] then Some("0") else lib.number(text)
    case _ => None
  }

  lemma {:induction false} CoercedExactly(v: Json, x: real, lib: Library)
    requires Denotes(v, x, lib)
    ensures StandsFor(v, lib).Some? && TextDenotes(StandsFor(v, lib).value, x)
    ensures Coerced(v, lib) == D.Parse(StandsFor(v, lib).value)
  {
    ZeroAndOne();
  }

  /** Values that count as numbers compare as these numbers, except that two texts compare as texts, and that
      null is not ordered against null. */
  lemma {:induction false} NumbersCompareExactly(op: E.Operator, left: Runtime, right: Runtime, x: real, y: real, lib: Library)
    requires !op.And? && !op.Or? && left.value.Some? && right.value.Some?
    requires Denotes(left.value.value, x, lib) && Denotes(right.value.value, y, lib)
    requires !(left.value.value.String? && right.value.value.String?) && !(left.value.value.Null? && right.value.value.Null?)
    ensures CompareValues(op, left, right, lib).value == Some(Boolean(Holds(op, x, y)))
  {
    var a, b := left.value.value, right.value.value;
    CoercedExactly(a, x, lib);
    CoercedExactly(b, y, lib);
    DenotedCompare(StandsFor(a, lib).value, StandsFor(b, lib).value, x, y);
    NumbersOrder(a, b, x, y, lib);
  }

  lemma {:induction false} NumbersOrder(a: Json, b: Json, x: real, y: real, lib: Library)
    requires Denotes(a, x, lib) && Denotes(b, y, lib) && !(a.String? && b.String?) && !(a.Null? && b.Null?)
    requires var s, u := Coerced(a, lib), Coerced(b, lib);
      s.Some? && u.Some? && (s == u <==> x == y) && D.Cmp(s.value, u.value) == D.CompareReals(x, y)
    ensures Ordered(a, b, lib) == Some(D.CompareReals(x, y))
    ensures forall same: bool :: EqualValues(a, b, same, lib) <==> x == y
  {
    if SameKind(a, b) {
      if a.Boolean? { BooleansOrder(a.b, b.b, x, y); }
    } else {
      assert Ordered(a, b, lib) == CompareDecimals(Coerced(a, lib), Coerced(b, lib));
    }
  }

  lemma {:induction false} BooleansOrder(a: bool, b: bool, x: real, y: real)
    requires x == (if a then 1.0 else 0.0) && y == (if b then 1.0 else 0.0)
    ensures (a == b <==> x == y)
    ensures D.CompareReals(x, y) == if a == b then D.Equal else if b then D.Less else D.Greater
  {}

  lemma {:induction false} TwoNullsExactly(op: E.Operator, left: Runtime, right: Runtime, lib: Library)
    requires !op.And? && !op.Or? && left.value == right.value == Some(Null)
    ensures CompareValues(op, left, right, lib).value == Some(Boolean(op == E.Equal))
  {}

  /** A value that counts as no number differs from every value of another kind, and is not ordered against it. */
  lemma {:induction false} NoNumberExactly(op: E.Operator, left: Runtime, right: Runtime, lib: Library)
    requires !op.And? && !op.Or? && left.value.Some? && right.value.Some?
    requires NoNumber(left.value.value, lib) || NoNumber(right.value.value, lib)
    requires !(left.value.value.String? && right.value.value.String?)
    requires !(Container(left.value.value) && Container(right.value.value))
    ensures CompareValues(op, left, right, lib).value == Some(Boolean(op == E.NotEqual))
  {
    NoNumberOrder(left.value.value, right.value.value, lib);
  }

  lemma {:induction false} NoNumberOrder(a: Json, b: Json, lib: Library)
    requires NoNumber(a, lib) || NoNumber(b, lib)
    requires !(a.String? && b.String?) && !(Container(a) && Container(b))
    ensures Ordered(a, b, lib) == None && forall same: bool :: !EqualValues(a, b, same, lib)
  {
    assert NoNumber(a, lib) ==> Coerced(a, lib) == None;
    assert NoNumber(b, lib) ==> Coerced(b, lib) == None;
  }

  /** Two containers are equal exactly if they are the same value of the context or of one generated value. */
  lemma {:induction false} ContainersExactly(op: E.Operator, left: Runtime, right: Runtime, lib: Library)
    requires !op.And? && !op.Or? && left.value.Some? && right.value.Some?
    requires Container(left.value.value) && Container(right.value.value)
    ensures var same := left.metadata.identity.Some? && left.metadata.identity == right.metadata.identity;
      CompareValues(op, left, right, lib).value == Some(Boolean((op == E.Equal && same) || (op == E.NotEqual && !same)))
  {}

  lemma {:induction false} BytesExactly(a: Bytes, b: Bytes)
    ensures CompareBytes(a, b).Equal? <==> a == b
    ensures CompareBytes(a, b).Less? <==> Before(a, b)
    ensures CompareBytes(a, b).Greater? <==> Before(b, a)
    decreases |a|
  {
    BeforeStep(a, b);
    BeforeStep(b, a);
    if a != [] && b != [] && a[0] == b[0] {
      BytesExactly(a[1..], b[1..]);
      assert a == [a[0]] + a[1..] && b == [b[0]] + b[1..];
    }
  }

  lemma {:induction false} BeforeStep(a: Bytes, b: Bytes)
    ensures Before(a, b) <==> b != [] && (a == [] || a[0] < b[0] || (a[0] == b[0] && Before(a[1..], b[1..])))
  {
    if Before(a, b) && a != [] {
      var i :| 0 <= i <= |a| && i < |b| && a[..i] == b[..i] && (i == |a| || a[i] < b[i]);
      if i > 0 {
        assert a[0] == a[..i][0] == b[0];
        assert a[1..][..i - 1] == a[..i][1..] == b[1..][..i - 1];
      }
    }
    if b != [] && a == [] { assert a[..0] == b[..0]; }
    if a != [] && b != [] && a[0] < b[0] { assert a[..0] == b[..0]; }
    if a != [] && b != [] && a[0] == b[0] && Before(a[1..], b[1..]) {
      var i :| 0 <= i <= |a| - 1 && i < |b| - 1 && a[1..][..i] == b[1..][..i] && (i == |a| - 1 || a[1..][i] < b[1..][i]);
      assert a[..i + 1] == [a[0]] + a[1..][..i] && b[..i + 1] == [b[0]] + b[1..][..i];
    }
  }

  /** Texts compare by the bytes of their lower case. */
  lemma {:induction false} TextsCompareExactly(op: E.Operator, left: Runtime, right: Runtime, lib: Library)
    requires !op.And? && !op.Or? && left.value.Some? && right.value.Some?
    requires left.value.value.String? && right.value.value.String?
    ensures CompareValues(op, left, right, lib).value
         == Some(Boolean(TextHolds(op, lib.lower(left.value.value.text), lib.lower(right.value.value.text))))
  {
    BytesExactly(lib.lower(left.value.value.text), lib.lower(right.value.value.text));
  }

  // ----- logic

  /** Null, false, the empty text and every number that is zero count as false; nothing else does. */
  lemma {:induction false} TruthExactly(v: Json, x: real, lib: Library)
    requires v.Number? ==> Denotes(v, x, lib)
    ensures IsTruthy(v) <==> v != Null && v != Boolean(false) && v != String([]) && (v.Number? ==> x != 0.0)
  {
    if v.Number? { ZeroExactly(v.digits, x); }
  }

  lemma {:induction false} ZeroExactly(text: string, x: real)
    requires TextDenotes(text, x)
    ensures D.Parse(text).Some? && (D.IsZero(D.Parse(text).value) <==> x == 0.0)
  {
    var n :| Grammatical(n) && D.ModerateNumber(n) && text == Written(n) && x == D.NumberValue(n);
    D.ParseIsExact(n);
    ZeroDecimal(D.Parse(text).value);
  }

  lemma {:induction false} ZeroDecimal(d: D.Decimal)
    requires D.Canonical(d)
    ensures D.IsZero(d) <==> D.Value(d) == 0.0
  {
    if D.IsZero(d) { D.ZeroHasNoMagnitude(d); } else { D.MagnitudeBounds(d); }
  }

  /** `and` and `or` give one of their operands; a negation gives the opposite truth value. */
  lemma {:induction false} LogicExactly(left: E.Expression, right: E.Expression, env: Environment, lib: Library)
    requires Supported(left) && Supported(right) && Evaluate(left, env, lib).value.Some?
    ensures var x, y := Evaluate(left, env, lib), Evaluate(right, env, lib);
      Evaluate(E.Binary(E.And, left, right), env, lib) == (if IsTruthy(x.value.value) then y else x)
      && Evaluate(E.Binary(E.Or, left, right), env, lib) == (if IsTruthy(x.value.value) then x else y)
      && Evaluate(E.Not(left), env, lib).value == Some(Boolean(!IsTruthy(x.value.value)))
  {}

  /** Every other operator compares the values of its operands. */
  lemma {:induction false} ComparesOperands(op: E.Operator, left: E.Expression, right: E.Expression, env: Environment, lib: Library)
    requires Supported(left) && Supported(right) && !op.And? && !op.Or?
    requires Evaluate(left, env, lib).value.Some? && Evaluate(right, env, lib).value.Some?
    ensures Evaluate(E.Binary(op, left, right), env, lib)
         == CompareValues(op, Evaluate(left, env, lib), Evaluate(right, env, lib), lib)
  {}

  // ----- paths

  /** The place of the context that a path names. */
  function PlaceOf(path: seq<E.Segment>): Location {
    if path == [] then [] else [match path[0] case Property(name) => Key(name) case Index(n) => Item(n)] + PlaceOf(path[1..])
  }

  predicate NoLength(path: seq<E.Segment>) {
    forall s | s in path :: s != E.Property("length")
  }

  /** A path reads the value at its place of the context, and is unavailable if there is none; the value keeps
      the place that it comes from. */
  lemma {:induction false} PathsReadContext(path: seq<E.Segment>, env: Environment)
    requires path != [] && path[0].Property? && path[0].name !in env.bindings && NoLength(path[1..])
    ensures var r := PathValue(path, env);
      r.value == Follow(env.context, PlaceOf(path)) && (r.value.Some? ==> r.metadata.identity == Some(Frozen(path)))
  {
    var root := Root(path[0].name, env);
    assert [path[0]] + path[1..] == path;
    if root.value.Some? {
      SelectsPlace(root, path[1..], [path[0]]);
    } else {
      SelectsNothing(root, path[1..]);
    }
  }

  lemma {:induction false} SelectsNothing(r: Runtime, path: seq<E.Segment>)
    requires r.value.None?
    ensures SelectAll(r, path).value.None?
    decreases |path|
  {
    if path != [] { SelectsNothing(Select(r, path[0]), path[1..]); }
  }

  lemma {:induction false} SelectsPlace(r: Runtime, path: seq<E.Segment>, done: seq<E.Segment>)
    requires r.value.Some? && NoLength(path) && r.metadata == Metadata(Some(Frozen(done)), [])
    ensures var s := SelectAll(r, path);
      s.value == Follow(r.value.value, PlaceOf(path)) && (s.value.Some? ==> s.metadata.identity == Some(Frozen(done + path)))
    decreases |path|
  {
    if path == [] {
      assert done + path == done;
    } else {
      var next := Select(r, path[0]);
      assert path[0] in path && forall s | s in path[1..] :: s in path;
      assert done + path == done + [path[0]] + path[1..];
      assert PlaceOf(path)[1..] == PlaceOf(path[1..]);
      if next.value.Some? { SelectsPlace(next, path[1..], done + [path[0]]); } else { SelectsNothing(next, path[1..]); }
    }
  }

  /** The length of an array of the context is the number of its items. */
  lemma {:induction false} LengthCountsItems(path: seq<E.Segment>, env: Environment)
    requires path != [] && path[0].Property? && path[0].name !in env.bindings && NoLength(path[1..])
    requires Follow(env.context, PlaceOf(path)).Some? && Follow(env.context, PlaceOf(path)).value.Array?
    ensures PathValue(path + [E.Property("length")], env).value == Some(Number(Numeral(|Follow(env.context, PlaceOf(path)).value.items|)))
  {
    PathsReadContext(path, env);
    var last := E.Property("length");
    SelectsLast(Root(path[0].name, env), path[1..], last);
    assert (path + [last])[1..] == path[1..] + [last];
  }

  lemma {:induction false} SelectsLast(r: Runtime, path: seq<E.Segment>, last: E.Segment)
    ensures SelectAll(r, path + [last]) == Select(SelectAll(r, path), last)
    decreases |path|
  {
    if path == [] {
      assert [] + [last] == [last] && [last][1..] == [];
    } else {
      assert (path + [last])[1..] == path[1..] + [last];
      SelectsLast(Select(r, path[0]), path[1..], last);
    }
  }

  /** Two paths to containers of the context are equal exactly if they are the same path. */
  lemma {:induction false} ContainersEqualAtOnePath(p: seq<E.Segment>, q: seq<E.Segment>, env: Environment, lib: Library)
    requires p != [] && p[0].Property? && p[0].name !in env.bindings && NoLength(p[1..])
    requires q != [] && q[0].Property? && q[0].name !in env.bindings && NoLength(q[1..])
    requires var x, y := Follow(env.context, PlaceOf(p)), Follow(env.context, PlaceOf(q));
      x.Some? && y.Some? && Container(x.value) && Container(y.value)
    ensures Supported(E.Path(p)) && Supported(E.Path(q))
    ensures Evaluate(E.Binary(E.Equal, E.Path(p), E.Path(q)), env, lib).value == Some(Boolean(p == q))
  {
    PathsReadContext(p, env);
    PathsReadContext(q, env);
    ContainersExactly(E.Equal, PathValue(p, env), PathValue(q, env), lib);
    ComparesOperands(E.Equal, E.Path(p), E.Path(q), env, lib);
  }

  /** A bound name hides the context, also when its value is unavailable. */
  lemma {:induction false} BindingsHideContext(path: seq<E.Segment>, env: Environment)
    requires path != [] && path[0].Property? && path[0].name in env.bindings
    ensures PathValue(path, env) == SelectAll(env.bindings[path[0].name], path[1..])
    ensures env.bindings[path[0].name].value.None? ==> PathValue(path, env).value.None?
  {
    if env.bindings[path[0].name].value.None? { SelectsNothing(env.bindings[path[0].name], path[1..]); }
  }

  lemma {:induction false} LiteralsExactly(l: E.Literal, env: Environment, lib: Library)
    ensures var v := Evaluate(E.Literal(l), env, lib).value;
      match l
      case StringLiteral(text) => v == Some(String(lib.encode(text)))
      case NumberLiteral(Whole(n)) => v == Some(Number(Numeral(n)))
      case NumberLiteral(OtherNumber(text)) => v == Some(Number(text))
      case BooleanLiteral(b) => v == Some(Boolean(b))
      case NullLiteral => v == Some(Null)
  {}

  // ----- access

  /** The steps of an access are taken from left to right; an unavailable value stays unavailable. */
  lemma {:induction false} AccessesInOrder(r: Runtime, first: seq<E.Step>, second: seq<E.Step>, env: Environment, lib: Library)
    requires forall s | s in first + second :: SupportedStep(s)
    ensures (forall s | s in first :: SupportedStep(s)) && (forall s | s in second :: SupportedStep(s))
    ensures AccessAll(r, first + second, env, lib) == AccessAll(AccessAll(r, first, env, lib), second, env, lib)
    decreases |first|
  {
    var all := first + second;
    assert forall s | s in first :: s in all;
    assert forall s | s in second :: s in all;
    if first == [] {
      assert all == second;
    } else {
      assert all[0] == first[0] && all[1..] == first[1..] + second && first[0] in all;
      if r.value.Some? { AccessesInOrder(AccessOne(r, first[0], env, lib), first[1..], second, env, lib); }
    }
  }

  lemma {:induction false} OneStep(r: Runtime, s: E.Step, env: Environment, lib: Library)
    requires SupportedStep(s) && r.value.Some?
    ensures (forall x | x in [s] :: SupportedStep(x)) && AccessAll(r, [s], env, lib) == AccessOne(r, s, env, lib)
    ensures s.KeyStep? ==> AccessOne(r, s, env, lib) == Select(r, E.Property(s.name))
    ensures s.IndexStep? ==> AccessOne(r, s, env, lib) == Select(r, E.Index(s.n))
  {
    assert [s][1..] == [];
  }

  /** The number is this position, and positions are 64-bit. */
  predicate IsPosition(x: real, k: nat) {
    x == k as real && k < 0x1_0000_0000_0000_0000
  }

  /** A bracketed selector reads the property that its text names, or the item whose position its number
      denotes; any other selector, and an unavailable one, reads nothing. */
  lemma {:induction false} SelectorsExactly(r: Runtime, selector: E.Expression, x: real, env: Environment, lib: Library)
    requires Supported(selector)
    requires var key := Evaluate(selector, env, lib).value; key.Some? && key.value.Number? ==> Denotes(key.value, x, lib)
    ensures var got, key := AccessOne(r, E.Dynamic(selector), env, lib), Evaluate(selector, env, lib).value;
      if key.None? then got.value.None?
      else if key.value.String? then got == Select(r, E.Property(lib.decode(key.value.text)))
      else if key.value.Number? then
        (forall k: nat | IsPosition(x, k) :: got == Select(r, E.Index(k)))
        && ((forall k: nat :: !IsPosition(x, k)) ==> got.value.None?)
      else got.value.None?
  {
    var key := Evaluate(selector, env, lib).value;
    if key.Some? && key.value.Number? {
      forall k: nat
        ensures SelectorSegment(key.value, lib) == Some(E.Index(k)) <==> IsPosition(x, k)
      {
        NumberSelects(key.value.digits, x, k, lib);
      }
      assert SelectorSegment(key.value, lib).Some? ==> SelectorSegment(key.value, lib).value.Index?;
    }
  }

  lemma {:induction false} NumberSelects(text: string, x: real, k: nat, lib: Library)
    requires TextDenotes(text, x)
    ensures SelectorSegment(Number(text), lib) == Some(E.Index(k)) <==> IsPosition(x, k)
  {
    var n :| Grammatical(n) && D.ModerateNumber(n) && text == Written(n) && x == D.NumberValue(n);
    D.ParseIsExact(n);
    D.IndexIsExact(D.Parse(text).value, k);
  }

  /** An access reads from the value of its base, step after step. */
  lemma {:induction false} AccessExtends(base: E.Expression, first: seq<E.Step>, second: seq<E.Step>, env: Environment, lib: Library)
    requires Supported(base) && forall s | s in first + second :: SupportedStep(s)
    ensures Supported(E.Access(base, [])) && Supported(E.Access(base, first)) && Supported(E.Access(base, first + second))
    ensures forall s | s in second :: SupportedStep(s)
    ensures Evaluate(E.Access(base, []), env, lib) == Evaluate(base, env, lib)
    ensures Evaluate(E.Access(base, first + second), env, lib) == AccessAll(Evaluate(E.Access(base, first), env, lib), second, env, lib)
  {
    AccessesInOrder(Evaluate(base, env, lib), first, second, env, lib);
  }

  /** A step reads the member or the item at its place, and the length of an array. */
  lemma {:induction false} SelectExactly(r: Runtime, s: E.Segment)
    ensures var got := Select(r, s).value;
      if r.value.None? then got.None?
      else if r.value.value.Array? && s == E.Property("length") then got == Some(Number(Numeral(|r.value.value.items|)))
      else got == Follow(r.value.value, PlaceOf([s]))
  {
    assert PlaceOf([s])[1..] == [];
  }

  /** The origin of a value inside another: the same root and the longer path; an item that was generated
      alone has its own. */
  lemma {:induction false} OriginsExtend(r: Runtime, s: E.Segment)
    requires r.value.Some? && !(r.value.value.Array? && s == E.Property("length"))
    ensures var m := Select(r, s).metadata;
      if s.Index? && s.n < |r.metadata.items| then m == r.metadata.items[s.n]
      else
        m.items == []
        && match r.metadata.identity
           case None => m.identity == None
           case Some(Frozen(path)) => m.identity == Some(Frozen(path + [s]))
           case Some(Generated(root, path)) => m.identity == Some(Generated(root, path + [s]))
  {}
}
