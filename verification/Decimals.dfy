/**
 Exact decimal numbers. The canonical form of a JSON number (section 6 of RFC 8259) determines its
 value and is determined by it, its order is the order of values, and its index is the value itself.
 */
module Decimals {
  import opened Text
  import opened JsonNumbers

  datatype Decimal = Decimal(negative: bool, digits: seq<Figure>, scale: int)

  const MAX_I64: int := 0x7FFF_FFFF_FFFF_FFFF
  const MIN_I64: int := -0x8000_0000_0000_0000

  /** Exponent arithmetic saturates at the 64-bit limits. */
  function Clamp(x: int): int {
    if x < MIN_I64 then MIN_I64 else if x > MAX_I64 then MAX_I64 else x
  }

  // ----- powers of ten and digit sequences

  /** `v` times ten to the power `n`. */
  function Shifted(v: nat, n: nat): nat {
    if n == 0 then v else 10 * Shifted(v, n - 1)
  }

  /** `v` times ten to the power `e`, which may be negative. */
  function Scaled(v: nat, e: int): real
    decreases if e < 0 then -e else e
  {
    if e == 0 then v as real else if e > 0 then 10.0 * Scaled(v, e - 1) else Scaled(v, e + 1) / 10.0
  }

  lemma {:induction false} ScaledStep(v: nat, e: int)
    ensures Scaled(v, e + 1) == 10.0 * Scaled(v, e)
  {}

  /** Ten times the number is one step more. */
  lemma {:induction false} ScaledTen(v: nat, e: int)
    ensures Scaled(10 * v, e) == Scaled(v, e + 1)
    decreases if e < 0 then -e else e
  {
    if e > 0 {
      ScaledTen(v, e - 1);
    } else if e < 0 {
      ScaledTen(v, e + 1);
      ScaledStep(v, e + 1);
    } else {
      ScaledStep(v, 0);
    }
  }

  lemma {:induction false} ScaledShifted(v: nat, n: nat, e: int)
    ensures Scaled(Shifted(v, n), e) == Scaled(v, e + n)
  {
    if n > 0 {
      ScaledTen(Shifted(v, n - 1), e);
      ScaledShifted(v, n - 1, e + 1);
    }
  }

  lemma {:induction false} ScaledMonotone(v: nat, w: nat, e: int)
    ensures v < w ==> Scaled(v, e) < Scaled(w, e)
    ensures v <= w ==> Scaled(v, e) <= Scaled(w, e)
    decreases if e < 0 then -e else e
  {
    if e > 0 { ScaledMonotone(v, w, e - 1); } else if e < 0 { ScaledMonotone(v, w, e + 1); }
  }

  lemma {:induction false} ScaledZero(e: int)
    ensures Scaled(0, e) == 0.0
    decreases if e < 0 then -e else e
  {
    if e > 0 { ScaledZero(e - 1); } else if e < 0 { ScaledZero(e + 1); }
  }

  lemma {:induction false} ScaledGrows(v: nat, a: int, b: int)
    requires a <= b
    ensures Scaled(v, a) <= Scaled(v, b)
    decreases b - a
  {
    if a < b {
      ScaledGrows(v, a, b - 1);
      ScaledStep(v, b - 1);
      ScaledMonotone(0, v, b - 1);
      ScaledZero(b - 1);
    }
  }

  function Zeros(n: nat): (z: seq<Figure>)
    ensures |z| == n && forall i | 0 <= i < n :: z[i] == 0
  {
    seq(n, _ => 0)
  }

  lemma {:induction false} ZerosShift(digits: seq<Figure>, n: nat)
    ensures DigitsValue(digits + Zeros(n)) == Shifted(DigitsValue(digits), n)
  {
    if n == 0 {
      assert digits + Zeros(0) == digits;
    } else {
      var all := digits + Zeros(n);
      assert all[..|all| - 1] == digits + Zeros(n - 1);
      ZerosShift(digits, n - 1);
    }
  }

  lemma {:induction false} DigitsBelow(digits: seq<Figure>)
    ensures DigitsValue(digits) < Shifted(1, |digits|)
  {
    if digits != [] { DigitsBelow(digits[..|digits| - 1]); }
  }

  lemma {:induction false} DigitsAbove(digits: seq<Figure>)
    requires digits != [] && digits[0] != 0
    ensures Shifted(1, |digits| - 1) <= DigitsValue(digits)
  {
    if |digits| == 1 {
      assert digits[..0] == [];
    } else {
      DigitsAbove(digits[..|digits| - 1]);
    }
  }

  // ----- canonical form

  /** Zero in one way; otherwise no leading and no trailing zero. */
  predicate Canonical(d: Decimal) {
    d == Decimal(false, [0], 0)
    || (d.digits != [] && d.digits[0] != 0 && d.digits[|d.digits| - 1] != 0)
  }

  predicate IsZero(d: Decimal) {
    d.digits == [0]
  }

  function Magnitude(d: Decimal): real {
    Scaled(DigitsValue(d.digits), -d.scale)
  }

  function Value(d: Decimal): real {
    if d.negative then -Magnitude(d) else Magnitude(d)
  }

  /** The position of the first digit, relative to the decimal point. */
  function Order(d: Decimal): int {
    |d.digits| - d.scale
  }

  lemma {:induction false} MagnitudeBounds(d: Decimal)
    requires Canonical(d) && !IsZero(d)
    ensures Scaled(1, Order(d) - 1) <= Magnitude(d) < Scaled(1, Order(d)) && Magnitude(d) > 0.0
  {
    var n := |d.digits|;
    DigitsBelow(d.digits);
    DigitsAbove(d.digits);
    ScaledShifted(1, n, -d.scale);
    ScaledShifted(1, n - 1, -d.scale);
    ScaledMonotone(DigitsValue(d.digits), Shifted(1, n), -d.scale);
    ScaledMonotone(Shifted(1, n - 1), DigitsValue(d.digits), -d.scale);
    ScaledMonotone(0, 1, Order(d) - 1);
    ScaledZero(Order(d) - 1);
  }

  function Padded(d: Decimal, length: nat): seq<Figure>
    requires |d.digits| <= length
  {
    d.digits + Zeros(length - |d.digits|)
  }

  /** The magnitude as an integer in units that depend only on the order. */
  lemma {:induction false} MagnitudeInUnits(d: Decimal, length: nat)
    requires |d.digits| <= length
    ensures Magnitude(d) == Scaled(DigitsValue(Padded(d, length)), Order(d) - length)
  {
    ZerosShift(d.digits, length - |d.digits|);
    ScaledShifted(DigitsValue(d.digits), length - |d.digits|, Order(d) - length);
  }

  // ----- comparison

  datatype Ordering = Less | Equal | Greater

  function Compare(a: int, b: int): Ordering {
    if a < b then Less else if a > b then Greater else Equal
  }

  function CompareReals(a: real, b: real): Ordering {
    if a < b then Less else if a > b then Greater else Equal
  }

  function Reverse(o: Ordering): Ordering {
    match o
    case Less => Greater
    case Greater => Less
    case Equal => Equal
  }

  /** Digit by digit from the front; a missing digit is zero. */
  function CompareDigits(a: seq<Figure>, b: seq<Figure>, i: nat, length: nat): Ordering
    requires i <= length
    decreases length - i
  {
    if i == length then Equal
    else
      var x, y := if i < |a| then a[i] else 0, if i < |b| then b[i] else 0;
      if x == y then CompareDigits(a, b, i + 1, length) else Compare(x, y)
  }

  function ComparedMagnitude(a: Decimal, b: Decimal): Ordering {
    var first := Compare(Clamp(Order(a)), Clamp(Order(b)));
    if first != Equal then first
    else CompareDigits(a.digits, b.digits, 0, if |a.digits| < |b.digits| then |b.digits| else |a.digits|)
  }

  function Cmp(a: Decimal, b: Decimal): Ordering {
    if IsZero(a) && IsZero(b) then Equal
    else if IsZero(a) then (if b.negative then Greater else Less)
    else if IsZero(b) then (if a.negative then Less else Greater)
    else if a.negative != b.negative then (if a.negative then Less else Greater)
    else if a.negative then Reverse(ComparedMagnitude(a, b))
    else ComparedMagnitude(a, b)
  }

  lemma {:induction false} FirstDigit(digits: seq<Figure>)
    requires digits != []
    ensures DigitsValue(digits) == Shifted(digits[0], |digits| - 1) + DigitsValue(digits[1..])
  {
    if |digits| == 1 {
      assert digits[..0] == [] && digits[1..] == [];
    } else {
      var front := digits[..|digits| - 1];
      FirstDigit(front);
      assert digits[1..][..|digits| - 2] == front[1..];
    }
  }

  lemma {:induction false} ShiftedLess(x: nat, y: nat, n: nat)
    requires x < y
    ensures Shifted(x, n) + Shifted(1, n) <= Shifted(y, n)
  {
    if n > 0 { ShiftedLess(x, y, n - 1); }
  }

  /** Comparing digit by digit compares the numbers that digits of one length spell. */
  lemma {:induction false} DigitsOrder(a: seq<Figure>, b: seq<Figure>, i: nat)
    requires |a| == |b| && i <= |a|
    ensures CompareDigits(a, b, i, |a|) == Compare(DigitsValue(a[i..]), DigitsValue(b[i..]))
    decreases |a| - i
  {
    if i < |a| {
      FirstDigit(a[i..]);
      FirstDigit(b[i..]);
      assert a[i..][1..] == a[i + 1..] && b[i..][1..] == b[i + 1..];
      DigitsOrder(a, b, i + 1);
      DigitsBelow(a[i + 1..]);
      DigitsBelow(b[i + 1..]);
      if a[i] < b[i] { ShiftedLess(a[i], b[i], |a| - i - 1); }
      if b[i] < a[i] { ShiftedLess(b[i], a[i], |a| - i - 1); }
    }
  }

  lemma {:induction false} ZerosCompareAlike(a: seq<Figure>, b: seq<Figure>, i: nat, length: nat)
    requires |a| <= length && |b| <= length && i <= length
    ensures CompareDigits(a, b, i, length)
         == CompareDigits(a + Zeros(length - |a|), b + Zeros(length - |b|), i, length)
    decreases length - i
  {
    if i < length { ZerosCompareAlike(a, b, i + 1, length); }
  }

  lemma {:induction false} MagnitudesCompare(a: Decimal, b: Decimal)
    requires Canonical(a) && Canonical(b) && !IsZero(a) && !IsZero(b) && Moderate(a) && Moderate(b)
    ensures ComparedMagnitude(a, b) == CompareReals(Magnitude(a), Magnitude(b))
  {
    MagnitudeBounds(a);
    MagnitudeBounds(b);
    if Order(a) < Order(b) {
      ScaledGrows(1, Order(a), Order(b) - 1);
    } else if Order(b) < Order(a) {
      ScaledGrows(1, Order(b), Order(a) - 1);
    } else {
      var length := if |a.digits| < |b.digits| then |b.digits| else |a.digits|;
      SameOrderCompare(a, b, length);
      ZerosCompareAlike(a.digits, b.digits, 0, length);
    }
  }

  lemma {:induction false} SameOrderCompare(a: Decimal, b: Decimal, length: nat)
    requires Order(a) == Order(b) && |a.digits| <= length && |b.digits| <= length
    ensures CompareDigits(Padded(a, length), Padded(b, length), 0, length) == CompareReals(Magnitude(a), Magnitude(b))
    ensures Magnitude(a) == Magnitude(b) ==> DigitsValue(Padded(a, length)) == DigitsValue(Padded(b, length))
  {
    var x, y := Padded(a, length), Padded(b, length);
    DigitsOrder(x, y, 0);
    assert x[0..] == x && y[0..] == y;
    MagnitudeInUnits(a, length);
    MagnitudeInUnits(b, length);
    ScaledMonotone(DigitsValue(x), DigitsValue(y), Order(a) - length);
    ScaledMonotone(DigitsValue(y), DigitsValue(x), Order(a) - length);
  }

  /** The position of the first digit is inside the 64-bit range. */
  predicate Moderate(d: Decimal) {
    MIN_I64 <= Order(d) <= MAX_I64
  }

  lemma {:induction false} ZeroHasNoMagnitude(d: Decimal)
    requires Canonical(d) && IsZero(d)
    ensures Value(d) == 0.0
  {
    assert d.digits[..0] == [];
    assert DigitsValue(d.digits) == 0;
    ScaledZero(-d.scale);
  }

  /** Comparison is the order of the values. */
  lemma {:induction false} CmpIsExact(a: Decimal, b: Decimal)
    requires Canonical(a) && Canonical(b) && Moderate(a) && Moderate(b)
    ensures Cmp(a, b) == CompareReals(Value(a), Value(b))
  {
    if IsZero(a) { ZeroHasNoMagnitude(a); } else { MagnitudeBounds(a); }
    if IsZero(b) { ZeroHasNoMagnitude(b); } else { MagnitudeBounds(b); }
    if !IsZero(a) && !IsZero(b) { MagnitudesCompare(a, b); }
  }

  lemma {:induction false} SameValueSameDigits(a: seq<Figure>, b: seq<Figure>)
    requires |a| == |b| && DigitsValue(a) == DigitsValue(b)
    ensures a == b
  {
    if a != [] {
      var n := |a| - 1;
      assert a[n] == b[n] && DigitsValue(a[..n]) == DigitsValue(b[..n]);
      SameValueSameDigits(a[..n], b[..n]);
      assert a == a[..n] + [a[n]] && b == b[..n] + [b[n]];
    }
  }

  /** Two canonical decimals are equal exactly when their values are. */
  lemma {:induction false} EqualityIsExact(a: Decimal, b: Decimal)
    requires Canonical(a) && Canonical(b) && Moderate(a) && Moderate(b)
    ensures a == b <==> Value(a) == Value(b)
  {
    if Value(a) == Value(b) {
      CmpIsExact(a, b);
      if IsZero(a) { ZeroHasNoMagnitude(a); } else { MagnitudeBounds(a); }
      if IsZero(b) { ZeroHasNoMagnitude(b); } else { MagnitudeBounds(b); }
      if !IsZero(a) {
        assert Cmp(a, b) == Equal && a.negative == b.negative;
        SameMagnitudeSame(a, b);
      }
    }
  }

  lemma {:induction false} SameMagnitudeSame(a: Decimal, b: Decimal)
    requires Canonical(a) && Canonical(b) && !IsZero(a) && !IsZero(b) && Moderate(a) && Moderate(b)
    requires Magnitude(a) == Magnitude(b)
    ensures a.digits == b.digits && a.scale == b.scale
  {
    MagnitudesCompare(a, b);
    assert Order(a) == Order(b);
    var length := if |a.digits| < |b.digits| then |b.digits| else |a.digits|;
    SameOrderCompare(a, b, length);
    SameValueSameDigits(Padded(a, length), Padded(b, length));
    NoTrailingZeros(a.digits, b.digits, length);
  }

  lemma {:induction false} NoTrailingZeros(a: seq<Figure>, b: seq<Figure>, length: nat)
    requires a != [] && b != [] && a[|a| - 1] != 0 && b[|b| - 1] != 0 && |a| <= length && |b| <= length
    requires a + Zeros(length - |a|) == b + Zeros(length - |b|)
    ensures a == b
  {
    var x, y := a + Zeros(length - |a|), b + Zeros(length - |b|);
    assert x[|b| - 1] == y[|b| - 1] && x[|a| - 1] == y[|a| - 1];
    assert a == x[..|a|] && b == y[..|b|];
  }

  // ----- array indexes

  /** The value is this index. */
  predicate IsIndex(d: Decimal, k: nat) {
    Value(d) == k as real && k < MAX_INDEX
  }

  lemma {:induction false} FractionIsNoIndex(d: Decimal, k: nat)
    requires Canonical(d) && d.scale > 0
    ensures Value(d) != k as real
  {
    MagnitudeBounds(d);
    ScaledWhole(DigitsValue(d.digits), k, d.scale);
    assert d.digits[|d.digits| - 1] != 0;
    assert Shifted(k, d.scale) == 10 * Shifted(k, d.scale - 1);
    assert DigitsValue(d.digits) % 10 == d.digits[|d.digits| - 1];
  }

  lemma {:induction false} ScaledWhole(v: nat, k: nat, n: nat)
    ensures Scaled(v, -(n as int)) == k as real ==> v == Shifted(k, n)
  {
    var e: int := -(n as int);
    ScaledShifted(k, n, e);
    ScaledMonotone(v, Shifted(k, n), e);
    ScaledMonotone(Shifted(k, n), v, e);
  }

  lemma {:induction false} TenToTwenty()
    ensures Scaled(1, 20) > MAX_INDEX as real
  {
    assert Shifted(1, 5) == 100_000;
    assert Shifted(100_000, 5) == 10_000_000_000;
    assert Shifted(10_000_000_000, 5) == 1_000_000_000_000_000;
    assert Shifted(1_000_000_000_000_000, 5) == 100_000_000_000_000_000_000;
    ScaledShifted(1_000_000_000_000_000, 5, 0);
    ScaledShifted(10_000_000_000, 5, 5);
    ScaledShifted(100_000, 5, 10);
    ScaledShifted(1, 5, 15);
  }

  /** Twenty-one digits are more than any index. */
  lemma {:induction false} TooManyDigits(d: Decimal, k: nat)
    requires Canonical(d) && !d.negative && |d.digits| - d.scale > 20
    ensures !IsIndex(d, k)
  {
    MagnitudeBounds(d);
    TenToTwenty();
    ScaledGrows(1, 20, Order(d) - 1);
  }

  lemma {:induction false} PrefixIsLess(digits: seq<Figure>, i: nat)
    requires i <= |digits|
    ensures DigitsValue(digits[..i]) <= DigitsValue(digits)
    decreases |digits|
  {
    if i == |digits| {
      assert digits[..i] == digits;
    } else {
      assert digits[..|digits| - 1][..i] == digits[..i];
      PrefixIsLess(digits[..|digits| - 1], i);
    }
  }

  lemma {:induction false} WholeValue(d: Decimal)
    requires !d.negative && d.scale <= 0
    ensures Value(d) == DigitsValue(d.digits + Zeros(-d.scale)) as real
  {
    ZerosShift(d.digits, -d.scale);
    ScaledShifted(DigitsValue(d.digits), -d.scale, 0);
  }

  /** The index by its digits: no sign, no fraction, and no overflow. */
  function IndexOf(d: Decimal): Option<nat> {
    if d.negative || d.scale > 0 || |d.digits| - d.scale > 20 then None
    else
      var value := DigitsValue(d.digits + Zeros(-d.scale));
      if value < MAX_INDEX then Some(value) else None
  }

  /** The index that a number is, if it is one that fits. */
  lemma {:induction false} IndexIsExact(d: Decimal, k: nat)
    requires Canonical(d)
    ensures IndexOf(d) == Some(k) <==> Value(d) == k as real && k < 0x1_0000_0000_0000_0000
  {
    if d.negative {
      MagnitudeBounds(d);
    } else if d.scale > 0 {
      FractionIsNoIndex(d, k);
    } else if |d.digits| - d.scale > 20 {
      TooManyDigits(d, k);
    } else {
      WholeValue(d);
    }
  }

  method IntegralIndex(d: Decimal) returns (r: Option<nat>)
    requires Canonical(d)
    ensures r == IndexOf(d)
    ensures forall k: nat :: IsIndex(d, k) <==> r == Some(k)
  {
    forall k: nat ensures IsIndex(d, k) <==> IndexOf(d) == Some(k) { IndexIsExact(d, k); }
    if d.negative || d.scale > 0 { return None; }
    var zeros := -d.scale;
    if |d.digits| + zeros > 20 { return None; }
    r := FoldDigits(d.digits + Zeros(zeros));
  }

  /** Multiplies and adds digit by digit, and stops where the index type overflows. */
  method FoldDigits(digits: seq<Figure>) returns (r: Option<nat>)
    ensures r == if DigitsValue(digits) < MAX_INDEX then Some(DigitsValue(digits)) else None
  {
    var index := 0;
    var i := 0;
    while i < |digits|
      invariant i <= |digits| && index == DigitsValue(digits[..i]) < MAX_INDEX
    {
      assert digits[..i + 1][..i] == digits[..i];
      PrefixIsLess(digits, i + 1);
      if index * 10 >= MAX_INDEX || index * 10 + digits[i] >= MAX_INDEX {
        return None;
      }
      index := index * 10 + digits[i];
      i := i + 1;
    }
    assert digits[..i] == digits;
    r := Some(index);
  }

  // ----- number texts

  /** The parts of a number text. */
  datatype Parts = Parts(negative: bool, integer: string, fraction: string, exponent: int)

  /** The first position of one of the characters; the length if there is none. */
  function PositionOf(s: string, chars: set<char>): (n: nat)
    ensures n <= |s|
  {
    if s == [] || s[0] in chars then 0 else 1 + PositionOf(s[1..], chars)
  }

  function Unsigned(s: string): string {
    if s != [] && (s[0] == '-' || s[0] == '+') then s[1..] else s
  }

  function ParseExponent(s: string): Option<int> {
    var digits := Unsigned(s);
    if digits == [] || !AllDigits(digits) then None
    else
      var value: int := DigitsValue(DigitsOf(digits));
      Some(if s[0] == '-' then -value else value)
  }

  function SplitNumber(source: string): Option<Parts> {
    var e := PositionOf(source, {'e', 'E'});
    var exponent := if e == |source| then Some(0) else ParseExponent(source[e + 1..]);
    var mantissa := source[..e];
    var unsigned := Unsigned(mantissa);
    var point := PositionOf(unsigned, {'.'});
    var integer := unsigned[..point];
    var fraction := if point == |unsigned| then "" else unsigned[point + 1..];
    if exponent.None? || integer == [] || !AllDigits(integer) || !AllDigits(fraction) then None
    else Some(Parts(mantissa != [] && mantissa[0] == '-', integer, fraction, exponent.value))
  }

  predicate DigitParts(p: Parts) {
    p.integer != [] && AllDigits(p.integer) && AllDigits(p.fraction)
  }

  lemma {:induction false} SplitHasDigits(source: string)
    ensures SplitNumber(source).Some? ==> DigitParts(SplitNumber(source).value)
  {}

  /** The value that a number text denotes. */
  function TextValue(p: Parts): real
    requires DigitParts(p)
  {
    var magnitude := Scaled(DigitsValue(DigitsOf(p.integer + p.fraction)), p.exponent - |p.fraction|);
    if p.negative then -magnitude else magnitude
  }

  /** Exponents and lengths that keep the 64-bit arithmetic exact. */
  predicate ModerateText(p: Parts) {
    -0x3FFF_FFFF_FFFF_FFFF <= p.exponent <= 0x3FFF_FFFF_FFFF_FFFF && |p.integer| + |p.fraction| <= 0x3FFF_FFFF_FFFF_FFFF
  }

  function LeadingZeros(digits: seq<Figure>): (n: nat)
    ensures n <= |digits| && (n < |digits| ==> digits[n] != 0) && forall i | 0 <= i < n :: digits[i] == 0
  {
    if digits == [] || digits[0] != 0 then 0 else 1 + LeadingZeros(digits[1..])
  }

  /** Drops trailing zeros, adjusting the scale. */
  function Stripped(d: Decimal): Decimal
    decreases |d.digits|
  {
    if |d.digits| > 1 && d.digits[|d.digits| - 1] == 0 then
      Stripped(d.(digits := d.digits[..|d.digits| - 1], scale := Clamp(d.scale - 1)))
    else d
  }

  function FromParts(p: Parts): Decimal
    requires DigitParts(p)
  {
    var digits := DigitsOf(p.integer + p.fraction);
    var zeros := LeadingZeros(digits);
    if zeros == |digits| then Decimal(false, [0], 0)
    else Stripped(Decimal(p.negative, digits[zeros..], Clamp(Clamp(|p.fraction|) - Clamp(p.exponent))))
  }

  function Parse(source: string): Option<Decimal> {
    var p := SplitNumber(source);
    if p.None? then None
    else
      SplitHasDigits(source);
      Some(FromParts(p.value))
  }

  lemma {:induction false} LeadingZerosAddNothing(digits: seq<Figure>, n: nat)
    requires n <= |digits| && forall i | 0 <= i < n :: digits[i] == 0
    ensures DigitsValue(digits[n..]) == DigitsValue(digits)
    decreases |digits|
  {
    if n < |digits| {
      LeadingZerosAddNothing(digits[..|digits| - 1], n);
      assert digits[n..][..|digits| - n - 1] == digits[..|digits| - 1][n..];
    } else if digits != [] {
      LeadingZerosAddNothing(digits[..|digits| - 1], n - 1);
      assert digits[..|digits| - 1][n - 1..] == [];
    }
  }

  lemma {:induction false} StrippedKeepsValue(d: Decimal)
    requires d.digits != [] && d.digits[0] != 0
    requires MIN_I64 + |d.digits| <= d.scale <= MAX_I64 && Moderate(d)
    ensures Canonical(Stripped(d)) && Moderate(Stripped(d)) && Value(Stripped(d)) == Value(d) && Stripped(d).negative == d.negative
    decreases |d.digits|
  {
    if |d.digits| > 1 && d.digits[|d.digits| - 1] == 0 {
      var next := d.(digits := d.digits[..|d.digits| - 1], scale := Clamp(d.scale - 1));
      StrippedKeepsValue(next);
      ScaledTen(DigitsValue(next.digits), -d.scale);
    }
  }

  lemma {:induction false} PartsAreExact(p: Parts)
    requires DigitParts(p) && ModerateText(p)
    ensures Canonical(FromParts(p)) && Moderate(FromParts(p)) && Value(FromParts(p)) == TextValue(p)
  {
    var digits := DigitsOf(p.integer + p.fraction);
    var zeros := LeadingZeros(digits);
    LeadingZerosAddNothing(digits, zeros);
    if zeros == |digits| {
      ZeroText(p, digits);
    } else {
      NonzeroText(p, digits, digits[zeros..]);
      assert digits[zeros..][0] == digits[zeros] != 0;
      StrippedKeepsValue(Decimal(p.negative, digits[zeros..], |p.fraction| - p.exponent));
    }
  }

  lemma {:induction false} ZeroText(p: Parts, digits: seq<Figure>)
    requires DigitParts(p) && digits == DigitsOf(p.integer + p.fraction) && LeadingZeros(digits) == |digits|
    requires DigitsValue(digits[|digits|..]) == DigitsValue(digits)
    ensures FromParts(p) == Decimal(false, [0], 0) && Value(FromParts(p)) == TextValue(p)
  {
    assert digits[|digits|..] == [];
    ZeroHasNoMagnitude(Decimal(false, [0], 0));
    ScaledZero(p.exponent - |p.fraction|);
  }

  lemma {:induction false} NonzeroText(p: Parts, digits: seq<Figure>, rest: seq<Figure>)
    requires DigitParts(p) && ModerateText(p) && digits == DigitsOf(p.integer + p.fraction)
    requires LeadingZeros(digits) < |digits| && rest == digits[LeadingZeros(digits)..] && DigitsValue(rest) == DigitsValue(digits)
    ensures var d := Decimal(p.negative, rest, |p.fraction| - p.exponent);
      FromParts(p) == Stripped(d) && Value(d) == TextValue(p)
  {
    var d := Decimal(p.negative, rest, |p.fraction| - p.exponent);
    NothingClamped(|p.fraction|, p.exponent);
    SameScale(d, p, digits);
  }

  lemma {:induction false} NothingClamped(length: nat, exponent: int)
    requires -0x3FFF_FFFF_FFFF_FFFF <= exponent <= 0x3FFF_FFFF_FFFF_FFFF && length <= 0x3FFF_FFFF_FFFF_FFFF
    ensures Clamp(Clamp(length) - Clamp(exponent)) == length - exponent
  {}

  lemma {:induction false} SameScale(d: Decimal, p: Parts, digits: seq<Figure>)
    requires DigitParts(p) && digits == DigitsOf(p.integer + p.fraction) && DigitsValue(d.digits) == DigitsValue(digits)
    requires d.negative == p.negative && d.scale == |p.fraction| - p.exponent
    ensures Value(d) == TextValue(p)
  {
    assert -d.scale == p.exponent - |p.fraction|;
  }

  // ----- written numbers

  /** The exponent that a number text has, zero if it has none. */
  function ExponentValue(n: JsonNumber): int
    requires Grammatical(n)
  {
    if n.exponent.None? then 0
    else
      var value := NumeralValue(n.exponent.value.digits);
      if n.exponent.value.sign.Minus? then -(value as int) else value
  }

  function FractionDigits(n: JsonNumber): string {
    if n.fraction.None? then "" else n.fraction.value
  }

  /** The value that a number text denotes: whole part and fraction, each at its power of ten. */
  function NumberValue(n: JsonNumber): real
    requires Grammatical(n)
  {
    var magnitude :=
      Scaled(NumeralValue(n.whole), ExponentValue(n))
      + Scaled(NumeralValue(FractionDigits(n)), ExponentValue(n) - |FractionDigits(n)|);
    if n.negative then -magnitude else magnitude
  }

  /** The exponents and lengths for which 64-bit arithmetic on them is exact. */
  predicate ModerateNumber(n: JsonNumber)
    requires Grammatical(n)
  {
    -0x3FFF_FFFF_FFFF_FFFF <= ExponentValue(n) <= 0x3FFF_FFFF_FFFF_FFFF
    && |n.whole| + |FractionDigits(n)| <= 0x3FFF_FFFF_FFFF_FFFF
  }

  function PartsOf(n: JsonNumber): Parts
    requires Grammatical(n)
  {
    Parts(n.negative, n.whole, FractionDigits(n), ExponentValue(n))
  }

  lemma {:induction false} PositionIs(s: string, k: nat, chars: set<char>)
    requires k <= |s| && (k < |s| ==> s[k] in chars) && forall i | 0 <= i < k :: s[i] !in chars
    ensures PositionOf(s, chars) == k
    decreases k
  {
    if k > 0 { PositionIs(s[1..], k - 1, chars); }
  }

  lemma {:induction false} UnsignedWhole(n: JsonNumber, rest: string)
    requires Grammatical(n)
    ensures Unsigned(WholeText(n) + rest) == n.whole + rest
    ensures WholeText(n) + rest != [] && ((WholeText(n) + rest)[0] == '-' <==> n.negative)
  {
    if n.negative {
      assert (WholeText(n) + rest)[1..] == n.whole + rest;
    } else {
      assert WholeText(n) == n.whole && Digit(n.whole[0]);
    }
  }

  lemma {:induction false} PointSplits(n: JsonNumber)
    requires Grammatical(n)
    ensures var unsigned := n.whole + JsonNumbers.FractionText(n);
      var point := PositionOf(unsigned, {'.'});
      unsigned[..point] == n.whole
      && (if point == |unsigned| then "" else unsigned[point + 1..]) == FractionDigits(n)
  {
    var unsigned := n.whole + JsonNumbers.FractionText(n);
    PositionIs(unsigned, |n.whole|, {'.'});
  }

  lemma {:induction false} ExponentParses(n: JsonNumber)
    requires Grammatical(n) && n.exponent.Some?
    ensures ParseExponent(ExponentText(n)[1..]) == Some(ExponentValue(n))
  {
    var x := n.exponent.value;
    assert ExponentText(n)[1..] == SignText(x.sign) + x.digits;
    SignedDigits(x.sign, x.digits);
  }

  lemma {:induction false} SignedDigits(sign: Sign, digits: string)
    requires SomeDigits(digits)
    ensures var value: int := NumeralValue(digits);
      ParseExponent(SignText(sign) + digits) == Some(if sign.Minus? then -value else value)
  {
    var text := SignText(sign) + digits;
    assert Digit(digits[0]);
    if sign.Unmarked? {
      assert text == digits;
    } else {
      assert text[0] == SignText(sign)[0] && text[1..] == digits;
    }
    assert Unsigned(text) == digits;
  }

  lemma {:induction false} MarkerSplits(n: JsonNumber)
    requires Grammatical(n)
    ensures var mantissa := WholeText(n) + JsonNumbers.FractionText(n);
      PositionOf(Written(n), {'e', 'E'}) == |mantissa| && Written(n)[..|mantissa|] == mantissa
      && Written(n)[|mantissa|..] == ExponentText(n)
  {
    var mantissa := WholeText(n) + JsonNumbers.FractionText(n);
    MantissaChars(n);
    forall i | 0 <= i < |mantissa| ensures Written(n)[i] !in {'e', 'E'} {
      assert Written(n)[i] == mantissa[i] && MantissaChar(mantissa[i]);
    }
    PositionIs(Written(n), |mantissa|, {'e', 'E'});
  }

  /** Splitting a number text gives the parts that it was written from. */
  lemma {:induction false} SplitUndoesWriting(n: JsonNumber)
    requires Grammatical(n)
    ensures SplitNumber(Written(n)) == Some(PartsOf(n))
  {
    var mantissa := WholeText(n) + JsonNumbers.FractionText(n);
    MarkerSplits(n);
    if n.exponent.Some? {
      ExponentParses(n);
      assert Written(n)[|mantissa| + 1..] == Written(n)[|mantissa|..][1..];
    }
    UnsignedWhole(n, JsonNumbers.FractionText(n));
    PointSplits(n);
    SplitIs(Written(n), mantissa, n.whole + JsonNumbers.FractionText(n), n.whole, FractionDigits(n), ExponentValue(n));
  }

  lemma {:induction false} SplitIs(source: string, mantissa: string, unsigned: string, integer: string, fraction: string, exponent: int)
    requires var e := PositionOf(source, {'e', 'E'});
      source[..e] == mantissa && Some(exponent) == if e == |source| then Some(0) else ParseExponent(source[e + 1..])
    requires mantissa != [] && unsigned == Unsigned(mantissa)
    requires var point := PositionOf(unsigned, {'.'});
      unsigned[..point] == integer && fraction == if point == |unsigned| then "" else unsigned[point + 1..]
    requires integer != [] && AllDigits(integer) && AllDigits(fraction)
    ensures SplitNumber(source) == Some(Parts(mantissa[0] == '-', integer, fraction, exponent))
  {}

  lemma {:induction false} ScaledSum(v: nat, w: nat, e: int)
    ensures Scaled(v + w, e) == Scaled(v, e) + Scaled(w, e)
    decreases if e < 0 then -e else e
  {
    if e > 0 { ScaledSum(v, w, e - 1); } else if e < 0 { ScaledSum(v, w, e + 1); }
  }

  /** The digits of two texts in a row. */
  lemma {:induction false} JoinedDigits(a: seq<Figure>, b: seq<Figure>)
    ensures DigitsValue(a + b) == Shifted(DigitsValue(a), |b|) + DigitsValue(b)
    decreases |b|
  {
    if b == [] {
      assert a + b == a;
    } else {
      var all := a + b;
      assert all[..|all| - 1] == a + b[..|b| - 1];
      JoinedDigits(a, b[..|b| - 1]);
    }
  }

  lemma {:induction false} SameTextValue(n: JsonNumber)
    requires Grammatical(n)
    ensures DigitParts(PartsOf(n)) && TextValue(PartsOf(n)) == NumberValue(n)
  {
    var a, b := DigitsOf(n.whole), DigitsOf(FractionDigits(n));
    var e := ExponentValue(n) - |b|;
    assert DigitsOf(n.whole + FractionDigits(n)) == a + b;
    JoinedDigits(a, b);
    ScaledSum(Shifted(DigitsValue(a), |b|), DigitsValue(b), e);
    ScaledShifted(DigitsValue(a), |b|, e);
  }

  /** Parsing a number text gives the canonical decimal of the value that it denotes. */
  lemma {:induction false} ParseIsExact(n: JsonNumber)
    requires Grammatical(n) && ModerateNumber(n)
    ensures var d := Parse(Written(n));
      d.Some? && Canonical(d.value) && Moderate(d.value) && Value(d.value) == NumberValue(n)
  {
    SplitUndoesWriting(n);
    SameTextValue(n);
    PartsAreExact(PartsOf(n));
  }

  /** Two number texts parse to equal decimals exactly when they denote equal values, and their decimals
      are ordered like the values. */
  lemma {:induction false} TextsCompareExactly(m: JsonNumber, n: JsonNumber)
    requires Grammatical(m) && Grammatical(n) && ModerateNumber(m) && ModerateNumber(n)
    ensures var a, b := Parse(Written(m)), Parse(Written(n));
      a.Some? && b.Some?
      && (a == b <==> NumberValue(m) == NumberValue(n))
      && Cmp(a.value, b.value) == CompareReals(NumberValue(m), NumberValue(n))
  {
    ParseIsExact(m);
    ParseIsExact(n);
    EqualityIsExact(Parse(Written(m)).value, Parse(Written(n)).value);
    CmpIsExact(Parse(Written(m)).value, Parse(Written(n)).value);
  }

  /** The buffer loops of parsing. */
  method ParseDecimal(source: string) returns (r: Option<Decimal>)
    ensures r == Parse(source)
  {
    var p := SplitNumber(source);
    if p.None? {
      return None;
    }
    SplitHasDigits(source);
    var d := BuildDecimal(p.value);
    r := Some(d);
  }

  method BuildDecimal(p: Parts) returns (d: Decimal)
    requires DigitParts(p)
    ensures d == FromParts(p)
  {
    var digits := DigitsOf(p.integer + p.fraction);
    var first := LeadingZeros(digits);
    if first == |digits| {
      return Decimal(false, [0], 0);
    }
    var scale := Clamp(Clamp(|p.fraction|) - Clamp(p.exponent));
    digits, scale := StripZeros(p.negative, digits[first..], scale);
    d := Decimal(p.negative, digits, scale);
  }

  /** Pops trailing zeros. */
  method StripZeros(negative: bool, start: seq<Figure>, startScale: int) returns (digits: seq<Figure>, scale: int)
    requires start != []
    ensures Decimal(negative, digits, scale) == Stripped(Decimal(negative, start, startScale))
  {
    digits, scale := start, startScale;
    while |digits| > 1 && digits[|digits| - 1] == 0
      invariant digits != []
      invariant Stripped(Decimal(negative, start, startScale)) == Stripped(Decimal(negative, digits, scale))
      decreases |digits|
    {
      digits := digits[..|digits| - 1];
      scale := Clamp(scale - 1);
    }
  }
}
