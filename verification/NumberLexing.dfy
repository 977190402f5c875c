/** The lexer takes exactly the longest number text, by the grammar of RFC 8259, section 6. */
module NumberLexing {
  import opened Text
  import opened Expressions
  import opened JsonNumbers
  import opened Lexer

  predicate NumberStart(source: string, i: nat) {
    i < |source| && (Digit(source[i]) || (source[i] == '-' && i + 1 < |source| && Digit(source[i + 1])))
  }

  // ----- the number that the lexer scans

  function SignAt(source: string, i: nat): Sign {
    if Has(source, i, '+') then Plus else if Has(source, i, '-') then Minus else Unmarked
  }

  function FractionAt(source: string, i: nat): Option<string>
    requires i <= |source|
  {
    if Has(source, i, '.') && DigitsEnd(source, i + 1) > i + 1 then Some(source[i + 1..DigitsEnd(source, i + 1)]) else None
  }

  function ExponentAt(source: string, i: nat): Option<Exponent>
    requires i <= |source|
  {
    if !(Has(source, i, 'e') || Has(source, i, 'E')) then None
    else
      var sign := SignAt(source, i + 1);
      var start := i + 1 + |SignText(sign)|;
      if DigitsEnd(source, start) == start then None
      else Some(Exponent(source[i], sign, source[start..DigitsEnd(source, start)]))
  }

  function NumberHere(source: string, i: nat): JsonNumber
    requires NumberStart(source, i)
  {
    var negative := source[i] == '-';
    var whole := WholeEnd(source, i);
    var fraction := FractionAt(source, whole);
    var next := if fraction.Some? then whole + 1 + |fraction.value| else whole;
    assert fraction.Some? ==> next == DigitsEnd(source, whole + 1);
    JsonNumber(negative, source[if negative then i + 1 else i..whole], fraction, ExponentAt(source, next))
  }

  /** The parts that the lexer scans, with the end of the whole part. */
  ghost predicate Scans(source: string, i: nat, whole: nat, n: JsonNumber) {
    i < whole <= |source| && |WholeText(n)| == whole - i && TextAt(source, i, WholeText(n))
    && SomeDigits(n.whole) && (n.whole[0] == '0' ==> |n.whole| == 1)
    && n.fraction == FractionAt(source, whole) && whole + |FractionText(n)| <= |source|
    && n.exponent == ExponentAt(source, whole + |FractionText(n)|)
  }

  lemma {:induction false} HereScans(source: string, i: nat)
    requires NumberStart(source, i)
    ensures Scans(source, i, WholeEnd(source, i), NumberHere(source, i))
  {
    var n := NumberHere(source, i);
    WholeIsScanned(source, i, n);
    if n.fraction.Some? { FractionEnds(source, WholeEnd(source, i), n); }
  }

  lemma {:induction false} WholeIsScanned(source: string, i: nat, n: JsonNumber)
    requires NumberStart(source, i) && n.negative == (source[i] == '-')
    requires n.whole == source[if n.negative then i + 1 else i..WholeEnd(source, i)]
    ensures |WholeText(n)| == WholeEnd(source, i) - i && TextAt(source, i, WholeText(n))
    ensures SomeDigits(n.whole) && (n.whole[0] == '0' ==> |n.whole| == 1)
  {
    assert source[i..WholeEnd(source, i)] == WholeText(n);
  }

  lemma {:induction false} FractionEnds(source: string, i: nat, n: JsonNumber)
    requires i <= |source| && n.fraction == FractionAt(source, i) && n.fraction.Some?
    ensures i + |FractionText(n)| == DigitsEnd(source, i + 1) == i + 1 + |n.fraction.value|
  {}

  lemma {:induction false} ScannedIsWritten(source: string, i: nat, whole: nat, n: JsonNumber)
    requires Scans(source, i, whole, n)
    ensures Grammatical(n) && TextAt(source, i, Written(n))
  {
    FractionIsWritten(source, whole, n);
    ExponentIsWritten(source, whole + |FractionText(n)|, n);
    assert i + |WholeText(n)| == whole;
    PartsAt(source, i, n);
  }

  /** What the lexer scans is a number text of the source. */
  lemma {:induction false} HereIsWritten(source: string, i: nat)
    requires NumberStart(source, i)
    ensures Grammatical(NumberHere(source, i)) && TextAt(source, i, Written(NumberHere(source, i)))
  {
    HereScans(source, i);
    ScannedIsWritten(source, i, WholeEnd(source, i), NumberHere(source, i));
  }

  lemma {:induction false} FractionIsWritten(source: string, i: nat, n: JsonNumber)
    requires i <= |source| && n.fraction == FractionAt(source, i)
    ensures TextAt(source, i, FractionText(n)) && (n.fraction.Some? ==> SomeDigits(n.fraction.value))
  {
    if n.fraction.Some? {
      assert source[i..DigitsEnd(source, i + 1)] == "." + n.fraction.value;
    }
  }

  lemma {:induction false} ExponentIsWritten(source: string, i: nat, n: JsonNumber)
    requires i <= |source| && n.exponent == ExponentAt(source, i)
    ensures TextAt(source, i, ExponentText(n))
    ensures n.exponent.Some? ==> ExponentMarker(n.exponent.value.marker) && SomeDigits(n.exponent.value.digits)
  {
    if n.exponent.Some? {
      var x := n.exponent.value;
      var start := i + 1 + |SignText(x.sign)|;
      assert ExponentMarker(x.marker) && x.digits == source[start..DigitsEnd(source, start)];
      assert SignText(x.sign) == source[i + 1..start];
      assert source[i..DigitsEnd(source, start)] == [x.marker] + SignText(x.sign) + x.digits;
    }
  }

  // ----- no number text is longer

  /** Digits in the source end where a run of digits ends, or are followed by another digit. */
  lemma {:induction false} DigitsReach(source: string, i: nat, digits: string)
    requires AllDigits(digits) && TextAt(source, i, digits)
    ensures i + |digits| <= DigitsEnd(source, i)
    ensures i + |digits| < DigitsEnd(source, i) ==> Digit(source[i + |digits|])
    ensures i + |digits| == DigitsEnd(source, i) ==> digits == source[i..DigitsEnd(source, i)]
  {
    var end := DigitsEnd(source, i);
    if end < i + |digits| { CharAt(source, i, digits, end - i); }
  }

  /** The texts after the digits of a number do not start with a digit. */
  lemma {:induction false} NoDigitAfter(source: string, i: nat, n: JsonNumber)
    requires Grammatical(n) && i < |source| && Digit(source[i])
    ensures TextAt(source, i, ExponentText(n)) ==> n.exponent.None?
    ensures TextAt(source, i, FractionText(n)) ==> n.fraction.None?
  {
    if n.exponent.Some? && TextAt(source, i, ExponentText(n)) { CharAt(source, i, ExponentText(n), 0); }
    if n.fraction.Some? && TextAt(source, i, FractionText(n)) { CharAt(source, i, FractionText(n), 0); }
  }

  /** A number text of the source is the scanned one, or it is shorter. */
  lemma {:induction false} HereOrShorter(source: string, i: nat, m: JsonNumber)
    requires Grammatical(m) && TextAt(source, i, Written(m))
    ensures NumberStart(source, i) && (m == NumberHere(source, i) || |Written(m)| < |Written(NumberHere(source, i))|)
  {
    PartsAt(source, i, m);
    WholeReaches(source, i, m);
    HereScans(source, i);
    ScannedOrShorter(source, i, WholeEnd(source, i), m, NumberHere(source, i));
    BehindIsShorter(m, NumberHere(source, i));
  }

  lemma {:induction false} ScannedOrShorter(source: string, i: nat, whole: nat, m: JsonNumber, n: JsonNumber)
    requires Grammatical(m) && Scans(source, i, whole, n)
    requires TextAt(source, i + |WholeText(m)|, FractionText(m))
    requires TextAt(source, i + |WholeText(m)| + |FractionText(m)|, ExponentText(m))
    requires i + |WholeText(m)| <= whole
    requires i + |WholeText(m)| < whole ==> Digit(source[i + |WholeText(m)|])
    requires i + |WholeText(m)| == whole ==> m.negative == n.negative && m.whole == n.whole
    ensures Behind(m, n)
  {
    var end := i + |WholeText(m)|;
    if end < whole {
      NoDigitAfter(source, end, m);
      assert m.fraction.None? && |FractionText(m)| == 0;
      ShorterWhole(source, i, whole, m, n);
    } else {
      RestReaches(source, whole, m, n);
    }
  }

  lemma {:induction false} ShorterWhole(source: string, i: nat, whole: nat, m: JsonNumber, n: JsonNumber)
    requires Scans(source, i, whole, n) && i + |WholeText(m)| < whole && m.fraction.None? && m.exponent.None?
    ensures Behind(m, n)
  {}

  /** The first number ends, after the same whole part, where the second does or before. */
  lemma {:induction false} RestReaches(source: string, i: nat, m: JsonNumber, n: JsonNumber)
    requires Grammatical(m) && i <= |source| && m.negative == n.negative && m.whole == n.whole
    requires n.fraction == FractionAt(source, i) && i + |FractionText(n)| <= |source|
    requires n.exponent == ExponentAt(source, i + |FractionText(n)|)
    requires TextAt(source, i, FractionText(m)) && TextAt(source, i + |FractionText(m)|, ExponentText(m))
    ensures Behind(m, n)
  {
    FractionReaches(source, i, m, n);
    if m.fraction == n.fraction { ExponentReaches(source, i + |FractionText(n)|, m, n); }
  }

  /** The first number is the second, or it ends in a part that is longer in the second. */
  predicate Behind(m: JsonNumber, n: JsonNumber) {
    if |WholeText(m)| < |WholeText(n)| then m.fraction.None? && m.exponent.None?
    else
      m.negative == n.negative && m.whole == n.whole
      && if m.fraction == n.fraction then m.exponent == n.exponent || |ExponentText(m)| < |ExponentText(n)|
         else |FractionText(m)| < |FractionText(n)| && m.exponent.None?
  }

  lemma {:induction false} BehindIsShorter(m: JsonNumber, n: JsonNumber)
    requires Behind(m, n)
    ensures m == n || |Written(m)| < |Written(n)|
  {}

  lemma {:induction false} WholeReaches(source: string, i: nat, m: JsonNumber)
    requires Grammatical(m) && TextAt(source, i, WholeText(m))
    ensures NumberStart(source, i) && m.negative == (source[i] == '-')
    ensures i + |WholeText(m)| <= WholeEnd(source, i)
    ensures i + |WholeText(m)| < WholeEnd(source, i) ==> Digit(source[i + |WholeText(m)|])
    ensures i + |WholeText(m)| == WholeEnd(source, i) ==> m.whole == source[if m.negative then i + 1 else i..WholeEnd(source, i)]
  {
    TextAtSplits(source, i, if m.negative then "-" else "", m.whole);
    var start := if m.negative then i + 1 else i;
    CharAt(source, i, WholeText(m), 0);
    CharAt(source, start, m.whole, 0);
    DigitsReach(source, start, m.whole);
  }

  /** The fractions agree, or the first is followed by nothing and the text is shorter. */
  lemma {:induction false} FractionReaches(source: string, i: nat, m: JsonNumber, n: JsonNumber)
    requires Grammatical(m) && i <= |source| && n.fraction == FractionAt(source, i)
    requires TextAt(source, i, FractionText(m)) && TextAt(source, i + |FractionText(m)|, ExponentText(m))
    ensures m.fraction == n.fraction || (|FractionText(m)| < |FractionText(n)| && m.exponent.None?)
  {
    if m.fraction.Some? {
      var digits := m.fraction.value;
      TextAtSplits(source, i, ".", digits);
      CharAt(source, i, FractionText(m), 0);
      DigitsReach(source, i + 1, digits);
      if i + 1 + |digits| < DigitsEnd(source, i + 1) { NoDigitAfter(source, i + 1 + |digits|, m); }
    } else if n.fraction.Some? && m.exponent.Some? {
      CharAt(source, i, ExponentText(m), 0);
    }
  }

  lemma {:induction false} ExponentReaches(source: string, i: nat, m: JsonNumber, n: JsonNumber)
    requires Grammatical(m) && i <= |source| && n.exponent == ExponentAt(source, i)
    requires TextAt(source, i, ExponentText(m))
    ensures m.exponent == n.exponent || |ExponentText(m)| < |ExponentText(n)|
  {
    if m.exponent.Some? {
      var x := m.exponent.value;
      TextAtSplits(source, i, [x.marker] + SignText(x.sign), x.digits);
      TextAtSplits(source, i, [x.marker], SignText(x.sign));
      CharAt(source, i, ExponentText(m), 0);
      var start := i + 1 + |SignText(x.sign)|;
      CharAt(source, start, x.digits, 0);
      if x.sign != Unmarked { CharAt(source, i + 1, SignText(x.sign), 0); }
      assert SignAt(source, i + 1) == x.sign;
      DigitsReach(source, start, x.digits);
    }
  }

  /** A longest number text is the scanned one, and the scanned one is a longest. */
  lemma {:induction false} LongestIsHere(source: string, i: nat, n: JsonNumber)
    ensures Longest(source, i, n) <==> NumberStart(source, i) && n == NumberHere(source, i)
  {
    if Longest(source, i, n) {
      HereOrShorter(source, i, n);
      HereIsWritten(source, i);
    }
    if NumberStart(source, i) && n == NumberHere(source, i) {
      HereIsWritten(source, i);
      forall m | Grammatical(m) && TextAt(source, i, Written(m)) ensures |Written(m)| <= |Written(n)| {
        HereOrShorter(source, i, m);
      }
    }
  }

  /** Every start of a number has exactly one longest number text, and nothing else has a number text. */
  lemma {:induction false} LongestExists(source: string, i: nat)
    ensures NumberStart(source, i) <==> exists n :: Longest(source, i, n)
    ensures forall m, n | Longest(source, i, m) && Longest(source, i, n) :: m == n
  {
    forall n ensures Longest(source, i, n) <==> NumberStart(source, i) && n == NumberHere(source, i) {
      LongestIsHere(source, i, n);
    }
    if NumberStart(source, i) { assert Longest(source, i, NumberHere(source, i)); }
  }

  /** The token of a number text and the position after it. */
  function NumberTaken(text: string, next: nat, finite: string -> bool): Taken {
    var number := NumberOf(text, finite);
    if number.None? then Rejected else Took(NumberToken(number.value), next)
  }

  /** The lexer takes the longest number text, and rejects it exactly when it is followed by a part
      without digits, or when the number is not finite. */
  lemma {:induction false} TakesLongestNumber(source: string, i: nat, n: JsonNumber, finite: string -> bool)
    requires Longest(source, i, n)
    ensures NumberStart(source, i)
    ensures var end := i + |Written(n)|;
      NumberAt(source, i, finite) == if Unfinished(source, end, n) then Rejected else NumberTaken(Written(n), end, finite)
  {
    LongestIsHere(source, i, n);
    HereEnds(source, i);
    EndsTaken(source, i, WholeEnd(source, i), n, finite);
  }

  /** The text of the number stands at the position, and the lexer's steps end with it or fail. */
  ghost predicate EndsWith(source: string, i: nat, whole: nat, n: JsonNumber)
    requires whole <= |source|
  {
    var end := i + |Written(n)|;
    end <= |source| && source[i..end] == Written(n)
    && ScanEnd(source, whole) == if Unfinished(source, end, n) then None else Some(end)
  }

  lemma {:induction false} HereEnds(source: string, i: nat)
    requires NumberStart(source, i)
    ensures EndsWith(source, i, WholeEnd(source, i), NumberHere(source, i))
  {
    HereScans(source, i);
    ScannedEnds(source, i, WholeEnd(source, i), NumberHere(source, i));
  }

  lemma {:induction false} EndsTaken(source: string, i: nat, whole: nat, n: JsonNumber, finite: string -> bool)
    requires NumberStart(source, i) && whole == WholeEnd(source, i) && EndsWith(source, i, whole, n)
    ensures var end := i + |Written(n)|;
      NumberAt(source, i, finite) == if Unfinished(source, end, n) then Rejected else NumberTaken(Written(n), end, finite)
  {
    var end := i + |Written(n)|;
    NumberAtEnds(source, i, if Unfinished(source, end, n) then None else Some(end), Written(n), finite);
  }

  lemma {:induction false} ScannedEnds(source: string, i: nat, whole: nat, n: JsonNumber)
    requires Scans(source, i, whole, n)
    ensures EndsWith(source, i, whole, n)
  {
    ScannedIsWritten(source, i, whole, n);
    WrittenEnds(i, whole, n);
    ScannedEnd(source, whole, n);
  }

  /** Where the lexer's two steps after the whole part end. */
  function ScanEnd(source: string, i: nat): Option<nat>
    requires i <= |source|
  {
    var fraction := FractionEnd(source, i);
    if fraction.None? then None else ExponentEnd(source, fraction.value)
  }

  lemma {:induction false} ScannedEnd(source: string, i: nat, n: JsonNumber)
    requires i <= |source| && n.fraction == FractionAt(source, i) && i + |FractionText(n)| <= |source|
    requires n.exponent == ExponentAt(source, i + |FractionText(n)|)
    ensures var end := i + |FractionText(n)| + |ExponentText(n)|;
      ScanEnd(source, i) == if Unfinished(source, end, n) then None else Some(end)
  {
    ScannedFraction(source, i, n);
    if n.fraction.None? && Has(source, i, '.') {
      ScannedPoint(source, i, n);
    } else {
      ScannedExponent(source, i + |FractionText(n)|, n);
    }
  }

  lemma {:induction false} NumberAtEnds(source: string, i: nat, end: Option<nat>, text: string, finite: string -> bool)
    requires NumberStart(source, i) && ScanEnd(source, WholeEnd(source, i)) == end
    requires end.Some? ==> i <= end.value <= |source| && source[i..end.value] == text
    ensures NumberAt(source, i, finite) == if end.None? then Rejected else NumberTaken(text, end.value, finite)
  {}

  lemma {:induction false} WrittenEnds(i: nat, whole: nat, n: JsonNumber)
    requires |WholeText(n)| == whole - i
    ensures i + |Written(n)| == whole + |FractionText(n)| + |ExponentText(n)|
  {}

  /** A decimal point without digits is no exponent either. */
  lemma {:induction false} ScannedPoint(source: string, i: nat, n: JsonNumber)
    requires i <= |source| && n.fraction.None? && Has(source, i, '.') && n.exponent == ExponentAt(source, i)
    ensures n.exponent.None?
  {}

  lemma {:induction false} ScannedFraction(source: string, i: nat, n: JsonNumber)
    requires i <= |source| && n.fraction == FractionAt(source, i)
    ensures n.fraction.Some? ==> FractionEnd(source, i) == Some(i + |FractionText(n)|)
    ensures n.fraction.None? ==> FractionEnd(source, i) == if Has(source, i, '.') then None else Some(i)
  {}

  lemma {:induction false} ScannedExponent(source: string, i: nat, n: JsonNumber)
    requires i <= |source| && n.exponent == ExponentAt(source, i)
    ensures n.exponent.Some? ==> ExponentEnd(source, i) == Some(i + |ExponentText(n)|)
    ensures n.exponent.None? ==> ExponentEnd(source, i) == if Has(source, i, 'e') || Has(source, i, 'E') then None else Some(i)
  {}

  /** Different numbers have different texts. */
  lemma {:induction false} WrittenInjective(m: JsonNumber, n: JsonNumber)
    requires Grammatical(m) && Grammatical(n) && Written(m) == Written(n)
    ensures m == n
  {
    var text := Written(m);
    assert text[0..|text|] == text;
    HereOrShorter(text, 0, m);
    HereOrShorter(text, 0, n);
    HereIsWritten(text, 0);
  }
}
