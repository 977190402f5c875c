/**
 The texts of JSON numbers (RFC 8259, section 6), by a writer that knows neither the lexer nor the
 decimal parser.
 */
module JsonNumbers {
  import opened Text

  datatype Sign = Unmarked | Plus | Minus

  datatype Exponent = Exponent(marker: char, sign: Sign, digits: string)

  datatype JsonNumber = JsonNumber(negative: bool, whole: string, fraction: Option<string>, exponent: Option<Exponent>)

  predicate SomeDigits(s: string) {
    s != [] && AllDigits(s)
  }

  /** No leading zero, and digits after a decimal point and in an exponent. */
  predicate Grammatical(n: JsonNumber) {
    SomeDigits(n.whole) && (n.whole[0] == '0' ==> |n.whole| == 1)
    && (n.fraction.Some? ==> SomeDigits(n.fraction.value))
    && (n.exponent.Some? ==> ExponentMarker(n.exponent.value.marker) && SomeDigits(n.exponent.value.digits))
  }

  predicate ExponentMarker(c: char) {
    c == 'e' || c == 'E'
  }

  function SignText(s: Sign): string {
    match s
    case Unmarked => ""
    case Plus => "+"
    case Minus => "-"
  }

  function WholeText(n: JsonNumber): string {
    (if n.negative then "-" else "") + n.whole
  }

  function FractionText(n: JsonNumber): string {
    if n.fraction.None? then "" else "." + n.fraction.value
  }

  function ExponentText(n: JsonNumber): string {
    if n.exponent.None? then "" else [n.exponent.value.marker] + SignText(n.exponent.value.sign) + n.exponent.value.digits
  }

  function Written(n: JsonNumber): (text: string) {
    WholeText(n) + FractionText(n) + ExponentText(n)
  }

  /** The text of a number is not followed by more of one: no longer number text stands there. */
  ghost predicate Longest(source: string, i: nat, n: JsonNumber) {
    Grammatical(n) && TextAt(source, i, Written(n))
    && forall m | Grammatical(m) && TextAt(source, i, Written(m)) :: |Written(m)| <= |Written(n)|
  }

  /** The longest number text is followed by the start of a part that it could have but that has no
      digits: an exponent marker, or a decimal point. */
  predicate Unfinished(source: string, end: nat, n: JsonNumber) {
    end < |source| && n.exponent.None? && (ExponentMarker(source[end]) || (n.fraction.None? && source[end] == '.'))
  }

  // ----- the characters of the parts

  predicate MantissaChar(c: char) {
    Digit(c) || c == '-' || c == '.'
  }

  lemma {:induction false} MantissaChars(n: JsonNumber)
    requires Grammatical(n)
    ensures forall i | 0 <= i < |WholeText(n) + FractionText(n)| :: MantissaChar((WholeText(n) + FractionText(n))[i])
  {
    assert forall i | 0 <= i < |WholeText(n)| :: MantissaChar(WholeText(n)[i]);
    assert forall i | 0 <= i < |FractionText(n)| :: MantissaChar(FractionText(n)[i]);
  }

  /** The texts of the parts, each after the one before. */
  lemma {:induction false} PartsAt(source: string, i: nat, n: JsonNumber)
    ensures TextAt(source, i, Written(n)) <==>
      TextAt(source, i, WholeText(n)) && TextAt(source, i + |WholeText(n)|, FractionText(n))
      && TextAt(source, i + |WholeText(n)| + |FractionText(n)|, ExponentText(n))
  {
    TextAtSplits(source, i, WholeText(n) + FractionText(n), ExponentText(n));
    TextAtSplits(source, i, WholeText(n), FractionText(n));
  }
}
