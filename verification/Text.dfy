/** Options, words and decimal numerals shared by the other modules. */
module Text {
  datatype Option<+T> = None | Some(value: T)

  const DIGITS := "0123456789"

  /** The number of array indexes. */
  const MAX_INDEX: nat := 0x1_0000_0000_0000_0000

  // ----- texts inside texts

  /** The source has this text at a position. */
  predicate TextAt(source: string, i: nat, text: string) {
    i + |text| <= |source| && source[i..i + |text|] == text
  }

  lemma {:induction false} CharAt(source: string, i: nat, text: string, k: nat)
    requires TextAt(source, i, text) && k < |text|
    ensures source[i + k] == text[k]
  {
    assert source[i..i + |text|][k] == source[i + k];
  }

  lemma {:induction false} TextAtSplits(source: string, i: nat, first: string, rest: string)
    ensures TextAt(source, i, first + rest) <==> TextAt(source, i, first) && TextAt(source, i + |first|, rest)
  {
    var n, m := i + |first|, i + |first| + |rest|;
    if m <= |source| {
      assert source[i..m] == source[i..n] + source[n..m];
      assert (first + rest)[..|first|] == first && (first + rest)[|first|..] == rest;
      assert source[i..m][..|first|] == source[i..n] && source[i..m][|first|..] == source[n..m];
    }
  }

  // ----- words

  predicate Digit(c: char) {
    '0' <= c <= '9'
  }

  predicate WordStart(c: char) {
    'a' <= c <= 'z' || 'A' <= c <= 'Z' || c == '_'
  }

  predicate WordChar(c: char) {
    WordStart(c) || Digit(c)
  }

  /** A field name or an identifier. */
  predicate Word(name: string) {
    name != [] && WordStart(name[0]) && forall i | 0 <= i < |name| :: WordChar(name[i])
  }

  // ----- numerals

  /** The decimal numeral of a natural number, without leading zeros. */
  function Numeral(n: nat): (text: string)
    ensures text != []
  {
    if n < 10 then [DIGITS[n]] else Numeral(n / 10) + [DIGITS[n % 10]]
  }

  predicate AllDigits(s: string) {
    forall i | 0 <= i < |s| :: Digit(s[i])
  }

  /** The value of one decimal digit. */
  type Figure = d: nat | d < 10

  function DigitsOf(s: string): (digits: seq<Figure>)
    requires AllDigits(s)
    ensures |digits| == |s|
  {
    seq(|s|, i requires 0 <= i < |s| => s[i] as int - '0' as int)
  }

  /** The number that digits spell. */
  function DigitsValue(digits: seq<Figure>): nat {
    if digits == [] then 0 else 10 * DigitsValue(digits[..|digits| - 1]) + digits[|digits| - 1]
  }

  function NumeralValue(s: string): nat
    requires AllDigits(s)
  {
    DigitsValue(DigitsOf(s))
  }

  lemma {:induction false} DigitValue(d: nat)
    requires d < 10
    ensures Digit(DIGITS[d]) && DIGITS[d] as int - '0' as int == d
  {}

  lemma {:induction false} OneMoreDigit(s: string, d: nat)
    requires AllDigits(s) && d < 10
    ensures AllDigits(s + [DIGITS[d]]) && NumeralValue(s + [DIGITS[d]]) == 10 * NumeralValue(s) + d
  {
    DigitValue(d);
    var digits := DigitsOf(s + [DIGITS[d]]);
    assert digits[..|s|] == DigitsOf(s) && digits[|s|] == d;
  }

  /** A numeral spells its number, without leading zeros. */
  lemma {:induction false} NumeralDigits(n: nat)
    ensures AllDigits(Numeral(n)) && NumeralValue(Numeral(n)) == n
    ensures Numeral(n)[0] == '0' ==> n == 0
  {
    if n < 10 {
      OneMoreDigit("", n);
      assert "" + [DIGITS[n]] == Numeral(n);
      DigitValue(n);
    } else {
      NumeralDigits(n / 10);
      OneMoreDigit(Numeral(n / 10), n % 10);
    }
  }

  lemma {:induction false} NumeralInjective(a: nat, b: nat)
    requires Numeral(a) == Numeral(b)
    ensures a == b
  {
    NumeralDigits(a);
    NumeralDigits(b);
  }

  // ----- bytes of characters

  /** Bytes of one character (RFC 3629, section 3). */
  function Utf8(c: char): (bytes: seq<int>)
    ensures forall b | b in bytes :: 0 <= b < 256
    ensures |bytes| > 1 ==> forall b | b in bytes :: b >= 0x80
  {
    var n := c as int;
    if n <= 0x7F then [n]
    else if n <= 0x7FF then [0xC0 + n / 64, 0x80 + n % 64]
    else if n <= 0xFFFF then [0xE0 + n / 4096, 0x80 + n / 64 % 64, 0x80 + n % 64]
    else [0xF0 + n / 262144, 0x80 + n / 4096 % 64, 0x80 + n / 64 % 64, 0x80 + n % 64]
  }
}
