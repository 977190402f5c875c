/**
 JSON values, places inside them, JSON Pointer text (sections 3 and 4 of RFC 6901), and the length of
 their compact encoding.
 */
module Json {
  import opened Text

  newtype byte = b: int | 0 <= b < 256

  type Bytes = seq<byte>

  datatype Json =
    | Null
    | Boolean(b: bool)
    | Number(digits: string)
    | String(text: Bytes)
    | Array(items: seq<Json>)
    | Object(members: seq<Member>)

  datatype Member = Member(name: string, value: Json)

  /** One step from a value to a value inside it. */
  datatype Step = Key(name: string) | Item(index: nat)

  type Location = seq<Step>

  // ----- values at places

  /** The position of the first member with this name; their number if there is none. */
  function MemberIndex(members: seq<Member>, name: string): (i: nat)
    ensures i <= |members| && (i < |members| ==> members[i].name == name)
  {
    if members == [] || members[0].name == name then 0 else 1 + MemberIndex(members[1..], name)
  }

  function Child(v: Json, s: Step): Option<Json> {
    match s
    case Key(name) =>
      if v.Object? && MemberIndex(v.members, name) < |v.members| then Some(v.members[MemberIndex(v.members, name)].value)
      else None
    case Item(i) => if v.Array? && i < |v.items| then Some(v.items[i]) else None
  }

  function WithChild(v: Json, s: Step, child: Json): Json
    requires Child(v, s).Some?
  {
    match s
    case Key(name) => Object(v.members[MemberIndex(v.members, name) := Member(name, child)])
    case Item(i) => Array(v.items[i := child])
  }

  function Follow(v: Json, loc: Location): Option<Json> {
    if loc == [] then Some(v)
    else if Child(v, loc[0]).None? then None
    else Follow(Child(v, loc[0]).value, loc[1..])
  }

  function Put(v: Json, loc: Location, x: Json): Json
    requires Follow(v, loc).Some?
    decreases |loc|
  {
    if loc == [] then x else WithChild(v, loc[0], Put(Child(v, loc[0]).value, loc[1..], x))
  }

  /** Neither place is inside the other. */
  predicate Apart(a: Location, b: Location) {
    !(a <= b) && !(b <= a)
  }

  /** The same scalar, or containers with the same positions or names. */
  predicate SameShape(a: Json, b: Json) {
    match a
    case Array(items) => b.Array? && |b.items| == |items|
    case Object(members) =>
      b.Object? && |b.members| == |members| && forall i | 0 <= i < |members| :: b.members[i].name == members[i].name
    case _ => a == b
  }

  lemma {:induction false} SameNamesSameIndex(a: seq<Member>, b: seq<Member>, name: string)
    requires |a| == |b| && forall i | 0 <= i < |a| :: a[i].name == b[i].name
    ensures MemberIndex(a, name) == MemberIndex(b, name)
  {
    if a != [] && a[0].name != name { SameNamesSameIndex(a[1..], b[1..], name); }
  }

  lemma {:induction false} WithChildChanges(v: Json, s: Step, child: Json, other: Step)
    requires Child(v, s).Some?
    ensures SameShape(v, WithChild(v, s, child))
    ensures Child(WithChild(v, s, child), other) == if other == s then Some(child) else Child(v, other)
  {
    if s.Key? {
      SameNamesSameIndex(v.members, WithChild(v, s, child).members, s.name);
      if other.Key? { SameNamesSameIndex(v.members, WithChild(v, s, child).members, other.name); }
    }
  }

  lemma {:induction false} FollowPut(v: Json, loc: Location, x: Json)
    requires Follow(v, loc).Some?
    ensures Follow(Put(v, loc, x), loc) == Some(x)
    decreases |loc|
  {
    if loc != [] {
      var inner := Put(Child(v, loc[0]).value, loc[1..], x);
      WithChildChanges(v, loc[0], inner, loc[0]);
      FollowPut(Child(v, loc[0]).value, loc[1..], x);
    }
  }

  /** What a replacement does to a place that is not at or inside the replaced one. */
  lemma {:induction false} PutElsewhere(v: Json, loc: Location, x: Json, place: Location)
    requires Follow(v, loc).Some? && !(loc <= place)
    ensures var before, after := Follow(v, place), Follow(Put(v, loc, x), place);
      (before.Some? <==> after.Some?)
      && (before.Some? ==> SameShape(before.value, after.value))
      && (Apart(loc, place) ==> before == after)
    decreases |loc|
  {
    assert loc != [];
    var child := Child(v, loc[0]).value;
    var inner := Put(child, loc[1..], x);
    if place == [] {
      WithChildChanges(v, loc[0], inner, loc[0]);
    } else {
      WithChildChanges(v, loc[0], inner, place[0]);
      if place[0] == loc[0] {
        if loc[1..] <= place[1..] { assert loc == [loc[0]] + loc[1..] && place == [place[0]] + place[1..]; }
        if place[1..] <= loc[1..] { assert loc == [loc[0]] + loc[1..] && place == [place[0]] + place[1..]; }
        PutElsewhere(child, loc[1..], x, place[1..]);
      } else if Follow(v, place).Some? {
        SameShapeReflexive(Follow(v, place).value);
      }
    }
  }

  lemma {:induction false} SameShapeReflexive(v: Json)
    ensures SameShape(v, v)
  {}

  lemma {:induction false} SameShapeTransitive(a: Json, b: Json, c: Json)
    requires SameShape(a, b) && SameShape(b, c)
    ensures SameShape(a, c)
  {}

  // ----- JSON Pointer text

  /** Every occurrence of a character replaced by a text. */
  function ReplaceChar(s: string, c: char, with: string): string {
    if s == [] then [] else (if s[0] == c then with else [s[0]]) + ReplaceChar(s[1..], c, with)
  }

  /** Every occurrence of two adjacent characters replaced by one, from left to right. */
  function ReplacePair(s: string, a: char, b: char, with: char): string {
    if s == [] then []
    else if |s| >= 2 && s[0] == a && s[1] == b then [with] + ReplacePair(s[2..], a, b, with)
    else [s[0]] + ReplacePair(s[1..], a, b, with)
  }

  function Escape(token: string): string {
    ReplaceChar(ReplaceChar(token, '~', "~0"), '/', "~1")
  }

  function Unescape(text: string): string {
    ReplacePair(ReplacePair(text, '~', '1', '/'), '~', '0', '~')
  }

  /** Every tilde is followed by a zero. */
  predicate TildeZero(s: string) {
    s != [] ==> if s[0] == '~' then |s| >= 2 && s[1] == '0' && TildeZero(s[2..]) else TildeZero(s[1..])
  }

  lemma {:induction false} TildesEscaped(s: string)
    ensures TildeZero(ReplaceChar(s, '~', "~0"))
    ensures ReplacePair(ReplaceChar(s, '~', "~0"), '~', '0', '~') == s
  {
    if s != [] {
      TildesEscaped(s[1..]);
      var rest := ReplaceChar(s[1..], '~', "~0");
      if s[0] == '~' {
        assert ("~0" + rest)[2..] == rest;
      } else {
        assert ([s[0]] + rest)[1..] == rest;
      }
    }
  }

  lemma {:induction false} SlashesEscaped(t: string)
    requires TildeZero(t)
    ensures ReplacePair(ReplaceChar(t, '/', "~1"), '~', '1', '/') == t
    ensures '/' !in ReplaceChar(t, '/', "~1")
    decreases |t|
  {
    if t == [] {
    } else if t[0] == '~' {
      SlashesEscaped(t[2..]);
      var rest := ReplaceChar(t[2..], '/', "~1");
      assert t[1..][1..] == t[2..];
      assert ReplaceChar(t[1..], '/', "~1") == ['0'] + rest;
      assert ReplaceChar(t, '/', "~1") == ['~'] + (['0'] + rest);
      assert (['~'] + (['0'] + rest))[1..] == ['0'] + rest && (['0'] + rest)[1..] == rest;
      assert t == ['~'] + (['0'] + t[2..]);
    } else {
      SlashesEscaped(t[1..]);
      var rest := ReplaceChar(t[1..], '/', "~1");
      if t[0] == '/' {
        assert ("~1" + rest)[2..] == rest;
      } else {
        assert ([t[0]] + rest)[1..] == rest;
      }
    }
  }

  /** Unescaping undoes escaping, and escaped text holds no separator. */
  lemma {:induction false} UnescapeEscape(token: string)
    ensures Unescape(Escape(token)) == token && '/' !in Escape(token)
  {
    TildesEscaped(token);
    SlashesEscaped(ReplaceChar(token, '~', "~0"));
  }

  function TokenOf(s: Step): string {
    match s
    case Key(name) => name
    case Item(i) => Numeral(i)
  }

  function PointerText(loc: Location): string {
    if loc == [] then "" else "/" + Escape(TokenOf(loc[0])) + PointerText(loc[1..])
  }

  /** The text up to the next separator. */
  function UpToSlash(s: string): (n: nat)
    ensures n <= |s| && '/' !in s[..n] && (n < |s| ==> s[n] == '/')
  {
    if s == [] || s[0] == '/' then 0
    else
      var n := 1 + UpToSlash(s[1..]);
      assert s[..n] == [s[0]] + s[1..][..n - 1];
      n
  }

  /** The reference tokens of a pointer, from the first separator on. */
  function Tokens(pointer: string): seq<string> {
    if pointer == [] then []
    else
      var n := UpToSlash(pointer[1..]);
      [Unescape(pointer[1..n + 1])] + Tokens(pointer[n + 1..])
  }

  function TokensOf(loc: Location): seq<string> {
    seq(|loc|, i requires 0 <= i < |loc| => TokenOf(loc[i]))
  }

  lemma {:induction false} UpToSlashStops(a: string, rest: string)
    requires '/' !in a && (rest == [] || rest[0] == '/')
    ensures UpToSlash(a + rest) == |a|
  {
    if a == [] { assert a + rest == rest; }
    else {
      assert (a + rest)[1..] == a[1..] + rest;
      UpToSlashStops(a[1..], rest);
    }
  }

  /** One step more appends one separator and token. */
  lemma {:induction false} PointerAppend(loc: Location, s: Step)
    ensures PointerText(loc + [s]) == PointerText(loc) + ("/" + Escape(TokenOf(s)))
    decreases |loc|
  {
    var last := "/" + Escape(TokenOf(s));
    if loc == [] {
      assert loc + [s] == [s] && [s][1..] == [];
      assert PointerText([]) == "";
      assert PointerText([s]) == last + PointerText([]) == last;
    } else {
      var first := "/" + Escape(TokenOf(loc[0]));
      assert (loc + [s])[0] == loc[0] && (loc + [s])[1..] == loc[1..] + [s];
      PointerAppend(loc[1..], s);
      assert first + (PointerText(loc[1..]) + last) == (first + PointerText(loc[1..])) + last;
    }
  }

  lemma {:induction false} FirstToken(token: string, rest: string)
    requires rest == [] || rest[0] == '/'
    ensures var text := "/" + Escape(token) + rest;
      Tokens(text) == [token] + Tokens(rest)
  {
    var escaped := Escape(token);
    var text := "/" + escaped + rest;
    UnescapeEscape(token);
    assert text[1..] == escaped + rest;
    UpToSlashStops(escaped, rest);
    assert text[1..|escaped| + 1] == escaped;
    assert text[|escaped| + 1..] == rest;
  }

  lemma {:induction false} PointerStarts(loc: Location)
    ensures PointerText(loc) == [] || PointerText(loc)[0] == '/'
  {}

  /** A pointer's tokens are those of the place that it was built for. */
  lemma {:induction false} PointerRoundTrip(loc: Location)
    ensures Tokens(PointerText(loc)) == TokensOf(loc)
    decreases |loc|
  {
    if loc != [] {
      var rest := PointerText(loc[1..]);
      PointerStarts(loc[1..]);
      FirstToken(TokenOf(loc[0]), rest);
      PointerRoundTrip(loc[1..]);
      assert TokensOf(loc) == [TokenOf(loc[0])] + TokensOf(loc[1..]);
    }
  }

  // ----- lookup by tokens

  /** An array index: decimal digits without a leading zero. */
  function ParseIndex(token: string): Option<nat> {
    if token == [] || (token[0] == '0' && |token| != 1) || !AllDigits(token) then None
    else Some(NumeralValue(token))
  }

  lemma {:induction false} ParseIndexNumeral(n: nat)
    ensures ParseIndex(Numeral(n)) == Some(n)
  {
    NumeralDigits(n);
    if n < 10 { assert |Numeral(n)| == 1; }
  }

  /** The step that a token takes from this value. */
  function StepFor(v: Json, token: string): Option<Step> {
    match v
    case Object(_) => Some(Key(token))
    case Array(_) => if ParseIndex(token).Some? then Some(Item(ParseIndex(token).value)) else None
    case _ => None
  }

  /** The place that a pointer names in a value. */
  function Resolve(v: Json, tokens: seq<string>): Option<Location> {
    if tokens == [] then Some([])
    else
      var s := StepFor(v, tokens[0]);
      if s.None? || Child(v, s.value).None? then None
      else
        var rest := Resolve(Child(v, s.value).value, tokens[1..]);
        if rest.None? then None else Some([s.value] + rest.value)
  }

  lemma {:induction false} ResolvedExists(v: Json, tokens: seq<string>)
    ensures Resolve(v, tokens).Some? ==> Follow(v, Resolve(v, tokens).value).Some?
    decreases |tokens|
  {
    if tokens != [] && Resolve(v, tokens).Some? {
      var s := StepFor(v, tokens[0]).value;
      ResolvedExists(Child(v, s).value, tokens[1..]);
      assert Resolve(v, tokens).value[1..] == Resolve(Child(v, s).value, tokens[1..]).value;
    }
  }

  /** The pointer of a place resolves to that place wherever the place exists. */
  lemma {:induction false} PointerResolves(v: Json, loc: Location)
    requires Follow(v, loc).Some?
    ensures Resolve(v, Tokens(PointerText(loc))) == Some(loc)
  {
    PointerRoundTrip(loc);
    TokensResolve(v, loc);
  }

  lemma {:induction false} TokensResolve(v: Json, loc: Location)
    requires Follow(v, loc).Some?
    ensures Resolve(v, TokensOf(loc)) == Some(loc)
    decreases |loc|
  {
    if loc != [] {
      if loc[0].Item? { ParseIndexNumeral(loc[0].index); }
      assert StepFor(v, TokensOf(loc)[0]) == Some(loc[0]);
      TokensResolve(Child(v, loc[0]).value, loc[1..]);
      assert TokensOf(loc)[1..] == TokensOf(loc[1..]);
      assert loc == [loc[0]] + loc[1..];
    }
  }

  // ----- the compact encoding (section 7 of RFC 8259 for the escapes)

  function ByteCost(b: byte): nat {
    if b == 0x22 || b == 0x5C then 2
    else if b == 0x08 || b == 0x09 || b == 0x0A || b == 0x0C || b == 0x0D then 2
    else if b < 0x20 then 6
    else 1
  }

  function BytesCost(text: Bytes): nat {
    if text == [] then 0 else ByteCost(text[0]) + BytesCost(text[1..])
  }

  /** The encoded bytes of one character of a member name. */
  function CharCost(c: char): nat {
    var code := c as int;
    if code < 128 then ByteCost(code as byte) else if code < 0x800 then 2 else if code < 0x1_0000 then 3 else 4
  }

  function NameCost(name: string): nat {
    if name == [] then 0 else CharCost(name[0]) + NameCost(name[1..])
  }

  function EncodedLength(v: Json): nat {
    match v
    case Null => 4
    case Boolean(b) => if b then 4 else 5
    case Number(digits) => |digits|
    case String(text) => 2 + BytesCost(text)
    case Array(items) => 2 + ItemsLength(items)
    case Object(members) => 2 + MembersLength(members)
  }

  function ItemsLength(items: seq<Json>): nat {
    if items == [] then 0
    else EncodedLength(items[0]) + (if |items| > 1 then 1 else 0) + ItemsLength(items[1..])
  }

  function MembersLength(members: seq<Member>): nat {
    if members == [] then 0
    else
      2 + NameCost(members[0].name) + 1 + EncodedLength(members[0].value)
      + (if |members| > 1 then 1 else 0) + MembersLength(members[1..])
  }

  lemma {:induction false} ItemLength(items: seq<Json>, i: nat, x: Json)
    requires i < |items|
    ensures ItemsLength(items[i := x]) + EncodedLength(items[i]) == ItemsLength(items) + EncodedLength(x)
    decreases |items|
  {
    if i == 0 {
      assert items[0 := x][1..] == items[1..];
    } else {
      assert items[i := x][1..] == items[1..][i - 1 := x];
      ItemLength(items[1..], i - 1, x);
    }
  }

  lemma {:induction false} MemberLength(members: seq<Member>, i: nat, x: Json)
    requires i < |members|
    ensures MembersLength(members[i := Member(members[i].name, x)]) + EncodedLength(members[i].value)
         == MembersLength(members) + EncodedLength(x)
    decreases |members|
  {
    var changed := members[i := Member(members[i].name, x)];
    if i == 0 {
      assert changed[1..] == members[1..];
    } else {
      assert changed[1..] == members[1..][i - 1 := Member(members[i].name, x)];
      MemberLength(members[1..], i - 1, x);
    }
  }

  /** Replacing a value changes the encoding of the whole by the difference of the two. */
  lemma {:induction false} PutLength(v: Json, loc: Location, x: Json)
    requires Follow(v, loc).Some?
    ensures EncodedLength(Put(v, loc, x)) + EncodedLength(Follow(v, loc).value) == EncodedLength(v) + EncodedLength(x)
    decreases |loc|
  {
    if loc != [] {
      var child := Child(v, loc[0]).value;
      var inner := Put(child, loc[1..], x);
      PutLength(child, loc[1..], x);
      match loc[0]
      case Key(name) => MemberLength(v.members, MemberIndex(v.members, name), inner);
      case Item(i) => ItemLength(v.items, i, inner);
    }
  }

  lemma {:induction false} BytesCostConcat(a: Bytes, b: Bytes)
    ensures BytesCost(a + b) == BytesCost(a) + BytesCost(b)
    decreases |a|
  {
    if a == [] {
      assert a + b == b;
    } else {
      assert (a + b)[1..] == a[1..] + b;
      BytesCostConcat(a[1..], b);
    }
  }

  lemma {:induction false} BytesCostAtLeastLength(a: Bytes)
    ensures BytesCost(a) >= |a|
  {
    if a != [] { BytesCostAtLeastLength(a[1..]); }
  }
}
